/**
 The lyric transcript parser (`parseLyrics`): every line `[mm:ss.ff]text` of the
 transcript becomes one record holding the time in seconds and the trimmed text.
 */
module LyricParser {
  import opened JsString

  /** One parsed transcript line: its cue time in seconds and its text. */
  datatype LyricLine = LyricLine(time: real, lyric: string)

  /** The ways a line can fail to give a record. */
  datatype ParseError =
    | MissingCloseBracket(line: string)    // no `]`: the text piece is undefined and `trim` throws
    | SingleFieldTime(timeString: string)  // one time field: `reduce` returns the raw string
    | MalformedTime(timeString: string)    // a time field that is not a decimal numeral

  datatype Result<T> = Ok(value: T) | Err(error: ParseError)

  /* ---------------------------------------------------------------------
     the time value: a base-60 fold over the colon-separated fields
     --------------------------------------------------------------------- */

  /** `x` times 60 to the power `n`, as `n` repeated multiplications by 60. */
  function Scale60(x: real, n: nat): real
  {
    if n == 0 then x else 60.0 * Scale60(x, n - 1)
  }

  /** The `reduce` callback applied left to right: each step multiplies the
      running value by 60 and adds the next field. */
  function Horner(acc: real, vals: seq<real>): (r: real)
    ensures acc >= 0.0 && AllNonNegative(vals) ==> r >= 0.0
    decreases |vals|
  {
    if |vals| == 0 then acc else Horner(60.0 * acc + vals[0], vals[1..])
  }

  /** The positional value of base-60 digits: field `k` of `n` weighs 60^(n-1-k). */
  function Positional(vals: seq<real>): real
  {
    if |vals| == 0 then 0.0 else Scale60(vals[0], |vals| - 1) + Positional(vals[1..])
  }

  predicate AllNonNegative(vals: seq<real>)
  {
    forall k :: 0 <= k < |vals| ==> vals[k] >= 0.0
  }

  /** Scaling distributes over a sum and absorbs a leading factor of 60. */
  lemma {:induction false} Scale60Linear(a: real, b: real, n: nat)
    ensures Scale60(60.0 * a + b, n) == Scale60(a, n + 1) + Scale60(b, n)
  {
    if n > 0 {
      Scale60Linear(a, b, n - 1);
    }
  }

  /** The fold computes the positional value, with its seed in the most significant place. */
  lemma {:induction false} HornerIsPositional(acc: real, vals: seq<real>)
    ensures Horner(acc, vals) == Scale60(acc, |vals|) + Positional(vals)
    decreases |vals|
  {
    if |vals| > 0 {
      HornerIsPositional(60.0 * acc + vals[0], vals[1..]);
      Scale60Linear(acc, vals[0], |vals| - 1);
    }
  }

  /** Seeded with the first field, as `reduce` without an initial value is, the fold
      gives the positional value of all the fields. */
  lemma HornerFromFirst(vals: seq<real>)
    requires |vals| >= 1
    ensures Horner(vals[0], vals[1..]) == Positional(vals)
  {
    HornerIsPositional(vals[0], vals[1..]);
  }

  /** Scaling keeps the sign. */
  lemma {:induction false} Scale60NonNegative(x: real, n: nat)
    requires x >= 0.0
    ensures Scale60(x, n) >= 0.0
  {
    if n > 0 {
      Scale60NonNegative(x, n - 1);
    }
  }

  /** Non-negative fields give a non-negative time. */
  lemma {:induction false} PositionalNonNegative(vals: seq<real>)
    requires AllNonNegative(vals)
    ensures Positional(vals) >= 0.0
  {
    if |vals| > 0 {
      PositionalNonNegative(vals[1..]);
      Scale60NonNegative(vals[0], |vals| - 1);
    }
  }

  /** `parseFloat` applied to every field; `None` when some field is not a numeral. */
  function FieldValues(fields: seq<string>): (r: Option<seq<real>>)
    ensures r.Some? <==> forall k :: 0 <= k < |fields| ==> IsDecimal(fields[k])
    ensures r.Some? ==> |r.value| == |fields| && AllNonNegative(r.value)
    ensures r.Some? ==> forall k :: 0 <= k < |fields| ==> ParseDecimal(fields[k]) == Some(r.value[k])
  {
    if |fields| == 0 then Some([])
    else match (ParseDecimal(fields[0]), FieldValues(fields[1..]))
      case (Some(v), Some(vs)) =>
        var r := [v] + vs;
        assert forall k :: 1 <= k < |fields| ==> fields[k] == fields[1..][k - 1] && r[k] == vs[k - 1];
        Some(r)
      case (None, _) => None
      case (_, None) =>
        assert !IsDecimal(fields[1..][0]) ==> !IsDecimal(fields[1]);
        None
  }

  /** The time of a line from the text between its first character and its first `]`:
      the colon-separated fields read as base-60 digits, so `mm:ss.ff` is
      60*mm + ss.ff and `h:mm:ss` is (60*h + mm)*60 + ss. */
  function ParseTime(timeString: string): (r: Result<real>)
    ensures |Split(timeString, ':')| < 2 <==> r == Err(SingleFieldTime(timeString))
    ensures r.Ok? <==> |Split(timeString, ':')| >= 2 && FieldValues(Split(timeString, ':')).Some?
    ensures r.Ok? ==> r.value == Positional(FieldValues(Split(timeString, ':')).value)
    ensures r.Ok? ==> r.value >= 0.0
  {
    var fields := Split(timeString, ':');
    if |fields| < 2 then Err(SingleFieldTime(timeString))
    else match FieldValues(fields)
      case None => Err(MalformedTime(timeString))
      case Some(vals) =>
        HornerFromFirst(vals);
        PositionalNonNegative(vals);
        Ok(Horner(vals[0], vals[1..]))
  }

  /* ---------------------------------------------------------------------
     one line
     --------------------------------------------------------------------- */

  /** `s.substring(1)`: everything after the first code point (empty for the empty string). */
  function DropFirst(s: string): (r: string)
    ensures |s| > 0 ==> [s[0]] + r == s
    ensures |s| == 0 ==> r == []
  {
    if |s| == 0 then [] else s[1..]
  }

  /** The record made of the piece before the first `]` (the time, after its first
      character) and the piece after it (the text, trimmed). */
  function Record(head: string, body: string): (r: Result<LyricLine>)
    ensures r.Ok? ==> r.value.time >= 0.0 && IsTrimmed(r.value.lyric)
  {
    match ParseTime(DropFirst(head))
    case Err(e) => Err(e)
    case Ok(time) => Ok(LyricLine(time, Trim(body)))
  }

  /** The record of one transcript line: built from the pieces before and after its
      first `]`; a line without `]` has no text piece and gives no record. */
  function ParseLine(line: string): (r: Result<LyricLine>)
    ensures ']' !in line <==> r == Err(MissingCloseBracket(line))
    ensures r.Ok? ==> r.value.time >= 0.0 && IsTrimmed(r.value.lyric)
  {
    var parts := Split(line, ']');
    if |parts| < 2 then
      assert ']' in line ==> |parts| >= 2;
      Err(MissingCloseBracket(line))
    else
      Record(parts[0], parts[1])
  }

  /** The text is the piece between the first and the second `]`, trimmed:
      whatever follows a second `]` is discarded. */
  lemma LyricIsSecondPiece(head: string, body: string, rest: string)
    requires ']' !in head && ']' !in body && (rest == [] || rest[0] == ']')
    ensures ParseLine(head + "]" + body + rest) == Record(head, body)
    ensures ParseLine(head + "]" + body + rest).Ok? ==>
              ParseLine(head + "]" + body + rest).value.lyric == Trim(body)
  {
    SplitFirstTwo(head, ']', body, rest);
    assert head + "]" + body + rest == head + [']'] + body + rest;
  }

  /** Two base-60 digits. */
  lemma PositionalOfTwo(vals: seq<real>)
    requires |vals| == 2
    ensures Positional(vals) == 60.0 * vals[0] + vals[1]
  {
    assert Scale60(vals[0], 1) == 60.0 * vals[0];
    assert Positional(vals[1..]) == vals[1] by {
      assert Positional(vals[1..][1..]) == 0.0;
    }
  }

  /** Three base-60 digits. */
  lemma PositionalOfThree(vals: seq<real>)
    requires |vals| == 3
    ensures Positional(vals) == (60.0 * vals[0] + vals[1]) * 60.0 + vals[2]
  {
    assert Scale60(vals[0], 2) == 3600.0 * vals[0] by {
      assert Scale60(vals[0], 1) == 60.0 * vals[0];
    }
    PositionalOfTwo(vals[1..]);
  }

  /** `mm:ss` reads as 60*mm + ss. */
  lemma TimeOfTwoFields(mm: string, ss: string)
    requires IsDecimal(mm) && IsDecimal(ss)
    ensures ParseTime(mm + ":" + ss) == Ok(60.0 * ParseDecimal(mm).value + ParseDecimal(ss).value)
  {
    DecimalHasNoSeparator(mm);
    DecimalHasNoSeparator(ss);
    SplitAtFirst(mm, ':', ss);
    assert Split(mm + ":" + ss, ':') == [mm, ss];
    TimeOfTwoSplit(mm + ":" + ss, mm, ss);
  }

  /** A time string whose fields are the two numerals `mm` and `ss`. */
  lemma TimeOfTwoSplit(timeString: string, mm: string, ss: string)
    requires Split(timeString, ':') == [mm, ss]
    requires IsDecimal(mm) && IsDecimal(ss)
    ensures ParseTime(timeString) == Ok(60.0 * ParseDecimal(mm).value + ParseDecimal(ss).value)
  {
    var fields := [mm, ss];
    assert fields[0] == mm && fields[1] == ss;
    PositionalOfTwo(FieldValues(fields).value);
  }

  /** The three fields of `h:mm:ss`. */
  lemma FieldsOfThree(h: string, mm: string, ss: string)
    requires IsDecimal(h) && IsDecimal(mm) && IsDecimal(ss)
    ensures Split(h + ":" + mm + ":" + ss, ':') == [h, mm, ss]
  {
    DecimalHasNoSeparator(h);
    DecimalHasNoSeparator(mm);
    DecimalHasNoSeparator(ss);
    assert h + ":" + mm + ":" + ss == h + [':'] + (mm + ":" + ss);
    SplitAtFirst(h, ':', mm + ":" + ss);
    SplitAtFirst(mm, ':', ss);
  }

  /** `h:mm:ss` reads as (60*h + mm)*60 + ss. */
  lemma TimeOfThreeFields(h: string, mm: string, ss: string)
    requires IsDecimal(h) && IsDecimal(mm) && IsDecimal(ss)
    ensures ParseTime(h + ":" + mm + ":" + ss)
            == Ok((60.0 * ParseDecimal(h).value + ParseDecimal(mm).value) * 60.0 + ParseDecimal(ss).value)
  {
    FieldsOfThree(h, mm, ss);
    TimeOfThreeSplit(h + ":" + mm + ":" + ss, h, mm, ss);
  }

  /** A time string whose fields are the three numerals `h`, `mm` and `ss`. */
  lemma TimeOfThreeSplit(timeString: string, h: string, mm: string, ss: string)
    requires Split(timeString, ':') == [h, mm, ss]
    requires IsDecimal(h) && IsDecimal(mm) && IsDecimal(ss)
    ensures ParseTime(timeString)
            == Ok((60.0 * ParseDecimal(h).value + ParseDecimal(mm).value) * 60.0 + ParseDecimal(ss).value)
  {
    var fields := [h, mm, ss];
    assert fields[0] == h && fields[1] == mm && fields[2] == ss;
    PositionalOfThree(FieldValues(fields).value);
  }

  /** A line `[stamp]text` whose stamp reads as `time` gives `time` and the trimmed text. */
  lemma BracketedLine(stamp: string, text: string, time: real)
    requires ']' !in stamp && ']' !in text
    requires ParseTime(stamp) == Ok(time)
    ensures ParseLine("[" + stamp + "]" + text) == Ok(LyricLine(time, Trim(text)))
  {
    var head := "[" + stamp;
    assert "[" + stamp + "]" + text == head + "]" + text + [];
    LyricIsSecondPiece(head, text, []);
    assert DropFirst(head) == stamp;
  }

  /** A `[mm:ss]text` line gives the time 60*mm + ss and the trimmed text. */
  lemma MinutesSeconds(mm: string, ss: string, text: string)
    requires IsDecimal(mm) && IsDecimal(ss) && ']' !in text
    ensures ParseLine("[" + mm + ":" + ss + "]" + text)
            == Ok(LyricLine(60.0 * ParseDecimal(mm).value + ParseDecimal(ss).value, Trim(text)))
  {
    var stamp := mm + ":" + ss;
    assert "[" + mm + ":" + ss + "]" + text == "[" + stamp + "]" + text;
    DecimalHasNoSeparator(mm);
    DecimalHasNoSeparator(ss);
    TimeOfTwoFields(mm, ss);
    BracketedLine(stamp, text, 60.0 * ParseDecimal(mm).value + ParseDecimal(ss).value);
  }

  /** A `[h:mm:ss]text` line gives the time (60*h + mm)*60 + ss and the trimmed text. */
  lemma HoursMinutesSeconds(h: string, mm: string, ss: string, text: string)
    requires IsDecimal(h) && IsDecimal(mm) && IsDecimal(ss) && ']' !in text
    ensures ParseLine("[" + h + ":" + mm + ":" + ss + "]" + text)
            == Ok(LyricLine((60.0 * ParseDecimal(h).value + ParseDecimal(mm).value) * 60.0
                            + ParseDecimal(ss).value, Trim(text)))
  {
    var stamp := h + ":" + mm + ":" + ss;
    assert "[" + h + ":" + mm + ":" + ss + "]" + text == "[" + stamp + "]" + text;
    DecimalHasNoSeparator(h);
    DecimalHasNoSeparator(mm);
    DecimalHasNoSeparator(ss);
    TimeOfThreeFields(h, mm, ss);
    BracketedLine(stamp, text,
      (60.0 * ParseDecimal(h).value + ParseDecimal(mm).value) * 60.0 + ParseDecimal(ss).value);
  }

  /** A single time field does not give a time: `reduce` without a seed hands back the
      field itself, unconverted. */
  lemma SingleFieldIsNotATime(f: string, text: string)
    requires IsDecimal(f) && ']' !in text
    ensures ParseLine("[" + f + "]" + text) == Err(SingleFieldTime(f))
  {
    DecimalHasNoSeparator(f);
    assert "[" + f + "]" + text == ("[" + f) + "]" + text + [];
    LyricIsSecondPiece("[" + f, text, []);
    assert DropFirst("[" + f) == f;
  }

  /* ---------------------------------------------------------------------
     the whole transcript
     --------------------------------------------------------------------- */

  /** The lines of a transcript: the trimmed text split at line feeds. */
  function Lines(lyrics: string): (r: seq<string>)
    ensures |r| >= 1
    ensures forall k :: 0 <= k < |r| ==> '\n' !in r[k]
  {
    SplitPiecesLackSeparator(Trim(lyrics), '\n');
    Split(Trim(lyrics), '\n')
  }

  /** There is at least one line; joining the lines with line feeds gives back the
      trimmed transcript, and no line holds a line feed. */
  lemma LinesRoundTrip(lyrics: string)
    ensures |Lines(lyrics)| >= 1
    ensures Join(Lines(lyrics), '\n') == Trim(lyrics)
    ensures forall k :: 0 <= k < |Lines(lyrics)| ==> '\n' !in Lines(lyrics)[k]
  {
    JoinSplit(Trim(lyrics), '\n');
  }

  /** The outcome of a run of line results: all the records in order, or the
      error of the first line that failed. */
  function Collect(results: seq<Result<LyricLine>>): (r: Result<seq<LyricLine>>)
    ensures r.Ok? <==> forall k :: 0 <= k < |results| ==> results[k].Ok?
    ensures r.Ok? ==> |r.value| == |results|
    ensures r.Ok? ==> forall k :: 0 <= k < |results| ==> results[k] == Ok(r.value[k])
    ensures r.Err? ==> exists k :: 0 <= k < |results| && results[k] == Err(r.error)
                                   && forall j :: 0 <= j < k ==> results[j].Ok?
  {
    if |results| == 0 then Ok([])
    else match results[0]
      case Err(e) => Err(e)
      case Ok(first) =>
        match Collect(results[1..])
        case Err(e) =>
          ghost var k :| 0 <= k < |results| - 1 && results[1..][k] == Err(e)
                         && forall j :: 0 <= j < k ==> results[1..][j].Ok?;
          assert results[k + 1] == Err(e);
          assert forall j :: 1 <= j < k + 1 ==> results[j] == results[1..][j - 1];
          Err(e)
        case Ok(others) =>
          var recs := [first] + others;
          assert forall k :: 1 <= k < |results| ==> results[k] == results[1..][k - 1] && recs[k] == others[k - 1];
          Ok(recs)
  }

  /** Each line parsed in order; the first failing line decides the error. */
  function ParseLines(lines: seq<string>): (r: Result<seq<LyricLine>>)
    ensures r.Ok? <==> forall k :: 0 <= k < |lines| ==> ParseLine(lines[k]).Ok?
    ensures r.Ok? ==> |r.value| == |lines|
    ensures r.Ok? ==> forall k :: 0 <= k < |lines| ==> ParseLine(lines[k]) == Ok(r.value[k])
    ensures r.Err? ==> exists k :: 0 <= k < |lines| && ParseLine(lines[k]) == Err(r.error)
                                   && forall j :: 0 <= j < k ==> ParseLine(lines[j]).Ok?
  {
    var results := seq(|lines|, k requires 0 <= k < |lines| => ParseLine(lines[k]));
    assert forall k :: 0 <= k < |lines| ==> results[k] == ParseLine(lines[k]);
    var outcome := Collect(results);
    if outcome.Err? then
      ghost var k :| 0 <= k < |results| && results[k] == Err(outcome.error)
                     && forall j :: 0 <= j < k ==> results[j].Ok?;
      assert ParseLine(lines[k]) == Err(outcome.error);
      outcome
    else outcome
  }

  /** `parseLyrics`: one record per line of the trimmed transcript, in the same order,
      each the record of its line; or the error of the first line that has none. */
  function ParseLyrics(lyrics: string): (r: Result<seq<LyricLine>>)
    ensures r.Ok? <==> forall k :: 0 <= k < |Lines(lyrics)| ==> ParseLine(Lines(lyrics)[k]).Ok?
    ensures r.Ok? ==> |r.value| == |Lines(lyrics)|
    ensures r.Ok? ==> forall k :: 0 <= k < |r.value| ==> ParseLine(Lines(lyrics)[k]) == Ok(r.value[k])
    ensures r.Ok? ==> forall k :: 0 <= k < |r.value| ==> r.value[k].time >= 0.0 && IsTrimmed(r.value[k].lyric)
    ensures r.Err? ==> exists k :: 0 <= k < |Lines(lyrics)| && ParseLine(Lines(lyrics)[k]) == Err(r.error)
                                   && forall j :: 0 <= j < k ==> ParseLine(Lines(lyrics)[j]).Ok?
  {
    ParseLines(Lines(lyrics))
  }

  /** A transcript of two lines with no whitespace at its ends splits into those lines. */
  lemma TwoLines(first: string, second: string)
    requires '\n' !in first && '\n' !in second && IsTrimmed(first + "\n" + second)
    ensures Lines(first + "\n" + second) == [first, second]
  {
    TrimmedIsFixed(first + "\n" + second);
    SplitAtFirst(first, '\n', second);
  }

  /** A run of successful results collects to exactly their records. */
  lemma CollectAllOk(results: seq<Result<LyricLine>>, recs: seq<LyricLine>)
    requires |results| == |recs|
    requires forall k :: 0 <= k < |recs| ==> results[k] == Ok(recs[k])
    ensures Collect(results) == Ok(recs)
  {
    var r := Collect(results);
    assert r.Ok?;
    assert r.value == recs by {
      forall k | 0 <= k < |recs| ensures r.value[k] == recs[k] {
        assert results[k] == Ok(r.value[k]);
      }
    }
  }

  /** Lines that each give their record give exactly those records, in order. */
  lemma ParseLinesOfRecords(lines: seq<string>, recs: seq<LyricLine>)
    requires |lines| == |recs|
    requires forall k :: 0 <= k < |recs| ==> ParseLine(lines[k]) == Ok(recs[k])
    ensures ParseLines(lines) == Ok(recs)
  {
    var results := seq(|lines|, k requires 0 <= k < |lines| => ParseLine(lines[k]));
    CollectAllOk(results, recs);
  }

  /** The records of a transcript are determined line by line: if every line gives its
      record, the transcript gives exactly those records in order. */
  lemma ParseLyricsOfRecords(lyrics: string, recs: seq<LyricLine>)
    requires |Lines(lyrics)| == |recs|
    requires forall k :: 0 <= k < |recs| ==> ParseLine(Lines(lyrics)[k]) == Ok(recs[k])
    ensures ParseLyrics(lyrics) == Ok(recs)
  {
    ParseLinesOfRecords(Lines(lyrics), recs);
  }

  /** A line that parses in front of lines that parse: its record in front of theirs. */
  lemma ParseLinesCons(line: string, rest: seq<string>, rec: LyricLine, recs: seq<LyricLine>)
    requires ParseLine(line) == Ok(rec) && ParseLines(rest) == Ok(recs)
    ensures ParseLines([line] + rest) == Ok([rec] + recs)
  {
    var lines := [line] + rest;
    var all := [rec] + recs;
    forall k | 0 <= k < |all| ensures ParseLine(lines[k]) == Ok(all[k]) {
      if k > 0 {
        assert lines[k] == rest[k - 1] && all[k] == recs[k - 1];
      }
    }
    ParseLinesOfRecords(lines, all);
  }

  /** A single line that parses gives its one record. */
  lemma ParseLinesOne(line: string, rec: LyricLine)
    requires ParseLine(line) == Ok(rec)
    ensures ParseLines([line]) == Ok([rec])
  {
    ParseLinesOfRecords([line], [rec]);
  }

  /** Two lines that both parse give their two records, in order. */
  lemma TwoLinesOfRecords(first: string, second: string, r1: LyricLine, r2: LyricLine)
    requires ParseLine(first) == Ok(r1) && ParseLine(second) == Ok(r2)
    ensures ParseLines([first, second]) == Ok([r1, r2])
  {
    ParseLinesOne(second, r2);
    ParseLinesCons(first, [second], r1, [r2]);
    assert [first] + [second] == [first, second] && [r1] + [r2] == [r1, r2];
  }

  /** A transcript of two lines that both parse gives their two records, in order. */
  lemma TwoLineRecords(lyrics: string, first: string, second: string, r1: LyricLine, r2: LyricLine)
    requires Lines(lyrics) == [first, second]
    requires ParseLine(first) == Ok(r1) && ParseLine(second) == Ok(r2)
    ensures ParseLyrics(lyrics) == Ok([r1, r2])
  {
    TwoLinesOfRecords(first, second, r1, r2);
  }

  /** Two lines joined by a line feed, the first starting and the second ending
      with a non-whitespace character, need no trimming. */
  lemma JoinedTrimmed(first: string, second: string)
    requires |first| > 0 && !IsWhitespace(first[0])
    requires |second| > 0 && !IsWhitespace(second[|second| - 1])
    ensures IsTrimmed(first + "\n" + second)
  {
    var s := first + "\n" + second;
    assert s[0] == first[0];
    assert s[|s| - 1] == second[|second| - 1];
  }

  /** A cue line `[mm:ss]text` starts with `[`, ends with the last character of its
      text (or with `]`), and holds no line feed when its text holds none. */
  lemma CueShape(mm: string, ss: string, text: string)
    requires IsDecimal(mm) && IsDecimal(ss) && '\n' !in text && IsTrimmed(text)
    ensures var cue := "[" + mm + ":" + ss + "]" + text;
            '\n' !in cue && cue[0] == '[' && !IsWhitespace(cue[|cue| - 1])
  {
    DecimalHasNoSeparator(mm);
    DecimalHasNoSeparator(ss);
    var cue := "[" + mm + ":" + ss + "]" + text;
    if |text| == 0 {
      assert cue[|cue| - 1] == ']';
    } else {
      assert cue[|cue| - 1] == text[|text| - 1];
    }
  }

  /** Two `[mm:ss]text` cues on two lines give two records, in order: for the
      transcript `[00:01.50]a` / `[00:03.00]b` these are (1.5, "a") and (3.0, "b"). */
  lemma TwoCues(mm1: string, ss1: string, text1: string, mm2: string, ss2: string, text2: string)
    requires IsDecimal(mm1) && IsDecimal(ss1) && IsDecimal(mm2) && IsDecimal(ss2)
    requires ']' !in text1 && '\n' !in text1 && IsTrimmed(text1)
    requires ']' !in text2 && '\n' !in text2 && IsTrimmed(text2)
    ensures ParseLyrics(("[" + mm1 + ":" + ss1 + "]" + text1) + "\n" + ("[" + mm2 + ":" + ss2 + "]" + text2))
            == Ok([LyricLine(60.0 * ParseDecimal(mm1).value + ParseDecimal(ss1).value, text1),
                   LyricLine(60.0 * ParseDecimal(mm2).value + ParseDecimal(ss2).value, text2)])
  {
    var first := "[" + mm1 + ":" + ss1 + "]" + text1;
    var second := "[" + mm2 + ":" + ss2 + "]" + text2;
    CueShape(mm1, ss1, text1);
    CueShape(mm2, ss2, text2);
    JoinedTrimmed(first, second);
    MinutesSeconds(mm1, ss1, text1);
    MinutesSeconds(mm2, ss2, text2);
    TrimmedIsFixed(text1);
    TrimmedIsFixed(text2);
    TwoLines(first, second);
    TwoLineRecords(first + "\n" + second, first, second, ParseLine(first).value, ParseLine(second).value);
  }

  /** The numerals of the example transcript: `00` is 0, `01.50` is 1.5, `03.00` is 3. */
  lemma ExampleNumerals(zero: char, one: char, three: char, five: char)
    requires zero == '0' && one == '1' && three == '3' && five == '5'
    ensures ParseDecimal([zero, zero]) == Some(0.0)
    ensures ParseDecimal([zero, one, '.', five, zero]) == Some(1.5)
    ensures ParseDecimal([zero, three, '.', zero, zero]) == Some(3.0)
  {
    TwoDigitNumeral(zero, zero);
    TwoPointTwoNumeral(zero, one, five, zero);
    TwoPointTwoNumeral(zero, three, zero, zero);
  }

  /** The transcript `[00:01.50]a` / `[00:03.00]b` gives the records (1.5, "a") and
      (3.0, "b"), where `zero`, `one`, `three`, `five`, `a` and `b` stand for the
      characters `0`, `1`, `3`, `5`, `a` and `b`. */
  lemma TranscriptExample(zero: char, one: char, three: char, five: char, a: char, b: char)
    requires zero == '0' && one == '1' && three == '3' && five == '5' && a == 'a' && b == 'b'
    ensures var mm, ss1, ss2 := [zero, zero], [zero, one, '.', five, zero], [zero, three, '.', zero, zero];
            ParseLyrics(("[" + mm + ":" + ss1 + "]" + [a]) + "\n" + ("[" + mm + ":" + ss2 + "]" + [b]))
            == Ok([LyricLine(1.5, [a]), LyricLine(3.0, [b])])
  {
    var mm, ss1, ss2 := [zero, zero], [zero, one, '.', five, zero], [zero, three, '.', zero, zero];
    ExampleNumerals(zero, one, three, five);
    assert 60.0 * ParseDecimal(mm).value + ParseDecimal(ss1).value == 1.5;
    assert 60.0 * ParseDecimal(mm).value + ParseDecimal(ss2).value == 3.0;
    assert ']' !in [a] && '\n' !in [a] && IsTrimmed([a]);
    assert ']' !in [b] && '\n' !in [b] && IsTrimmed([b]);
    TwoCues(mm, ss1, [a], mm, ss2, [b]);
  }
}
