/**
 The string operations of the JavaScript runtime that the lyric parser relies on:
 `String.prototype.split` with a one-character separator, `String.prototype.trim`,
 and the reading of a well-formed decimal numeral by `parseFloat`.
 */
module JsString {

  datatype Option<+T> = None | Some(value: T)

  /* ---------------------------------------------------------------------
     split
     --------------------------------------------------------------------- */

  /** The position of the first occurrence of `c` in `s`. */
  function FirstIndex(s: string, c: char): (i: nat)
    requires c in s
    ensures i < |s| && s[i] == c && c !in s[..i]
  {
    if s[0] == c then 0
    else
      assert c in s[1..] by { var k :| 0 <= k < |s| && s[k] == c; assert s[1..][k - 1] == c; }
      var j := FirstIndex(s[1..], c);
      assert s[..j + 1] == [s[0]] + s[1..][..j];
      j + 1
  }

  /** `s.split(sep)`: the pieces of `s` between occurrences of `sep`, in order.
      As in JavaScript, there is always at least one piece and empty pieces are kept. */
  function Split(s: string, sep: char): (parts: seq<string>)
    ensures |parts| >= 1
    decreases |s|
  {
    if sep !in s then [s]
    else
      var i := FirstIndex(s, sep);
      [s[..i]] + Split(s[i + 1..], sep)
  }

  /** `parts.join(sep)`, the inverse of `Split`. */
  function Join(parts: seq<string>, sep: char): string
  {
    if |parts| == 0 then ""
    else if |parts| == 1 then parts[0]
    else parts[0] + [sep] + Join(parts[1..], sep)
  }

  /** The first separator is found right after a separator-free prefix. */
  lemma FirstIndexAfter(a: string, sep: char, b: string)
    requires sep !in a
    ensures FirstIndex(a + [sep] + b, sep) == |a|
  {
    var s := a + [sep] + b;
    assert s[..|a|] == a;
    assert s[|a|] == sep;
  }

  /** Splitting at the first separator: the first piece is what precedes it. */
  lemma SplitAtFirst(a: string, sep: char, b: string)
    requires sep !in a
    ensures Split(a + [sep] + b, sep) == [a] + Split(b, sep)
  {
    var s := a + [sep] + b;
    FirstIndexAfter(a, sep, b);
    assert s[..|a|] == a;
    assert s[|a| + 1..] == b;
  }

  /** The first piece of a string that has a separator (or the end) right after `b`. */
  lemma SplitHead(b: string, sep: char, rest: string)
    requires sep !in b && (rest == [] || rest[0] == sep)
    ensures Split(b + rest, sep)[0] == b
  {
    if rest == [] {
      assert b + rest == b;
    } else {
      assert b + rest == b + [sep] + rest[1..];
      SplitAtFirst(b, sep, rest[1..]);
    }
  }

  /** The first two pieces of a string that has a separator after `a` and
      another one (or the end) after `b`. */
  lemma SplitFirstTwo(a: string, sep: char, b: string, rest: string)
    requires sep !in a && sep !in b && (rest == [] || rest[0] == sep)
    ensures |Split(a + [sep] + b + rest, sep)| >= 2
    ensures Split(a + [sep] + b + rest, sep)[0] == a
    ensures Split(a + [sep] + b + rest, sep)[1] == b
  {
    var t := b + rest;
    assert a + [sep] + b + rest == a + [sep] + t;
    SplitAtFirst(a, sep, t);
    SplitHead(b, sep, rest);
  }

  /** No piece of a split holds the separator. */
  lemma {:induction false} SplitPiecesLackSeparator(s: string, sep: char)
    ensures forall k :: 0 <= k < |Split(s, sep)| ==> sep !in Split(s, sep)[k]
    decreases |s|
  {
    if sep in s {
      var i := FirstIndex(s, sep);
      SplitPiecesLackSeparator(s[i + 1..], sep);
      var tail := Split(s[i + 1..], sep);
      assert forall k :: 1 <= k < |Split(s, sep)| ==> Split(s, sep)[k] == tail[k - 1];
    }
  }

  /** Joining the pieces of a split gives back the original string. */
  lemma {:induction false} JoinSplit(s: string, sep: char)
    ensures Join(Split(s, sep), sep) == s
    decreases |s|
  {
    if sep in s {
      var i := FirstIndex(s, sep);
      var rest := s[i + 1..];
      var tail := Split(rest, sep);
      JoinSplit(rest, sep);
      var parts := [s[..i]] + tail;
      assert Split(s, sep) == parts;
      assert parts[1..] == tail;
      assert Join(parts, sep) == s[..i] + [sep] + Join(tail, sep);
      assert s == s[..i] + [sep] + rest;
    }
  }

  /** Splitting a join of separator-free pieces gives back the pieces. */
  lemma {:induction false} SplitJoin(parts: seq<string>, sep: char)
    requires |parts| >= 1
    requires forall k :: 0 <= k < |parts| ==> sep !in parts[k]
    ensures Split(Join(parts, sep), sep) == parts
  {
    if |parts| > 1 {
      SplitJoin(parts[1..], sep);
      SplitAtFirst(parts[0], sep, Join(parts[1..], sep));
      assert [parts[0]] + parts[1..] == parts;
    }
  }

  /* ---------------------------------------------------------------------
     trim
     --------------------------------------------------------------------- */

  /** The characters `trim` removes: ECMAScript's WhiteSpace (tab, vertical tab,
      form feed, the byte-order mark and every space separator) and LineTerminator. */
  predicate IsWhitespace(c: char)
    ensures c == ' ' || c == '\t' || c == '\n' || c == '\r' ==> IsWhitespace(c)
    ensures IsWhitespace(c) ==> c != '[' && c != ']' && c != ':' && c != '.' && !('0' <= c <= '9')
  {
    c == '\t' || c == '\n' || c == '\U{B}' || c == '\U{C}' || c == '\r' || c == ' '
    || c == '\U{A0}' || c == '\U{1680}' || ('\U{2000}' <= c <= '\U{200A}')
    || c == '\U{2028}' || c == '\U{2029}' || c == '\U{202F}' || c == '\U{205F}'
    || c == '\U{3000}' || c == '\U{FEFF}'
  }

  predicate AllWhitespace(s: string)
  {
    forall k :: 0 <= k < |s| ==> IsWhitespace(s[k])
  }

  /** A string with no whitespace at either end. */
  predicate IsTrimmed(s: string)
  {
    |s| == 0 || (!IsWhitespace(s[0]) && !IsWhitespace(s[|s| - 1]))
  }

  /** `s` without its leading whitespace: a suffix of `s` that drops only whitespace. */
  function TrimStart(s: string): (r: string)
    ensures |r| <= |s| && r == s[|s| - |r|..]
    ensures AllWhitespace(s[..|s| - |r|])
    ensures |r| == 0 || !IsWhitespace(r[0])
  {
    if |s| > 0 && IsWhitespace(s[0]) then
      var r := TrimStart(s[1..]);
      assert s[..|s| - |r|] == [s[0]] + s[1..][..|s| - 1 - |r|];
      r
    else s
  }

  /** `s` without its trailing whitespace: a prefix of `s` that drops only whitespace. */
  function TrimEnd(s: string): (r: string)
    ensures |r| <= |s| && r == s[..|r|]
    ensures AllWhitespace(s[|r|..])
    ensures |r| == 0 || !IsWhitespace(r[|r| - 1])
  {
    if |s| > 0 && IsWhitespace(s[|s| - 1]) then
      var r := TrimEnd(s[..|s| - 1]);
      assert s[|r|..] == s[..|s| - 1][|r|..] + [s[|s| - 1]];
      r
    else s
  }

  /** `s.trim()`: the longest middle part of `s` that has no whitespace at either end,
      obtained by dropping only whitespace on both sides. */
  function Trim(s: string): (r: string)
    ensures IsTrimmed(r)
    ensures |r| <= |s|
  {
    TrimEnd(TrimStart(s))
  }

  /** Dropping a whitespace prefix in front of a string that does not start with whitespace. */
  lemma {:induction false} TrimStartPadded(pre: string, y: string)
    requires AllWhitespace(pre) && (|y| == 0 || !IsWhitespace(y[0]))
    ensures TrimStart(pre + y) == y
  {
    if |pre| == 0 {
      assert pre + y == y;
    } else {
      assert (pre + y)[1..] == pre[1..] + y;
      TrimStartPadded(pre[1..], y);
    }
  }

  /** Dropping a whitespace suffix behind a string that does not end with whitespace. */
  lemma {:induction false} TrimEndPadded(y: string, post: string)
    requires AllWhitespace(post) && (|y| == 0 || !IsWhitespace(y[|y| - 1]))
    ensures TrimEnd(y + post) == y
    decreases |post|
  {
    if |post| == 0 {
      assert y + post == y;
    } else {
      assert (y + post)[..|y + post| - 1] == y + post[..|post| - 1];
      TrimEndPadded(y, post[..|post| - 1]);
    }
  }

  /** Trimming is determined by the content: padding a trimmed string with
      whitespace on both sides and trimming it gives the string back. */
  lemma TrimPadded(pre: string, x: string, post: string)
    requires AllWhitespace(pre) && AllWhitespace(post) && IsTrimmed(x)
    ensures Trim(pre + x + post) == x
  {
    if |x| == 0 {
      assert pre + x + post == (pre + post) + [];
      TrimStartPadded(pre + post, []);
      TrimEndPadded([], []);
    } else {
      assert pre + x + post == pre + (x + post);
      TrimStartPadded(pre, x + post);
      TrimEndPadded(x, post);
    }
  }

  /** Trimming twice is the same as trimming once. */
  lemma TrimIdempotent(s: string)
    ensures Trim(Trim(s)) == Trim(s)
  {
    TrimmedIsFixed(Trim(s));
  }

  /** A string with no whitespace at either end is its own trim. */
  lemma TrimmedIsFixed(s: string)
    requires IsTrimmed(s)
    ensures Trim(s) == s
  {
    TrimPadded([], s, []);
    assert [] + s + [] == s;
  }

  /* ---------------------------------------------------------------------
     decimal numerals, as read by parseFloat
     --------------------------------------------------------------------- */

  predicate IsDigit(c: char) { '0' <= c <= '9' }

  predicate AllDigits(s: string)
  {
    forall k :: 0 <= k < |s| ==> IsDigit(s[k])
  }

  function Pow10(n: nat): (p: nat)
    ensures p >= 1
  {
    if n == 0 then 1 else 10 * Pow10(n - 1)
  }

  /** The value of a string of decimal digits, most significant first. */
  function DigitsValue(ds: string): (v: nat)
    requires AllDigits(ds)
    ensures v < Pow10(|ds|)
  {
    if |ds| == 0 then 0
    else
      var init := ds[..|ds| - 1];
      10 * DigitsValue(init) + (ds[|ds| - 1] as int - '0' as int)
  }

  /** A well-formed decimal numeral: digits, optionally followed by a point and
      further digits, with at least one digit in all (`"01"`, `"01.50"`, `".5"`, `"3."`). */
  predicate IsDecimal(s: string)
  {
    if '.' !in s then |s| > 0 && AllDigits(s)
    else
      var p := FirstIndex(s, '.');
      |s| > 1 && AllDigits(s[..p]) && AllDigits(s[p + 1..])
  }

  /** `parseFloat(s)` for a well-formed decimal numeral; `None` for anything else. */
  function ParseDecimal(s: string): (r: Option<real>)
    ensures r.Some? <==> IsDecimal(s)
    ensures r.Some? ==> r.value >= 0.0
  {
    if !IsDecimal(s) then None
    else if '.' !in s then Some(DigitsValue(s) as real)
    else
      var p := FirstIndex(s, '.');
      Some(PointValue(s[..p], s[p + 1..]))
  }

  /** The value of the digits after a decimal point, read from the right: `.d e…` is
      (d + `.e…`) / 10, so it always lies in [0, 1). */
  function FractionValue(ds: string): (v: real)
    requires AllDigits(ds)
    ensures 0.0 <= v < 1.0
  {
    if |ds| == 0 then 0.0
    else ((ds[0] as int - '0' as int) as real + FractionValue(ds[1..])) / 10.0
  }

  /** The value of the numeral `whole.frac`: the fraction digits add less than one
      to the whole part. */
  function PointValue(whole: string, frac: string): (v: real)
    requires AllDigits(whole) && AllDigits(frac)
    ensures DigitsValue(whole) as real <= v < DigitsValue(whole) as real + 1.0
  {
    DigitsValue(whole) as real + FractionValue(frac)
  }

  /** A string of digits has no decimal point. */
  lemma DigitsHaveNoPoint(ds: string)
    requires AllDigits(ds)
    ensures '.' !in ds
  {
    forall k | 0 <= k < |ds| ensures ds[k] != '.' {
      assert IsDigit(ds[k]);
    }
  }

  /** A numeral with a point reads as its whole part plus its fraction digits
      scaled by the number of fraction digits. */
  lemma ParseDecimalPoint(whole: string, frac: string)
    requires AllDigits(whole) && AllDigits(frac) && |whole| + |frac| >= 1
    ensures ParseDecimal(whole + "." + frac) == Some(PointValue(whole, frac))
  {
    var s := whole + "." + frac;
    DigitsHaveNoPoint(whole);
    FirstIndexAfter(whole, '.', frac);
    assert s[..|whole|] == whole && s[|whole| + 1..] == frac;
    assert ParseDecimal(s) == Some(PointValue(whole, frac));
  }

  /** A numeral without a point reads as its digits. */
  lemma ParseDecimalWhole(whole: string)
    requires AllDigits(whole) && |whole| >= 1
    ensures ParseDecimal(whole) == Some(DigitsValue(whole) as real)
  {
    DigitsHaveNoPoint(whole);
  }

  /** Two digits read as a number: ten times the first plus the second. */
  lemma TwoDigitValue(a: char, b: char)
    requires IsDigit(a) && IsDigit(b)
    ensures DigitsValue([a, b]) == 10 * (a as int - '0' as int) + (b as int - '0' as int)
  {
    assert [a, b][..1] == [a];
    assert [a][..0] == [];
  }

  /** A two-digit numeral without a point, such as `00`. */
  lemma TwoDigitNumeral(a: char, b: char)
    requires IsDigit(a) && IsDigit(b)
    ensures ParseDecimal([a, b]) == Some((10 * (a as int - '0' as int) + (b as int - '0' as int)) as real)
  {
    TwoDigitValue(a, b);
    ParseDecimalWhole([a, b]);
  }

  /** Two digits after a point: tenths plus hundredths. */
  lemma TwoFractionDigits(c: char, d: char)
    requires IsDigit(c) && IsDigit(d)
    ensures FractionValue([c, d])
            == ((c as int - '0' as int) as real + (d as int - '0' as int) as real / 10.0) / 10.0
  {
    assert [c, d][1..] == [d];
    assert [d][1..] == [];
    assert FractionValue([d]) == (d as int - '0' as int) as real / 10.0;
  }

  /** A numeral with two digits on each side of the point, such as `01.50`. */
  lemma TwoPointTwoNumeral(a: char, b: char, c: char, d: char)
    requires IsDigit(a) && IsDigit(b) && IsDigit(c) && IsDigit(d)
    ensures ParseDecimal([a, b, '.', c, d])
            == Some((10 * (a as int - '0' as int) + (b as int - '0' as int)) as real
                    + ((c as int - '0' as int) as real + (d as int - '0' as int) as real / 10.0) / 10.0)
  {
    TwoDigitValue(a, b);
    TwoFractionDigits(c, d);
    assert [a, b, '.', c, d] == [a, b] + "." + [c, d];
    ParseDecimalPoint([a, b], [c, d]);
  }

  /** A decimal numeral contains neither of the parser's separators. */
  lemma DecimalHasNoSeparator(s: string)
    requires IsDecimal(s)
    ensures ':' !in s && ']' !in s && '\n' !in s
  {
    if '.' in s {
      var p := FirstIndex(s, '.');
      assert s == s[..p] + [s[p]] + s[p + 1..];
      forall k | 0 <= k < |s| ensures s[k] == '.' || IsDigit(s[k]) {
        if k < p { assert s[k] == s[..p][k]; }
        else if k > p { assert s[k] == s[p + 1..][k - p - 1]; }
      }
    }
  }
}
