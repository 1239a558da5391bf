# lyrics-scroll: a verified model of the lyric parser, lookup and scroller

lyrics-scroll is a small web page. It shows a song's lyrics and scrolls them in step
with the audio. Its one script, `assets/js/index.js`, holds three pieces of logic,
and this project models each of them in Dafny:

- **The parser** (`parseLyrics`). A transcript of `[mm:ss.ff]text` lines becomes a
  sequence of records. Each record holds a cue time in seconds and a trimmed text.
  The model is made of functions, in `parser.dfy`. The JavaScript string operations
  it relies on are modelled in `jsstring.dfy`: `split` with a one-character
  separator, `trim`, and `parseFloat` on a decimal numeral.
- **The lookup** (`findLyricIndex`). At playback time `t` it finds the first line
  whose cue has been reached and whose successor's cue has not. It gives -1 when no
  line qualifies. This is a function in `sync.dfy`, with `t` as a parameter.
- **The scroller** (`setOffset`). It moves the list so the current line is centred in
  its container, capped at the end of the list. It then clears every item's `active`
  marker and sets the current item's marker. This is the class `LyricList` in
  `view.dfy`:
  - `offset` is a field.
  - The markers are an `array<bool>`.
  - The measured heights are constructor parameters.
  - A clearing loop with invariants does the update.

The modules, in dependency order, are `JsString`, `LyricParser`, `LyricSync` and
`LyricView`.

The model follows the code in two places where a reader might expect something else:

- The code bounds the offset only from above, by `MAX_OFFSET`. There is no lower bound.
  For early lines the computed offset is negative; see `FirstOffsetNegative`.
- With non-decreasing cue times, the lookup at `time[i]` gives `i` only when the next
  cue is strictly later. A line that shares its cue time with the next line is never
  current, so a run of equal cue times resolves to its last line; see
  `SharedCueSkipped` and `AtOwnCue`.

## Model

| member | source | states |
|---|---|---|
| JsString.Split | assets/js/index.js:16 | `split` always yields at least one piece, even for the empty string |
| JsString.SplitAtFirst | assets/js/index.js:18 | the first piece is exactly the text before the first separator; the rest is the split of what follows it |
| JsString.SplitFirstTwo | assets/js/index.js:18 | with a separator after `a` and another (or the end) after `b`, pieces 0 and 1 are `a` and `b`, whatever follows |
| JsString.SplitPiecesLackSeparator | assets/js/index.js:16 | no piece of a split contains the separator |
| JsString.JoinSplit | assets/js/index.js:16 | joining the pieces with the separator gives back the original string (nothing is lost) |
| JsString.SplitJoin | assets/js/index.js:16 | splitting a join of separator-free pieces gives back the pieces (the other round trip) |
| JsString.IsWhitespace | assets/js/index.js:23 | the characters `trim` removes include space, tab, line feed and carriage return, and never a bracket, colon, point or digit |
| JsString.TrimStart | assets/js/index.js:23 | the result is a suffix; the dropped prefix is all whitespace; the result does not start with whitespace |
| JsString.TrimEnd | assets/js/index.js:23 | the result is a prefix; the dropped suffix is all whitespace; the result does not end with whitespace |
| JsString.Trim | assets/js/index.js:23 | the result has no whitespace at either end and is no longer than the input |
| JsString.TrimPadded | assets/js/index.js:23 | a string without whitespace at its ends, padded with any whitespace on both sides, trims back to itself |
| JsString.TrimIdempotent | assets/js/index.js:16 | trimming twice is the same as trimming once |
| JsString.TrimmedIsFixed | assets/js/index.js:16 | a string without whitespace at its ends is its own trim |
| JsString.DigitsValue | assets/js/index.js:21 | the value of `n` decimal digits is below 10^n |
| JsString.FractionValue | assets/js/index.js:21 | the digits after a decimal point are worth at least 0 and less than 1 |
| JsString.ParseDecimal | assets/js/index.js:21 | `parseFloat` gives a value exactly for well-formed decimal numerals, and that value is non-negative |
| JsString.PointValue | assets/js/index.js:21 | the value of `whole.frac` lies in [whole, whole + 1) |
| JsString.ParseDecimalPoint | assets/js/index.js:21 | a numeral with a point reads as its whole digits plus its fraction digits |
| JsString.ParseDecimalWhole | assets/js/index.js:21 | a numeral without a point reads as its digits |
| JsString.TwoDigitValue | assets/js/index.js:21 | two digits read as ten times the first plus the second |
| JsString.TwoDigitNumeral | assets/js/index.js:21 | a two-digit numeral such as `00` reads as its two-digit value |
| JsString.TwoFractionDigits | assets/js/index.js:21 | two fraction digits read as tenths plus hundredths |
| JsString.TwoPointTwoNumeral | assets/js/index.js:21 | a numeral such as `01.50` reads as its whole part plus tenths and hundredths |
| JsString.DecimalHasNoSeparator | assets/js/index.js:18-21 | a decimal numeral contains no `:`, `]` or line feed, so it never disturbs the splits |
| LyricParser.Horner | assets/js/index.js:20-22 | the `reduce` fold `60*acc + field` never gives a negative time from a non-negative seed and non-negative fields |
| LyricParser.HornerIsPositional | assets/js/index.js:20-22 | the fold `60*acc + field`, started from any accumulator, equals the accumulator scaled by 60 per field plus the positional base-60 value of the fields |
| LyricParser.HornerFromFirst | assets/js/index.js:20-22 | `reduce` without a seed (the first field as accumulator) gives the positional base-60 value of all the fields |
| LyricParser.Scale60NonNegative | assets/js/index.js:20-22 | scaling by powers of 60 keeps a value non-negative |
| LyricParser.PositionalNonNegative | assets/js/index.js:20-22 | the base-60 value of non-negative fields is non-negative |
| LyricParser.FieldValues | assets/js/index.js:21 | every field is read, in order; the result exists exactly when every field is a decimal numeral, and each value is that field's reading |
| LyricParser.ParseTime | assets/js/index.js:19-22 | a single field is an error; otherwise the time exists exactly when every field reads as a numeral; it is then the base-60 value of the fields and non-negative |
| LyricParser.DropFirst | assets/js/index.js:19 | `substring(1)` drops exactly the first code point, and gives the empty string for the empty string |
| LyricParser.Record | assets/js/index.js:19-24 | a record built from the two pieces has a non-negative time and a trimmed text |
| LyricParser.ParseLine | assets/js/index.js:18-24 | a line fails with the missing-bracket error exactly when it has no `]`; a record from a line has a non-negative time and a trimmed text |
| LyricParser.LyricIsSecondPiece | assets/js/index.js:18-23 | the record depends only on the pieces before the first `]` and between the first and second `]`; the text is the trimmed second piece, and anything after a second `]` is discarded |
| LyricParser.PositionalOfTwo | assets/js/index.js:20-22 | two base-60 digits are worth 60*first + second |
| LyricParser.PositionalOfThree | assets/js/index.js:20-22 | three base-60 digits are worth (60*first + second)*60 + third |
| LyricParser.TimeOfTwoFields | assets/js/index.js:20-22 | `mm:ss` reads as 60*mm + ss |
| LyricParser.TimeOfTwoSplit | assets/js/index.js:20-22 | a time string that splits into two numerals reads as 60*mm + ss |
| LyricParser.FieldsOfThree | assets/js/index.js:20 | `h:mm:ss` splits into its three numerals |
| LyricParser.TimeOfThreeFields | assets/js/index.js:20-22 | `h:mm:ss` reads as (60*h + mm)*60 + ss |
| LyricParser.TimeOfThreeSplit | assets/js/index.js:20-22 | a time string that splits into three numerals reads as (60*h + mm)*60 + ss |
| LyricParser.BracketedLine | assets/js/index.js:18-24 | a line `[stamp]text` gives the stamp's time and the trimmed text |
| LyricParser.MinutesSeconds | assets/js/index.js:18-24 | a line `[mm:ss]text` gives the record (60*mm + ss, trimmed text) |
| LyricParser.HoursMinutesSeconds | assets/js/index.js:18-24 | a line `[h:mm:ss]text` gives the record ((60*h + mm)*60 + ss, trimmed text) |
| LyricParser.SingleFieldIsNotATime | assets/js/index.js:20-22 | a stamp with a single field gives no numeric time |
| LyricParser.Lines | assets/js/index.js:16 | `trim().split("\n")` gives at least one line, and no line holds a line feed |
| LyricParser.LinesRoundTrip | assets/js/index.js:16 | the trimmed transcript splits into at least one line, the lines joined with line feeds give it back, and no line holds a line feed |
| LyricParser.Collect | assets/js/index.js:17 | mapping stops at the first failing line: the outcome is all the records in order exactly when every line succeeds, and otherwise the error of the first failing line |
| LyricParser.ParseLines | assets/js/index.js:17-25 | one record per line, in order, each the record of its line; otherwise the error of the first line that has none |
| LyricParser.ParseLyrics | assets/js/index.js:15-26 | the transcript parses exactly when each line of its trimmed text does; there is then one record per line, in order, each with a non-negative time and a trimmed text; otherwise the error is that of the first line that fails, every earlier line having parsed |
| LyricParser.TwoLines | assets/js/index.js:16 | two lines joined by a line feed, with no whitespace at the ends, are read back as those two lines |
| LyricParser.CollectAllOk | assets/js/index.js:17 | when every line succeeds, the outcome is exactly the records, in order |
| LyricParser.ParseLinesOfRecords | assets/js/index.js:17-25 | lines that each give a record give exactly those records, in order |
| LyricParser.ParseLyricsOfRecords | assets/js/index.js:15-26 | a transcript whose lines each give a record parses to exactly those records, in order |
| LyricParser.ParseLinesCons | assets/js/index.js:17 | a line in front of other lines puts its record in front of theirs |
| LyricParser.ParseLinesOne | assets/js/index.js:17 | a single line gives its single record |
| LyricParser.TwoLinesOfRecords | assets/js/index.js:17 | two lines give their two records, in order |
| LyricParser.TwoLineRecords | assets/js/index.js:15-26 | a transcript of two lines that both parse gives their two records, in order |
| LyricParser.TwoCues | assets/js/index.js:15-26 | the two-line transcript `[mm1:ss1]text1` / `[mm2:ss2]text2` gives (60*mm1 + ss1, text1) and (60*mm2 + ss2, text2) |
| LyricParser.ExampleNumerals | assets/js/index.js:21 | `00`, `01.50` and `03.00` read as 0, 1.5 and 3 |
| LyricParser.TranscriptExample | assets/js/index.js:15-26 | the transcript `[00:01.50]a` / `[00:03.00]b` gives (1.5, "a") and (3.0, "b") |
| LyricSync.IsCurrent | assets/js/index.js:55-56 | the `findIndex` predicate: a current line that is not the last has a cue strictly before the next line's cue |
| LyricSync.FindFrom | assets/js/index.js:54-57 | the search from `k` gives -1 or an index in [k, n); that index is current and no earlier index from `k` is; -1 means no index from `k` is current |
| LyricSync.FindLyricIndex | assets/js/index.js:52-59 | the result is -1 or in [0, n); it is the smallest index with time[i] <= t and (i = n-1 or t < time[i+1]); it is -1 exactly when no index qualifies |
| LyricSync.CurrentAtOrAfter | assets/js/index.js:54-57 | once some line's cue is reached, a current line exists at or after it, whatever the order of the cue times |
| LyricSync.NoneOnlyBeforeFirst | assets/js/index.js:54-58 | a result of -1 means the list is empty or the first cue lies ahead, for any order of the cue times |
| LyricSync.NoneIffBeforeFirst | assets/js/index.js:54-58 | with non-decreasing times, the result is -1 exactly when the list is empty or t < time[0] |
| LyricSync.CurrentIsUnique | assets/js/index.js:56 | with non-decreasing times, at most one line is current at any time |
| LyricSync.FoundIffCurrent | assets/js/index.js:54-57 | with non-decreasing times, the result is `i` exactly when time[i] <= t and (i is last or t < time[i+1]) |
| LyricSync.LastAfterFinalCue | assets/js/index.js:56 | with non-decreasing times, t >= time[n-1] gives n-1 |
| LyricSync.AtOwnCue | assets/js/index.js:56 | with non-decreasing times, t = time[i] gives `i` when `i` is last or time[i] < time[i+1] |
| LyricSync.SharedCueSkipped | assets/js/index.js:56 | a line whose cue time equals the next line's is never the result |
| LyricSync.FoundIsMonotone | assets/js/index.js:54-57 | with non-decreasing times, once a line is current some line stays current, and the index never decreases as t increases |
| LyricView.CentringOffset | assets/js/index.js:69 | the uncapped offset puts the middle of line `i` at the middle of the container |
| LyricView.MaxOffset | assets/js/index.js:61 | `MAX_OFFSET` plus the container height is the list height; it is negative exactly when the list is shorter than its container |
| LyricView.Offset | assets/js/index.js:69-70 | the offset is min(i*liHeight - containerHeight/2 + liHeight/2, MAX_OFFSET): never above the cap, never above the centring offset, and equal to one of them |
| LyricView.OffsetMonotone | assets/js/index.js:69-70 | the offset never decreases as the line index grows |
| LyricView.OffsetCentresLine | assets/js/index.js:69 | below the cap, the middle of line `i` sits at the middle of the container |
| LyricView.OffsetStep | assets/js/index.js:69-70 | below the cap, moving on one line moves the list by exactly one line height |
| LyricView.FirstOffsetNegative | assets/js/index.js:69-70 | there is no lower bound: when a line is shorter than the container, the first line's offset is negative |
| LyricView.LyricList.constructor | assets/js/index.js:61 | the list starts unmoved with no item active and one marker per line; MAX_OFFSET is the list height less the container height |
| LyricView.LyricList.SetOffset | assets/js/index.js:66-76 | when the lookup gives -1 the offset and every marker keep their values; otherwise the offset is `Offset` of the current index and exactly the current item is active; the one-marker-per-line, at-most-one-active invariant is kept |

## Left out

- The DOM is not modelled: the `doms` lookups and `createLyricElements` (assets/js/index.js:5-9, 33-43). `LyricList` holds one `active` marker per parsed line in place of the `li` elements.
- Layout measurement is not modelled: the `clientHeight` reads at assets/js/index.js:45-46 and 61. The item, container and list heights are constructor parameters, as non-negative integers.
- The `timeupdate` event wiring (assets/js/index.js:78) and the read of `currentTime` (assets/js/index.js:53) are not modelled. Playback time is a parameter of `FindLyricIndex` and `SetOffset`.
- The text of the `translateY(-${offset}px)` style (assets/js/index.js:71) is not modelled. The `offset` field holds the number written into it. A negative offset (for early lines, or when `MAX_OFFSET` is negative because the list is shorter than its container) makes that text `translateY(--…px)`, which is not a valid CSS length, so the page keeps its previous transform; the model records only the computed number.
- IEEE floating point is not modelled. Heights are non-negative integers, and times and offsets are exact reals, so rounding is not captured.
- JsString.ParseDecimal: reads only unsigned decimal numerals (digits with an optional point). `parseFloat` also accepts leading whitespace, signs, exponents and a numeral prefix followed by junk. Any such field is a `MalformedTime` error here. A field that JavaScript would read as `NaN` is also a `MalformedTime` error here, instead of producing a `NaN` time.
- LyricParser.ParseTime: a stamp with one field is a `SingleFieldTime` error. In JavaScript, `reduce` without a seed hands back the raw string as the time.
- LyricParser.ParseTime: the first field must also be a decimal numeral. Coercing it with unary `+` (for example, the empty string reads as 0) is not modelled.
- LyricParser.ParseLine: a line without `]` is a `MissingCloseBracket` error. In JavaScript, `parts[1].trim()` throws on such a line and the whole parse aborts. `ParseLyrics` reports one error for the transcript in the same way.
- LyricParser.DropFirst: strings are modelled as sequences of Unicode scalar values, not of UTF-16 code units. `substring(1)` drops one code unit, so on a line whose first character lies outside the Basic Multilingual Plane (an emoji, say) JavaScript leaves a lone low surrogate in front of the time and reads the time as `NaN`; here the whole character is dropped and the line reads as a time. `split` and `trim` are unaffected, because `]`, `:`, the line feed and every white-space code point lie in the Basic Multilingual Plane.
- The character classes used by `trim` are ECMAScript's white-space and line-terminator code points. No Unicode normalisation is modelled.
