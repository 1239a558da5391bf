/**
 Finding the line being sung (`findLyricIndex`): the first line whose cue time has
 been reached while the next line's cue time has not; the last line has no next cue.
 */
module LyricSync {
  import opened LyricParser

  /** Line `i` is current at playback time `t`: its cue has been reached and the
      next line's cue (if there is a next line) has not. */
  predicate IsCurrent(lines: seq<LyricLine>, t: real, i: int)
    requires 0 <= i < |lines|
    ensures IsCurrent(lines, t, i) && i < |lines| - 1 ==> lines[i].time < lines[i + 1].time
  {
    lines[i].time <= t && (i == |lines| - 1 || t < lines[i + 1].time)
  }

  /** The cue times never decrease from one line to the next. */
  predicate Sorted(lines: seq<LyricLine>)
  {
    forall i, j :: 0 <= i < j < |lines| ==> lines[i].time <= lines[j].time
  }

  /** The first current line at or after `k`, or -1 when there is none. */
  function FindFrom(lines: seq<LyricLine>, t: real, k: nat): (r: int)
    requires k <= |lines|
    ensures r == -1 || k <= r < |lines|
    ensures r != -1 ==> IsCurrent(lines, t, r)
    ensures r != -1 ==> forall j :: k <= j < r ==> !IsCurrent(lines, t, j)
    ensures r == -1 ==> forall j :: k <= j < |lines| ==> !IsCurrent(lines, t, j)
    decreases |lines| - k
  {
    if k == |lines| then -1
    else if IsCurrent(lines, t, k) then k
    else FindFrom(lines, t, k + 1)
  }

  /** `findLyricIndex` at playback time `t`: the smallest index of a current line,
      or -1 exactly when no line is current. */
  function FindLyricIndex(lines: seq<LyricLine>, t: real): (r: int)
    ensures -1 <= r < |lines|
    ensures r != -1 ==> IsCurrent(lines, t, r) && forall j :: 0 <= j < r ==> !IsCurrent(lines, t, j)
    ensures r == -1 <==> forall j :: 0 <= j < |lines| ==> !IsCurrent(lines, t, j)
  {
    FindFrom(lines, t, 0)
  }

  /* ---------------------------------------------------------------------
     properties of the lookup
     --------------------------------------------------------------------- */

  /** Once the first cue has been reached some line is current, whatever the order of
      the cue times: walk forward while the next cue has been reached too. */
  lemma {:induction false} CurrentAtOrAfter(lines: seq<LyricLine>, t: real, k: nat)
    requires k < |lines| && lines[k].time <= t
    ensures exists i :: k <= i < |lines| && IsCurrent(lines, t, i)
    decreases |lines| - k
  {
    if k == |lines| - 1 || t < lines[k + 1].time {
      assert IsCurrent(lines, t, k);
    } else {
      CurrentAtOrAfter(lines, t, k + 1);
    }
  }

  /** A result of -1 means the list is empty or the first cue lies ahead; this holds
      for any order of the cue times. */
  lemma NoneOnlyBeforeFirst(lines: seq<LyricLine>, t: real)
    ensures FindLyricIndex(lines, t) == -1 ==> |lines| == 0 || t < lines[0].time
  {
    if |lines| > 0 && lines[0].time <= t {
      CurrentAtOrAfter(lines, t, 0);
    }
  }

  /** With cue times in order, the lookup gives -1 exactly when the list is empty or
      playback has not reached the first cue. */
  lemma NoneIffBeforeFirst(lines: seq<LyricLine>, t: real)
    requires Sorted(lines)
    ensures FindLyricIndex(lines, t) == -1 <==> |lines| == 0 || t < lines[0].time
  {
    NoneOnlyBeforeFirst(lines, t);
    if |lines| > 0 && t < lines[0].time {
      forall j | 0 <= j < |lines| ensures !IsCurrent(lines, t, j) {
        assert lines[0].time <= lines[j].time;
      }
    }
  }

  /** With cue times in order, at most one line is current at any time. */
  lemma CurrentIsUnique(lines: seq<LyricLine>, t: real, i: int, j: int)
    requires Sorted(lines)
    requires 0 <= i < |lines| && 0 <= j < |lines|
    requires IsCurrent(lines, t, i) && IsCurrent(lines, t, j)
    ensures i == j
  {
  }

  /** With cue times in order, the lookup gives `i` exactly when line `i` is current:
      playback lies in `[time[i], time[i+1])`, or at or past `time[i]` for the last line. */
  lemma FoundIffCurrent(lines: seq<LyricLine>, t: real, i: int)
    requires Sorted(lines) && 0 <= i < |lines|
    ensures FindLyricIndex(lines, t) == i <==> IsCurrent(lines, t, i)
  {
    var r := FindLyricIndex(lines, t);
    if IsCurrent(lines, t, i) {
      assert r != -1;
      CurrentIsUnique(lines, t, r, i);
    }
  }

  /** With cue times in order, at or after the last cue the last line is current. */
  lemma LastAfterFinalCue(lines: seq<LyricLine>, t: real)
    requires Sorted(lines) && |lines| > 0 && lines[|lines| - 1].time <= t
    ensures FindLyricIndex(lines, t) == |lines| - 1
  {
    FoundIffCurrent(lines, t, |lines| - 1);
  }

  /** With cue times in order, at the cue of line `i` the lookup gives `i`, provided the
      next line starts strictly later (or there is no next line). */
  lemma AtOwnCue(lines: seq<LyricLine>, i: int)
    requires Sorted(lines) && 0 <= i < |lines|
    requires i == |lines| - 1 || lines[i].time < lines[i + 1].time
    ensures FindLyricIndex(lines, lines[i].time) == i
  {
    FoundIffCurrent(lines, lines[i].time, i);
  }

  /** A line whose cue time equals the next line's is never current: at a shared cue the
      lookup skips to a later line of the run. */
  lemma SharedCueSkipped(lines: seq<LyricLine>, t: real, i: int)
    requires 0 <= i < |lines| - 1 && lines[i].time == lines[i + 1].time
    ensures FindLyricIndex(lines, t) != i
  {
  }

  /** With cue times in order, the current line never moves backwards as playback
      moves forwards, and once some line is current one stays current. */
  lemma FoundIsMonotone(lines: seq<LyricLine>, t1: real, t2: real)
    requires Sorted(lines) && t1 <= t2
    requires FindLyricIndex(lines, t1) != -1
    ensures FindLyricIndex(lines, t2) != -1
    ensures FindLyricIndex(lines, t1) <= FindLyricIndex(lines, t2)
  {
    NoneIffBeforeFirst(lines, t1);
    NoneIffBeforeFirst(lines, t2);
  }
}
