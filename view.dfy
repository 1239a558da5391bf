/**
 The scrolling lyric list (`setOffset`): on every time update the list is moved so that
 the current line sits in the middle of its container (but never further than the end
 of the list allows), and the current line alone is marked active.
 */
module LyricView {
  import opened LyricParser
  import opened LyricSync

  /** How far the list must move up for the middle of line `i` to sit at the middle of
      the container: the top of line `i`, plus half a line, less half the container. */
  function CentringOffset(i: nat, liHeight: nat, containerHeight: nat): (r: real)
    ensures (i * liHeight) as real + liHeight as real / 2.0 - r == containerHeight as real / 2.0
  {
    (i * liHeight) as real - containerHeight as real / 2.0 + liHeight as real / 2.0
  }

  /** `MAX_OFFSET`: the list height less the container height, the move that brings the
      bottom of the list to the bottom of the container (negative for a short list). */
  function MaxOffset(listHeight: nat, containerHeight: nat): (r: int)
    ensures containerHeight + r == listHeight
    ensures r < 0 <==> listHeight < containerHeight
  {
    listHeight - containerHeight
  }

  /** The offset `setOffset` applies for line `i`: the centring offset, capped above at
      `maxOffset` and not bounded below. */
  function Offset(i: nat, liHeight: nat, containerHeight: nat, maxOffset: int): (r: real)
    ensures r <= maxOffset as real
    ensures r <= CentringOffset(i, liHeight, containerHeight)
    ensures r == maxOffset as real || r == CentringOffset(i, liHeight, containerHeight)
  {
    var centred := CentringOffset(i, liHeight, containerHeight);
    if centred > maxOffset as real then maxOffset as real else centred
  }

  /* ---------------------------------------------------------------------
     properties of the offset
     --------------------------------------------------------------------- */

  /** A later line never gives a smaller offset: the list only moves up as the song
      moves on. */
  lemma OffsetMonotone(i: nat, j: nat, liHeight: nat, containerHeight: nat, maxOffset: int)
    requires i <= j
    ensures Offset(i, liHeight, containerHeight, maxOffset) <= Offset(j, liHeight, containerHeight, maxOffset)
  {
    assert j * liHeight == i * liHeight + (j - i) * liHeight;
  }

  /** Below the cap, the middle of the current line is at the middle of the container. */
  lemma OffsetCentresLine(i: nat, liHeight: nat, containerHeight: nat, maxOffset: int)
    requires CentringOffset(i, liHeight, containerHeight) <= maxOffset as real
    ensures (i * liHeight) as real + liHeight as real / 2.0 - Offset(i, liHeight, containerHeight, maxOffset)
            == containerHeight as real / 2.0
  {
  }

  /** Below the cap, moving on by one line moves the list by exactly one line height. */
  lemma OffsetStep(i: nat, liHeight: nat, containerHeight: nat, maxOffset: int)
    requires CentringOffset(i + 1, liHeight, containerHeight) <= maxOffset as real
    ensures Offset(i + 1, liHeight, containerHeight, maxOffset)
            == Offset(i, liHeight, containerHeight, maxOffset) + liHeight as real
  {
    assert (i + 1) * liHeight == i * liHeight + liHeight;
  }

  /** There is no lower bound: when a line is shorter than the container, the offset
      computed for the first line is negative. */
  lemma FirstOffsetNegative(liHeight: nat, containerHeight: nat, maxOffset: int)
    requires liHeight < containerHeight
    ensures Offset(0, liHeight, containerHeight, maxOffset) < 0.0
  {
  }

  /* ---------------------------------------------------------------------
     the list on the page
     --------------------------------------------------------------------- */

  /** The lyric list: one item per parsed line, each with its `active` marker, and the
      offset by which the list is moved up inside its container. */
  class LyricList {
    const lines: seq<LyricLine>
    const liHeight: nat
    const containerHeight: nat
    const maxOffset: int
    var offset: real
    const active: array<bool>

    /** One item per line, and never more than one item active. */
    ghost predicate Valid()
      reads this, active
    {
      active.Length == |lines|
      && forall j, k :: 0 <= j < active.Length && 0 <= k < active.Length && active[j] && active[k] ==> j == k
    }

    /** The list as first laid out: no item active and not moved. The heights are the
        measured heights of one item, of the container and of the whole list. */
    constructor (lines: seq<LyricLine>, liHeight: nat, containerHeight: nat, listHeight: nat)
      ensures Valid() && fresh(active)
      ensures this.lines == lines && this.liHeight == liHeight && this.containerHeight == containerHeight
      ensures maxOffset == MaxOffset(listHeight, containerHeight)
      ensures offset == 0.0
      ensures forall k :: 0 <= k < active.Length ==> !active[k]
    {
      this.lines := lines;
      this.liHeight := liHeight;
      this.containerHeight := containerHeight;
      maxOffset := MaxOffset(listHeight, containerHeight);
      offset := 0.0;
      active := new bool[|lines|](_ => false);
    }

    /** `setOffset` at playback time `t`: when no line is current nothing changes;
        otherwise the list takes the offset of the current line, and that line alone
        is active. */
    method SetOffset(t: real)
      requires Valid()
      modifies this`offset, active
      ensures Valid()
      ensures FindLyricIndex(lines, t) == -1 ==> offset == old(offset) && active[..] == old(active[..])
      ensures FindLyricIndex(lines, t) != -1 ==>
                offset == Offset(FindLyricIndex(lines, t), liHeight, containerHeight, maxOffset)
      ensures FindLyricIndex(lines, t) != -1 ==>
                forall k :: 0 <= k < active.Length ==> active[k] == (k == FindLyricIndex(lines, t))
    {
      var current := FindLyricIndex(lines, t);
      if current == -1 {
        return;
      }
      var moved := (current * liHeight) as real - containerHeight as real / 2.0 + liHeight as real / 2.0;
      if moved > maxOffset as real {
        moved := maxOffset as real;
      }
      assert moved == Offset(current, liHeight, containerHeight, maxOffset);
      offset := moved;
      var k := 0;
      while k < active.Length
        invariant 0 <= k <= active.Length
        invariant offset == moved
        invariant forall j :: 0 <= j < k ==> !active[j]
      {
        active[k] := false;
        k := k + 1;
      }
      active[current] := true;
    }
  }
}
