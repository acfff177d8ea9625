/** The system heap of src/mem.c: rt_system_heap_init, rt_malloc, rt_realloc, rt_free and plug_holes.

    The heap is one array of 4-byte words, which is the alignment, and all sizes and offsets are in
    words. The header of a block is three of these words: used, next and prev.
  */
module SmallMem {

  /** SIZEOF_STRUCT_MEM and MIN_SIZE_ALIGNED. */
  const HDR := 3
  const MIN := 3

  datatype Block = Block(at: nat, used: bool)

  // ---------------------------------------------------------------- tilings

  predicate Ascending(bs: seq<Block>) {
    forall i, j :: 0 <= i < j < |bs| ==> bs[i].at + HDR <= bs[j].at
  }

  /** The blocks tile the heap, up to heap_end. */
  predicate Tiled(bs: seq<Block>, memSize: nat) {
    |bs| >= 2 && bs[0].at == 0 && bs[|bs| - 1] == Block(memSize + HDR, true) && Ascending(bs)
  }

  predicate Fine(bs: seq<Block>, i: nat)
    requires i + 1 < |bs|
  {
    bs[i].used || bs[i + 1].used
  }

  /** No two free blocks touch, but perhaps the one at position `but` and its neighbours. */
  predicate Apart(bs: seq<Block>, but: int) {
    forall i {:trigger Fine(bs, i)} :: 0 <= i < |bs| - 1 && i != but && i + 1 != but ==> Fine(bs, i)
  }

  const NOBODY := -2

  function Mark(bs: seq<Block>, i: nat, used: bool): seq<Block>
    requires i < |bs|
  {
    bs[i := Block(bs[i].at, used)]
  }

  /** A free block at z behind the block at position i. */
  function Split(bs: seq<Block>, i: nat, z: nat): (r: seq<Block>)
    requires i < |bs|
    ensures |r| == |bs| + 1
    ensures forall j {:trigger r[j]} :: 0 <= j < |r| ==>
              r[j] == if j <= i then bs[j] else if j == i + 1 then Block(z, false) else bs[j - 1]
  {
    bs[..i + 1] + [Block(z, false)] + bs[i + 1..]
  }

  /** The block at position i takes over the next one. */
  function Join(bs: seq<Block>, i: nat): (r: seq<Block>)
    requires i + 1 < |bs|
    ensures |r| == |bs| - 1
    ensures forall j {:trigger r[j]} :: 0 <= j < |r| ==> r[j] == if j <= i then bs[j] else bs[j + 1]
  {
    bs[..i + 1] + bs[i + 2..]
  }

  /** The user data size of the block at position i. */
  function Room(bs: seq<Block>, i: nat): int
    requires i + 1 < |bs|
  {
    bs[i + 1].at - bs[i].at - HDR
  }

  // ---------------------------------------------------------------- what the operations do to them

  /** rt_malloc with the block at position i. */
  function Allocated(bs: seq<Block>, i: nat, size: nat): seq<Block>
    requires i + 1 < |bs|
  {
    if Room(bs, i) >= size + HDR + MIN then Mark(Split(bs, i, bs[i].at + HDR + size), i, true) else Mark(bs, i, true)
  }

  /** The first half of plug_holes. */
  function PluggedForward(bs: seq<Block>, i: nat): (r: seq<Block>)
    requires i + 1 < |bs|
    ensures |r| > i
  {
    if !bs[i + 1].used then Join(bs, i) else bs
  }

  function PluggedBackward(bs: seq<Block>, i: nat): seq<Block>
    requires i < |bs|
  {
    if i > 0 && !bs[i - 1].used then Join(bs, i - 1) else bs
  }

  function Plugged(bs: seq<Block>, i: nat): seq<Block>
    requires i + 1 < |bs|
  {
    PluggedBackward(PluggedForward(bs, i), i)
  }

  function Freed(bs: seq<Block>, i: nat): seq<Block>
    requires i + 1 < |bs|
  {
    Plugged(Mark(bs, i, false), i)
  }

  /** The part of rt_realloc that splits. */
  function Shrunk(bs: seq<Block>, i: nat, size: nat): seq<Block>
    requires i + 1 < |bs|
  {
    Plugged(Split(bs, i, bs[i].at + HDR + size), i + 1)
  }

  // ---------------------------------------------------------------- what is in use

  /** The words in used blocks, headers included. */
  function UsedSpan(bs: seq<Block>): int {
    if |bs| <= 1 then 0 else (if bs[0].used then bs[1].at - bs[0].at else 0) + UsedSpan(bs[1..])
  }

  /** The used blocks but heap_end, and their user data sizes. */
  function Live(bs: seq<Block>): map<nat, int> {
    if |bs| <= 1 then map[]
    else if bs[0].used then Live(bs[1..])[bs[0].at := bs[1].at - bs[0].at - HDR]
    else Live(bs[1..])
  }

  lemma AscendingRest(bs: seq<Block>)
    requires Ascending(bs) && |bs| > 0
    ensures Ascending(bs[1..]) && forall j {:trigger bs[1..][j]} :: 0 <= j < |bs| - 1 ==> bs[0].at < bs[1..][j].at
  {
  }

  lemma {:induction false} LiveIndex(bs: seq<Block>, p: nat) returns (i: nat)
    requires p in Live(bs)
    ensures i + 1 < |bs| && bs[i].at == p && bs[i].used
    ensures Ascending(bs) ==> Live(bs)[p] == Room(bs, i)
  {
    if bs[0].used && p == bs[0].at {
      i := 0;
    } else {
      i := LiveIndex(bs[1..], p);
      i := i + 1;
      if Ascending(bs) { AscendingRest(bs); }
    }
  }

  lemma {:induction false} NotLive(bs: seq<Block>, p: nat)
    requires forall j :: 0 <= j < |bs| ==> bs[j].at != p
    ensures p !in Live(bs)
  {
    if p in Live(bs) { var i := LiveIndex(bs, p); }
  }

  lemma {:induction false} LiveAt(bs: seq<Block>, i: nat)
    requires Ascending(bs) && i + 1 < |bs|
    ensures if bs[i].used then bs[i].at in Live(bs) && Live(bs)[bs[i].at] == Room(bs, i) else bs[i].at !in Live(bs)
  {
    hide Ascending;
    AscendingRest(bs);
    var rest := bs[1..];
    if i > 0 {
      LiveAt(rest, i - 1);
      assert rest[i - 1] == bs[i];
    } else {
      NotLive(rest, bs[0].at);
    }
  }

  lemma {:induction false} LiveMark(bs: seq<Block>, i: nat, used: bool)
    requires Ascending(bs) && i + 1 < |bs|
    ensures Live(Mark(bs, i, used)) == if used then Live(bs)[bs[i].at := Room(bs, i)] else Live(bs) - {bs[i].at}
  {
    hide Ascending;
    AscendingRest(bs);
    var m, rest := Mark(bs, i, used), bs[1..];
    if i > 0 {
      LiveMark(rest, i - 1, used);
      assert m[1..] == Mark(rest, i - 1, used);
      assert bs[0].at < rest[i - 1].at;
    } else {
      NotLive(rest, bs[0].at);
      assert m[1..] == rest;
    }
  }

  lemma {:induction false} SpanMark(bs: seq<Block>, i: nat, used: bool)
    requires i + 1 < |bs|
    ensures UsedSpan(Mark(bs, i, used)) == UsedSpan(bs) + (if used then Room(bs, i) + HDR else 0)
                                           - (if bs[i].used then Room(bs, i) + HDR else 0)
  {
    var m, rest := Mark(bs, i, used), bs[1..];
    if i > 0 {
      SpanMark(rest, i - 1, used);
      assert m[1..] == Mark(rest, i - 1, used);
    } else {
      assert m[1..] == rest;
    }
  }

  lemma LiveFirst(bs: seq<Block>)
    requires |bs| > 1
    ensures Live(bs) == if bs[0].used then Live(bs[1..])[bs[0].at := bs[1].at - bs[0].at - HDR] else Live(bs[1..])
    ensures UsedSpan(bs) == (if bs[0].used then bs[1].at - bs[0].at else 0) + UsedSpan(bs[1..])
  {
  }

  lemma {:induction false} LiveSplit(bs: seq<Block>, i: nat, z: nat)
    requires Ascending(bs) && i + 1 < |bs|
    ensures Live(Split(bs, i, z)) == if bs[i].used then Live(bs)[bs[i].at := z - bs[i].at - HDR] else Live(bs)
    ensures UsedSpan(Split(bs, i, z)) == UsedSpan(bs) - if bs[i].used then bs[i + 1].at - z else 0
  {
    hide Ascending, Live, UsedSpan;
    AscendingRest(bs);
    var m, rest := Split(bs, i, z), bs[1..];
    LiveFirst(bs);
    LiveFirst(m);
    if i > 0 {
      LiveSplit(rest, i - 1, z);
      assert m[1..] == Split(rest, i - 1, z);
      assert bs[0].at < rest[i - 1].at && m[0] == bs[0] && m[1] == bs[1];
    } else {
      assert m[1..] == [Block(z, false)] + rest && m[1..][1..] == rest;
      LiveFirst(m[1..]);
    }
  }

  lemma {:induction false} LiveJoin(bs: seq<Block>, i: nat)
    requires i + 2 < |bs| && !bs[i + 1].used && !bs[i].used
    ensures Live(Join(bs, i)) == Live(bs) && UsedSpan(Join(bs, i)) == UsedSpan(bs)
  {
    var m, rest := Join(bs, i), bs[1..];
    if i > 0 {
      LiveJoin(rest, i - 1);
      assert m[1..] == Join(rest, i - 1);
      assert m[0] == bs[0] && m[1] == bs[1];
    } else {
      assert m[1..] == bs[2..] && rest[1..] == bs[2..];
    }
  }

  // ---------------------------------------------------------------- the operations keep the tiling

  lemma MarkKeeps(bs: seq<Block>, i: nat, used: bool, memSize: nat)
    requires Tiled(bs, memSize) && i + 1 < |bs|
    ensures Tiled(Mark(bs, i, used), memSize)
  {
  }

  lemma SplitKeeps(bs: seq<Block>, i: nat, z: nat, memSize: nat)
    requires Tiled(bs, memSize) && i + 1 < |bs| && bs[i].at + HDR <= z && z + HDR <= bs[i + 1].at
    ensures Tiled(Split(bs, i, z), memSize)
  {
    var r := Split(bs, i, z);
    forall j | 0 <= j < |bs|
      ensures if j <= i then bs[j].at + HDR <= z else z + HDR <= bs[j].at
    {
    }
    hide Split;
  }

  lemma JoinKeeps(bs: seq<Block>, i: nat, memSize: nat)
    requires Tiled(bs, memSize) && i + 2 < |bs|
    ensures Tiled(Join(bs, i), memSize)
  {
    hide Join;
  }

  lemma ApartMarkUsed(bs: seq<Block>, i: nat)
    requires Apart(bs, NOBODY) && i < |bs|
    ensures Apart(Mark(bs, i, true), NOBODY)
  {
    forall j | 0 <= j < |bs| - 1
      ensures Fine(Mark(bs, i, true), j)
    {
      assert Fine(bs, j);
    }
  }

  lemma ApartMarkFree(bs: seq<Block>, i: nat)
    requires Apart(bs, NOBODY) && i < |bs|
    ensures Apart(Mark(bs, i, false), i)
  {
    forall j | 0 <= j < |bs| - 1 && j != i && j + 1 != i
      ensures Fine(Mark(bs, i, false), j)
    {
      assert Fine(bs, j);
    }
  }

  /** After a split only the new block can touch another free one, if the split one is used. */
  lemma ApartSplit(bs: seq<Block>, i: nat, z: nat)
    requires Apart(bs, NOBODY) && i + 1 < |bs|
    ensures Apart(Split(bs, i, z), i + 1)
  {
    var r := Split(bs, i, z);
    hide Split;
    forall j | 0 <= j < |r| - 1 && j != i + 1 && j + 1 != i + 1
      ensures Fine(r, j)
    {
      if j < i { assert Fine(bs, j); } else { assert Fine(bs, j - 1); }
    }
  }

  lemma ApartAllocated(bs: seq<Block>, i: nat, z: nat)
    requires Apart(bs, NOBODY) && i + 1 < |bs| && !bs[i].used
    ensures Apart(Mark(Split(bs, i, z), i, true), NOBODY) && bs[i + 1].used
  {
    ApartSplit(bs, i, z);
    assert Fine(bs, i);
    var s := Split(bs, i, z);
    var r := Mark(s, i, true);
    hide Split;
    forall j | 0 <= j < |r| - 1
      ensures Fine(r, j)
    {
      if j != i && j != i + 1 { assert Fine(s, j); }
    }
  }

  lemma ApartForward(bs: seq<Block>, i: nat)
    requires Apart(bs, i) && i + 1 < |bs| && !bs[i].used && bs[|bs| - 1].used
    ensures var r := PluggedForward(bs, i);
            && i + 1 < |r| && r[i] == bs[i] && r[i + 1].used && Apart(r, i) && r[..i] == bs[..i]
  {
    if !bs[i + 1].used {
      assert Fine(bs, i + 1);
      var r := Join(bs, i);
      hide Join;
      forall j | 0 <= j < |r| - 1 && j != i && j + 1 != i
        ensures Fine(r, j)
      {
        if j < i { assert Fine(bs, j); } else { assert Fine(bs, j + 1); }
      }
    }
  }

  lemma ApartBackward(bs: seq<Block>, i: nat)
    requires Apart(bs, i) && i + 1 < |bs| && bs[i + 1].used
    ensures Apart(PluggedBackward(bs, i), NOBODY)
  {
    if i > 0 && !bs[i - 1].used {
      if i > 1 { assert Fine(bs, i - 2); }
      var r := Join(bs, i - 1);
      hide Join;
      forall j | 0 <= j < |r| - 1
        ensures Fine(r, j)
      {
        if j < i - 2 { assert Fine(bs, j); } else if j > i - 1 { assert Fine(bs, j + 1); }
      }
    } else {
      forall j | 0 <= j < |bs| - 1
        ensures Fine(bs, j)
      {
        if j != i && j + 1 != i { assert Fine(bs, j); }
      }
    }
  }

  predicate Sound(bs: seq<Block>, memSize: nat) {
    Tiled(bs, memSize) && Apart(bs, NOBODY)
  }

  lemma TiledIs(bs: seq<Block>, memSize: nat)
    requires Tiled(bs, memSize)
    ensures |bs| >= 2 && Ascending(bs) && bs[|bs| - 1].used && bs[|bs| - 1].at == memSize + HDR && bs[0].at == 0
  {
  }

  /** rt_malloc with a free block that is large enough. */
  lemma AllocatedKeeps(bs: seq<Block>, i: nat, size: nat, memSize: nat)
    requires Sound(bs, memSize) && i + 1 < |bs| && !bs[i].used && Room(bs, i) >= size
    ensures var r := Allocated(bs, i, size);
            && Sound(r, memSize) && i + 1 < |r| && r[i] == Block(bs[i].at, true) && r[..i] == bs[..i]
            && Room(r, i) == (if Room(bs, i) >= size + HDR + MIN then size else Room(bs, i)) && size <= Room(r, i)
            && bs[i].at !in Live(bs) && Live(r) == Live(bs)[bs[i].at := Room(r, i)]
            && UsedSpan(r) == UsedSpan(bs) + HDR + Room(r, i)
            && (Room(bs, i) < size + HDR + MIN ==> r[i + 1].used)
  {
    hide Tiled, Ascending, Apart, Live, UsedSpan;
    TiledIs(bs, memSize);
    LiveAt(bs, i);
    if Room(bs, i) >= size + HDR + MIN {
      var z := bs[i].at + HDR + size;
      SplitKeeps(bs, i, z, memSize);
      LiveSplit(bs, i, z);
      var m := Split(bs, i, z);
      TiledIs(m, memSize);
      MarkKeeps(m, i, true, memSize);
      LiveMark(m, i, true);
      SpanMark(m, i, true);
      ApartAllocated(bs, i, z);
    } else {
      ApartAllocated(bs, i, 0);
      MarkKeeps(bs, i, true, memSize);
      LiveMark(bs, i, true);
      SpanMark(bs, i, true);
      ApartMarkUsed(bs, i);
    }
  }

  /** plug_holes, for the only free block that can touch others. */
  lemma PluggedKeeps(bs: seq<Block>, i: nat, memSize: nat)
    requires Tiled(bs, memSize) && Apart(bs, i) && i + 1 < |bs| && !bs[i].used
    ensures var r := Plugged(bs, i); Sound(r, memSize) && Live(r) == Live(bs) && UsedSpan(r) == UsedSpan(bs)
  {
    hide Tiled, Ascending, Apart, Live, UsedSpan;
    TiledIs(bs, memSize);
    ApartForward(bs, i);
    var m := PluggedForward(bs, i);
    if !bs[i + 1].used {
      JoinKeeps(bs, i, memSize);
      LiveJoin(bs, i);
    }
    ApartBackward(m, i);
    if i > 0 && !m[i - 1].used {
      JoinKeeps(m, i - 1, memSize);
      LiveJoin(m, i - 1);
    }
  }

  lemma FreedKeeps(bs: seq<Block>, i: nat, memSize: nat)
    requires Sound(bs, memSize) && i + 1 < |bs| && bs[i].used
    ensures var r := Freed(bs, i);
            && Sound(r, memSize) && Live(r) == Live(bs) - {bs[i].at}
            && UsedSpan(r) == UsedSpan(bs) - HDR - Room(bs, i)
  {
    hide Tiled, Ascending, Apart, Live, UsedSpan, Plugged;
    TiledIs(bs, memSize);
    MarkKeeps(bs, i, false, memSize);
    LiveMark(bs, i, false);
    SpanMark(bs, i, false);
    ApartMarkFree(bs, i);
    PluggedKeeps(Mark(bs, i, false), i, memSize);
  }

  lemma ShrunkKeeps(bs: seq<Block>, i: nat, size: nat, memSize: nat)
    requires Sound(bs, memSize) && i + 1 < |bs| && bs[i].used && size + HDR <= Room(bs, i)
    ensures var r := Shrunk(bs, i, size);
            && Sound(r, memSize) && Live(r) == Live(bs)[bs[i].at := size]
            && UsedSpan(r) == UsedSpan(bs) - (Room(bs, i) - size)
  {
    hide Tiled, Ascending, Apart, Live, UsedSpan, Plugged;
    TiledIs(bs, memSize);
    var z := bs[i].at + HDR + size;
    SplitKeeps(bs, i, z, memSize);
    LiveSplit(bs, i, z);
    ApartSplit(bs, i, z);
    PluggedKeeps(Split(bs, i, z), i + 1, memSize);
  }

  // ---------------------------------------------------------------- blocks in the array

  /** The header of the block at position i. The prev of heap_end is not kept up to date. */
  predicate Header(h: seq<int>, bs: seq<Block>, i: nat)
    requires i < |bs|
  {
    var p := bs[i].at;
    && p + HDR <= |h|
    && h[p] == (if bs[i].used then 1 else 0)
    && h[p + 1] == (if i + 1 < |bs| then bs[i + 1].at else p)
    && (i == 0 ==> h[p + 2] == 0)
    && (0 < i < |bs| - 1 ==> h[p + 2] == bs[i - 1].at)
  }

  predicate Represents(h: seq<int>, bs: seq<Block>) {
    forall i {:trigger Header(h, bs, i)} :: 0 <= i < |bs| ==> Header(h, bs, i)
  }

  lemma Before(bs: seq<Block>, i: nat, j: nat)
    requires Ascending(bs) && i < j < |bs|
    ensures bs[i].at + HDR <= bs[j].at && (i + 1 < j ==> bs[i + 1].at + HDR <= bs[j].at)
  {
  }

  function MarkHeap(h: seq<int>, p: nat, used: bool): (r: seq<int>)
    requires p < |h|
  {
    h[p := if used then 1 else 0]
  }

  function SplitHeap(h: seq<int>, p: nat, z: nat, n: nat, end: nat): (r: seq<int>)
    requires p + HDR <= z && z + HDR <= n && n + HDR <= |h|
    ensures |r| == |h| && r[z] == 0 && r[z + 1] == n && r[z + 2] == p && r[p + 1] == z && (n != end ==> r[n + 2] == z)
    ensures forall k {:trigger r[k]} :: 0 <= k < |r| && !(z <= k < z + HDR) && k != p + 1 && (k != n + 2 || n == end) ==> r[k] == h[k]
  {
    var m := h[z := 0][z + 1 := n][z + 2 := p][p + 1 := z];
    if n != end then m[n + 2 := z] else m
  }

  function JoinHeap(h: seq<int>, p: nat, n: nat): (r: seq<int>)
    requires p + HDR <= n && n + HDR <= |h|
    ensures |r| == |h| && r[p + 1] == n && r[n + 2] == p
    ensures forall k {:trigger r[k]} :: 0 <= k < |r| && k != p + 1 && k != n + 2 ==> r[k] == h[k]
  {
    h[p + 1 := n][n + 2 := p]
  }

  lemma MarkRepresents(h: seq<int>, bs: seq<Block>, i: nat, used: bool)
    requires Represents(h, bs) && Ascending(bs) && i + 1 < |bs|
    ensures bs[i].at < |h| && Represents(MarkHeap(h, bs[i].at, used), Mark(bs, i, used))
  {
    assert Header(h, bs, i);
    var r, m := MarkHeap(h, bs[i].at, used), Mark(bs, i, used);
    forall j | 0 <= j < |m|
      ensures Header(r, m, j)
    {
      assert Header(h, bs, j);
      if j < i { Before(bs, j, i); } else if j > i { Before(bs, i, j); }
    }
  }

  lemma HeaderOutsideSplit(h: seq<int>, bs: seq<Block>, i: nat, z: nat, j: nat)
    requires Represents(h, bs) && Ascending(bs) && i + 1 < |bs| && bs[i].at + HDR <= z && z + HDR <= bs[i + 1].at
    requires j <= |bs| && (j < i || i + 2 < j) && bs[i + 1].at + HDR <= |h|
    ensures Header(SplitHeap(h, bs[i].at, z, bs[i + 1].at, bs[|bs| - 1].at), Split(bs, i, z), j)
  {
    hide Ascending, Represents, Split, SplitHeap;
    if j < i { HeaderAt(h, bs, j); Before(bs, j, i); Before(bs, j, i + 1); }
    if j > i + 2 { HeaderAt(h, bs, j - 1); Before(bs, i, j - 1); Before(bs, i + 1, j - 1); }
  }

  lemma HeaderAfterSplit(h: seq<int>, bs: seq<Block>, i: nat, z: nat, j: nat)
    requires Represents(h, bs) && Ascending(bs) && i + 1 < |bs| && bs[i].at + HDR <= z && z + HDR <= bs[i + 1].at
    requires i <= j <= i + 2 && bs[i + 1].at + HDR <= |h|
    ensures Header(SplitHeap(h, bs[i].at, z, bs[i + 1].at, bs[|bs| - 1].at), Split(bs, i, z), j)
  {
    hide Ascending, Represents, Split, SplitHeap;
    HeaderAt(h, bs, i);
    HeaderAt(h, bs, i + 1);
    if i + 1 < |bs| - 1 { Before(bs, i + 1, |bs| - 1); }
  }

  lemma HeaderAt(h: seq<int>, bs: seq<Block>, i: nat)
    requires Represents(h, bs) && i < |bs|
    ensures Header(h, bs, i)
  {
  }

  lemma SplitRepresents(h: seq<int>, bs: seq<Block>, i: nat, z: nat)
    requires Represents(h, bs) && Ascending(bs) && i + 1 < |bs| && bs[i].at + HDR <= z && z + HDR <= bs[i + 1].at
    ensures bs[i + 1].at + HDR <= |h|
    ensures Represents(SplitHeap(h, bs[i].at, z, bs[i + 1].at, bs[|bs| - 1].at), Split(bs, i, z))
  {
    assert Header(h, bs, i + 1);
    var r, m := SplitHeap(h, bs[i].at, z, bs[i + 1].at, bs[|bs| - 1].at), Split(bs, i, z);
    hide Header, Split, SplitHeap, Ascending;
    forall j | 0 <= j < |m|
      ensures Header(r, m, j)
    {
      if i <= j <= i + 2 { HeaderAfterSplit(h, bs, i, z, j); } else { HeaderOutsideSplit(h, bs, i, z, j); }
    }
  }

  lemma HeaderAfterJoin(h: seq<int>, bs: seq<Block>, i: nat, j: nat)
    requires Represents(h, bs) && Ascending(bs) && i + 2 < |bs| && bs[i].at + HDR <= bs[i + 2].at
    requires j + 1 < |bs| && bs[i + 2].at + HDR <= |h|
    ensures Header(JoinHeap(h, bs[i].at, bs[i + 2].at), Join(bs, i), j)
  {
    hide Ascending, Represents, Join, JoinHeap;
    HeaderAt(h, bs, i);
    HeaderAt(h, bs, i + 2);
    if j < i { HeaderAt(h, bs, j); Before(bs, j, i); Before(bs, j, i + 2); }
    if j > i + 1 { HeaderAt(h, bs, j + 1); Before(bs, i, j + 1); Before(bs, i + 2, j + 1); }
  }

  lemma JoinRepresents(h: seq<int>, bs: seq<Block>, i: nat)
    requires Represents(h, bs) && Ascending(bs) && i + 2 < |bs|
    ensures bs[i].at + HDR <= bs[i + 2].at && bs[i + 2].at + HDR <= |h|
    ensures Represents(JoinHeap(h, bs[i].at, bs[i + 2].at), Join(bs, i))
  {
    assert Header(h, bs, i + 2);
    Before(bs, i, i + 2);
    var r, m := JoinHeap(h, bs[i].at, bs[i + 2].at), Join(bs, i);
    hide Header, Join, JoinHeap, Ascending;
    forall j | 0 <= j < |m|
      ensures Header(r, m, j)
    {
      HeaderAfterJoin(h, bs, i, j);
    }
  }

  // ---------------------------------------------------------------- user data

  /** The user data of every live block but the one at x is the same. */
  predicate SameData(h: seq<int>, r: seq<int>, live: map<nat, int>, x: int) {
    && |r| == |h|
    && forall q <- live :: q != x ==>
         q + HDR + live[q] <= |h| && forall k :: q + HDR <= k < q + HDR + live[q] ==> r[k] == h[k]
  }

  /** A word of a header, and a word of the free room of block i, is in no user data but that of i. */
  lemma NotUserData(bs: seq<Block>, q: nat, i: nat, k: nat)
    requires Ascending(bs) && q in Live(bs) && i < |bs|
    requires (bs[i].at <= k < bs[i].at + HDR) || (i + 1 < |bs| && bs[i].at <= k < bs[i + 1].at && q != bs[i].at)
    ensures !(q + HDR <= k < q + HDR + Live(bs)[q])
  {
    hide Ascending, Live;
    var j := LiveIndex(bs, q);
    if j < i { Before(bs, j, i); }
    if i < j { Before(bs, i, j); }
  }

  lemma DataFits(h: seq<int>, bs: seq<Block>, q: nat)
    requires Represents(h, bs) && Ascending(bs) && q in Live(bs)
    ensures 0 <= Live(bs)[q] && q + HDR + Live(bs)[q] <= |h|
  {
    var j := LiveIndex(bs, q);
    assert Header(h, bs, j + 1);
    Before(bs, j, j + 1);
  }

  lemma MarkKeepsData(h: seq<int>, bs: seq<Block>, i: nat, used: bool)
    requires Represents(h, bs) && Ascending(bs) && i < |bs| && bs[i].at < |h|
    ensures SameData(h, MarkHeap(h, bs[i].at, used), Live(bs), -1)
  {
    hide Ascending, Represents, Live;
    forall q | q in Live(bs)
      ensures q + HDR + Live(bs)[q] <= |h|
      ensures forall k :: q + HDR <= k < q + HDR + Live(bs)[q] ==> MarkHeap(h, bs[i].at, used)[k] == h[k]
    {
      DataFits(h, bs, q);
      NotUserData(bs, q, i, bs[i].at);
    }
  }

  lemma SplitKeepsData(h: seq<int>, bs: seq<Block>, i: nat, z: nat)
    requires Represents(h, bs) && Ascending(bs) && i + 1 < |bs| && bs[i].at + HDR <= z && z + HDR <= bs[i + 1].at
    requires bs[i + 1].at + HDR <= |h|
    ensures SameData(h, SplitHeap(h, bs[i].at, z, bs[i + 1].at, bs[|bs| - 1].at), Live(bs), bs[i].at)
  {
    hide Ascending, Represents, Live, SplitHeap;
    forall q | q in Live(bs) && q != bs[i].at
      ensures q + HDR + Live(bs)[q] <= |h|
      ensures forall k :: q + HDR <= k < q + HDR + Live(bs)[q] ==>
                SplitHeap(h, bs[i].at, z, bs[i + 1].at, bs[|bs| - 1].at)[k] == h[k]
    {
      DataFits(h, bs, q);
      NotUserData(bs, q, i, bs[i].at + 1);
      NotUserData(bs, q, i, z);
      NotUserData(bs, q, i, z + 1);
      NotUserData(bs, q, i, z + 2);
      NotUserData(bs, q, i + 1, bs[i + 1].at + 2);
    }
  }

  lemma JoinKeepsData(h: seq<int>, bs: seq<Block>, i: nat)
    requires Represents(h, bs) && Ascending(bs) && i + 2 < |bs|
    requires bs[i].at + HDR <= bs[i + 2].at && bs[i + 2].at + HDR <= |h|
    ensures SameData(h, JoinHeap(h, bs[i].at, bs[i + 2].at), Live(bs), -1)
  {
    hide Ascending, Represents, Live, JoinHeap;
    forall q | q in Live(bs)
      ensures q + HDR + Live(bs)[q] <= |h|
      ensures forall k :: q + HDR <= k < q + HDR + Live(bs)[q] ==> JoinHeap(h, bs[i].at, bs[i + 2].at)[k] == h[k]
    {
      DataFits(h, bs, q);
      NotUserData(bs, q, i, bs[i].at + 1);
      NotUserData(bs, q, i + 2, bs[i + 2].at + 2);
    }
  }

  lemma SameDataThen(h: seq<int>, m: seq<int>, r: seq<int>, live: map<nat, int>, later: map<nat, int>, x: int)
    requires SameData(h, m, live, x) && SameData(m, r, later, x)
    requires forall q <- live :: q != x ==> q in later && later[q] == live[q]
    ensures SameData(h, r, live, x)
  {
  }

  // ---------------------------------------------------------------- the lowest free block

  /** lfree is the address of the block at position i, which is free or heap_end. */
  predicate FreeAt(bs: seq<Block>, i: nat, lfree: int) {
    i < |bs| && bs[i].at == lfree && (!bs[i].used || i == |bs| - 1)
  }

  predicate LfreeOk(bs: seq<Block>, lfree: int) {
    exists i {:trigger FreeAt(bs, i, lfree)} :: 0 <= i < |bs| && FreeAt(bs, i, lfree)
  }

  /** No free block lies below lfree. */
  predicate Lowest(bs: seq<Block>, lfree: int) {
    forall i :: 0 <= i < |bs| && bs[i].at < lfree ==> bs[i].used
  }

  function LfreeForward(bs: seq<Block>, i: nat, lfree: int): int
    requires i + 1 < |bs|
  {
    if !bs[i + 1].used && lfree == bs[i + 1].at then bs[i].at else lfree
  }

  function LfreeBackward(bs: seq<Block>, i: nat, lfree: int): int
    requires i < |bs|
  {
    if i > 0 && !bs[i - 1].used && lfree == bs[i].at then bs[i - 1].at else lfree
  }

  /** What plug_holes makes of lfree. */
  function LfreePlugged(bs: seq<Block>, i: nat, lfree: int): int
    requires i + 1 < |bs|
  {
    LfreeBackward(PluggedForward(bs, i), i, LfreeForward(bs, i, lfree))
  }

  lemma LfreeForwardOk(bs: seq<Block>, i: nat, lfree: int)
    requires LfreeOk(bs, lfree) && Ascending(bs) && i + 2 <= |bs| && !bs[i].used && bs[|bs| - 1].used
    ensures LfreeOk(PluggedForward(bs, i), LfreeForward(bs, i, lfree))
    ensures Lowest(bs, lfree) ==> Lowest(PluggedForward(bs, i), LfreeForward(bs, i, lfree))
  {
    if !bs[i + 1].used {
      var r := Join(bs, i);
      hide Join, LfreeOk;
      var l := LfreeForward(bs, i, lfree);
      var k := LfreeIndex(bs, lfree);
      assert FreeAt(r, if k <= i then k else k - 1, l);
      LfreeHolds(r, if k <= i then k else k - 1, l);
      if Lowest(bs, lfree) {
        forall j | 0 <= j < |r| && r[j].at < l ensures r[j].used { }
      }
    }
  }

  lemma LfreeIndex(bs: seq<Block>, lfree: int) returns (k: nat)
    requires LfreeOk(bs, lfree)
    ensures FreeAt(bs, k, lfree)
  {
    k :| 0 <= k < |bs| && FreeAt(bs, k, lfree);
  }

  lemma LfreeHolds(bs: seq<Block>, k: nat, lfree: int)
    requires FreeAt(bs, k, lfree)
    ensures LfreeOk(bs, lfree)
  {
  }

  lemma LfreeBackwardOk(bs: seq<Block>, i: nat, lfree: int)
    requires LfreeOk(bs, lfree) && Ascending(bs) && i + 2 <= |bs| && !bs[i].used
    ensures LfreeOk(PluggedBackward(bs, i), LfreeBackward(bs, i, lfree))
    ensures Lowest(bs, lfree) ==> Lowest(PluggedBackward(bs, i), LfreeBackward(bs, i, lfree))
  {
    if i > 0 && !bs[i - 1].used {
      var r := Join(bs, i - 1);
      hide Join, LfreeOk;
      var l := LfreeBackward(bs, i, lfree);
      var k := LfreeIndex(bs, lfree);
      assert FreeAt(r, if k < i then k else k - 1, l);
      LfreeHolds(r, if k < i then k else k - 1, l);
      if Lowest(bs, lfree) {
        forall j | 0 <= j < |r| && r[j].at < l ensures r[j].used { }
      }
    }
  }

  lemma LfreePluggedOk(bs: seq<Block>, i: nat, lfree: int, memSize: nat)
    requires Tiled(bs, memSize) && Apart(bs, i) && i + 1 < |bs| && !bs[i].used && LfreeOk(bs, lfree)
    ensures LfreeOk(Plugged(bs, i), LfreePlugged(bs, i, lfree))
    ensures Lowest(bs, lfree) ==> Lowest(Plugged(bs, i), LfreePlugged(bs, i, lfree))
  {
    hide Tiled, Ascending, Apart, LfreeOk, Lowest;
    TiledIs(bs, memSize);
    ApartForward(bs, i);
    LfreeForwardOk(bs, i, lfree);
    if !bs[i + 1].used { JoinKeeps(bs, i, memSize); }
    TiledIs(PluggedForward(bs, i), memSize);
    LfreeBackwardOk(PluggedForward(bs, i), i, LfreeForward(bs, i, lfree));
  }

  /** rt_free. */
  lemma LfreeFreed(bs: seq<Block>, i: nat, lfree: int, memSize: nat)
    requires Sound(bs, memSize) && LfreeOk(bs, lfree) && i + 1 < |bs| && bs[i].used
    ensures var l := if bs[i].at < lfree then bs[i].at else lfree;
            var m := Mark(bs, i, false);
            && LfreeOk(Freed(bs, i), LfreePlugged(m, i, l))
            && (Lowest(bs, lfree) ==> Lowest(Freed(bs, i), LfreePlugged(m, i, l)))
  {
    hide Tiled, Ascending, Apart, LfreeOk, Plugged, LfreePlugged;
    var l := if bs[i].at < lfree then bs[i].at else lfree;
    var m := Mark(bs, i, false);
    var k := LfreeIndex(bs, lfree);
    LfreeHolds(m, if bs[i].at < lfree then i else k, l);
    MarkKeeps(bs, i, false, memSize);
    ApartMarkFree(bs, i);
    LfreePluggedOk(m, i, l, memSize);
  }

  /** rt_realloc, when it splits, does not look at lfree: the invariant it keeps is the weaker one. */
  lemma LfreeShrunk(bs: seq<Block>, i: nat, size: nat, lfree: int, memSize: nat)
    requires Sound(bs, memSize) && LfreeOk(bs, lfree) && i + 1 < |bs| && bs[i].used && size + HDR <= Room(bs, i)
    ensures LfreeOk(Shrunk(bs, i, size), LfreePlugged(Split(bs, i, bs[i].at + HDR + size), i + 1, lfree))
  {
    hide Tiled, Ascending, Apart, LfreeOk, Plugged, LfreePlugged, Lowest;
    var z := bs[i].at + HDR + size;
    var m := Split(bs, i, z);
    SplitKeeps(bs, i, z, memSize);
    ApartSplit(bs, i, z);
    var k := LfreeIndex(bs, lfree);
    LfreeHolds(m, if k <= i then k else k + 1, lfree);
    LfreePluggedOk(m, i + 1, lfree, memSize);
  }

  /** Exactly when lfree stays the lowest free block: when the new block does not lie below it, or joins
      it. */
  lemma LowestShrunk(bs: seq<Block>, i: nat, size: nat, lfree: int, memSize: nat)
    requires Tiled(bs, memSize) && i + 1 < |bs| && bs[i].used && size + HDR <= Room(bs, i)
    requires LfreeOk(bs, lfree) && Lowest(bs, lfree)
    ensures var z := bs[i].at + HDR + size;
            Lowest(Shrunk(bs, i, size), LfreePlugged(Split(bs, i, z), i + 1, lfree))
            <==> lfree < z || (lfree == bs[i + 1].at && !bs[i + 1].used)
  {
    hide Tiled, Ascending, LfreeOk, Lowest, Split, Join;
    TiledIs(bs, memSize);
    var z := bs[i].at + HDR + size;
    var m := Split(bs, i, z);
    SplitKeeps(bs, i, z, memSize);
    LfreePlace(bs, i, z, lfree);
    LowestOfSplit(bs, i, z, lfree);
    if !bs[i + 1].used {
      if lfree == bs[i + 1].at { LowestBelow(bs, i, z, lfree); }
      LowestOfJoin(m, i + 1, LfreeForward(m, i + 1, lfree), memSize);
    }
  }

  /** The lowest free block is none inside the used one, and not behind a free one. */
  lemma LfreePlace(bs: seq<Block>, i: nat, z: nat, lfree: int)
    requires LfreeOk(bs, lfree) && Lowest(bs, lfree) && Ascending(bs) && i + 1 < |bs| && bs[i].used
    requires bs[i].at < z < bs[i + 1].at
    ensures lfree < z || (if bs[i + 1].used then z < lfree else lfree == bs[i + 1].at)
  {
    hide Ascending, LfreeOk;
    var k := LfreeIndex(bs, lfree);
    if k < i { Before(bs, k, i); }
    if i + 1 < k { Before(bs, i + 1, k); LowestAt(bs, lfree, i + 1); }
  }

  lemma LowestAt(bs: seq<Block>, lfree: int, i: nat)
    requires Lowest(bs, lfree) && i < |bs| && bs[i].at < lfree
    ensures bs[i].used
  {
  }

  lemma LowestOfSplit(bs: seq<Block>, i: nat, z: nat, lfree: int)
    requires Lowest(bs, lfree) && i < |bs|
    ensures Lowest(Split(bs, i, z), lfree) <==> lfree <= z
  {
    var m := Split(bs, i, z);
    assert m[i + 1] == Block(z, false);
  }

  /** If lfree is the block behind, z can take its place. */
  lemma LowestBelow(bs: seq<Block>, i: nat, z: nat, lfree: int)
    requires Lowest(bs, lfree) && i + 1 < |bs| && z < lfree
    ensures Lowest(Split(bs, i, z), z)
  {
  }

  lemma LowestOfJoin(bs: seq<Block>, i: nat, lfree: int, memSize: nat)
    requires Tiled(bs, memSize) && i + 2 < |bs| && !bs[i].used
    ensures Lowest(Join(bs, i), lfree) <==> Lowest(bs, lfree)
  {
    var r := Join(bs, i);
    assert bs[i].at < bs[i + 1].at && r[i] == bs[i];
    if Lowest(r, lfree) {
      forall j | 0 <= j < |bs| && bs[j].at < lfree
        ensures bs[j].used
      {
        LowestAt(r, lfree, if j <= i then j else if j == i + 1 then i else j - 1);
      }
    }
  }

  // ---------------------------------------------------------------- the object

  /** RT_NULL. */
  const NULL := -1

  /** The size of a request of so many bytes, in words. */
  function Words(bytes: nat): (n: nat)
    ensures 4 * (n - 1) < bytes <= 4 * n || (bytes == 0 && n == 0)
  {
    (bytes + 3) / 4
  }

  function Needed(n: nat): (r: nat)
    ensures r >= n && r >= MIN && (r == n || r == MIN)
  {
    if n < MIN then MIN else n
  }

  /** The first block from lfree on that fits is at p. */
  ghost predicate FirstFits(bs: seq<Block>, lfree: int, limit: int, size: nat, p: int) {
    exists i: nat :: Fits(bs, i, lfree, limit, size) && p == bs[i].at && NoneFits(bs, i, lfree, limit, size)
  }

  lemma FitsFirst(bs: seq<Block>, i: nat, lfree: int, limit: int, size: nat)
    requires Fits(bs, i, lfree, limit, size) && NoneFits(bs, i, lfree, limit, size)
    ensures i < |bs| && FirstFits(bs, lfree, limit, size, bs[i].at)
  {
  }

  /** A block from lfree on, below limit, that is free and large enough. */
  predicate Fits(bs: seq<Block>, i: nat, lfree: int, limit: int, size: nat) {
    i + 1 < |bs| && lfree <= bs[i].at < limit && !bs[i].used && Room(bs, i) >= size
  }

  /** If lfree is the lowest free block, the search leaves none out. */
  lemma LowestSearchesAll(bs: seq<Block>, i: nat, lfree: int, limit: int, size: nat)
    requires Lowest(bs, lfree)
    ensures Fits(bs, i, lfree, limit, size) <==> Suits(bs, i, limit, size)
  {
  }

  /** A free block below limit is large enough. */
  predicate Suits(bs: seq<Block>, i: nat, limit: int, size: nat) {
    i + 1 < |bs| && bs[i].at < limit && !bs[i].used && Room(bs, i) >= size
  }

  predicate NoneSuits(bs: seq<Block>, limit: int, size: nat) {
    forall i {:trigger Suits(bs, i, limit, size)} :: 0 <= i < |bs| ==> !Suits(bs, i, limit, size)
  }

  /** So the search fails exactly if no free block below the limit is large enough. */
  lemma LowestFindsAny(bs: seq<Block>, lfree: int, limit: int, size: nat)
    requires Lowest(bs, lfree)
    ensures NoneFits(bs, |bs|, lfree, limit, size) <==> NoneSuits(bs, limit, size)
  {
    hide Lowest, Fits, Suits;
    forall i: nat
      ensures Fits(bs, i, lfree, limit, size) <==> Suits(bs, i, limit, size)
    {
      LowestSearchesAll(bs, i, lfree, limit, size);
    }
  }

  /** The code does not keep lfree the lowest free block: in a heap of 30 words that one block fills, lfree
      is heap_end. When the block shrinks to 3 words it stays there, and the next request for 3 words is
      refused, although 24 words are free. */
  lemma ShrinkHidesBlock()
    ensures var bs, memSize := [Block(0, true), Block(33, true)], 30;
            var r, l := Shrunk(bs, 0, 3), LfreePlugged(Split(bs, 0, 6), 1, 33);
            && Sound(bs, memSize) && LfreeOk(bs, 33) && Lowest(bs, 33)
            && r == [Block(0, true), Block(6, false), Block(33, true)] && l == 33 && !Lowest(r, l)
            && NoneFits(r, |r|, l, memSize - 3, 3) && Suits(r, 1, memSize - 3, 3) && Room(r, 1) == 24
  {
    var bs := [Block(0, true), Block(33, true)];
    assert FreeAt(bs, 1, 33) && Fine(bs, 0);
    var m := Split(bs, 0, 6);
    assert m == [Block(0, true), Block(6, false), Block(33, true)];
    assert !Lowest(m, 33) by { assert m[1].at < 33 && !m[1].used; }
  }

  /** The limit of the search, in bytes: the subtraction is of 32-bit unsigned numbers. */
  const WRAP := 0x1_0000_0000

  function SearchLimit(memSize: nat, size: nat): int {
    if size <= memSize then 4 * (memSize - size) else 4 * (memSize - size) + WRAP
  }

  /** Which block the search has come to after n steps: heap_end is its own next. */
  function Visits(bs: seq<Block>, i: nat, n: nat): (j: nat)
    requires i < |bs|
    ensures j < |bs|
  {
    if n == 0 then i else var j := Visits(bs, i, n - 1); if j + 1 < |bs| then j + 1 else j
  }

  /** In a heap of less than MIN words the limit wraps: the search passes every block and never ends. */
  lemma SmallHeapSearchesForever(bs: seq<Block>, memSize: nat, i: nat, n: nat)
    requires Tiled(bs, memSize) && memSize < MIN && i < |bs|
    ensures var j := Visits(bs, i, n);
            && 4 * bs[j].at < SearchLimit(memSize, MIN)
            && (bs[j].used || (j + 1 < |bs| && Room(bs, j) < MIN))
  {
    var j := Visits(bs, i, n);
    if j + 1 < |bs| {
      Before(bs, j, |bs| - 1);
    }
  }

  class SystemHeap {
    const memSize: nat
    const heap: array<int>
    var lfree: int
    var usedMem: int
    var maxMem: int
    ghost var shadow: seq<Block>

    ghost predicate Valid()
      reads this, heap
    {
      && heap.Length == memSize + 2 * HDR
      && Sound(shadow, memSize)
      && Represents(heap[..], shadow)
      && LfreeOk(shadow, lfree)
      && usedMem == UsedSpan(shadow)
      && usedMem <= maxMem
    }

    ghost function LiveBlocks(): map<nat, int>
      reads this
    {
      Live(shadow)
    }

    /** rt_system_heap_init, on memSize words and two headers. */
    constructor (memSize: nat)
      ensures Valid() && fresh(heap) && this.memSize == memSize && LiveBlocks() == map[] && Lowest(shadow, lfree)
    {
      this.memSize := memSize;
      heap := new int[memSize + 2 * HDR](_ => 0);
      lfree, usedMem, maxMem := 0, 0, 0;
      shadow := [Block(0, false), Block(memSize + HDR, true)];
      new;
      var end := memSize + HDR;
      heap[0], heap[1], heap[2] := 0, end, 0;
      heap[end], heap[end + 1], heap[end + 2] := 1, end, end;
      assert Header(heap[..], shadow, 0) && Header(heap[..], shadow, 1);
      assert FreeAt(shadow, 0, lfree);
      assert Fine(shadow, 0);
      assert shadow[1..] == [Block(memSize + HDR, true)] && Live(shadow[1..]) == map[] && UsedSpan(shadow[1..]) == 0;
    }

    /** plug_holes, for the block at position i. */
    method PlugHoles(m: nat, ghost i: nat)
      requires heap.Length == memSize + 2 * HDR && Tiled(shadow, memSize) && Represents(heap[..], shadow)
      requires Apart(shadow, i) && i + 1 < |shadow| && shadow[i] == Block(m, false)
      modifies this`lfree, this`shadow, heap
      ensures shadow == Plugged(old(shadow), i) && lfree == LfreePlugged(old(shadow), i, old(lfree))
      ensures Represents(heap[..], shadow) && SameData(old(heap[..]), heap[..], Live(old(shadow)), -1)
    {
      hide Tiled, Ascending, Apart, Live, Represents, SameData, Join, LfreeOk;
      ghost var bs, h := shadow, heap[..];
      TiledIs(bs, memSize);
      ApartForward(bs, i);
      if !bs[i + 1].used { LiveJoin(bs, i); }
      PlugForward(m, i);
      ghost var g := heap[..];
      TiledIs(shadow, memSize);
      PlugBackward(m, i);
      SameDataThen(h, g, heap[..], Live(bs), Live(bs), -1);
    }

    method PlugForward(m: nat, ghost i: nat)
      requires heap.Length == memSize + 2 * HDR && Tiled(shadow, memSize) && Represents(heap[..], shadow)
      requires i + 1 < |shadow| && shadow[i] == Block(m, false)
      modifies this`lfree, this`shadow, heap
      ensures shadow == PluggedForward(old(shadow), i) && lfree == LfreeForward(old(shadow), i, old(lfree))
      ensures Represents(heap[..], shadow) && SameData(old(heap[..]), heap[..], Live(old(shadow)), -1)
      ensures Tiled(shadow, memSize)
    {
      hide Tiled, Ascending, Apart, Live, Represents, SameData, Join, LfreeOk;
      ghost var bs, h := shadow, heap[..];
      TiledIs(bs, memSize);
      HeaderAt(h, bs, i);
      HeaderAt(h, bs, i + 1);
      Before(bs, i, i + 1);
      if i + 2 < |bs| { Before(bs, i + 1, |bs| - 1); }
      var n := heap[m + 1];
      if m != n && heap[n] == 0 && n != memSize + HDR {
        if lfree == n { lfree := m; }
        JoinRepresents(h, bs, i);
        JoinKeepsData(h, bs, i);
        JoinKeeps(bs, i, memSize);
        var nn := heap[n + 1];
        heap[m + 1] := nn;
        heap[nn + 2] := m;
        assert heap[..] == JoinHeap(h, m, nn);
        shadow := Join(bs, i);
      } else {
        SameDataItself(h, bs);
      }
    }

    method PlugBackward(m: nat, ghost i: nat)
      requires heap.Length == memSize + 2 * HDR && Ascending(shadow) && Represents(heap[..], shadow)
      requires i + 1 < |shadow| && shadow[i] == Block(m, false) && shadow[0].at == 0
      modifies this`lfree, this`shadow, heap
      ensures shadow == PluggedBackward(old(shadow), i) && lfree == LfreeBackward(old(shadow), i, old(lfree))
      ensures Represents(heap[..], shadow) && SameData(old(heap[..]), heap[..], Live(old(shadow)), -1)
    {
      hide Tiled, Ascending, Apart, Live, Represents, SameData, Join, LfreeOk;
      ghost var bs, h := shadow, heap[..];
      HeaderAt(h, bs, i);
      if i > 0 { HeaderAt(h, bs, i - 1); Before(bs, i - 1, i); }
      var p := heap[m + 2];
      if p != m && heap[p] == 0 {
        if lfree == m { lfree := p; }
        JoinRepresents(h, bs, i - 1);
        JoinKeepsData(h, bs, i - 1);
        var q := heap[m + 1];
        heap[p + 1] := q;
        heap[q + 2] := p;
        assert heap[..] == JoinHeap(h, p, q);
        shadow := Join(bs, i - 1);
      } else {
        SameDataItself(h, bs);
      }
    }
  
    method Free(rmem: int)
      requires Valid() && (rmem < 0 || rmem >= memSize + HDR || rmem - HDR in LiveBlocks())
      modifies this, heap
      ensures Valid()
      ensures maxMem == old(maxMem)
      ensures if rmem < 0 || rmem >= memSize + HDR then shadow == old(shadow) && heap[..] == old(heap[..]) && lfree == old(lfree)
              else && LiveBlocks() == old(LiveBlocks()) - {rmem - HDR}
                   && SameData(old(heap[..]), heap[..], old(LiveBlocks()), rmem - HDR)
      ensures old(Lowest(shadow, lfree)) ==> Lowest(shadow, lfree)
    {
      hide Tiled, Ascending, Apart, Live, UsedSpan, Represents, SameData, Join, Split, LfreeOk, Lowest, Plugged, LfreePlugged;
      if rmem < 0 || rmem >= memSize + HDR { return; }
      ghost var bs, h := shadow, heap[..];
      ghost var i := LiveIndex(bs, rmem - HDR);
      var p := rmem - HDR;
      TiledIs(bs, memSize);
      HeaderAt(h, bs, i);
      FreedKeeps(bs, i, memSize);
      LfreeFreed(bs, i, lfree, memSize);
      MarkRepresents(h, bs, i, false);
      MarkKeepsData(h, bs, i, false);
      MarkKeeps(bs, i, false, memSize);
      ApartMarkFree(bs, i);
      LiveMark(bs, i, false);
      heap[p] := 0;
      assert heap[..] == MarkHeap(h, p, false);
      shadow := Mark(bs, i, false);
      if p < lfree { lfree := p; }
      usedMem := usedMem - (heap[p + 1] - p);
      ghost var g := heap[..];
      PlugHoles(p, i);
      SameDataBut(h, g, Live(bs), p);
      SameDataBut(g, heap[..], Live(Mark(bs, i, false)), p);
      SameDataThen(h, g, heap[..], Live(bs), Live(Mark(bs, i, false)), p);
    }
  
    /** The search of rt_malloc. It takes the first block from lfree on that fits, but looks at none
        whose address is memSize - size or more. */
    method Search(size: nat) returns (ptr: int, ghost i: nat)
      requires Valid() && size <= memSize
      ensures ptr == NULL ==> NoneFits(shadow, |shadow|, lfree, memSize - size, size)
      ensures ptr != NULL ==> && Fits(shadow, i, lfree, memSize - size, size) && ptr == shadow[i].at
                              && NoneFits(shadow, i, lfree, memSize - size, size)
    {
      hide Ascending, Apart, Live, UsedSpan, Represents, LfreeOk, Lowest;
      ghost var first := LfreeIndex(shadow, lfree);
      i := first;
      TiledIs(shadow, memSize);
      var p := lfree;
      BelowFirst(shadow, first, memSize - size, size);
      while p < memSize - size
        invariant first <= i < |shadow| && p == shadow[i].at
        invariant NoneFits(shadow, i, lfree, memSize - size, size)
        decreases |shadow| - i
      {
        HeaderAt(heap[..], shadow, i);
        if heap[p] == 0 && heap[p + 1] - (p + HDR) >= size {
          if first < i { Before(shadow, first, i); }
          return p, i;
        }
        i := i + 1;
        p := heap[p + 1];
      }
      AboveLimit(shadow, i, lfree, memSize - size, size);
      ptr := NULL;
    }

    /** The loop that moves lfree on, from the block at position i. */
    method AdvanceLfree(ghost i: nat) returns (ghost k: nat)
      requires heap.Length == memSize + 2 * HDR && Tiled(shadow, memSize) && Represents(heap[..], shadow)
      requires i < |shadow| && shadow[i].at == lfree
      modifies this`lfree
      ensures i <= k && FreeAt(shadow, k, lfree) && forall j :: i <= j < k ==> shadow[j].used
    {
      hide Tiled, Ascending, Represents;
      TiledIs(shadow, memSize);
      k := i;
      HeaderAt(heap[..], shadow, k);
      while heap[lfree] != 0 && lfree != memSize + HDR
        invariant i <= k < |shadow| && shadow[k].at == lfree && Header(heap[..], shadow, k)
        invariant forall j :: i <= j < k ==> shadow[j].used
        decreases |shadow| - k
      {
        lfree := heap[lfree + 1];
        k := k + 1;
        HeaderAt(heap[..], shadow, k);
      }
      if k < |shadow| - 1 { Before(shadow, k, |shadow| - 1); }
    }

    /** In a heap of less than MIN words a request that is not refused would search for ever. */
    method Malloc(bytes: nat) returns (ptr: int)
      requires Valid()
      requires memSize >= MIN || bytes == 0 || Words(bytes) > memSize
      modifies this, heap
      ensures Valid()
      ensures var n := Needed(Words(bytes));
              ptr == NULL <==> || bytes == 0 || Words(bytes) > memSize
                               || NoneFits(old(shadow), |old(shadow)|, old(lfree), memSize - n, n)
      ensures var n := Needed(Words(bytes));
              old(Lowest(shadow, lfree)) ==>
                (ptr == NULL <==> bytes == 0 || Words(bytes) > memSize || NoneSuits(old(shadow), memSize - n, n))
      ensures ptr == NULL ==> shadow == old(shadow) && heap[..] == old(heap[..]) && lfree == old(lfree)
      ensures ptr != NULL ==>
                var n := Needed(Words(bytes));
                FirstFits(old(shadow), old(lfree), memSize - n, n, ptr - HDR)
      ensures maxMem == if old(maxMem) < usedMem then usedMem else old(maxMem)
      ensures ptr != NULL ==>
                && ptr - HDR !in old(LiveBlocks()) && ptr >= HDR && ptr - HDR in LiveBlocks()
                && Needed(Words(bytes)) <= LiveBlocks()[ptr - HDR] < Needed(Words(bytes)) + HDR + MIN
                && LiveBlocks() == old(LiveBlocks())[ptr - HDR := LiveBlocks()[ptr - HDR]]
      ensures SameData(old(heap[..]), heap[..], old(LiveBlocks()), -1)
      ensures old(Lowest(shadow, lfree)) ==> Lowest(shadow, lfree)
    {
      hide Tiled, Ascending, Apart, Live, UsedSpan, Represents, SameData, Join, Split, LfreeOk, Lowest, Plugged, LfreePlugged, Allocated, Shrunk, NoneFits, NoneSuits, FirstFits;
      ghost var bs, h, l := shadow, heap[..], lfree;
      TiledIs(bs, memSize);
      SameDataItself(h, bs);
      ghost var least := Needed(Words(bytes));
      if Lowest(bs, l) { LowestFindsAny(bs, l, memSize - least, least); }
      if bytes == 0 { return NULL; }
      var size := Words(bytes);
      if size > memSize { return NULL; }
      size := Needed(size);
      ghost var i: nat;
      ptr, i := Search(size);
      if ptr == NULL { return; }
      SomeFits(bs, i, l, memSize - size, size);
      FitsFirst(bs, i, l, memSize - size, size);
      var p: nat := ptr;
      AllocatedKeeps(bs, i, size, memSize);
      shadow := Allocated(bs, i, size);
      TiledIs(shadow, memSize);
      Take(p, size, i, bs);
      if p == lfree {
        ghost var k := AdvanceLfree(i);
        LfreeHolds(shadow, k, lfree);
        LowestAdvanced(bs, shadow, i, k, l, lfree);
      } else {
        LfreeAllocated(bs, shadow, i, l);
      }
      ptr := p + HDR;
      LiveAt(shadow, i);
    }

    /** The part of rt_malloc that takes the block at p, splits it if it can, and counts. */
    method Take(p: nat, size: nat, ghost i: nat, ghost bs: seq<Block>)
      requires heap.Length == memSize + 2 * HDR && Sound(bs, memSize) && Represents(heap[..], bs)
      requires i + 1 < |bs| && bs[i] == Block(p, false) && Room(bs, i) >= size && usedMem <= maxMem
      modifies this`usedMem, this`maxMem, heap
      ensures Represents(heap[..], Allocated(bs, i, size)) && SameData(old(heap[..]), heap[..], Live(bs), -1)
      ensures usedMem == old(usedMem) + (if Room(bs, i) >= size + HDR + MIN then size else Room(bs, i)) + HDR
      ensures maxMem == if old(maxMem) < usedMem then usedMem else old(maxMem)
    {
      hide Tiled, Ascending, Apart, Live, UsedSpan, Represents, SameData, Join, Split, LfreeOk, Lowest;
      TiledIs(bs, memSize);
      HeaderAt(heap[..], bs, i);
      var n := heap[p + 1];
      if n - (p + HDR) >= size + HDR + MIN {
        TakeSplit(p, p + HDR + size, n, i, bs);
        usedMem := usedMem + size + HDR;
      } else {
        TakeWhole(p, i, bs);
        usedMem := usedMem + heap[p + 1] - p;
      }
      if maxMem < usedMem { maxMem := usedMem; }
    }

    method TakeWhole(p: nat, ghost i: nat, ghost bs: seq<Block>)
      requires heap.Length == memSize + 2 * HDR && Tiled(bs, memSize) && Represents(heap[..], bs)
      requires i + 1 < |bs| && bs[i].at == p
      modifies heap
      ensures Represents(heap[..], Mark(bs, i, true)) && SameData(old(heap[..]), heap[..], Live(bs), -1)
      ensures p + 1 < heap.Length && heap[p + 1] == old(heap[p + 1])
    {
      hide Tiled, Ascending, Apart, Live, UsedSpan, Represents, SameData, Mark;
      TiledIs(bs, memSize);
      HeaderAt(heap[..], bs, i);
      MarkRepresents(heap[..], bs, i, true);
      MarkKeepsData(heap[..], bs, i, true);
      heap[p] := 1;
      assert heap[..] == MarkHeap(old(heap[..]), p, true);
    }

    method TakeSplit(p: nat, z: nat, n: nat, ghost i: nat, ghost bs: seq<Block>)
      requires heap.Length == memSize + 2 * HDR && Tiled(bs, memSize) && Represents(heap[..], bs)
      requires i + 1 < |bs| && bs[i] == Block(p, false) && bs[i + 1].at == n && p + HDR <= z && z + HDR <= n
      modifies heap
      ensures Represents(heap[..], Mark(Split(bs, i, z), i, true)) && SameData(old(heap[..]), heap[..], Live(bs), -1)
    {
      hide Tiled, Ascending, Apart, Live, UsedSpan, Represents, SameData, Join, Split, LfreeOk, Lowest;
      ghost var h := heap[..];
      TiledIs(bs, memSize);
      LiveAt(bs, i);
      SplitHere(p, z, n, i, bs);
      SplitKeeps(bs, i, z, memSize);
      LiveSplit(bs, i, z);
      ghost var cs, g := Split(bs, i, z), heap[..];
      TiledIs(cs, memSize);
      MarkRepresents(g, cs, i, true);
      MarkKeepsData(g, cs, i, true);
      heap[p] := 1;
      assert heap[..] == MarkHeap(g, p, true);
      SameDataAll(h, g, Live(bs), p);
      SameDataThen(h, g, heap[..], Live(bs), Live(cs), -1);
    }

    /** A header at z, between the block at p and the one at n. */
    method SplitHere(p: nat, z: nat, n: nat, ghost i: nat, ghost bs: seq<Block>)
      requires heap.Length == memSize + 2 * HDR && Tiled(bs, memSize) && Represents(heap[..], bs)
      requires i + 1 < |bs| && bs[i].at == p && bs[i + 1].at == n && p + HDR <= z && z + HDR <= n
      modifies heap
      ensures Represents(heap[..], Split(bs, i, z)) && SameData(old(heap[..]), heap[..], Live(bs), p)
      ensures forall k :: p + HDR <= k < z ==> heap[k] == old(heap[k])
    {
      hide Tiled, Ascending, Apart, Live, UsedSpan, Represents, SameData, Join, Split, LfreeOk, Lowest;
      ghost var h := heap[..];
      TiledIs(bs, memSize);
      HeaderAt(h, bs, i + 1);
      SplitRepresents(h, bs, i, z);
      SplitKeepsData(h, bs, i, z);
      heap[z], heap[z + 1], heap[z + 2] := 0, n, p;
      heap[p + 1] := z;
      if n != memSize + HDR { heap[n + 2] := z; }
      assert heap[..] == SplitHeap(h, p, z, n, memSize + HDR);
    }
  
    /** The part of rt_realloc that splits the block at p, and frees what is behind z. */
    method ShrinkInPlace(p: nat, size: nat, ghost i: nat)
      requires Valid() && i + 1 < |shadow| && shadow[i] == Block(p, true) && size + HDR <= Room(shadow, i)
      modifies this, heap
      ensures Valid() && shadow == Shrunk(old(shadow), i, size)
      ensures LiveBlocks() == old(LiveBlocks())[p := size]
      ensures SameData(old(heap[..]), heap[..], old(LiveBlocks()), p)
      ensures p + HDR + size <= heap.Length && forall k :: p + HDR <= k < p + HDR + size ==> heap[k] == old(heap[k])
      ensures old(Lowest(shadow, lfree)) ==>
                (Lowest(shadow, lfree) <==>
                   old(lfree) < p + HDR + size || old(lfree == shadow[i + 1].at && !shadow[i + 1].used))
    {
      hide Tiled, Ascending, Apart, Live, UsedSpan, Represents, SameData, Join, Split, LfreeOk, Lowest, Plugged, LfreePlugged;
      ghost var bs, h := shadow, heap[..];
      TiledIs(bs, memSize);
      HeaderAt(h, bs, i);
      HeaderAt(h, bs, i + 1);
      var n := heap[p + 1];
      var z := p + HDR + size;
      ShrunkKeeps(bs, i, size, memSize);
      LfreeShrunk(bs, i, size, lfree, memSize);
      if Lowest(bs, lfree) { LowestShrunk(bs, i, size, lfree, memSize); }
      SplitKeeps(bs, i, z, memSize);
      ApartSplit(bs, i, z);
      LiveSplit(bs, i, z);
      usedMem := usedMem - (n - p - HDR - size);
      SplitHere(p, z, n, i, bs);
      shadow := Split(bs, i, z);
      ghost var g := heap[..];
      PlugHoles(z, i + 1);
      UserDataIs(g, heap[..], Live(Split(bs, i, z)), -1, p);
      SameDataBut(g, heap[..], Live(Split(bs, i, z)), p);
      SameDataThen(h, g, heap[..], Live(bs), Live(Split(bs, i, z)), p);
    }

    method Realloc(rmem: int, bytes: nat) returns (r: int)
      requires Valid() && (rmem < 0 || rmem >= memSize + HDR || rmem - HDR in LiveBlocks())
      requires memSize >= MIN || bytes == 0 || Words(bytes) > memSize
      modifies this, heap
      ensures Valid()
      ensures Words(bytes) > memSize ==> r == NULL
      ensures rmem != NULL && (rmem < 0 || rmem >= memSize + HDR) && Words(bytes) <= memSize ==>
                r == rmem && LiveBlocks() == old(LiveBlocks())
      ensures Words(bytes) <= memSize && rmem == NULL ==>
                (r == NULL <==> Refused(old(shadow), old(lfree), memSize, Words(bytes)))
      ensures Words(bytes) <= memSize && 0 <= rmem < memSize + HDR ==>
                if Moves(old(LiveBlocks())[rmem - HDR], Words(bytes))
                then r == NULL <==> Refused(old(shadow), old(lfree), memSize, Words(bytes))
                else r == rmem && LiveBlocks() == old(LiveBlocks())[rmem - HDR := Words(bytes)]
      ensures r == NULL ==> LiveBlocks() == old(LiveBlocks()) && SameData(old(heap[..]), heap[..], old(LiveBlocks()), -1)
      ensures r != NULL && rmem == NULL ==>
                && r - HDR !in old(LiveBlocks()) && r - HDR in LiveBlocks() && LiveBlocks()[r - HDR] >= Words(bytes)
                && LiveBlocks() == old(LiveBlocks())[r - HDR := LiveBlocks()[r - HDR]]
                && SameData(old(heap[..]), heap[..], old(LiveBlocks()), -1)
      ensures r != NULL && 0 <= rmem < memSize + HDR ==>
                && Moved(old(LiveBlocks()), LiveBlocks(), rmem - HDR, r - HDR, Words(bytes))
                && SameData(old(heap[..]), heap[..], old(LiveBlocks()), rmem - HDR)
                && SameWords(old(heap[..]), rmem, heap[..], r, Lesser(old(LiveBlocks())[rmem - HDR], Words(bytes)))
    {
      hide Tiled, Ascending, Apart, Live, UsedSpan, Represents, SameData, Join, Split, LfreeOk, Lowest, Plugged, LfreePlugged, Moved, SameWords, NoneFits, NoneSuits, Fits, Sound;
      ghost var bs, h := shadow, heap[..];
      SoundIs(bs, memSize);
      TiledIs(bs, memSize);
      SameDataItself(h, bs);
      var size := Words(bytes);
      if size > memSize { return NULL; }
      if rmem == NULL {
        r := Malloc(4 * size);
        return;
      }
      if rmem < 0 || rmem >= memSize + HDR { return rmem; }
      var p := rmem - HDR;
      ghost var i := LiveIndex(bs, p);
      HeaderAt(h, bs, i);
      DataFits(h, bs, p);
      SameDataBut(h, h, Live(bs), p);
      var room := heap[p + 1] - p - HDR;
      if room == size {
        MovedNowhere(Live(bs), Live(bs), p, size);
        SameWordsThere(h, heap[..], rmem, size);
        return rmem;
      }
      if size + HDR + MIN < room {
        ShrinkInPlace(p, size, i);
        MovedNowhere(Live(bs), LiveBlocks(), p, size);
        SameWordsThere(h, heap[..], rmem, size);
        return rmem;
      }
      r := MoveTo(rmem, size);
    }

    /** The part of rt_realloc that allocates, copies and frees. */
    method MoveTo(rmem: nat, size: nat) returns (r: int)
      requires Valid() && HDR <= rmem < memSize + HDR && rmem - HDR in LiveBlocks() && size <= memSize
      requires memSize >= MIN || size == 0
      modifies this, heap
      ensures Valid()
      ensures r == NULL <==> Refused(old(shadow), old(lfree), memSize, size)
      ensures r == NULL ==> LiveBlocks() == old(LiveBlocks()) && SameData(old(heap[..]), heap[..], old(LiveBlocks()), -1)
      ensures r != NULL ==>
                && Moved(old(LiveBlocks()), LiveBlocks(), rmem - HDR, r - HDR, size)
                && SameData(old(heap[..]), heap[..], old(LiveBlocks()), rmem - HDR)
                && SameWords(old(heap[..]), rmem, heap[..], r, Lesser(old(LiveBlocks())[rmem - HDR], size))
    {
      hide Tiled, Ascending, Apart, Live, UsedSpan, Represents, SameData, LfreeOk, Lowest, SameWords, Moved, NoneFits;
      ghost var h, live := heap[..], LiveBlocks();
      var p := rmem - HDR;
      var room := RoomOf(p);
      r := Malloc(4 * size);
      if r == NULL { return; }
      ghost var g := heap[..];
      var n := if room < size then room else size;
      CopyBlock(r, rmem, n);
      ghost var k, now := heap[..], LiveBlocks();
      Free(rmem);
      DataMoved(h, g, k, heap[..], live, now, p, r - HDR, n);
      MovedIs(live, now, LiveBlocks(), p, r - HDR, size);
    }

    method RoomOf(p: nat) returns (room: nat)
      requires Valid() && p in LiveBlocks()
      ensures room == LiveBlocks()[p]
    {
      hide Tiled, Ascending, Apart, Live, UsedSpan, Represents, SameData, LfreeOk, Lowest;
      ghost var i := LiveIndex(shadow, p);
      TiledIs(shadow, memSize);
      HeaderAt(heap[..], shadow, i);
      DataFits(heap[..], shadow, p);
      room := heap[p + 1] - p - HDR;
    }

    /** rt_memcpy from one live block to another. */
    method CopyBlock(dst: nat, src: nat, n: nat)
      requires Valid() && dst >= HDR && src >= HDR && dst != src && dst - HDR in LiveBlocks() && src - HDR in LiveBlocks()
      requires n <= LiveBlocks()[dst - HDR] && n <= LiveBlocks()[src - HDR]
      modifies heap
      ensures Valid() && SameWords(old(heap[..]), src, heap[..], dst, n)
      ensures SameData(old(heap[..]), heap[..], LiveBlocks(), dst - HDR)
    {
      hide Tiled, Ascending, Apart, Live, UsedSpan, Represents, SameData, Join, Split, LfreeOk, Lowest, Plugged, LfreePlugged;
      TiledIs(shadow, memSize);
      DataApart(heap[..], shadow, dst - HDR, src - HDR);
      CopyWords(dst, src, n, shadow);
    }

    /** rt_memcpy into the user data of the live block at dst. */
    method CopyWords(dst: nat, src: nat, n: nat, ghost bs: seq<Block>)
      requires Represents(heap[..], bs) && Ascending(bs) && dst >= HDR && dst - HDR in Live(bs) && n <= Live(bs)[dst - HDR]
      requires dst + n <= heap.Length && src + n <= heap.Length && (dst + n <= src || src + n <= dst)
      modifies heap
      ensures SameWords(old(heap[..]), src, heap[..], dst, n)
      ensures Represents(heap[..], bs) && SameData(old(heap[..]), heap[..], Live(bs), dst - HDR)
    {
      hide Ascending, Live, Represents, SameData;
      ghost var h := heap[..];
      var i := 0;
      while i < n
        invariant i <= n
        invariant forall k :: dst <= k < dst + i ==> heap[k] == h[k - dst + src]
        invariant forall k :: 0 <= k < heap.Length && !(dst <= k < dst + i) ==> heap[k] == h[k]
      {
        heap[dst + i] := heap[src + i];
        i := i + 1;
      }
      UserDataOnly(h, heap[..], bs, dst - HDR, n);
    }
  }

  lemma UserDataIs(h: seq<int>, r: seq<int>, live: map<nat, int>, x: int, p: nat)
    requires SameData(h, r, live, x) && p in live && p != x
    ensures |r| == |h| && p + HDR + live[p] <= |h| && forall k :: p + HDR <= k < p + HDR + live[p] ==> r[k] == h[k]
  {
  }

  /** A block is allocated, filled from the one at p, and that one is freed. */
  lemma DataMoved(h: seq<int>, g: seq<int>, k: seq<int>, f: seq<int>, live: map<nat, int>, now: map<nat, int>, p: nat, q: nat, n: int)
    requires SameData(h, g, live, -1) && SameData(g, k, now, q) && SameData(k, f, now, p)
    requires p in live && q !in live && q in now && forall x <- live :: x in now && now[x] == live[x]
    requires SameWords(g, p + HDR, k, q + HDR, n) && n <= live[p] && n <= now[q]
    ensures SameData(h, f, live, p) && SameWords(h, p + HDR, f, q + HDR, n)
  {
    hide SameData;
    UserDataIs(h, g, live, -1, p);
    SameDataBut(h, g, live, p);
    SameDataOfOthers(g, k, now, live, q, p);
    SameDataThen(h, g, k, live, live, p);
    UserDataIs(k, f, now, p, q);
    SameDataThen(h, k, f, live, now, p);
  }

  /** A request of so many words that rt_malloc refuses. */
  predicate Refused(bs: seq<Block>, lfree: int, memSize: nat, words: nat) {
    words == 0 || NoneFits(bs, |bs|, lfree, memSize - Needed(words), Needed(words))
  }

  /** Where rt_realloc of a block of `room` words looks for another place. */
  predicate Moves(room: int, words: nat) {
    words != room && room <= words + HDR + MIN
  }

  /** A realloc to a smaller size can fail: in a heap of 30 words that one block fills, 27 words cannot be cut
      off in place, and are nowhere else. */
  lemma SmallerReallocFails()
    ensures var bs, memSize := [Block(0, true), Block(33, true)], 30;
            && Sound(bs, memSize) && LfreeOk(bs, 33) && Lowest(bs, 33) && 0 in Live(bs) && Live(bs)[0] == 30
            && Moves(30, 27) && Refused(bs, 33, memSize, 27)
  {
    var bs := [Block(0, true), Block(33, true)];
    assert FreeAt(bs, 1, 33) && Fine(bs, 0);
    assert bs[1..] == [Block(33, true)];
  }

  /** A smaller size is refused exactly if the difference is too small to be cut off, and malloc refuses it. */
  lemma SmallerRefusedIff(bs: seq<Block>, lfree: int, memSize: nat, room: int, words: nat)
    requires words < room && Lowest(bs, lfree)
    ensures Moves(room, words) && Refused(bs, lfree, memSize, words)
            <==> room - words <= HDR + MIN && (words == 0 || NoneSuits(bs, memSize - Needed(words), Needed(words)))
  {
    hide Lowest, NoneFits, NoneSuits;
    LowestFindsAny(bs, lfree, memSize - Needed(words), Needed(words));
  }

  lemma SoundIs(bs: seq<Block>, memSize: nat)
    requires Sound(bs, memSize)
    ensures Tiled(bs, memSize)
  {
  }

  lemma MovedNowhere(before: map<nat, int>, after: map<nat, int>, p: nat, n: nat)
    requires p in before && p in after && after[p] >= n && after == before[p := after[p]]
    ensures Moved(before, after, p, p, n)
  {
  }

  lemma SameWordsThere(h: seq<int>, g: seq<int>, at: int, n: int)
    requires 0 <= at && at + n <= |h| && |g| == |h| && forall k :: at <= k < at + n ==> g[k] == h[k]
    ensures SameWords(h, at, g, at, n)
  {
  }

  lemma MovedIs(live: map<nat, int>, now: map<nat, int>, after: map<nat, int>, p: nat, q: nat, n: nat)
    requires p in live && q !in live && q in now && now == live[q := now[q]] && now[q] >= n && after == now - {p}
    ensures Moved(live, after, p, q, n)
  {
  }

  /** Writing into the user data of a live block changes no header and no other user data. */
  lemma UserDataOnly(h: seq<int>, r: seq<int>, bs: seq<Block>, q: nat, n: nat)
    requires Represents(h, bs) && Ascending(bs) && q in Live(bs) && n <= Live(bs)[q] && |r| == |h|
    requires forall k :: 0 <= k < |h| && !(q + HDR <= k < q + HDR + n) ==> r[k] == h[k]
    ensures Represents(r, bs) && SameData(h, r, Live(bs), q)
  {
    hide Ascending, Live, Represents;
    forall i | 0 <= i < |bs|
      ensures Header(r, bs, i)
    {
      HeaderAt(h, bs, i);
      NotUserData(bs, q, i, bs[i].at);
      NotUserData(bs, q, i, bs[i].at + 1);
      NotUserData(bs, q, i, bs[i].at + 2);
    }
    MakeRepresents(r, bs);
    forall p | p in Live(bs) && p != q
      ensures p + HDR + Live(bs)[p] <= |h| && forall k :: p + HDR <= k < p + HDR + Live(bs)[p] ==> r[k] == h[k]
    {
      DataFits(h, bs, p);
      DataApart(h, bs, p, q);
    }
  }

  lemma MakeRepresents(r: seq<int>, bs: seq<Block>)
    requires forall i {:trigger Header(r, bs, i)} :: 0 <= i < |bs| ==> Header(r, bs, i)
    ensures Represents(r, bs)
  {
  }

  /** Live blocks do not overlap. */
  lemma DataApart(h: seq<int>, bs: seq<Block>, p: nat, q: nat)
    requires Represents(h, bs) && Ascending(bs) && p in Live(bs) && q in Live(bs) && p != q
    ensures p + HDR + Live(bs)[p] <= q || q + HDR + Live(bs)[q] <= p
    ensures 0 <= Live(bs)[p] && p + HDR + Live(bs)[p] <= |h| && 0 <= Live(bs)[q] && q + HDR + Live(bs)[q] <= |h|
  {
    hide Ascending, Live, Represents;
    DataFits(h, bs, p);
    DataFits(h, bs, q);
    var i := LiveIndex(bs, p);
    var j := LiveIndex(bs, q);
    if i < j { Before(bs, i, j); } else if j < i { Before(bs, j, i); }
  }

  lemma SameDataOfOthers(h: seq<int>, r: seq<int>, live: map<nat, int>, fewer: map<nat, int>, q: nat, p: int)
    requires SameData(h, r, live, q) && q !in fewer && forall x <- fewer :: x in live && live[x] == fewer[x]
    ensures SameData(h, r, fewer, p)
  {
  }

  /** The live block at p is now at q, with at least n words; no other one changes. */
  predicate Moved(before: map<nat, int>, after: map<nat, int>, p: int, q: int, n: nat) {
    && q in after && after[q] >= n && (q == p || q !in before)
    && after == (map x | x in before && x != p :: before[x])[q := after[q]]
  }

  predicate SameWords(h: seq<int>, p: int, r: seq<int>, q: int, n: int) {
    && 0 <= p && p + n <= |h| && 0 <= q && q + n <= |r|
    && forall k :: q <= k < q + n ==> r[k] == h[k - q + p]
  }

  function Lesser(a: int, b: int): int { if a < b then a else b }

  lemma SameDataAll(h: seq<int>, r: seq<int>, live: map<nat, int>, x: nat)
    requires SameData(h, r, live, x) && x !in live
    ensures SameData(h, r, live, -1)
  {
  }

  /** None of the first `upto` blocks fits. */
  predicate NoneFits(bs: seq<Block>, upto: nat, lfree: int, limit: int, size: nat) {
    forall j {:trigger Fits(bs, j, lfree, limit, size)} :: 0 <= j < upto ==> !Fits(bs, j, lfree, limit, size)
  }

  lemma SomeFits(bs: seq<Block>, i: nat, lfree: int, limit: int, size: nat)
    requires Fits(bs, i, lfree, limit, size)
    ensures !NoneFits(bs, |bs|, lfree, limit, size)
  {
  }

  /** Another block than the lowest free one is taken. */
  lemma LfreeAllocated(bs: seq<Block>, r: seq<Block>, i: nat, lfree: int)
    requires LfreeOk(bs, lfree) && Ascending(bs) && Ascending(r) && i + 1 < |bs| && i < |r| && r[..i] == bs[..i]
    requires lfree < bs[i].at == r[i].at
    ensures LfreeOk(r, lfree) && (Lowest(bs, lfree) ==> Lowest(r, lfree))
  {
    var k := LfreeIndex(bs, lfree);
    assert k < i;
    assert forall j :: 0 <= j < i ==> r[j] == bs[j] by { assert forall j :: 0 <= j < i ==> r[..i][j] == bs[..i][j]; }
    LfreeHolds(r, k, lfree);
  }

  /** The lowest free block is taken, and lfree moves on to the next one. */
  lemma LowestAdvanced(bs: seq<Block>, r: seq<Block>, i: nat, k: nat, before: int, lfree: int)
    requires Ascending(bs) && Ascending(r) && i + 1 < |bs| && i <= k < |r| && r[..i] == bs[..i]
    requires bs[i].at == before && r[k].at == lfree && forall j :: i <= j < k ==> r[j].used
    ensures Lowest(bs, before) ==> Lowest(r, lfree)
  {
    if Lowest(bs, before) {
      forall j | 0 <= j < |r| && r[j].at < lfree
        ensures r[j].used
      {
        if j < i { assert r[..i][j] == bs[..i][j]; }
      }
    }
  }

  lemma BelowFirst(bs: seq<Block>, first: nat, limit: int, size: nat)
    requires Ascending(bs) && first < |bs|
    ensures NoneFits(bs, first, bs[first].at, limit, size)
  {
  }

  lemma AboveLimit(bs: seq<Block>, i: nat, lfree: int, limit: int, size: nat)
    requires Ascending(bs) && i < |bs| && bs[i].at >= limit
    ensures NoneFits(bs, i, lfree, limit, size) ==> NoneFits(bs, |bs|, lfree, limit, size)
  {
  }

  lemma SameDataBut(h: seq<int>, r: seq<int>, live: map<nat, int>, x: int)
    requires SameData(h, r, live, -1)
    ensures SameData(h, r, live, x)
  {
  }

  lemma SameDataItself(h: seq<int>, bs: seq<Block>)
    requires Represents(h, bs) && Ascending(bs)
    ensures SameData(h, h, Live(bs), -1)
  {
    hide Represents, Ascending, Live;
    forall q | q in Live(bs)
      ensures q + HDR + Live(bs)[q] <= |h|
    {
      DataFits(h, bs, q);
    }
  }
}
