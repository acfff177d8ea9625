/** The memory heap of src/memheap.c: rt_memheap_init, rt_memheap_alloc, rt_memheap_realloc and
    rt_memheap_free.

    A block is known by the offset of its header in the pool. The links of all headers are two
    memories of next and prev fields, one for the list of blocks and one for the free list.
  */
module MemHeap {
  import opened RtList

  /** RT_MEMHEAP_SIZE, RT_MEMHEAP_MINIALLOC and RT_ALIGN_SIZE. */
  const SIZE := 24
  const MINIALLOC := 12
  const ALIGN := 4

  /** The free_header of struct rt_memheap, and RT_NULL. */
  const HEAD := -1
  const NULL := -2

  datatype State = State(
    links: Links, freeLinks: Links, used: map<Addr, bool>, poolSize: int, available: int, maxUsed: int)

  /** The blocks in the order of their addresses, and the free list. */
  datatype Abs = Abs(blocks: seq<Addr>, frees: seq<Addr>)

  function AlignUp(size: nat): (r: nat)
    ensures size <= r < size + ALIGN && r % ALIGN == 0
  {
    (size + ALIGN - 1) / ALIGN * ALIGN
  }

  function Request(size: nat): (r: nat)
    ensures r >= size && r >= MINIALLOC && r % ALIGN == 0
  {
    if AlignUp(size) < MINIALLOC then MINIALLOC else AlignUp(size)
  }

  predicate InUse(used: map<Addr, bool>, x: Addr) {
    x in used && used[x]
  }

  // ---------------------------------------------------------------- tilings

  /** The blocks tile the pool, from its start to the header of the used block at its end. */
  predicate Tiled(blocks: seq<Addr>, poolSize: int) {
    && |blocks| >= 2 && blocks[0] == 0 && blocks[|blocks| - 1] == poolSize - SIZE
    && Ascending(blocks)
    && (forall b <- blocks :: b % ALIGN == 0)
  }

  predicate Ascending(blocks: seq<Addr>) {
    forall i, j :: 0 <= i < j < |blocks| ==> blocks[i] + SIZE <= blocks[j]
  }

  /** What an unused block from x to y offers. */
  function Gap(used: map<Addr, bool>, x: Addr, y: Addr): int {
    if InUse(used, x) then 0 else y - x - SIZE
  }

  /** The bytes in unused blocks. */
  function FreeBytes(blocks: seq<Addr>, used: map<Addr, bool>): int {
    if |blocks| <= 1 then 0 else Gap(used, blocks[0], blocks[1]) + FreeBytes(blocks[1..], used)
  }

  /** The used blocks but the last, and their sizes. */
  function Live(blocks: seq<Addr>, used: map<Addr, bool>): map<Addr, int> {
    if |blocks| <= 1 then map[]
    else
      var rest := Live(blocks[1..], used);
      if InUse(used, blocks[0]) then rest[blocks[0] := blocks[1] - blocks[0] - SIZE] else rest
  }

  lemma {:induction false} FreeBytesInserted(blocks: seq<Addr>, used: map<Addr, bool>, k: nat, z: Addr)
    requires k + 1 < |blocks|
    ensures FreeBytes(Inserted(blocks, k + 1, z), used)
            == FreeBytes(blocks, used) - Gap(used, blocks[k], blocks[k + 1])
               + Gap(used, blocks[k], z) + Gap(used, z, blocks[k + 1])
  {
    var r := Inserted(blocks, k + 1, z);
    if k == 0 {
      assert r[1..] == [z] + blocks[1..];
      assert r[1..][1..] == blocks[1..];
    } else {
      FreeBytesInserted(blocks[1..], used, k - 1, z);
      assert r[1..] == Inserted(blocks[1..], k, z);
      assert r[0] == blocks[0] && r[1] == blocks[1];
      hide Inserted, Gap;
    }
  }

  lemma {:induction false} FreeBytesElsewhere(blocks: seq<Addr>, used: map<Addr, bool>, x: Addr, v: bool)
    requires x !in blocks
    ensures FreeBytes(blocks, used[x := v]) == FreeBytes(blocks, used)
  {
    if |blocks| > 1 {
      assert blocks[0] in blocks;
      FreeBytesElsewhere(blocks[1..], used, x, v);
    }
  }

  lemma {:induction false} FreeBytesMarked(blocks: seq<Addr>, used: map<Addr, bool>, k: nat, v: bool)
    requires Unique(blocks) && k + 1 < |blocks|
    ensures FreeBytes(blocks, used[blocks[k] := v])
            == FreeBytes(blocks, used) - Gap(used, blocks[k], blocks[k + 1])
               + Gap(used[blocks[k] := v], blocks[k], blocks[k + 1])
  {
    if k == 0 {
      FreeBytesElsewhere(blocks[1..], used, blocks[0], v);
    } else {
      assert blocks[0] != blocks[k];
      FreeBytesMarked(blocks[1..], used, k - 1, v);
    }
  }

  lemma {:induction false} LiveKeys(blocks: seq<Addr>, used: map<Addr, bool>)
    ensures forall p <- Live(blocks, used) :: p in blocks
  {
    if |blocks| > 1 { LiveKeys(blocks[1..], used); }
  }

  lemma {:induction false} LiveAt(blocks: seq<Addr>, used: map<Addr, bool>, k: nat)
    requires Unique(blocks) && k + 1 < |blocks| && InUse(used, blocks[k])
    ensures blocks[k] in Live(blocks, used) && Live(blocks, used)[blocks[k]] == blocks[k + 1] - blocks[k] - SIZE
  {
    if k > 0 {
      LiveAt(blocks[1..], used, k - 1);
      assert blocks[k] != blocks[0];
    }
  }

  lemma {:induction false} LiveElsewhere(blocks: seq<Addr>, used: map<Addr, bool>, x: Addr, v: bool)
    requires x !in blocks
    ensures Live(blocks, used[x := v]) == Live(blocks, used)
  {
    if |blocks| > 1 {
      assert blocks[0] in blocks;
      LiveElsewhere(blocks[1..], used, x, v);
    }
  }

  /** Marking a block changes what is live by this block alone. */
  lemma {:induction false} LiveMarked(blocks: seq<Addr>, used: map<Addr, bool>, k: nat, v: bool)
    requires Unique(blocks) && k + 1 < |blocks|
    ensures Live(blocks, used[blocks[k] := v])
            == if v then Live(blocks, used)[blocks[k] := blocks[k + 1] - blocks[k] - SIZE] else Live(blocks, used) - {blocks[k]}
  {
    var x, rest := blocks[k], blocks[1..];
    if k == 0 {
      assert x !in rest;
      LiveElsewhere(rest, used, x, v);
      LiveKeys(rest, used);
    } else {
      assert blocks[0] != x;
      LiveMarked(rest, used, k - 1, v);
    }
  }

  /** So does an unused block put behind a block, or taken away behind it, and not even that if the
      other is unused. */
  lemma {:induction false} LiveInserted(blocks: seq<Addr>, used: map<Addr, bool>, k: nat, z: Addr)
    requires Unique(blocks) && k + 1 < |blocks| && !InUse(used, z)
    ensures Live(Inserted(blocks, k + 1, z), used)
            == if InUse(used, blocks[k]) then Live(blocks, used)[blocks[k] := z - blocks[k] - SIZE] else Live(blocks, used)
  {
    var r := Inserted(blocks, k + 1, z);
    if k == 0 {
      assert r[1..] == [z] + blocks[1..];
      assert r[1..][1..] == blocks[1..];
    } else {
      assert blocks[0] != blocks[k];
      LiveInserted(blocks[1..], used, k - 1, z);
      assert r[1..] == Inserted(blocks[1..], k, z);
      assert r[0] == blocks[0] && r[1] == blocks[1];
    }
  }

  lemma {:induction false} LiveRemoved(blocks: seq<Addr>, used: map<Addr, bool>, k: nat)
    requires Unique(blocks) && 0 < k < |blocks| - 1 && !InUse(used, blocks[k])
    ensures var p := blocks[k - 1];
            Live(Removed(blocks, k), used)
            == if InUse(used, p) then Live(blocks, used)[p := blocks[k + 1] - p - SIZE] else Live(blocks, used)
  {
    var r := Removed(blocks, k);
    if k == 1 {
      assert r[1..] == blocks[2..] && blocks[1..][1..] == blocks[2..];
    } else {
      assert blocks[0] != blocks[k - 1];
      LiveRemoved(blocks[1..], used, k - 1);
      assert r[1..] == Removed(blocks[1..], k - 1);
      assert r[0] == blocks[0] && r[1] == blocks[1];
    }
  }

  // ---------------------------------------------------------------- operations

  /** MEMITEM_SIZE. */
  function Payload(s: State, x: Addr): int {
    Next(s.links, x) - x - SIZE
  }

  function Max(a: int, b: int): int { if a > b then a else b }

  /** The available bytes become less by n. */
  function Spend(s: State, n: int): State {
    s.(available := s.available - n, maxUsed := Max(s.maxUsed, s.poolSize - (s.available - n)))
  }

  function Gain(s: State, n: int): State {
    s.(available := s.available + n)
  }

  /** Takes x off the free list; its own fields become RT_NULL. */
  function Unlist(s: State, x: Addr): State {
    var l := Detach(s.freeLinks, x);
    s.(freeLinks := Links(l.next[x := NULL], l.prev[x := NULL]))
  }

  /** Takes x off the free list, and leaves its own fields. */
  function Drop(s: State, x: Addr): State {
    s.(freeLinks := Detach(s.freeLinks, x))
  }

  function List(s: State, x: Addr): State {
    s.(freeLinks := InsertAfter(s.freeLinks, HEAD, x))
  }

  function Mark(s: State, x: Addr, used: bool): State {
    s.(used := s.used[x := used])
  }

  /** A new unused block z behind x. */
  function Cut(s: State, x: Addr, z: Addr): State {
    Mark(s.(links := InsertAfter(s.links, x, z)), z, false)
  }

  /** Block x becomes part of the one before it. */
  function Join(s: State, x: Addr): State {
    s.(links := Detach(s.links, x))
  }

  /** rt_memheap_init. */
  function Init(size: nat): State {
    var pool := size / ALIGN * ALIGN;
    var tail := pool - SIZE;
    State(Links(map[0 := tail, tail := 0], map[0 := tail, tail := 0]),
          Links(map[HEAD := 0, 0 := HEAD], map[HEAD := 0, 0 := HEAD]),
          map[0 := false, tail := true], pool, pool - 2 * SIZE, 2 * SIZE)
  }

  /** rt_memheap_alloc, once it has found an unused block x of at least size bytes. */
  function AllocAt(s: State, x: Addr, size: nat): State {
    if Payload(s, x) >= size + SIZE + MINIALLOC then
      var z := x + size + SIZE;
      Mark(Spend(List(Unlist(Cut(s, x, z), x), z), size + SIZE), x, true)
    else
      Mark(Unlist(Spend(s, Payload(s, x)), x), x, true)
  }

  /** rt_memheap_free of the block x. */
  function Free(s: State, x: Addr): State {
    var s1 := Gain(Mark(s, x, false), Payload(s, x));
    var p := Prev(s1.links, x);
    if !InUse(s1.used, p) then FreeRight(Join(Gain(s1, SIZE), x), p)
    else List(FreeRight(s1, x), x)
  }

  /** The second half of rt_memheap_free. */
  function FreeRight(s: State, x: Addr): State {
    var y := Next(s.links, x);
    if !InUse(s.used, y) then Drop(Join(Gain(s, SIZE), y), y) else s
  }

  /** rt_memheap_realloc can grow x in place. */
  predicate Grows(s: State, x: Addr, size: nat) {
    var y := Next(s.links, x);
    !InUse(s.used, y) && Payload(s, y) + Payload(s, x) > size + MINIALLOC
  }

  function Grow(s: State, x: Addr, size: nat): State {
    var y, z := Next(s.links, x), x + SIZE + size;
    List(Cut(Join(Drop(Spend(s, size - Payload(s, x)), y), y), x, z), z)
  }

  function Shrink(s: State, x: Addr, size: nat): State {
    var z := x + size + SIZE;
    var s1 := Cut(s, x, z);
    var y := Next(s1.links, z);
    var s2 := if !InUse(s1.used, y) then Drop(Join(Gain(s1, -Payload(s1, y)), y), y) else s1;
    var s3 := List(s2, z);
    Gain(s3, Payload(s3, z))
  }

  // ---------------------------------------------------------------- invariant

  /** The free list has the unused blocks, but for x if that is not listed yet. */
  predicate Listed(a: Abs, used: map<Addr, bool>, x: Addr, listed: bool) {
    && (forall f <- a.frees :: f in a.blocks && !InUse(used, f) && (f == x ==> listed))
    && (forall b <- a.blocks :: !InUse(used, b) && (b == x ==> listed) ==> b in a.frees)
  }

  /** The block at position i and the next one are not both unused, but for x. */
  predicate Fine(blocks: seq<Addr>, used: map<Addr, bool>, x: Addr, left: bool, i: nat)
    requires i + 1 < |blocks|
  {
    InUse(used, blocks[i]) || InUse(used, blocks[i + 1]) || blocks[i] == x || (left && blocks[i + 1] == x)
  }

  /** No two unused blocks touch, but for x with its neighbour on the right, and on the left if left. */
  predicate Apart(blocks: seq<Addr>, used: map<Addr, bool>, x: Addr, left: bool) {
    forall i {:trigger Fine(blocks, used, x, left, i)} :: 0 <= i < |blocks| - 1 ==> Fine(blocks, used, x, left, i)
  }

  /** Everything but the place of x, an unused block, in the free list and its touching others. */
  predicate Loose(s: State, a: Abs, x: Addr, listed: bool, left: bool) {
    && Tiled(a.blocks, s.poolSize)
    && InUse(s.used, s.poolSize - SIZE)
    && Ring(s.links, a.blocks)
    && Ring(s.freeLinks, [HEAD] + a.frees)
    && Listed(a, s.used, x, listed)
    && Apart(a.blocks, s.used, x, left)
    && s.available == FreeBytes(a.blocks, s.used)
  }

  predicate Inv(s: State, a: Abs) {
    Loose(s, a, NULL, true, true) && s.maxUsed >= s.poolSize - s.available
  }

  // ---------------------------------------------------------------- tilings under the operations

  lemma AscendingIsUnique(blocks: seq<Addr>)
    requires Ascending(blocks)
    ensures Unique(blocks)
  {
  }

  lemma AscendingOfTiled(blocks: seq<Addr>, poolSize: int)
    requires Tiled(blocks, poolSize)
    ensures Unique(blocks) && |blocks| >= 2
  {
  }

  lemma AscendingInserted(blocks: seq<Addr>, k: nat, z: Addr)
    requires Ascending(blocks) && k + 1 < |blocks| && blocks[k] + SIZE <= z && z + SIZE <= blocks[k + 1]
    ensures z !in blocks && Ascending(Inserted(blocks, k + 1, z))
  {
    var r := Inserted(blocks, k + 1, z);
    hide Inserted;
    forall i | 0 <= i < |blocks|
      ensures if i <= k then blocks[i] + SIZE <= z else z + SIZE <= blocks[i]
    {
      assert i < k ==> blocks[i] + SIZE <= blocks[k];
      assert i > k + 1 ==> blocks[k + 1] + SIZE <= blocks[i];
    }
    forall i, j | 0 <= i < j < |r|
      ensures r[i] + SIZE <= r[j]
    {
    }
  }

  lemma TiledInserted(blocks: seq<Addr>, poolSize: int, k: nat, z: Addr)
    requires Tiled(blocks, poolSize) && k + 1 < |blocks| && z % ALIGN == 0
    requires blocks[k] + SIZE <= z && z + SIZE <= blocks[k + 1]
    ensures z !in blocks && Tiled(Inserted(blocks, k + 1, z), poolSize)
  {
    AscendingInserted(blocks, k, z);
    hide Ascending;
  }

  lemma TiledRemoved(blocks: seq<Addr>, poolSize: int, k: nat)
    requires Tiled(blocks, poolSize) && 0 < k < |blocks| - 1
    ensures Tiled(Removed(blocks, k), poolSize)
    ensures forall y :: y in Removed(blocks, k) <==> y in blocks && y != blocks[k]
  {
    AscendingIsUnique(blocks);
    UniqueRemoved(blocks, k);
    var r := Removed(blocks, k);
    hide Removed;
    assert Ascending(r);
  }

  lemma {:induction false} FreeBytesRemoved(blocks: seq<Addr>, used: map<Addr, bool>, k: nat)
    requires 0 < k < |blocks| - 1
    ensures FreeBytes(Removed(blocks, k), used)
            == FreeBytes(blocks, used) - Gap(used, blocks[k - 1], blocks[k]) - Gap(used, blocks[k], blocks[k + 1])
               + Gap(used, blocks[k - 1], blocks[k + 1])
  {
    var r := Removed(blocks, k);
    if k == 1 {
      assert r[1..] == blocks[2..] && blocks[1..][1..] == blocks[2..];
    } else {
      FreeBytesRemoved(blocks[1..], used, k - 1);
      assert r[1..] == Removed(blocks[1..], k - 1);
      assert r[0] == blocks[0] && r[1] == blocks[1];
      hide Removed, Gap;
    }
  }

  // ---------------------------------------------------------------- the free list under the operations

  lemma ListKeepsRing(s: State, frees: seq<Addr>, x: Addr)
    requires Ring(s.freeLinks, [HEAD] + frees) && x !in frees && x != HEAD
    ensures Ring(List(s, x).freeLinks, [HEAD] + ([x] + frees))
  {
    var ns := [HEAD] + frees;
    InsertKeepsRing(s.freeLinks, ns, 0, x);
    assert Inserted(ns, 1, x) == [HEAD] + ([x] + frees);
  }

  lemma DropKeepsRing(s: State, frees: seq<Addr>, j: nat)
    requires Ring(s.freeLinks, [HEAD] + frees) && j < |frees|
    ensures Ring(Drop(s, frees[j]).freeLinks, [HEAD] + Removed(frees, j))
    ensures Ring(Unlist(s, frees[j]).freeLinks, [HEAD] + Removed(frees, j))
    ensures forall y :: y in Removed(frees, j) <==> y in frees && y != frees[j]
  {
    var ns := [HEAD] + frees;
    assert ns[j + 1] == frees[j];
    DetachKeepsRing(s.freeLinks, ns, j + 1);
    UniqueRemoved(ns, j + 1);
    assert Removed(ns, j + 1) == [HEAD] + Removed(frees, j);
    RestIsUnique(ns, frees);
    UniqueRemoved(frees, j);
    var m := Drop(s, frees[j]).freeLinks;
    RingHolds(m, [HEAD] + Removed(frees, j));
    hide Removed, Detach;
    ElsewhereKeepsRing(m, Unlist(s, frees[j]).freeLinks, [HEAD] + Removed(frees, j));
  }

  lemma RestIsUnique(ns: seq<Addr>, frees: seq<Addr>)
    requires Unique(ns) && ns == [HEAD] + frees
    ensures Unique(frees) && HEAD !in frees
  {
    assert ns[0] == HEAD;
    assert forall i :: 0 <= i < |frees| ==> frees[i] == ns[i + 1];
  }

  // ---------------------------------------------------------------- each part of an operation

  /** What the links of a block say. */
  lemma BlockAt(s: State, a: Abs, k: nat)
    requires Tiled(a.blocks, s.poolSize) && Ring(s.links, a.blocks) && k < |a.blocks|
    ensures Next(s.links, a.blocks[k]) == a.blocks[Succ(k, |a.blocks|)]
    ensures Prev(s.links, a.blocks[k]) == a.blocks[Pred(k, |a.blocks|)]
    ensures a.blocks[k] >= 0 && a.blocks[k] % ALIGN == 0
    ensures k < |a.blocks| - 1 ==> Payload(s, a.blocks[k]) == a.blocks[k + 1] - a.blocks[k] - SIZE
                                   && 0 <= Payload(s, a.blocks[k])
  {
    assert At(s.links, a.blocks, k) && a.blocks[k] in a.blocks;
    assert k > 0 ==> a.blocks[0] + SIZE <= a.blocks[k];
  }

  predicate Position(a: Abs, x: Addr, k: nat) {
    k < |a.blocks| - 1 && a.blocks[k] == x
  }

  /** Nothing is at NULL. */
  lemma NoBlockAtNull(s: State, a: Abs)
    requires Tiled(a.blocks, s.poolSize) && Ring(s.links, a.blocks)
    ensures NULL !in a.blocks && HEAD !in a.blocks && forall b <- a.blocks :: b >= 0
  {
    forall b | b in a.blocks
      ensures b >= 0
    {
      var i :| 0 <= i < |a.blocks| && a.blocks[i] == b;
      BlockAt(s, a, i);
    }
  }

  lemma PositionOf(a: Abs, s: State, x: Addr) returns (k: nat)
    requires Tiled(a.blocks, s.poolSize) && x in a.blocks && x != s.poolSize - SIZE
    ensures Position(a, x, k)
  {
    k :| 0 <= k < |a.blocks| && a.blocks[k] == x;
  }

  lemma ListedFreed(a: Abs, used: map<Addr, bool>, x: Addr)
    requires Listed(a, used, NULL, true) && InUse(used, x)
    ensures Listed(a, used[x := false], x, false)
  {
  }

  lemma ApartFreed(blocks: seq<Addr>, used: map<Addr, bool>, x: Addr)
    requires Apart(blocks, used, NULL, true) && forall b <- blocks :: b != NULL
    ensures Apart(blocks, used[x := false], x, true)
  {
    var after := used[x := false];
    forall i | 0 <= i < |blocks| - 1
      ensures Fine(blocks, after, x, true, i)
    {
      assert Fine(blocks, used, NULL, true, i) && blocks[i] in blocks && blocks[i + 1] in blocks;
    }
  }

  lemma TailIsLast(blocks: seq<Addr>, poolSize: int)
    requires Tiled(blocks, poolSize)
    ensures blocks[|blocks| - 1] == poolSize - SIZE
  {
  }

  lemma MarkFree(s: State, a: Abs, x: Addr, k: nat)
    requires Loose(s, a, NULL, true, true) && Position(a, x, k) && InUse(s.used, x)
    ensures Loose(Gain(Mark(s, x, false), Payload(s, x)), a, x, false, true)
    ensures Live(a.blocks, s.used[x := false]) == Live(a.blocks, s.used) - {x}
  {
    hide Tiled, Ring, Unique, Apart, Listed, FreeBytes, Live, Removed, Inserted, InsertAfter, Detach;

    BlockAt(s, a, k);
    AscendingOfTiled(a.blocks, s.poolSize);
    LiveMarked(a.blocks, s.used, k, false);
    FreeBytesMarked(a.blocks, s.used, k, false);
    TailIsLast(a.blocks, s.poolSize);
    Different(a.blocks, k, |a.blocks| - 1);
    NoBlockAtNull(s, a);
    ListedFreed(a, s.used, x);
    ApartFreed(a.blocks, s.used, x);
  }

  lemma JoinAt(s: State, blocks: seq<Addr>, k: nat)
    requires Tiled(blocks, s.poolSize) && Ring(s.links, blocks) && 0 < k < |blocks| - 1
    requires !InUse(s.used, blocks[k])
    ensures Ring(Join(s, blocks[k]).links, Removed(blocks, k)) && Tiled(Removed(blocks, k), s.poolSize)
    ensures Unique(blocks) && forall y :: y in Removed(blocks, k) <==> y in blocks && y != blocks[k]
    ensures FreeBytes(Removed(blocks, k), s.used)
            == FreeBytes(blocks, s.used)
               + if InUse(s.used, blocks[k - 1]) then blocks[k] - blocks[k + 1] + SIZE else SIZE
    ensures Live(Removed(blocks, k), s.used)
            == if InUse(s.used, blocks[k - 1]) then Live(blocks, s.used)[blocks[k - 1] := blocks[k + 1] - blocks[k - 1] - SIZE]
               else Live(blocks, s.used)
  {
    AscendingIsUnique(blocks);
    DetachKeepsRing(s.links, blocks, k);
    TiledRemoved(blocks, s.poolSize, k);
    FreeBytesRemoved(blocks, s.used, k);
    LiveRemoved(blocks, s.used, k);
  }

  lemma LeftOfUnused(s: State, a: Abs, x: Addr, k: nat)
    requires Loose(s, a, x, false, true) && Position(a, x, k) && !InUse(s.used, Prev(s.links, x))
    ensures k > 0 && Prev(s.links, x) == a.blocks[k - 1] != x && Unique(a.blocks)
  {
    BlockAt(s, a, k);
    assert k > 0;
    AscendingIsUnique(a.blocks);
  }

  lemma ListedLeft(a: Abs, used: map<Addr, bool>, x: Addr, p: Addr, b: Abs)
    requires Listed(a, used, x, false) && x != p && b.frees == a.frees
    requires forall z :: z in b.blocks <==> z in a.blocks && z != x
    ensures Listed(b, used, p, true)
  {
  }

  lemma JoinLeft(s: State, a: Abs, x: Addr, k: nat)
    requires Loose(s, a, x, false, true) && 0 < k < |a.blocks| - 1 && a.blocks[k] == x && Unique(a.blocks)
    requires !InUse(s.used, x) && a.blocks[k - 1] != x && !InUse(s.used, a.blocks[k - 1])
    ensures Loose(Join(Gain(s, SIZE), x), a.(blocks := Removed(a.blocks, k)), a.blocks[k - 1], true, false)
    ensures Live(Removed(a.blocks, k), s.used) == Live(a.blocks, s.used)
  {
    hide Tiled, Ring, Unique, Apart, Listed, FreeBytes, Live, Removed, Inserted, InsertAfter, Detach;
    var r, p, b := Join(Gain(s, SIZE), x), a.blocks[k - 1], a.(blocks := Removed(a.blocks, k));
    JoinAt(s, a.blocks, k);
    ApartRemoved(a.blocks, s.used, x, k);
    ListedLeft(a, s.used, x, p, b);
  }

  /** Taking out x leaves its left neighbour with its right neighbour. */
  lemma ApartRemoved(blocks: seq<Addr>, used: map<Addr, bool>, x: Addr, k: nat)
    requires Apart(blocks, used, x, true) && Unique(blocks) && 0 < k < |blocks| - 1 && blocks[k] == x
    requires !InUse(used, x)
    ensures Apart(Removed(blocks, k), used, blocks[k - 1], false)
  {
    var r, p := Removed(blocks, k), blocks[k - 1];
    hide Removed;
    forall i | 0 <= i < |r| - 1
      ensures Fine(r, used, p, false, i)
    {
      if i < k - 1 { assert Fine(blocks, used, x, true, i) && blocks[i] != x && blocks[i + 1] != x; }
      else if i > k - 1 { assert Fine(blocks, used, x, true, i + 1) && blocks[i + 1] != x && blocks[i + 2] != x; }
    }
  }

  lemma ListedJoined(a: Abs, used: map<Addr, bool>, x: Addr, y: Addr, b: Abs, listed: bool)
    requires Listed(a, used, x, listed) && x != y
    requires forall z :: z in b.blocks <==> z in a.blocks && z != y
    requires forall z :: z in b.frees <==> z in a.frees && z != y
    ensures Listed(b, used, x, listed)
  {
  }

  lemma RightOfUnused(s: State, a: Abs, x: Addr, k: nat, listed: bool)
    requires Loose(s, a, x, listed, false) && Position(a, x, k) && !InUse(s.used, x)
    requires !InUse(s.used, Next(s.links, x))
    ensures k + 2 < |a.blocks| && a.blocks[k] == x && Next(s.links, x) == a.blocks[k + 1] != x
    ensures x in a.blocks && a.blocks[k + 1] in a.frees
  {
    BlockAt(s, a, k);
    var y := a.blocks[k + 1];
    assert y != s.poolSize - SIZE;
    assert k + 2 < |a.blocks|;
    assert x in a.blocks && y in a.blocks && a.blocks[k] + SIZE <= y;
    hide Apart, FreeBytes, Ring;
  }

  lemma JoinRight(s: State, a: Abs, x: Addr, k: nat, listed: bool) returns (b: Abs)
    requires Loose(s, a, x, listed, false) && Position(a, x, k) && !InUse(s.used, x)
    requires !InUse(s.used, Next(s.links, x))
    ensures k + 2 < |a.blocks| && b.blocks == Removed(a.blocks, k + 1)
    ensures Loose(FreeRight(s, x), b, x, listed, false) && Apart(b.blocks, s.used, NULL, false)
    ensures x in b.blocks && Live(b.blocks, s.used) == Live(a.blocks, s.used)
  {
    hide Tiled, Ring, Unique, Apart, Listed, FreeBytes, Live, Removed, Inserted, InsertAfter, Detach;
    RightOfUnused(s, a, x, k, listed);
    var y := a.blocks[k + 1];
    var j :| 0 <= j < |a.frees| && a.frees[j] == y;
    b := Abs(Removed(a.blocks, k + 1), Removed(a.frees, j));
    JoinAt(s, a.blocks, k + 1);
    NoBlockAtNull(s, a);
    DropKeepsRing(s, a.frees, j);
    ApartJoined(a.blocks, s.used, x, k);
    ApartMore(b.blocks, s.used, x, false);
    ListedJoined(a, s.used, x, y, b, listed);
  }

  lemma ApartMore(blocks: seq<Addr>, used: map<Addr, bool>, x: Addr, left: bool)
    requires Apart(blocks, used, NULL, false) && forall b <- blocks :: b != NULL
    ensures Apart(blocks, used, x, left)
  {
    forall i | 0 <= i < |blocks| - 1
      ensures Fine(blocks, used, x, left, i)
    {
      assert Fine(blocks, used, NULL, false, i) && blocks[i] in blocks;
    }
  }

  lemma FreeRightKeeps(s: State, a: Abs, x: Addr, k: nat, listed: bool) returns (b: Abs)
    requires Loose(s, a, x, listed, false) && Position(a, x, k) && !InUse(s.used, x)
    ensures Loose(FreeRight(s, x), b, x, listed, false) && Apart(b.blocks, s.used, NULL, false)
    ensures x in b.blocks && Live(b.blocks, s.used) == Live(a.blocks, s.used)
  {
    BlockAt(s, a, k);
    if InUse(s.used, Next(s.links, x)) {
      b := a;
      AscendingIsUnique(a.blocks);
      hide Listed, FreeBytes, Tiled, Ring;
      ApartAlready(a.blocks, s.used, x, k);
    } else {
      b := JoinRight(s, a, x, k, listed);
    }
  }

  lemma ApartAlready(blocks: seq<Addr>, used: map<Addr, bool>, x: Addr, k: nat)
    requires Apart(blocks, used, x, false) && Unique(blocks) && k + 1 < |blocks| && blocks[k] == x
    requires InUse(used, blocks[k + 1])
    ensures Apart(blocks, used, NULL, false)
  {
    forall i | 0 <= i < |blocks| - 1
      ensures Fine(blocks, used, NULL, false, i)
    {
      assert Fine(blocks, used, x, false, i);
    }
  }

  lemma ApartOnTheLeft(blocks: seq<Addr>, used: map<Addr, bool>, x: Addr, k: nat)
    requires Apart(blocks, used, x, true) && Unique(blocks) && k < |blocks| - 1 && blocks[k] == x
    requires InUse(used, blocks[Pred(k, |blocks|)])
    ensures Apart(blocks, used, x, false)
  {
    forall i | 0 <= i < |blocks| - 1
      ensures Fine(blocks, used, x, false, i)
    {
      assert Fine(blocks, used, x, true, i) && (blocks[i + 1] == x ==> i + 1 == k);
    }
  }

  lemma ApartJoined(blocks: seq<Addr>, used: map<Addr, bool>, x: Addr, k: nat)
    requires Apart(blocks, used, x, false) && Unique(blocks) && k + 2 < |blocks| && blocks[k] == x
    requires !InUse(used, blocks[k + 1])
    ensures Apart(Removed(blocks, k + 1), used, NULL, false)
  {
    var r := Removed(blocks, k + 1);
    hide Removed;
    assert Fine(blocks, used, x, false, k + 1) && blocks[k + 1] != x;
    forall i | 0 <= i < |r| - 1
      ensures Fine(r, used, NULL, false, i)
    {
      if i < k { assert Fine(blocks, used, x, false, i) && blocks[i] != x; }
      else if i > k { assert Fine(blocks, used, x, false, i + 1) && blocks[i + 1] != x; }
    }
  }

  lemma ListLast(s: State, a: Abs, x: Addr)
    requires Loose(s, a, x, false, false) && Apart(a.blocks, s.used, NULL, false) && x in a.blocks && x >= 0
    requires !InUse(s.used, x)
    ensures Loose(List(s, x), a.(frees := [x] + a.frees), NULL, true, true)
  {
    ListKeepsRing(s, a.frees, x);
    NoBlockAtNull(s, a);
    hide FreeBytes, Tiled, Ring;
    var b := a.(frees := [x] + a.frees);
    assert forall f <- a.frees :: f != x;
    assert Listed(b, s.used, NULL, true) by { hide Apart; }
    ApartMore(a.blocks, s.used, NULL, true);
  }

  lemma ListedAnyway(s: State, a: Abs, x: Addr)
    requires Loose(s, a, x, true, false) && Apart(a.blocks, s.used, NULL, false)
    ensures Loose(s, a, NULL, true, true)
  {
    NoBlockAtNull(s, a);
    hide FreeBytes, Tiled, Ring;
    ApartMore(a.blocks, s.used, NULL, true);
  }

  lemma FreeKeepsLoose(s: State, a: Abs, x: Addr, k: nat) returns (b: Abs)
    requires Loose(s, a, x, false, true) && Position(a, x, k) && !InUse(s.used, x) && x >= 0
    ensures var p := Prev(s.links, x);
            var r := if !InUse(s.used, p) then FreeRight(Join(Gain(s, SIZE), x), p) else List(FreeRight(s, x), x);
            Loose(r, b, NULL, true, true) && r.used == s.used && Live(b.blocks, s.used) == Live(a.blocks, s.used)
  {
    hide Tiled, Ring, Unique, Apart, Listed, FreeBytes, Live, Removed, Inserted, InsertAfter, Detach;

    BlockAt(s, a, k);
    AscendingOfTiled(a.blocks, s.poolSize);
    var p := Prev(s.links, x);
    if !InUse(s.used, p) {
      LeftOfUnused(s, a, x, k);
      JoinLeft(s, a, x, k);
      b := FreeRightKeeps(Join(Gain(s, SIZE), x), a.(blocks := Removed(a.blocks, k)), p, k - 1, true);
      ListedAnyway(FreeRight(Join(Gain(s, SIZE), x), p), b, p);
    } else {
      ApartOnTheLeft(a.blocks, s.used, x, k);
      b := FreeRightKeeps(s, a, x, k, false);
      ListLast(FreeRight(s, x), b, x);
      b := b.(frees := [x] + b.frees);
    }
  }

  /** rt_memheap_free keeps everything. */
  lemma FreeKeepsInv(s: State, a: Abs, x: Addr) returns (b: Abs)
    requires Inv(s, a) && InUse(s.used, x) && x in a.blocks && x != s.poolSize - SIZE
    ensures Inv(Free(s, x), b) && Live(b.blocks, Free(s, x).used) == Live(a.blocks, s.used) - {x}
    ensures Free(s, x).available >= s.available + Payload(s, x)
  {
    hide Tiled, Ring, Unique, Apart, Listed, FreeBytes, Live, Removed, Inserted, InsertAfter, Detach;

    var k := PositionOf(a, s, x);
    BlockAt(s, a, k);
    MarkFree(s, a, x, k);
    b := FreeKeepsLoose(Gain(Mark(s, x, false), Payload(s, x)), a, x, k);
  }

  // Cutting

  lemma CutAt(s: State, blocks: seq<Addr>, k: nat, z: Addr)
    requires Tiled(blocks, s.poolSize) && Ring(s.links, blocks) && InUse(s.used, s.poolSize - SIZE) && k + 1 < |blocks|
    requires blocks[k] + SIZE <= z && z + SIZE <= blocks[k + 1] && z % ALIGN == 0
    ensures var x, r, c := blocks[k], Cut(s, blocks[k], z), Inserted(blocks, k + 1, z);
            && Ring(r.links, c) && Tiled(c, s.poolSize) && z !in blocks && Unique(blocks) && Unique(c)
            && InUse(r.used, s.poolSize - SIZE)
            && FreeBytes(c, r.used) == FreeBytes(blocks, s.used) + (if InUse(s.used, x) then blocks[k + 1] - z - SIZE else -SIZE)
            && Live(c, r.used) == if InUse(s.used, x) then Live(blocks, s.used)[x := z - x - SIZE] else Live(blocks, s.used)
  {
    hide Tiled, Ring, Unique, Apart, Listed, FreeBytes, Live, Removed, Inserted, InsertAfter, Detach;

    AscendingOfTiled(blocks, s.poolSize);
    TiledInserted(blocks, s.poolSize, k, z);
    InsertKeepsRing(s.links, blocks, k, z);
    UniqueInserted(blocks, k + 1, z);
    FreeBytesElsewhere(blocks, s.used, z, false);
    LiveElsewhere(blocks, s.used, z, false);
    var used := s.used[z := false];
    FreeBytesInserted(blocks, used, k, z);
    LiveInserted(blocks, used, k, z);
    TailIsLast(blocks, s.poolSize);
    assert blocks[k] in blocks && blocks[|blocks| - 1] in blocks;
  }

  /** Only z, which is unused and lies behind a used block, can touch another unused block. */
  lemma ApartCut(blocks: seq<Addr>, used: map<Addr, bool>, k: nat, z: Addr)
    requires Apart(blocks, used, NULL, true) && k + 1 < |blocks| && z !in blocks && InUse(used, blocks[k])
    requires forall b <- blocks :: b != NULL
    ensures Apart(Inserted(blocks, k + 1, z), used[z := false], z, false)
  {
    var r, after := Inserted(blocks, k + 1, z), used[z := false];
    hide Inserted;
    forall i | 0 <= i < |r| - 1
      ensures Fine(r, after, z, false, i)
    {
      if i < k {
        assert Fine(blocks, used, NULL, true, i) && blocks[i] in blocks && blocks[i + 1] in blocks;
      } else if i > k + 1 {
        assert Fine(blocks, used, NULL, true, i - 1) && blocks[i - 1] in blocks && blocks[i] in blocks;
      } else if i == k {
        assert blocks[k] in blocks;
      }
    }
  }

  lemma UsedNeighbour(blocks: seq<Addr>, used: map<Addr, bool>, k: nat)
    requires Apart(blocks, used, NULL, true) && k + 1 < |blocks| && !InUse(used, blocks[k])
    requires forall b <- blocks :: b != NULL
    ensures InUse(used, blocks[k + 1]) && (k > 0 ==> InUse(used, blocks[k - 1]))
  {
    assert Fine(blocks, used, NULL, true, k) && blocks[k] in blocks && blocks[k + 1] in blocks;
    if k > 0 { assert Fine(blocks, used, NULL, true, k - 1) && blocks[k - 1] in blocks; }
  }

  // Allocation

  lemma ListedAllocated(a: Abs, used: map<Addr, bool>, x: Addr, b: Abs)
    requires Listed(a, used, NULL, true) && x in a.blocks && b.blocks == a.blocks
    requires forall y :: y in b.frees <==> y in a.frees && y != x
    ensures Listed(b, used[x := true], NULL, true)
  {
  }

  lemma ListedCut(a: Abs, used: map<Addr, bool>, k: nat, z: Addr, b: Abs)
    requires Listed(a, used, NULL, true) && z !in a.blocks && k <= |a.blocks|
    requires b.blocks == Inserted(a.blocks, k, z) && b.frees == a.frees
    ensures Listed(b, used[z := false], z, false)
  {
  }

  lemma ApartMarked(blocks: seq<Addr>, used: map<Addr, bool>, x: Addr, left: bool)
    requires Apart(blocks, used, NULL, left)
    ensures Apart(blocks, used[x := true], NULL, left)
  {
    var after := used[x := true];
    forall i | 0 <= i < |blocks| - 1
      ensures Fine(blocks, after, NULL, left, i)
    {
      assert Fine(blocks, used, NULL, left, i);
    }
  }

  lemma FreeIsBlock(s: State, a: Abs, x: Addr)
    requires Loose(s, a, NULL, true, true) && x in a.frees
    ensures x in a.blocks && !InUse(s.used, x) && x != s.poolSize - SIZE
  {
  }

  lemma AllocWhole(s: State, a: Abs, x: Addr, size: nat) returns (b: Abs)
    requires Inv(s, a) && x in a.frees && Payload(s, x) < size + SIZE + MINIALLOC
    ensures Inv(AllocAt(s, x, size), b)
    ensures Live(b.blocks, AllocAt(s, x, size).used) == Live(a.blocks, s.used)[x := Payload(s, x)]
  {
    hide Tiled, Ring, Unique, Apart, Listed, FreeBytes, Live, Removed, Inserted, InsertAfter, Detach;
    FreeIsBlock(s, a, x);
    var r := AllocAt(s, x, size);
    var k := PositionOf(a, s, x);
    BlockAt(s, a, k);
    var j :| 0 <= j < |a.frees| && a.frees[j] == x;
    b := a.(frees := Removed(a.frees, j));
    DropKeepsRing(s, a.frees, j);
    AscendingOfTiled(a.blocks, s.poolSize);
    FreeBytesMarked(a.blocks, s.used, k, true);
    LiveMarked(a.blocks, s.used, k, true);
    ListedAllocated(a, s.used, x, b);
    ApartMarked(a.blocks, s.used, x, true);
  }


  lemma AllocSplit(s: State, a: Abs, x: Addr, size: nat) returns (b: Abs)
    requires Inv(s, a) && x in a.frees && Payload(s, x) >= size + SIZE + MINIALLOC && size % ALIGN == 0
    ensures Inv(AllocAt(s, x, size), b)
    ensures Live(b.blocks, AllocAt(s, x, size).used) == Live(a.blocks, s.used)[x := size]
  {
    hide Tiled, Ring, Unique, Apart, Listed, FreeBytes, Live, Removed, Inserted, InsertAfter, Detach;
    FreeIsBlock(s, a, x);
    NoBlockAtNull(s, a);
    var k := PositionOf(a, s, x);
    BlockAt(s, a, k);
    UsedNeighbour(a.blocks, s.used, k);
    var z := x + size + SIZE;
    CutAt(s, a.blocks, k, z);
    var s1, c := Cut(s, x, z), Inserted(a.blocks, k + 1, z);
    var j :| 0 <= j < |a.frees| && a.frees[j] == x;
    var frees := Removed(a.frees, j);
    DropKeepsRing(s1, a.frees, j);
    FreesAreBlocks(a, s.used);
    ListKeepsRing(Unlist(s1, x), frees, z);
    b := Abs(c, [z] + frees);
    assert c[k] == x && c[k + 1] == z;
    FreeBytesMarked(c, s1.used, k, true);
    LiveMarked(c, s1.used, k, true);
    ListedSplit(a, s.used, x, k + 1, z, b);
    ApartSplit(a.blocks, s.used, k, z);
  }

  lemma FreesAreBlocks(a: Abs, used: map<Addr, bool>)
    requires Listed(a, used, NULL, true)
    ensures forall f <- a.frees :: f in a.blocks
  {
  }

  lemma ListedSplit(a: Abs, used: map<Addr, bool>, x: Addr, k: nat, z: Addr, b: Abs)
    requires Listed(a, used, NULL, true) && z !in a.blocks && x in a.blocks && k <= |a.blocks|
    requires b.blocks == Inserted(a.blocks, k, z)
    requires forall y :: y in b.frees <==> y == z || (y in a.frees && y != x)
    ensures Listed(b, used[z := false][x := true], NULL, true)
  {
  }

  lemma ApartSplit(blocks: seq<Addr>, used: map<Addr, bool>, k: nat, z: Addr)
    requires Apart(blocks, used, NULL, true) && k + 1 < |blocks| && z !in blocks && InUse(used, blocks[k + 1])
    requires forall b <- blocks :: b != NULL
    ensures Apart(Inserted(blocks, k + 1, z), used[z := false][blocks[k] := true], NULL, true)
  {
    var r, after := Inserted(blocks, k + 1, z), used[z := false][blocks[k] := true];
    hide Inserted;
    assert blocks[k] in blocks && blocks[k + 1] in blocks;
    forall i | 0 <= i < |r| - 1
      ensures Fine(r, after, NULL, true, i)
    {
      if i < k {
        assert Fine(blocks, used, NULL, true, i) && blocks[i] in blocks && blocks[i + 1] in blocks;
      } else if i > k + 1 {
        assert Fine(blocks, used, NULL, true, i - 1) && blocks[i - 1] in blocks && blocks[i] in blocks;
      }
    }
  }

  /** rt_memheap_alloc keeps everything, adds one live block of at least the size asked for, and
      leaves all others as they are. */
  lemma AllocKeepsInv(s: State, a: Abs, x: Addr, size: nat) returns (b: Abs)
    requires Inv(s, a) && x in a.frees && Payload(s, x) >= size && size % ALIGN == 0
    ensures Inv(AllocAt(s, x, size), b)
    ensures exists n {:trigger Live(a.blocks, s.used)[x := n]} ::
              && size <= n < size + SIZE + MINIALLOC
              && Live(b.blocks, AllocAt(s, x, size).used) == Live(a.blocks, s.used)[x := n]
  {
    hide Tiled, Ring, Unique, Apart, Listed, FreeBytes, Live, Removed, Inserted, InsertAfter, Detach;
    if Payload(s, x) >= size + SIZE + MINIALLOC {
      b := AllocSplit(s, a, x, size);
    } else {
      b := AllocWhole(s, a, x, size);
    }
  }

  // Reallocation in place

  /** A used block takes over the unused one behind it. */
  lemma AbsorbNext(s: State, a: Abs, x: Addr, k: nat) returns (b: Abs)
    requires Loose(s, a, NULL, true, true) && Position(a, x, k) && InUse(s.used, x)
    requires !InUse(s.used, Next(s.links, x))
    ensures var y := Next(s.links, x);
            && k + 2 < |a.blocks| && y == a.blocks[k + 1]
            && b.blocks == Removed(a.blocks, k + 1)
            && Loose(Join(Drop(Gain(s, -Payload(s, y)), y), y), b, NULL, true, true)
            && Live(b.blocks, s.used) == Live(a.blocks, s.used)[x := a.blocks[k + 2] - x - SIZE]
            && Payload(s, y) == a.blocks[k + 2] - y - SIZE
            && InUse(s.used, a.blocks[k + 2])
  {
    hide Tiled, Ring, Unique, Apart, Listed, FreeBytes, Live, Removed, Inserted, InsertAfter, Detach;
    BlockAt(s, a, k);
    var y := a.blocks[k + 1];
    TailIsLast(a.blocks, s.poolSize);
    assert k + 2 < |a.blocks|;
    BlockAt(s, a, k + 1);
    NoBlockAtNull(s, a);
    UsedNeighbour(a.blocks, s.used, k + 1);
    assert a.blocks[k + 1] in a.blocks;
    UnusedIsFree(a, s.used, y);
    var j :| 0 <= j < |a.frees| && a.frees[j] == y;
    b := Abs(Removed(a.blocks, k + 1), Removed(a.frees, j));
    DropKeepsRing(s, a.frees, j);
    JoinAt(s, a.blocks, k + 1);
    ListedAbsorbed(a, s.used, y, b);
    ApartJoinedUsed(a.blocks, s.used, k + 1);
  }

  lemma ListedAbsorbed(a: Abs, used: map<Addr, bool>, y: Addr, b: Abs)
    requires Listed(a, used, NULL, true)
    requires forall w :: w in b.blocks <==> w in a.blocks && w != y
    requires forall w :: w in b.frees <==> w in a.frees && w != y
    ensures Listed(b, used, NULL, true)
  {
  }

  /** A used block gives away its end, which the next block does not join. */
  lemma GiveEnd(s: State, a: Abs, x: Addr, k: nat, z: Addr) returns (b: Abs)
    requires Loose(s, a, NULL, true, true) && Position(a, x, k) && InUse(s.used, x) && InUse(s.used, a.blocks[k + 1])
    requires x + SIZE <= z && z + SIZE <= a.blocks[k + 1] && z % ALIGN == 0
    ensures Loose(Gain(List(Cut(s, x, z), z), a.blocks[k + 1] - z - SIZE), b, NULL, true, true)
    ensures Live(b.blocks, Cut(s, x, z).used) == Live(a.blocks, s.used)[x := z - x - SIZE]
  {
    hide Tiled, Ring, Unique, Apart, Listed, FreeBytes, Live, Removed, Inserted, InsertAfter, Detach;
    NoBlockAtNull(s, a);
    CutAt(s, a.blocks, k, z);
    var s1, c := Cut(s, x, z), Abs(Inserted(a.blocks, k + 1, z), a.frees);
    assert c.blocks[k + 1] == z && c.blocks[k + 2] == a.blocks[k + 1];
    assert a.blocks[k] in a.blocks && a.blocks[k + 1] in a.blocks;
    ListedCut(a, s.used, k + 1, z, c);
    ApartCut(a.blocks, s.used, k, z);
    ApartAlready(c.blocks, s1.used, z, k + 1);
    var s2 := Gain(s1, a.blocks[k + 1] - z - SIZE);
    ListLast(s2, c, z);
    b := c.(frees := [z] + c.frees);
  }

  /** Growing moves the border between a used block and the unused one behind it. */
  lemma GrowKeepsInv(s: State, a: Abs, x: Addr, size: nat) returns (b: Abs)
    requires Inv(s, a) && InUse(s.used, x) && x in a.blocks && x != s.poolSize - SIZE
    requires size > Payload(s, x) && size % ALIGN == 0 && Grows(s, x, size)
    ensures Inv(Grow(s, x, size), b)
    ensures Live(b.blocks, Grow(s, x, size).used) == Live(a.blocks, s.used)[x := size]
  {
    hide Tiled, Ring, Unique, Apart, Listed, FreeBytes, Live, Removed, Inserted, InsertAfter, Detach;
    var k := PositionOf(a, s, x);
    BlockAt(s, a, k);
    var y, z := Next(s.links, x), x + SIZE + size;
    var c := AbsorbNext(s, a, x, k);
    var s1 := Join(Drop(Gain(s, -Payload(s, y)), y), y);
    assert c.blocks[k] == x && c.blocks[k + 1] == a.blocks[k + 2];
    b := GiveEnd(s1, c, x, k, z);
    GrowIs(s, x, size);
  }

  lemma GrowIs(s: State, x: Addr, size: nat)
    ensures var y, z, r := Next(s.links, x), x + SIZE + size, Grow(s, x, size);
            var s1 := List(Cut(Join(Drop(Gain(s, -Payload(s, y)), y), y), x, z), z);
            && r.links == s1.links && r.freeLinks == s1.freeLinks && r.used == s1.used && r.poolSize == s1.poolSize
            && r.available == s.available - (size - Payload(s, x))
            && r.maxUsed == Max(s.maxUsed, r.poolSize - r.available)
  {
  }

  lemma UnusedIsFree(a: Abs, used: map<Addr, bool>, y: Addr)
    requires Listed(a, used, NULL, true) && y in a.blocks && !InUse(used, y)
    ensures y in a.frees
  {
  }

  /** Taking out an unused block between two used ones. */
  lemma ApartJoinedUsed(blocks: seq<Addr>, used: map<Addr, bool>, k: nat)
    requires Apart(blocks, used, NULL, true) && 0 < k < |blocks| - 1 && InUse(used, blocks[k - 1])
    requires forall b <- blocks :: b != NULL
    ensures Apart(Removed(blocks, k), used, NULL, true)
  {
    var r := Removed(blocks, k);
    hide Removed;
    forall i | 0 <= i < |r| - 1
      ensures Fine(r, used, NULL, true, i)
    {
      if i < k - 1 { assert Fine(blocks, used, NULL, true, i); }
      else if i > k - 1 { assert Fine(blocks, used, NULL, true, i + 1); }
    }
  }

  /** Shrinking splits the block, and frees the rest like any block. */
  lemma ShrinkIsFree(s: State, a: Abs, x: Addr, k: nat, size: nat)
    requires Loose(s, a, NULL, true, true) && Position(a, x, k)
    requires size % ALIGN == 0 && size + SIZE + MINIALLOC < Payload(s, x)
    ensures var z := x + size + SIZE;
            var s1 := Cut(s, x, z);
            && Shrink(s, x, size) == List(FreeRight(Gain(s1, Payload(s1, z)), z), z)
            && Payload(s1, z) == a.blocks[k + 1] - z - SIZE
  {
    hide Tiled, Ring, Unique, Apart, Listed, FreeBytes, Live, Removed, Inserted, InsertAfter, Detach;
    BlockAt(s, a, k);
    var z := x + size + SIZE;
    CutAt(s, a.blocks, k, z);
    var s1, c := Cut(s, x, z), Abs(Inserted(a.blocks, k + 1, z), a.frees);
    assert c.blocks[k + 1] == z && c.blocks[k + 2] == a.blocks[k + 1] && a.blocks[k + 1] in a.blocks;
    BlockAt(s1, c, k + 1);
    if !InUse(s1.used, c.blocks[k + 2]) { ShrinkJoins(s1, c, z, k + 1); }
  }

  /** The available bytes come out the same in both orders. */
  lemma ShrinkJoins(s: State, a: Abs, z: Addr, k: nat)
    requires Tiled(a.blocks, s.poolSize) && Ring(s.links, a.blocks) && InUse(s.used, s.poolSize - SIZE)
    requires k + 1 < |a.blocks| && a.blocks[k] == z && !InUse(s.used, Next(s.links, z))
    ensures var y := Next(s.links, z);
            var s2 := Drop(Join(Gain(s, -Payload(s, y)), y), y);
            Gain(List(s2, z), Payload(List(s2, z), z)) == List(FreeRight(Gain(s, Payload(s, z)), z), z)
  {
    hide Tiled, Ring, Unique, Apart, Listed, FreeBytes, Live, Removed, Inserted, InsertAfter, Detach;
    BlockAt(s, a, k);
    TailIsLast(a.blocks, s.poolSize);
    var y := a.blocks[k + 1];
    assert k + 2 < |a.blocks|;
    BlockAt(s, a, k + 1);
    var s2, d := Drop(Join(Gain(s, -Payload(s, y)), y), y), Abs(Removed(a.blocks, k + 1), a.frees);
    JoinAt(s, a.blocks, k + 1);
    assert d.blocks[k] == z && d.blocks[k + 1] == a.blocks[k + 2];
    BlockAt(s2, d, k);
  }

  lemma ShrinkKeepsInv(s: State, a: Abs, x: Addr, size: nat) returns (b: Abs)
    requires Inv(s, a) && InUse(s.used, x) && x in a.blocks && x != s.poolSize - SIZE
    requires size % ALIGN == 0 && size + SIZE + MINIALLOC < Payload(s, x)
    ensures Inv(Shrink(s, x, size), b)
    ensures Live(b.blocks, Shrink(s, x, size).used) == Live(a.blocks, s.used)[x := size]
    ensures Shrink(s, x, size).available >= s.available
  {
    hide Tiled, Ring, Unique, Apart, Listed, FreeBytes, Live, Removed, Inserted, InsertAfter, Detach;
    var k := PositionOf(a, s, x);
    BlockAt(s, a, k);
    ShrinkIsFree(s, a, x, k, size);
    NoBlockAtNull(s, a);
    var z := x + size + SIZE;
    CutAt(s, a.blocks, k, z);
    var s1, c := Cut(s, x, z), Abs(Inserted(a.blocks, k + 1, z), a.frees);
    assert c.blocks[k + 1] == z;
    ListedCut(a, s.used, k + 1, z, c);
    ApartCut(a.blocks, s.used, k, z);
    var s2 := Gain(s1, Payload(s1, z));
    b := FreeRightKeeps(s2, c, z, k + 1, false);
    ListLast(FreeRight(s2, z), b, z);
    b := b.(frees := [z] + b.frees);
  }

  /** rt_memheap_init, of a pool that holds two headers. */
  lemma InitHolds(size: nat)
    requires size / ALIGN * ALIGN >= 2 * SIZE
    ensures var tail := size / ALIGN * ALIGN - SIZE;
            Inv(Init(size), Abs([0, tail], [0])) && Live([0, tail], Init(size).used) == map[]
  {
    var s, tail := Init(size), size / ALIGN * ALIGN - SIZE;
    var blocks := [0, tail];
    assert At(s.links, blocks, 0) && At(s.links, blocks, 1);
    assert At(s.freeLinks, [HEAD, 0], 0) && At(s.freeLinks, [HEAD, 0], 1);
    assert [HEAD] + [0] == [HEAD, 0];
    assert Fine(blocks, s.used, NULL, true, 0);
    assert blocks[1..] == [tail];
  }

  // ---------------------------------------------------------------- what is live

  /** A live block lies in the pool, and its size is what its header says. */
  lemma LiveInPool(s: State, a: Abs, p: Addr) returns (k: nat)
    requires Inv(s, a) && p in Live(a.blocks, s.used)
    ensures Position(a, p, k) && InUse(s.used, p) && p in a.blocks && p != s.poolSize - SIZE
    ensures Live(a.blocks, s.used)[p] == Payload(s, p) == a.blocks[k + 1] - p - SIZE >= 0
    ensures 0 <= p && (p + SIZE) % ALIGN == 0 && p + SIZE + Payload(s, p) <= s.poolSize - SIZE
  {
    hide Tiled, Ring, Unique, Apart, Listed, FreeBytes, Live, Removed, Inserted, InsertAfter, Detach;
    LiveAtSome(a.blocks, s.used, p);
    k :| 0 <= k < |a.blocks| - 1 && a.blocks[k] == p;
    AscendingOfTiled(a.blocks, s.poolSize);
    LiveAt(a.blocks, s.used, k);
    BlockAt(s, a, k);
    TailIsLast(a.blocks, s.poolSize);
    TiledBefore(a.blocks, s.poolSize, k + 1, |a.blocks| - 1);
    Different(a.blocks, k, |a.blocks| - 1);
  }

  lemma TiledBefore(blocks: seq<Addr>, poolSize: int, i: nat, j: nat)
    requires Tiled(blocks, poolSize) && i < |blocks| && j < |blocks|
    ensures i < j ==> blocks[i] + SIZE <= blocks[j]
    ensures i == j ==> blocks[i] == blocks[j]
  {
  }

  /** Live blocks do not overlap. */
  lemma LiveApart(s: State, a: Abs, p: Addr, q: Addr)
    requires Inv(s, a) && p in Live(a.blocks, s.used) && q in Live(a.blocks, s.used) && p != q
    ensures p + SIZE + Live(a.blocks, s.used)[p] <= q || q + SIZE + Live(a.blocks, s.used)[q] <= p
  {
    hide Tiled, Ring, Unique, Apart, Listed, FreeBytes, Live, Removed, Inserted, InsertAfter, Detach;
    var i := LiveInPool(s, a, p);
    var j := LiveInPool(s, a, q);
    TiledBefore(a.blocks, s.poolSize, i + 1, j);
    TiledBefore(a.blocks, s.poolSize, j + 1, i);
  }

  lemma {:induction false} LiveAtSome(blocks: seq<Addr>, used: map<Addr, bool>, p: Addr)
    requires p in Live(blocks, used)
    ensures InUse(used, p) && exists i :: 0 <= i < |blocks| - 1 && blocks[i] == p
  {
    if blocks[0] == p && InUse(used, p) {
    } else {
      var rest := blocks[1..];
      LiveAtSome(rest, used, p);
      var i :| 0 <= i < |rest| - 1 && rest[i] == p;
      assert blocks[i + 1] == p;
    }
  }

  /** The bytes that live blocks have. */
  function LiveBytes(blocks: seq<Addr>, used: map<Addr, bool>): int {
    if |blocks| <= 1 then 0
    else (if InUse(used, blocks[0]) then blocks[1] - blocks[0] - SIZE else 0) + LiveBytes(blocks[1..], used)
  }

  /** Nothing leaks: what is available, what is live and the headers are the pool. */
  lemma {:induction false} BytesAddUp(blocks: seq<Addr>, used: map<Addr, bool>)
    requires |blocks| > 0
    ensures FreeBytes(blocks, used) + LiveBytes(blocks, used) + SIZE * (|blocks| - 1) == blocks[|blocks| - 1] - blocks[0]
  {
    if |blocks| > 1 { BytesAddUp(blocks[1..], used); }
  }

  lemma PoolAddsUp(s: State, a: Abs)
    requires Inv(s, a)
    ensures s.available + LiveBytes(a.blocks, s.used) + SIZE * |a.blocks| == s.poolSize
  {
    BytesAddUp(a.blocks, s.used);
    hide Apart, Listed, FreeBytes, Ring;
  }

  // ---------------------------------------------------------------- the object

  /** The free list, as its links give it. */
  lemma FreeListAt(s: State, a: Abs, i: nat)
    requires Ring(s.freeLinks, [HEAD] + a.frees) && i <= |a.frees|
    ensures Next(s.freeLinks, if i == 0 then HEAD else a.frees[i - 1]) == if i < |a.frees| then a.frees[i] else HEAD
    ensures i < |a.frees| ==> a.frees[i] != HEAD
  {
    var ns := [HEAD] + a.frees;
    assert At(s.freeLinks, ns, i);
    if i < |a.frees| { assert ns[0] != ns[i + 1]; }
  }

  newtype Byte = b: int | 0 <= b < 256

  /** What the caller of rt_memheap_alloc gets: a block that was not live and is now, of at least the
      size asked for, and no other change in what is live. */
  predicate Adds(before: map<Addr, int>, after: map<Addr, int>, x: Addr, n: nat) {
    x !in before && x in after && n <= after[x] < n + SIZE + MINIALLOC && after == before[x := after[x]]
  }

  /** An aligned request that rt_memheap_alloc refuses. */
  predicate Refused(s: State, a: Abs, size: nat) {
    size >= s.available || forall f <- a.frees :: Payload(s, f) < size
  }

  lemma RequestTwice(size: nat)
    ensures Request(Request(size)) == Request(size)
  {
  }

  /** x is the first block of the free list that is large enough. */
  predicate FirstFit(s: State, a: Abs, x: Addr, size: nat) {
    exists i :: 0 <= i < |a.frees| && a.frees[i] == x && Payload(s, x) >= size
                && forall j :: 0 <= j < i ==> Payload(s, a.frees[j]) < size
  }

  /** The request is the least multiple of the alignment that is enough. */
  lemma RequestIsLeast(size: nat, m: nat)
    requires m % ALIGN == 0 && m >= size && m >= MINIALLOC
    ensures Request(size) <= m
  {
  }

  /** A block grows in place exactly if the one behind it is unused, and from the new end of its bytes up to the block
      after that one there is room for a header and for more than the least request. */
  lemma GrowsIff(s: State, a: Abs, k: nat, size: nat)
    requires Inv(s, a) && k < |a.blocks| - 1
    ensures Grows(s, a.blocks[k], size) <==>
              && k + 2 < |a.blocks| && a.blocks[k + 1] in a.frees
              && a.blocks[k] + SIZE + size + SIZE + MINIALLOC < a.blocks[k + 2]
  {
    hide Tiled, Ring, Unique, Apart, FreeBytes;
    BlockAt(s, a, k);
    BlockAt(s, a, k + 1);
    TiledEnds(a.blocks, s.poolSize);
    NoBlockAtNull(s, a);
    assert a.blocks[k + 1] in a.blocks;
  }

  lemma TiledEnds(blocks: seq<Addr>, poolSize: int)
    requires Tiled(blocks, poolSize)
    ensures |blocks| >= 2 && blocks[|blocks| - 1] == poolSize - SIZE
  {
    hide Ascending;
  }

  /** A block that comes on the free list is the first one that the next search looks at: the rest of a split, of a growth
      or of a shrink, and a released block that does not join the one before it. */
  lemma ListedFirst(s: State, x: Addr, size: nat)
    ensures Payload(s, x) >= size + SIZE + MINIALLOC ==> Next(AllocAt(s, x, size).freeLinks, HEAD) == x + size + SIZE
    ensures InUse(s.used, Prev(s.links, x)) && Prev(s.links, x) != x ==> Next(Free(s, x).freeLinks, HEAD) == x
    ensures Next(Grow(s, x, size).freeLinks, HEAD) == x + SIZE + size
    ensures Next(Shrink(s, x, size).freeLinks, HEAD) == x + size + SIZE
  {
    hide Detach;
  }

  /** max_used_size is the most that has ever been in use: an allocation and a growth raise it to what is in use then if
      that is more, and nothing else changes it. */
  lemma MostUsed(s: State, x: Addr, size: nat)
    ensures var r := AllocAt(s, x, size); r.maxUsed == Max(s.maxUsed, r.poolSize - r.available)
    ensures var r := Grow(s, x, size); r.maxUsed == Max(s.maxUsed, r.poolSize - r.available)
    ensures Free(s, x).maxUsed == s.maxUsed && Shrink(s, x, size).maxUsed == s.maxUsed
  {
    hide Detach, InsertAfter;
    GrowIs(s, x, size);
    hide Grow;
  }

  class MemoryHeap {
    var links: Links
    var freeLinks: Links
    var used: map<Addr, bool>
    var available: int
    var maxUsed: int
    const poolSize: int
    const memory: array<Byte>
    ghost var shadow: Abs

    ghost function Value(): State
      reads this
    {
      State(links, freeLinks, used, poolSize, available, maxUsed)
    }

    ghost predicate Valid()
      reads this
    {
      Inv(Value(), shadow) && memory.Length == poolSize
    }

    ghost function LiveBlocks(): map<Addr, int>
      reads this
    {
      Live(shadow.blocks, used)
    }

    constructor (size: nat)
      requires size / ALIGN * ALIGN >= 2 * SIZE
      ensures Valid() && fresh(memory) && LiveBlocks() == map[] && Value() == Init(size)
    {
      var pool := size / ALIGN * ALIGN;
      var tail := pool - SIZE;
      poolSize, available, maxUsed := pool, pool - 2 * SIZE, 2 * SIZE;
      links := Links(map[0 := tail, tail := 0], map[0 := tail, tail := 0]);
      freeLinks := Links(map[HEAD := 0, 0 := HEAD], map[HEAD := 0, 0 := HEAD]);
      used := map[0 := false, tail := true];
      memory := new Byte[pool];
      shadow := Abs([0, tail], [0]);
      new;
      InitHolds(size);
    }

    method Alloc(size: nat) returns (ptr: Addr)
      requires Valid()
      modifies this
      ensures Valid()
      ensures ptr == NULL <==> Refused(old(Value()), old(shadow), Request(size))
      ensures ptr == NULL ==> Value() == old(Value()) && shadow == old(shadow)
      ensures ptr != NULL ==>
                && Adds(old(LiveBlocks()), LiveBlocks(), ptr - SIZE, Request(size))
                && Value() == AllocAt(old(Value()), ptr - SIZE, Request(size))
      ensures ptr != NULL ==> FirstFit(old(Value()), old(shadow), ptr - SIZE, Request(size))
    {
      hide Tiled, Ring, Unique, Apart, Listed, FreeBytes, Live, Removed, Inserted, InsertAfter, Detach, AllocAt;
      var n := Request(size);
      if n >= available { return NULL; }
      ghost var before, a, i := Value(), shadow, 0;
      FreeListAt(before, a, 0);
      var header := Next(freeLinks, HEAD);
      var freeSize := 0;
      while header != HEAD && freeSize < n
        invariant Value() == before && shadow == a && i <= |a.frees|
        invariant header == if i < |a.frees| then a.frees[i] else HEAD
        invariant forall j :: 0 <= j < i ==> Payload(before, a.frees[j]) < n
        invariant freeSize >= n ==> i < |a.frees| && freeSize == Payload(before, header)
        decreases |a.frees| - i, if freeSize < n then 1 else 0
      {
        freeSize := Next(links, header) - header - SIZE;
        if freeSize < n {
          FreeListAt(before, a, i + 1);
          header := Next(freeLinks, header);
          i := i + 1;
        }
      }
      FreeListAt(before, a, i);
      if freeSize < n {
        return NULL;
      }
      assert header in a.frees;
      assert FirstFit(before, a, header, n);
      shadow := AllocKeepsInv(before, a, header, n);
      FreshBlock(before, a, header);
      TakeBlock(header, n, freeSize);
      ptr := header + SIZE;
    }

    /** The part of rt_memheap_alloc that takes the block x. */
    method TakeBlock(x: Addr, n: nat, freeSize: int)
      requires freeSize == Payload(Value(), x)
      modifies this
      ensures Value() == AllocAt(old(Value()), x, n) && shadow == old(shadow)
    {
      hide InsertAfter, Detach;
      if freeSize >= n + SIZE + MINIALLOC {
        var z := x + n + SIZE;
        links := InsertAfter(links, x, z);
        used := used[z := false];
        var l := Detach(freeLinks, x);
        freeLinks := InsertAfter(Links(l.next[x := NULL], l.prev[x := NULL]), HEAD, z);
        available := available - (n + SIZE);
      } else {
        available := available - freeSize;
        var l := Detach(freeLinks, x);
        freeLinks := Links(l.next[x := NULL], l.prev[x := NULL]);
      }
      if poolSize - available > maxUsed { maxUsed := poolSize - available; }
      used := used[x := true];
    }

    method FreeBlock(ptr: Addr)
      requires Valid() && (ptr == NULL || ptr - SIZE in LiveBlocks())
      modifies this
      ensures Valid()
      ensures if ptr == NULL then Value() == old(Value()) && shadow == old(shadow)
              else Value() == Free(old(Value()), ptr - SIZE) && LiveBlocks() == old(LiveBlocks()) - {ptr - SIZE}
    {
      hide Tiled, Ring, Unique, Apart, Listed, FreeBytes, Live, Removed, Inserted, InsertAfter, Detach;
      if ptr == NULL { return; }
      var x := ptr - SIZE;
      ghost var k := LiveInPool(Value(), shadow, x);
      ghost var b := FreeKeepsInv(Value(), shadow, x);
      shadow := b;
      var insert := true;
      used := used[x := false];
      available := available + (Next(links, x) - x - SIZE);
      var p := Prev(links, x);
      if !InUse(used, p) {
        available := available + SIZE;
        links := Detach(links, x);
        x := p;
        insert := false;
      }
      var y := Next(links, x);
      if !InUse(used, y) {
        available := available + SIZE;
        links := Detach(links, y);
        freeLinks := Detach(freeLinks, y);
      }
      if insert { freeLinks := InsertAfter(freeLinks, HEAD, x); }
    }
  
    /** rt_memcpy between two blocks. */
    method CopyBytes(dst: Addr, src: Addr, n: nat)
      requires 0 <= src && src + n <= memory.Length && 0 <= dst && dst + n <= memory.Length
      requires dst + n <= src || src + n <= dst
      modifies memory
      ensures SameContents(old(memory[..]), src, memory[..], dst, n)
      ensures forall i :: 0 <= i < memory.Length && !(dst <= i < dst + n) ==> memory[i] == old(memory[i])
    {
      var i := 0;
      while i < n
        invariant i <= n
        invariant forall j :: dst <= j < dst + i ==> memory[j] == old(memory[j - dst + src])
        invariant forall j :: 0 <= j < memory.Length && !(dst <= j < dst + i) ==> memory[j] == old(memory[j])
      {
        memory[dst + i] := memory[src + i];
        i := i + 1;
      }
    }

    /** The part of rt_memheap_realloc that takes room from the next block. */
    method GrowInPlace(x: Addr, n: nat)
      requires Valid() && x in LiveBlocks() && n > LiveBlocks()[x] && n % ALIGN == 0 && Grows(Value(), x, n)
      modifies this
      ensures Valid() && Value() == Grow(old(Value()), x, n) && LiveBlocks() == old(LiveBlocks())[x := n]
    {
      hide Tiled, Ring, Unique, Apart, Listed, FreeBytes, Live, Removed, Inserted, InsertAfter, Detach;
      ghost var before := Value();
      ghost var k := LiveInPool(before, shadow, x);
      shadow := GrowKeepsInv(before, shadow, x, n);
      available := available - (n - (Next(links, x) - x - SIZE));
      if poolSize - available > maxUsed { maxUsed := poolSize - available; }
      var y := Next(links, x);
      freeLinks := Detach(freeLinks, y);
      links := Detach(links, y);
      var z := x + SIZE + n;
      links := InsertAfter(links, x, z);
      used := used[z := false];
      freeLinks := InsertAfter(freeLinks, HEAD, z);
    }

    /** The part of rt_memheap_realloc that gives room back. */
    method ShrinkInPlace(x: Addr, n: nat)
      requires Valid() && x in LiveBlocks() && n + SIZE + MINIALLOC < LiveBlocks()[x] && n % ALIGN == 0
      modifies this
      ensures Valid() && Value() == Shrink(old(Value()), x, n) && LiveBlocks() == old(LiveBlocks())[x := n]
    {
      hide Tiled, Ring, Unique, Apart, Listed, FreeBytes, Live, Removed, Inserted, InsertAfter, Detach;
      ghost var before := Value();
      ghost var k := LiveInPool(before, shadow, x);
      shadow := ShrinkKeepsInv(before, shadow, x, n);
      var z := x + n + SIZE;
      links := InsertAfter(links, x, z);
      used := used[z := false];
      var y := Next(links, z);
      if !InUse(used, y) {
        available := available - (Next(links, y) - y - SIZE);
        links := Detach(links, y);
        freeLinks := Detach(freeLinks, y);
      }
      freeLinks := InsertAfter(freeLinks, HEAD, z);
      available := available + (Next(links, z) - z - SIZE);
    }

    /** The contents move with the block, and no other live block changes. */
    method Realloc(ptr: Addr, newsize: nat) returns (r: Addr)
      requires Valid() && (ptr == NULL || ptr - SIZE in LiveBlocks())
      modifies this, memory
      ensures Valid()
      ensures newsize == 0 ==>
                && r == NULL && LiveBlocks() == Without(old(LiveBlocks()), ptr)
                && Value() == if ptr == NULL then old(Value()) else Free(old(Value()), ptr - SIZE)
      ensures newsize > 0 && ptr == NULL ==>
                && (r == NULL <==> Refused(old(Value()), old(shadow), Request(newsize)))
                && (r != NULL ==> Value() == AllocAt(old(Value()), r - SIZE, Request(newsize)))
      ensures newsize > 0 && ptr != NULL ==>
                var s, n, x, room := old(Value()), Request(newsize), ptr - SIZE, old(LiveBlocks())[ptr - SIZE];
                if n <= room then r == ptr && Value() == if n + SIZE + MINIALLOC < room then Shrink(s, x, n) else s
                else if Grows(s, x, n) then r == ptr && Value() == Grow(s, x, n)
                else
                  && (r == NULL <==> Refused(s, old(shadow), n))
                  && (r != NULL ==> FirstFit(s, old(shadow), r - SIZE, n) && Value() == Free(AllocAt(s, r - SIZE, n), x))
      ensures newsize > 0 && r == NULL ==>
                Value() == old(Value()) && LiveBlocks() == old(LiveBlocks()) && memory[..] == old(memory[..])
      ensures r != NULL ==>
                && r - SIZE !in Without(old(LiveBlocks()), ptr)
                && r - SIZE in LiveBlocks() && LiveBlocks()[r - SIZE] >= Request(newsize)
                && LiveBlocks() == Without(old(LiveBlocks()), ptr)[r - SIZE := LiveBlocks()[r - SIZE]]
      ensures r != NULL && ptr != NULL ==>
                SameContents(old(memory[..]), ptr, memory[..], r, Min(old(LiveBlocks())[ptr - SIZE], Request(newsize)))
      ensures forall p <- Without(old(LiveBlocks()), ptr) ::
                SameContents(old(memory[..]), p + SIZE, memory[..], p + SIZE, old(LiveBlocks())[p])
    {
      hide Tiled, Ring, Unique, Apart, Listed, FreeBytes, Live, Removed, Inserted, InsertAfter, Detach;
      AllInPool(Value(), shadow);
      if newsize == 0 {
        FreeBlock(ptr);
        return NULL;
      }
      var n := Request(newsize);
      RequestTwice(newsize);
      if ptr == NULL {
        r := Alloc(n);
        return;
      }
      var x := ptr - SIZE;
      ghost var k := LiveInPool(Value(), shadow, x);
      var oldsize := Next(links, x) - x - SIZE;
      if n <= oldsize {
        if n + SIZE + MINIALLOC < oldsize { ShrinkInPlace(x, n); }
        return ptr;
      }
      if Grows(State(links, freeLinks, used, poolSize, available, maxUsed), x, n) {
        GrowInPlace(x, n);
        return ptr;
      }
      r := Move(ptr, n);
    }

    /** The part of rt_memheap_realloc that allocates, copies and frees. */
    method Move(ptr: Addr, n: nat) returns (r: Addr)
      requires Valid() && ptr - SIZE in LiveBlocks() && n > LiveBlocks()[ptr - SIZE]
      modifies this, memory
      ensures Valid()
      ensures r == NULL <==> Refused(old(Value()), old(shadow), Request(n))
      ensures r == NULL ==> Value() == old(Value()) && LiveBlocks() == old(LiveBlocks()) && memory[..] == old(memory[..])
      ensures r != NULL ==>
                && FirstFit(old(Value()), old(shadow), r - SIZE, Request(n))
                && Value() == Free(AllocAt(old(Value()), r - SIZE, Request(n)), ptr - SIZE)
      ensures r != NULL ==>
                && r - SIZE !in old(LiveBlocks())
                && r - SIZE in LiveBlocks() && LiveBlocks()[r - SIZE] >= n
                && LiveBlocks() == (old(LiveBlocks()) - {ptr - SIZE})[r - SIZE := LiveBlocks()[r - SIZE]]
                && SameContents(old(memory[..]), ptr, memory[..], r, old(LiveBlocks())[ptr - SIZE])
      ensures forall p <- old(LiveBlocks()) :: p != ptr - SIZE ==>
                SameContents(old(memory[..]), p + SIZE, memory[..], p + SIZE, old(LiveBlocks())[p])
    {
      hide Tiled, Ring, Unique, Apart, Listed, FreeBytes, Live, Removed, Inserted, InsertAfter, Detach;
      var x := ptr - SIZE;
      ghost var live := LiveBlocks();
      ghost var k := LiveInPool(Value(), shadow, x);
      AllInPool(Value(), shadow);
      var oldsize := Next(links, x) - x - SIZE;
      r := Alloc(n);
      if r == NULL { return; }
      ghost var y := r - SIZE;
      AllInPool(Value(), shadow);
      AllApart(Value(), shadow, y);
      assert x in LiveBlocks() && x != y && LiveBlocks()[x] == oldsize;
      ghost var all, bytes := LiveBlocks(), memory[..];
      assert forall p <- live :: p in all && all[p] == live[p] && p != y;
      CopyBytes(r, ptr, oldsize);
      forall p | p in live && p != x
        ensures SameContents(bytes, p + SIZE, memory[..], p + SIZE, live[p])
      {
        assert p + SIZE + all[p] <= y || y + SIZE + all[y] <= p;
      }
      FreeBlock(ptr);
      assert LiveBlocks() == (live - {x})[y := LiveBlocks()[y]];
    }
  }

  function Min(a: int, b: int): int { if a < b then a else b }

  /** n bytes at p of a memory are those at q of another. */
  predicate SameContents(a: seq<Byte>, p: int, b: seq<Byte>, q: int, n: int) {
    && 0 <= p && p + n <= |a| && 0 <= q && q + n <= |b|
    && forall i :: q <= i < q + n ==> b[i] == a[i - q + p]
  }

  function Without(live: map<Addr, int>, ptr: Addr): map<Addr, int> {
    if ptr == NULL then live else live - {ptr - SIZE}
  }

  lemma AllInPool(s: State, a: Abs)
    requires Inv(s, a)
    ensures forall p <- Live(a.blocks, s.used) :: p >= 0 && 0 <= Live(a.blocks, s.used)[p]
                                                 && p + SIZE + Live(a.blocks, s.used)[p] <= s.poolSize
  {
    hide Inv, Live;
    forall p | p in Live(a.blocks, s.used)
      ensures p >= 0 && 0 <= Live(a.blocks, s.used)[p] && p + SIZE + Live(a.blocks, s.used)[p] <= s.poolSize
    {
      var k := LiveInPool(s, a, p);
    }
  }

  lemma AllApart(s: State, a: Abs, q: Addr)
    requires Inv(s, a) && q in Live(a.blocks, s.used)
    ensures forall p <- Live(a.blocks, s.used) :: p != q ==>
              p + SIZE + Live(a.blocks, s.used)[p] <= q || q + SIZE + Live(a.blocks, s.used)[q] <= p
  {
    hide Inv, Live;
    forall p | p in Live(a.blocks, s.used) && p != q
      ensures p + SIZE + Live(a.blocks, s.used)[p] <= q || q + SIZE + Live(a.blocks, s.used)[q] <= p
    {
      LiveApart(s, a, p, q);
    }
  }

  /** A block that was not in use was not live. */
  lemma FreshBlock(s: State, a: Abs, x: Addr)
    requires Inv(s, a) && x in a.frees
    ensures x !in Live(a.blocks, s.used) && x >= 0
  {
    hide Tiled, Ring, Unique, Apart, Listed, FreeBytes, Live;
    FreeIsBlock(s, a, x);
    NoBlockAtNull(s, a);
    if x in Live(a.blocks, s.used) { LiveAtSome(a.blocks, s.used, x); }
  }
}
