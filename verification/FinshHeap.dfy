/** The heap of the shell, components/finsh/finsh_heap.c: allocation, release and garbage collection on
    two lists of blocks that are sorted by address. */
module FinshHeap {
  import RtList

  /** sizeof(struct finsh_block_header) and HEAP_ALIGNMENT. */
  const HDR := 8
  const ALIGN := 4
  const NULL := -1

  datatype Block = Block(at: nat, len: nat, used: bool)

  function AlignUp(size: nat): (r: nat)
    ensures size <= r < size + ALIGN && r % ALIGN == 0
  {
    (size + ALIGN - 1) / ALIGN * ALIGN
  }

  // ---------------------------------------------------------------- all blocks, by address

  /** The blocks fill the memory from `from` to `to`. */
  predicate Tiled(bs: seq<Block>, from: nat, to: nat) {
    if bs == [] then from == to
    else bs[0].at == from && Tiled(bs[1..], from + HDR + bs[0].len, to)
  }

  predicate Apart(bs: seq<Block>) {
    |bs| < 2 || ((bs[0].used || bs[1].used) && Apart(bs[1..]))
  }

  /** The blocks fill the heap, no two free ones touch, and the highest one is free. */
  predicate Sound(bs: seq<Block>, size: nat) {
    Tiled(bs, 0, size) && Apart(bs) && bs != [] && !bs[|bs| - 1].used
  }

  /** The addresses of the used blocks, or of the free ones. */
  function Pick(bs: seq<Block>, used: bool): seq<nat> {
    if bs == [] then [] else (if bs[0].used == used then [bs[0].at] else []) + Pick(bs[1..], used)
  }

  function Live(bs: seq<Block>): map<nat, nat> {
    if bs == [] then map[] else if bs[0].used then Live(bs[1..])[bs[0].at := bs[0].len] else Live(bs[1..])
  }

  lemma {:induction false} TiledConcat(a: seq<Block>, b: seq<Block>, from: nat, mid: nat, to: nat)
    requires Tiled(a, from, mid) && Tiled(b, mid, to)
    ensures Tiled(a + b, from, to)
  {
    if a == [] { assert a + b == b; }
    else {
      TiledConcat(a[1..], b, from + HDR + a[0].len, mid, to);
      assert (a + b)[1..] == a[1..] + b;
    }
  }

  lemma {:induction false} TiledCut(a: seq<Block>, b: seq<Block>, from: nat, to: nat) returns (mid: nat)
    requires Tiled(a + b, from, to)
    ensures Tiled(a, from, mid) && Tiled(b, mid, to)
    ensures b != [] ==> b[0].at == mid
    ensures a != [] ==> mid == a[|a| - 1].at + HDR + a[|a| - 1].len
  {
    if a == [] {
      assert a + b == b;
      mid := from;
    } else {
      assert (a + b)[1..] == a[1..] + b;
      mid := TiledCut(a[1..], b, from + HDR + a[0].len, to);
    }
  }

  lemma PickFirst(bs: seq<Block>, used: bool)
    requires bs != []
    ensures Pick(bs, used) == if bs[0].used == used then [bs[0].at] + Pick(bs[1..], used) else Pick(bs[1..], used)
  {
    assert [] + Pick(bs[1..], used) == Pick(bs[1..], used);
  }

  lemma PickNone(used: bool)
    ensures Pick([], used) == []
  {
  }

  lemma {:induction false} PickConcat(a: seq<Block>, b: seq<Block>, used: bool)
    ensures Pick(a + b, used) == Pick(a, used) + Pick(b, used)
  {
    hide Pick;
    if a == [] {
      PickNone(used);
      assert a + b == b;
    } else {
      PickConcat(a[1..], b, used);
      PickFirst(a, used);
      PickFirst(a + b, used);
      assert (a + b)[1..] == a[1..] + b;
    }
  }

  lemma {:induction false} LiveConcat(a: seq<Block>, b: seq<Block>)
    ensures Live(a + b) == Live(b) + Live(a)
  {
    if a == [] {
      assert a + b == b;
      assert Live(b) + map[] == Live(b);
    } else {
      LiveConcat(a[1..], b);
      assert (a + b)[1..] == a[1..] + b;
    }
  }

  lemma AscendingNone()
    ensures Ascending([])
  {
  }

  lemma AscendingCons(x: nat, ns: seq<nat>)
    requires Ascending(ns) && forall y <- ns :: x < y
    ensures Ascending([x] + ns)
  {
    var r := [x] + ns;
    forall i, j | 0 <= i < j < |r|
      ensures r[i] < r[j]
    {
      assert r[j] == ns[j - 1] && ns[j - 1] in ns;
      if i > 0 { assert r[i] == ns[i - 1]; }
    }
  }

  lemma {:induction false} PickBounds(bs: seq<Block>, used: bool, from: nat, to: nat)
    requires Tiled(bs, from, to)
    ensures from <= to && forall x <- Pick(bs, used) :: from <= x && x + HDR <= to
    ensures Ascending(Pick(bs, used))
  {
    hide Ascending;
    if bs == [] {
      AscendingNone();
    } else {
      var rest := Pick(bs[1..], used);
      PickBounds(bs[1..], used, from + HDR + bs[0].len, to);
      AscendingCons(bs[0].at, rest);
      assert [] + rest == rest;
    }
  }

  lemma {:induction false} LiveBounds(bs: seq<Block>, from: nat, to: nat)
    requires Tiled(bs, from, to)
    ensures forall x <- Live(bs) :: from <= x && x + HDR + Live(bs)[x] <= to
  {
    if bs != [] {
      LiveBounds(bs[1..], from + HDR + bs[0].len, to);
      PickBounds(bs[1..], true, from + HDR + bs[0].len, to);
    }
  }

  predicate Ascending(ns: seq<nat>) {
    forall i, j :: 0 <= i < j < |ns| ==> ns[i] < ns[j]
  }

  // ---------------------------------------------------------------- what the operations do to them

  /** A free block gives its beginning away, and always keeps an end, if only a header. */
  function Allocated(before: seq<Block>, b: Block, behind: seq<Block>, size: nat): seq<Block>
    requires size + HDR <= b.len
  {
    before + [Block(b.at, size, true), Block(b.at + HDR + size, b.len - HDR - size, false)] + behind
  }

  /** A block becomes free, and takes over its free neighbours or is taken over. */
  function Released(before: seq<Block>, b: Block, behind: seq<Block>): seq<Block> {
    var n := |before|;
    var rest := if behind != [] && !behind[0].used then behind[1..] else behind;
    var len := if behind != [] && !behind[0].used then b.len + HDR + behind[0].len else b.len;
    if n > 0 && !before[n - 1].used then
      before[..n - 1] + [Block(before[n - 1].at, before[n - 1].len + HDR + len, false)] + rest
    else before + [Block(b.at, len, false)] + rest
  }

  lemma {:induction false} ApartCut(a: seq<Block>, b: seq<Block>)
    requires Apart(a + b)
    ensures Apart(a) && Apart(b) && (a != [] && b != [] ==> a[|a| - 1].used || b[0].used)
  {
    if a == [] { assert a + b == b; }
    else {
      assert (a + b)[1..] == a[1..] + b;
      if |a + b| >= 2 { ApartCut(a[1..], b); }
      if |a| == 1 && b != [] { assert (a + b)[1] == b[0]; }
      if |a| > 1 { assert (a + b)[1] == a[1]; }
    }
  }

  lemma {:induction false} ApartConcat(a: seq<Block>, b: seq<Block>)
    requires Apart(a) && Apart(b) && (a != [] && b != [] ==> a[|a| - 1].used || b[0].used)
    ensures Apart(a + b)
  {
    if a == [] { assert a + b == b; }
    else {
      ApartConcat(a[1..], b);
      assert (a + b)[1..] == a[1..] + b;
      if |a| == 1 && b != [] { assert (a + b)[1] == b[0]; }
      if |a| > 1 { assert (a + b)[1] == a[1]; }
    }
  }

  /** The two blocks that an allocation makes of b. */
  function Two(b: Block, size: nat): seq<Block>
    requires size + HDR <= b.len
  {
    [Block(b.at, size, true), Block(b.at + HDR + size, b.len - HDR - size, false)]
  }

  lemma TwoTiled(b: Block, behind: seq<Block>, size: nat, total: nat)
    requires Tiled([b] + behind, b.at, total) && size + HDR <= b.len
    ensures Tiled(Two(b, size) + behind, b.at, total)
  {
    var t := Two(b, size);
    assert ([b] + behind)[1..] == behind;
    assert (t + behind)[1..] == [t[1]] + behind && ([t[1]] + behind)[1..] == behind;
  }

  lemma TwoApart(b: Block, behind: seq<Block>, size: nat)
    requires Apart([b] + behind) && !b.used && size + HDR <= b.len
    ensures Apart(Two(b, size) + behind)
  {
    var t := Two(b, size);
    ApartSecond(b, t[1], behind);
    assert (t + behind)[1..] == [t[1]] + behind;
  }

  lemma AllocatedSound(before: seq<Block>, b: Block, behind: seq<Block>, size: nat, total: nat)
    requires Sound(before + [b] + behind, total) && !b.used && size + HDR <= b.len
    ensures Sound(Allocated(before, b, behind, size), total)
  {
    hide Tiled, Apart;
    Around(before, b, behind, total);
    TwoTiled(b, behind, size, total);
    TiledConcat(before, Two(b, size) + behind, 0, b.at, total);
    ApartCut(before, [b] + behind);
    TwoApart(b, behind, size);
    ApartConcat(before, Two(b, size) + behind);
    assert Allocated(before, b, behind, size) == before + (Two(b, size) + behind);
  }

  lemma AllocatedLive(before: seq<Block>, b: Block, behind: seq<Block>, size: nat, total: nat)
    requires Tiled(before + [b] + behind, 0, total) && !b.used && size + HDR <= b.len
    ensures var bs, r := before + [b] + behind, Allocated(before, b, behind, size);
            b.at !in Live(bs) && Live(r) == Live(bs)[b.at := size]
  {
    hide Tiled;
    var t := Two(b, size);
    LiveAround(before, b, behind, total);
    LiveConcat(before, t + behind);
    assert Allocated(before, b, behind, size) == before + (t + behind);
    assert (t + behind)[1..] == [t[1]] + behind && ([t[1]] + behind)[1..] == behind;
  }

  lemma AllocatedPick(before: seq<Block>, b: Block, behind: seq<Block>, size: nat)
    requires !b.used && size + HDR <= b.len
    ensures var r := Allocated(before, b, behind, size);
            && Pick(r, true) == Pick(before, true) + [b.at] + Pick(behind, true)
            && Pick(r, false) == Pick(before, false) + [b.at + HDR + size] + Pick(behind, false)
  {
    hide Pick, Allocated;
    var c, d := Block(b.at, size, true), Block(b.at + HDR + size, b.len - HDR - size, false);
    AllocatedIs(before, b, behind, size);
    PickConcat(before, [c, d] + behind, true);
    PickConcat(before, [c, d] + behind, false);
    PickTwo(c, d, behind);
    PutBetween(Pick(before, true), c.at, Pick(behind, true));
    PutBetween(Pick(before, false), d.at, Pick(behind, false));
  }

  lemma AllocatedIs(before: seq<Block>, b: Block, behind: seq<Block>, size: nat)
    requires size + HDR <= b.len
    ensures var c, d := Block(b.at, size, true), Block(b.at + HDR + size, b.len - HDR - size, false);
            Allocated(before, b, behind, size) == before + ([c, d] + behind)
  {
  }

  lemma PutBetween(p: seq<nat>, x: nat, q: seq<nat>)
    ensures p + ([x] + q) == p + [x] + q && p + ([x] + ([] + q)) == p + [x] + q && p + ([] + ([x] + q)) == p + [x] + q
  {
    assert [] + q == q && [] + ([x] + q) == [x] + q;
  }

  /** The blocks before and behind b fill what it leaves. */
  lemma Around(before: seq<Block>, b: Block, behind: seq<Block>, total: nat)
    requires Tiled(before + [b] + behind, 0, total)
    ensures Tiled(before, 0, b.at) && Tiled(behind, b.at + HDR + b.len, total)
    ensures before + [b] + behind == before + ([b] + behind) && Tiled([b] + behind, b.at, total)
  {
    assert before + [b] + behind == before + ([b] + behind);
    var mid := TiledCut(before, [b] + behind, 0, total);
    assert ([b] + behind)[1..] == behind;
  }

  lemma ApartSecond(b: Block, c: Block, behind: seq<Block>)
    requires Apart([b] + behind) && !b.used
    ensures Apart([c] + behind) && (behind != [] ==> behind[0].used)
  {
    assert ([b] + behind)[1..] == behind && ([c] + behind)[1..] == behind;
    if behind != [] { assert ([b] + behind)[1] == behind[0] && ([c] + behind)[1] == behind[0]; }
  }

  lemma PickAround(before: seq<Block>, b: Block, behind: seq<Block>, used: bool)
    ensures Pick(before + [b] + behind, used) == Pick(before, used) + (if b.used == used then [b.at] else []) + Pick(behind, used)
  {
    PickConcat(before + [b], behind, used);
    PickConcat(before, [b], used);
    assert [b][1..] == [];
    var one := if b.used == used then [b.at] else [];
    assert Pick([b], used) == one + [] == one;
  }

  lemma PickTwo(b: Block, c: Block, behind: seq<Block>)
    ensures forall used :: Pick([b, c] + behind, used) ==
              (if b.used == used then [b.at] else []) + ((if c.used == used then [c.at] else []) + Pick(behind, used))
  {
    assert ([b, c] + behind)[1..] == [c] + behind && ([c] + behind)[1..] == behind;
  }

  lemma LiveAround(before: seq<Block>, b: Block, behind: seq<Block>, total: nat)
    requires Tiled(before + [b] + behind, 0, total)
    ensures b.at !in Live(before) && b.at !in Live(behind)
    ensures Live(before + [b] + behind) == (if b.used then Live(behind)[b.at := b.len] else Live(behind)) + Live(before)
  {
    Around(before, b, behind, total);
    LiveConcat(before, [b] + behind);
    assert ([b] + behind)[1..] == behind;
    LiveBounds(before, 0, b.at);
    LiveBounds(behind, b.at + HDR + b.len, total);
  }

  // Release

  function FreeBefore(before: seq<Block>): bool { before != [] && !before[|before| - 1].used }

  function FreeBehind(behind: seq<Block>): bool { behind != [] && !behind[0].used }

  lemma ReleasedIs(before: seq<Block>, b: Block, behind: seq<Block>)
    ensures var rest := if FreeBehind(behind) then behind[1..] else behind;
            var len := if FreeBehind(behind) then b.len + HDR + behind[0].len else b.len;
            var n := |before|;
            Released(before, b, behind) ==
              if FreeBefore(before) then before[..n - 1] + ([Block(before[n - 1].at, before[n - 1].len + HDR + len, false)] + rest)
              else before + ([Block(b.at, len, false)] + rest)
  {
  }

  lemma LastOfBefore(before: seq<Block>)
    requires before != []
    ensures before == before[..|before| - 1] + [before[|before| - 1]]
  {
  }

  lemma TiledOne(b: Block, rest: seq<Block>, to: nat)
    ensures Tiled([b] + rest, b.at, to) <==> Tiled(rest, b.at + HDR + b.len, to)
  {
    assert ([b] + rest)[1..] == rest;
  }

  lemma ApartOne(b: Block, rest: seq<Block>)
    ensures Apart([b] + rest) <==> Apart(rest) && (rest != [] ==> b.used || rest[0].used)
  {
    assert ([b] + rest)[1..] == rest;
    if rest != [] { assert ([b] + rest)[1] == rest[0]; }
  }

  /** What a released block and a free one behind it become. */
  lemma ReleasedBehind(b: Block, behind: seq<Block>, to: nat)
    requires Tiled(behind, b.at + HDR + b.len, to) && Apart(behind)
    ensures var rest := if FreeBehind(behind) then behind[1..] else behind;
            var len := if FreeBehind(behind) then b.len + HDR + behind[0].len else b.len;
            && Tiled(rest, b.at + HDR + len, to) && Apart(rest) && (rest != [] ==> rest[0].used)
            && (behind != [] && !behind[|behind| - 1].used && rest != [] ==> !rest[|rest| - 1].used)
  {
    if |behind| > 1 { assert behind[1..][0] == behind[1]; }
  }

  lemma SoundWith(before: seq<Block>, c: Block, rest: seq<Block>, total: nat)
    requires Tiled(before, 0, c.at) && Tiled(rest, c.at + HDR + c.len, total) && Apart(before) && Apart(rest)
    requires !c.used && !FreeBefore(before) && !FreeBehind(rest) && (rest != [] ==> !rest[|rest| - 1].used)
    ensures Sound(before + ([c] + rest), total)
  {
    hide Tiled, Apart;
    TiledOne(c, rest, total);
    TiledConcat(before, [c] + rest, 0, c.at, total);
    ApartOne(c, rest);
    ApartConcat(before, [c] + rest);
  }

  /** The free block at the end of what lies before. */
  lemma BeforeLast(before: seq<Block>, at: nat)
    requires Tiled(before, 0, at) && Apart(before) && FreeBefore(before)
    ensures var n := |before| - 1;
            && Tiled(before[..n], 0, before[n].at) && Apart(before[..n]) && !FreeBefore(before[..n])
            && at == before[n].at + HDR + before[n].len
  {
    hide Tiled, Apart;
    var n := |before| - 1;
    LastOfBefore(before);
    var mid := TiledCut(before[..n], [before[n]], 0, at);
    assert [before[n]] + [] == [before[n]];
    TiledOne(before[n], [], at);
    TiledEnds(before[n].at + HDR + before[n].len, at);
    ApartCut(before[..n], [before[n]]);
  }

  lemma ReleasedSound(before: seq<Block>, b: Block, behind: seq<Block>, total: nat)
    requires Sound(before + [b] + behind, total) && b.used
    ensures Sound(Released(before, b, behind), total)
  {
    hide Tiled, Apart, Released;
    Around(before, b, behind, total);
    ApartCut(before, [b] + behind);
    ApartOne(b, behind);
    ReleasedBehind(b, behind, total);
    ReleasedIs(before, b, behind);
    var rest := if FreeBehind(behind) then behind[1..] else behind;
    var len := if FreeBehind(behind) then b.len + HDR + behind[0].len else b.len;
    if FreeBefore(before) {
      var n := |before| - 1;
      BeforeLast(before, b.at);
      SoundWith(before[..n], Block(before[n].at, before[n].len + HDR + len, false), rest, total);
    } else {
      SoundWith(before, Block(b.at, len, false), rest, total);
    }
  }

  lemma TiledEnds(from: nat, to: nat)
    ensures Tiled([], from, to) ==> from == to
  {
  }

  lemma LiveOne(b: Block, rest: seq<Block>)
    ensures Live([b] + rest) == if b.used then Live(rest)[b.at := b.len] else Live(rest)
  {
    assert ([b] + rest)[1..] == rest;
  }

  lemma LiveFreeFirst(behind: seq<Block>)
    requires FreeBehind(behind)
    ensures Live(behind[1..]) == Live(behind)
  {
  }

  lemma ReleasedLive(before: seq<Block>, b: Block, behind: seq<Block>, total: nat)
    requires Tiled(before + [b] + behind, 0, total) && b.used
    ensures var bs := before + [b] + behind; b.at in Live(bs) && Live(Released(before, b, behind)) == Live(bs) - {b.at}
  {
    hide Tiled, Live, Released;
    ReleasedIs(before, b, behind);
    LiveAround(before, b, behind, total);
    var rest := if FreeBehind(behind) then behind[1..] else behind;
    if FreeBehind(behind) { LiveFreeFirst(behind); }
    if FreeBefore(before) {
      var n := |before| - 1;
      var p, q := before[..n], before[n];
      LastOfBefore(before);
      LiveConcat(p, [q]);
      LiveOne(q, []);
      assert [q] + [] == [q];
      LiveNone();
      var c := Block(q.at, q.len + HDR + (if FreeBehind(behind) then b.len + HDR + behind[0].len else b.len), false);
      LiveConcat(p, [c] + rest);
      LiveOne(c, rest);
    } else {
      var c := Block(b.at, if FreeBehind(behind) then b.len + HDR + behind[0].len else b.len, false);
      LiveConcat(before, [c] + rest);
      LiveOne(c, rest);
    }
  }

  lemma LiveNone()
    ensures Live([]) == map[]
  {
  }

  lemma PickOne(b: Block, rest: seq<Block>, used: bool)
    ensures Pick([b] + rest, used) == if b.used == used then [b.at] + Pick(rest, used) else Pick(rest, used)
  {
    PickFirst([b] + rest, used);
    assert ([b] + rest)[1..] == rest;
  }

  lemma PickWith(before: seq<Block>, c: Block, rest: seq<Block>, used: bool)
    ensures Pick(before + ([c] + rest), used)
            == Pick(before, used) + (if c.used == used then [c.at] + Pick(rest, used) else Pick(rest, used))
  {
    hide Pick;
    PickConcat(before, [c] + rest, used);
    PickOne(c, rest, used);
  }

  /** The last block of a list, if it is free, is the last of the free ones. */
  lemma PickLast(before: seq<Block>)
    requires FreeBefore(before)
    ensures var x, y := before[..|before| - 1], before[|before| - 1];
            Pick(before, false) == Pick(x, false) + [y.at] && Pick(before, true) == Pick(x, true)
  {
    hide Pick;
    var x, y := before[..|before| - 1], before[|before| - 1];
    LastOfBefore(before);
    assert before == x + ([y] + []);
    PickWith(x, y, [], true);
    PickWith(x, y, [], false);
    PickNone(true);
    PickNone(false);
    assert Pick(x, true) + [] == Pick(x, true);
  }

  lemma PickBehind(behind: seq<Block>)
    requires FreeBehind(behind)
    ensures Pick(behind, false) == [behind[0].at] + Pick(behind[1..], false) && Pick(behind, true) == Pick(behind[1..], true)
  {
    PickFirst(behind, true);
    PickFirst(behind, false);
  }

  /** The list of used blocks after a release, */
  lemma ReleasedPickUsed(before: seq<Block>, b: Block, behind: seq<Block>)
    ensures Pick(Released(before, b, behind), true) == Pick(before, true) + Pick(behind, true)
  {
    hide Pick, Released;
    ReleasedIs(before, b, behind);
    var rest := if FreeBehind(behind) then behind[1..] else behind;
    var len := if FreeBehind(behind) then b.len + HDR + behind[0].len else b.len;
    if FreeBehind(behind) { PickBehind(behind); }
    if FreeBefore(before) {
      var n := |before| - 1;
      PickLast(before);
      PickWith(before[..n], Block(before[n].at, before[n].len + HDR + len, false), rest, true);
    } else {
      PickWith(before, Block(b.at, len, false), rest, true);
    }
  }

  /** and the list of free ones. */
  lemma ReleasedPickFree(before: seq<Block>, b: Block, behind: seq<Block>)
    ensures var p, q := Pick(before, false), Pick(behind, false);
            && (FreeBefore(before) ==> p != [] && p[|p| - 1] == before[|before| - 1].at)
            && (FreeBehind(behind) ==> q != [] && q[0] == behind[0].at)
            && Pick(Released(before, b, behind), false)
               == (if FreeBefore(before) then p else p + [b.at]) + (if FreeBehind(behind) then q[1..] else q)
  {
    hide Pick, Released;
    ReleasedIs(before, b, behind);
    var rest := if FreeBehind(behind) then behind[1..] else behind;
    var len := if FreeBehind(behind) then b.len + HDR + behind[0].len else b.len;
    var p, q, r := Pick(before, false), Pick(behind, false), Pick(rest, false);
    if FreeBehind(behind) { PickBehind(behind); }
    if FreeBefore(before) {
      var n := |before| - 1;
      var x := Pick(before[..n], false);
      PickLast(before);
      PickWith(before[..n], Block(before[n].at, before[n].len + HDR + len, false), rest, false);
      PutBetween(x, before[n].at, r);
    } else {
      PickWith(before, Block(b.at, len, false), rest, false);
      PutBetween(p, b.at, r);
    }
  }

  // ---------------------------------------------------------------- the two lists

  predicate At(next: map<int, int>, ns: seq<int>, i: nat)
    requires i < |ns|
  {
    ns[i] in next && next[ns[i]] == if i + 1 < |ns| then ns[i + 1] else NULL
  }

  /** The list from head on, linked by next. */
  predicate Linked(next: map<int, int>, head: int, ns: seq<int>) {
    && head == (if ns == [] then NULL else ns[0])
    && RtList.Unique(ns)
    && forall i {:trigger At(next, ns, i)} :: 0 <= i < |ns| ==> At(next, ns, i)
  }

  lemma LinkedAt(next: map<int, int>, head: int, ns: seq<int>, i: nat)
    requires Linked(next, head, ns) && i < |ns|
    ensures At(next, ns, i)
  {
  }

  lemma LinkedIs(next: map<int, int>, head: int, ns: seq<int>)
    requires Linked(next, head, ns)
    ensures head == (if ns == [] then NULL else ns[0]) && RtList.Unique(ns)
  {
  }

  lemma LinkedElsewhere(next: map<int, int>, after: map<int, int>, head: int, ns: seq<int>)
    requires Linked(next, head, ns)
    requires forall x :: x in ns ==> x in after && (x in next ==> after[x] == next[x])
    ensures Linked(after, head, ns)
  {
    forall i | 0 <= i < |ns|
      ensures At(after, ns, i)
    {
      LinkedAt(next, head, ns, i);
      assert ns[i] in ns;
    }
  }

  /** The links that finsh_block_insert makes at place k. Behind the last block, or in an empty list, it
      leaves the link of the new block as it was. */
  function InsertLinks(next: map<int, int>, ns: seq<int>, k: nat, h: int): map<int, int>
    requires k <= |ns|
  {
    if ns == [] then next
    else if k == 0 then next[h := ns[0]]
    else (if k < |ns| then next[h := ns[k]] else next)[ns[k - 1] := h]
  }

  lemma InsertedLinked(next: map<int, int>, head: int, ns: seq<int>, k: nat, h: int)
    requires Linked(next, head, ns) && k <= |ns| && h !in ns && h in next && (k == |ns| ==> next[h] == NULL)
    ensures Linked(InsertLinks(next, ns, k, h), if k == 0 then h else head, RtList.Inserted(ns, k, h))
  {
    hide Linked;
    AllLinked(next, head, ns);
    LinkedIs(next, head, ns);
    RtList.UniqueInserted(ns, k, h);
    var after, r := InsertLinks(next, ns, k, h), RtList.Inserted(ns, k, h);
    forall i | 0 <= i < |r|
      ensures At(after, r, i)
    {
      InsertedAt(next, head, ns, k, h, i);
    }
    MakeLinked(after, if k == 0 then h else head, r);
  }

  lemma AllLinked(next: map<int, int>, head: int, ns: seq<int>)
    requires Linked(next, head, ns)
    ensures forall x <- ns :: x in next
  {
    forall x | x in ns
      ensures x in next
    {
      var i :| 0 <= i < |ns| && ns[i] == x;
      LinkedAt(next, head, ns, i);
    }
  }

  lemma MakeLinked(next: map<int, int>, head: int, ns: seq<int>)
    requires head == (if ns == [] then NULL else ns[0]) && RtList.Unique(ns)
    requires forall i {:trigger At(next, ns, i)} :: 0 <= i < |ns| ==> At(next, ns, i)
    ensures Linked(next, head, ns)
  {
  }

  lemma InsertedAt(next: map<int, int>, head: int, ns: seq<int>, k: nat, h: int, i: nat)
    requires Linked(next, head, ns) && k <= |ns| && h !in ns && h in next && (k == |ns| ==> next[h] == NULL)
    requires i <= |ns|
    ensures At(InsertLinks(next, ns, k, h), RtList.Inserted(ns, k, h), i)
  {
    hide Linked, RtList.Inserted, RtList.Unique;
    LinkedIs(next, head, ns);
    if i < k { LinkedAt(next, head, ns, i); RtList.Different(ns, i, k - 1); assert ns[i] in ns; }
    if i > k {
      LinkedAt(next, head, ns, i - 1);
      assert ns[i - 1] in ns;
      if k > 0 { RtList.Different(ns, i - 1, k - 1); }
    }
  }

  /** The links that finsh_block_remove makes. */
  function RemoveLinks(next: map<int, int>, ns: seq<int>, k: nat): map<int, int>
    requires k < |ns| && ns[k] in next
  {
    if k == 0 then next[ns[0] := NULL] else next[ns[k - 1] := next[ns[k]]]
  }

  lemma RemovedLinked(next: map<int, int>, head: int, ns: seq<int>, k: nat)
    requires Linked(next, head, ns) && k < |ns|
    ensures ns[k] in next
    ensures Linked(RemoveLinks(next, ns, k), if k == 0 then next[ns[k]] else head, RtList.Removed(ns, k))
  {
    hide Linked, RtList.Removed;
    AllLinked(next, head, ns);
    LinkedIs(next, head, ns);
    LinkedAt(next, head, ns, k);
    RtList.UniqueRemoved(ns, k);
    var after, r := RemoveLinks(next, ns, k), RtList.Removed(ns, k);
    forall i | 0 <= i < |r|
      ensures At(after, r, i)
    {
      var j := if i < k then i else i + 1;
      LinkedAt(next, head, ns, j);
      RtList.Different(ns, j, if k == 0 then 0 else k - 1);
    }
    MakeLinked(after, if k == 0 then next[ns[k]] else head, r);
  }

  /** The links that finsh_block_split makes: z comes behind the block at place k. */
  lemma SplitLinked(next: map<int, int>, head: int, ns: seq<int>, k: nat, z: int)
    requires Linked(next, head, ns) && k < |ns| && z !in ns
    ensures ns[k] in next
    ensures Linked(next[z := next[ns[k]]][ns[k] := z], head, RtList.Inserted(ns, k + 1, z))
  {
    hide Linked, RtList.Inserted;
    AllLinked(next, head, ns);
    LinkedIs(next, head, ns);
    LinkedAt(next, head, ns, k);
    RtList.UniqueInserted(ns, k + 1, z);
    assert ns[k] in ns;
    var after, r := next[z := next[ns[k]]][ns[k] := z], RtList.Inserted(ns, k + 1, z);
    forall i | 0 <= i < |r|
      ensures At(after, r, i)
    {
      if i != k + 1 {
        var j := if i <= k then i else i - 1;
        LinkedAt(next, head, ns, j);
        RtList.Different(ns, j, k);
        assert ns[j] in ns;
      }
    }
    MakeLinked(after, head, r);
  }

  /** A block takes over the link of the next one. */
  lemma SkippedLinked(next: map<int, int>, head: int, ns: seq<int>, k: nat)
    requires Linked(next, head, ns) && k + 1 < |ns|
    ensures ns[k + 1] in next
    ensures Linked(next[ns[k] := next[ns[k + 1]]], head, RtList.Removed(ns, k + 1))
  {
    hide Linked;
    RemovedLinked(next, head, ns, k + 1);
    AllLinked(next, head, ns);
  }

  // ---------------------------------------------------------------- the object

  /** The header of every block holds its length. */
  predicate Sizes(len: map<int, nat>, bs: seq<Block>) {
    forall b <- bs :: b.at in len && len[b.at] == b.len
  }

  /** The free list has the addresses of the free blocks, and the allocate list those of the used ones. */
  ghost predicate Lists(next: map<int, int>, freeList: int, allocateList: int, bs: seq<Block>) {
    Linked(next, freeList, Pick(bs, false)) && Linked(next, allocateList, Pick(bs, true))
  }

  /** Where the k-th block of a list is among all blocks. */
  lemma {:induction false} PickIndex(bs: seq<Block>, used: bool, k: nat) returns (i: nat)
    requires k < |Pick(bs, used)|
    ensures i < |bs| && bs[i].used == used && bs[i].at == Pick(bs, used)[k] && |Pick(bs[..i], used)| == k
  {
    hide Pick;
    PickNone(used);
    PickFirst(bs, used);
    var rest := Pick(bs[1..], used);
    if bs[0].used == used && k == 0 {
      i := 0;
      assert bs[..0] == [];
    } else {
      var j := PickIndex(bs[1..], used, if bs[0].used == used then k - 1 else k);
      i := j + 1;
      assert bs[..i] == [bs[0]] + bs[1..][..j];
      PickOne(bs[0], bs[1..][..j], used);
    }
  }

  lemma BlocksAround(bs: seq<Block>, i: nat)
    requires i < |bs|
    ensures bs == bs[..i] + [bs[i]] + bs[i + 1..]
  {
  }

  lemma {:induction false} InLive(bs: seq<Block>, x: nat)
    requires x in Live(bs)
    ensures x in Pick(bs, true)
  {
    if !(bs[0].used && bs[0].at == x) { InLive(bs[1..], x); }
  }

  // ---------------------------------------------------------------- where blocks lie

  lemma {:induction false} TiledAts(bs: seq<Block>, from: nat, to: nat)
    requires Tiled(bs, from, to)
    ensures from <= to && forall x <- bs :: from <= x.at && x.at + HDR + x.len <= to
  {
    if bs != [] {
      TiledAts(bs[1..], from + HDR + bs[0].len, to);
      forall x | x in bs
        ensures from <= x.at && x.at + HDR + x.len <= to
      {
        if x != bs[0] { assert x in bs[1..]; }
      }
    }
  }

  predicate NoneAt(bs: seq<Block>, a: int) {
    forall b <- bs :: b.at != a
  }

  lemma NoneAtOutside(bs: seq<Block>, from: nat, to: nat, a: int)
    requires Tiled(bs, from, to) && (a < from || to <= a)
    ensures NoneAt(bs, a)
  {
    TiledAts(bs, from, to);
  }

  /** Writing the length of one block leaves the lengths of blocks elsewhere. */
  lemma SizesBut(len: map<int, nat>, bs: seq<Block>, a: int, v: nat)
    requires Sizes(len, bs) && NoneAt(bs, a)
    ensures Sizes(len[a := v], bs)
  {
  }

  lemma SizesOne(len: map<int, nat>, b: Block, rest: seq<Block>)
    ensures Sizes(len, [b] + rest) <==> b.at in len && len[b.at] == b.len && Sizes(len, rest)
  {
    var bs := [b] + rest;
    assert b in bs && forall x <- rest :: x in bs;
    assert forall x <- bs :: x == b || x in rest;
  }

  lemma SizesBoth(len: map<int, nat>, a: seq<Block>, b: seq<Block>)
    ensures Sizes(len, a + b) <==> Sizes(len, a) && Sizes(len, b)
  {
    var bs := a + b;
    assert (forall x <- a :: x in bs) && forall x <- b :: x in bs;
    assert forall x <- bs :: x in a || x in b;
  }

  lemma SizesCut(len: map<int, nat>, before: seq<Block>, b: Block, behind: seq<Block>)
    ensures Sizes(len, before + [b] + behind)
            <==> Sizes(len, before) && b.at in len && len[b.at] == b.len && Sizes(len, behind)
  {
    hide Sizes;
    assert before + [b] + behind == before + ([b] + behind);
    SizesBoth(len, before, [b] + behind);
    SizesOne(len, b, behind);
  }

  /** The next free block touches b exactly if the next block is free. */
  lemma NextTouches(b: Block, behind: seq<Block>, total: nat)
    requires Tiled(behind, b.at + HDR + b.len, total)
    ensures var q := Pick(behind, false); FreeBehind(behind) <==> q != [] && b.at + HDR + b.len == q[0]
  {
    if behind != [] {
      PickFirst(behind, false);
      var q := Pick(behind[1..], false);
      PickBounds(behind[1..], false, b.at + HDR + b.len + HDR + behind[0].len, total);
      assert q != [] ==> q[0] in q;
    } else {
      PickNone(false);
    }
  }

  /** The same of the block before b. */
  lemma PreviousTouches(len: map<int, nat>, before: seq<Block>, at: nat)
    requires Tiled(before, 0, at) && Sizes(len, before)
    ensures var p := Pick(before, false);
            && (p != [] ==> p[|p| - 1] in len)
            && (FreeBefore(before) <==> p != [] && p[|p| - 1] + len[p[|p| - 1]] + HDR == at)
    ensures FreeBefore(before) ==> Pick(before, false)[|Pick(before, false)| - 1] == before[|before| - 1].at
  {
    hide Pick;
    var p := Pick(before, false);
    if before == [] { PickNone(false); }
    if FreeBefore(before) { PickLast(before); }
    if p != [] {
      var i := PickIndex(before, false, |p| - 1);
      assert before == before[..i + 1] + before[i + 1..] && before[i] in before;
      var mid := TiledCut(before[..i + 1], before[i + 1..], 0, at);
      if before[i + 1..] != [] { TiledAts(before[i + 1..], mid, at); assert before[i + 1] in before[i + 1..]; }
    }
    if FreeBefore(before) {
      LastOfBefore(before);
      var n := |before| - 1;
      assert before[n] in before && before + [] == before;
      var mid := TiledCut(before, [], 0, at);
    }
  }

  /** An address is in one of the two lists only. */
  lemma {:induction false} PickDisjoint(bs: seq<Block>, from: nat, to: nat)
    requires Tiled(bs, from, to)
    ensures forall x <- Pick(bs, true) :: x !in Pick(bs, false)
  {
    hide Pick;
    if bs == [] {
      PickNone(true);
    } else {
      var mid := from + HDR + bs[0].len;
      PickDisjoint(bs[1..], mid, to);
      PickBounds(bs[1..], true, mid, to);
      PickBounds(bs[1..], false, mid, to);
      PickFirst(bs, true);
      PickFirst(bs, false);
    }
  }

  lemma {:induction false} PickedIsLive(bs: seq<Block>, x: nat)
    requires x in Pick(bs, true)
    ensures x in Live(bs)
  {
    PickFirst(bs, true);
    if !(bs[0].used && bs[0].at == x) { PickedIsLive(bs[1..], x); }
  }

  /** The place of an address between two parts of a list. */
  lemma OrderedPlace(p: seq<nat>, q: seq<nat>, h: nat, k: nat)
    requires (forall x <- p :: x < h) && (forall x <- q :: h < x)
    requires k <= |p + q| && (forall i :: 0 <= i < k ==> (p + q)[i] < h) && forall i :: k <= i < |p + q| ==> h < (p + q)[i]
    ensures k == |p| && RtList.Inserted(p + q, k, h) == p + [h] + q
  {
    hide RtList.Inserted;
    var r := p + q;
    forall i | 0 <= i < |r|
      ensures r[i] < h <==> i < |p|
    {
      assert r[i] in if i < |p| then p else q;
    }
    var here := if k < |r| then r[k] else 0;
    var last := if k > 0 then r[k - 1] else 0;
    var s := RtList.Inserted(r, k, h);
    var t := p + [h] + q;
    assert forall i :: 0 <= i < |s| ==> s[i] == t[i];
  }

  lemma RemovedMiddle(p: seq<nat>, h: nat, q: seq<nat>)
    ensures RtList.Removed(p + [h] + q, |p|) == p + q
  {
    var r := p + [h] + q;
    assert r[..|p|] == p && r[|p| + 1..] == q;
  }

  lemma BothBounds(before: seq<Block>, b: Block, behind: seq<Block>, used: bool, total: nat)
    requires Tiled(before + [b] + behind, 0, total)
    ensures forall x <- Pick(before, used) :: x < b.at
    ensures forall x <- Pick(behind, used) :: b.at < x
  {
    Around(before, b, behind, total);
    PickBounds(before, used, 0, b.at);
    PickBounds(behind, used, b.at + HDR + b.len, total);
  }

  lemma AsInts(ns: seq<nat>)
    requires Ascending(ns)
    ensures IntAscending(ns)
  {
  }

  // ---------------------------------------------------------------- the state is determined by what is live

  lemma {:induction false} SameBlocks(a: seq<Block>, b: seq<Block>, from: nat, to: nat)
    requires Tiled(a, from, to) && Apart(a) && (a != [] ==> !a[|a| - 1].used)
    requires Tiled(b, from, to) && Apart(b) && (b != [] ==> !b[|b| - 1].used)
    requires Live(a) == Live(b)
    ensures a == b
  {
    TiledNothing(a, from, to);
    TiledNothing(b, from, to);
    if a != [] {
      HeadLive(a, from, to);
      HeadLive(b, from, to);
      assert a[0].used == b[0].used;
      if !a[0].used {
        NextLive(a, b, from, to);
        NextLive(b, a, from, to);
      }
      assert a[0] == b[0];
      SameBlocks(a[1..], b[1..], from + HDR + a[0].len, to);
    }
  }

  lemma TiledNothing(a: seq<Block>, from: nat, to: nat)
    requires Tiled(a, from, to)
    ensures a == [] <==> from == to
  {
    TiledAts(a, from, to);
    assert a != [] ==> a[0] in a;
  }

  lemma HeadLive(a: seq<Block>, from: nat, to: nat)
    requires Tiled(a, from, to) && a != []
    ensures a[0].used <==> from in Live(a)
    ensures a[0].used ==> Live(a)[from] == a[0].len && Live(a[1..]) == Live(a) - {from}
    ensures !a[0].used ==> Live(a[1..]) == Live(a)
    ensures forall x <- Live(a[1..]) :: from + HDR + a[0].len <= x
  {
    LiveBounds(a[1..], from + HDR + a[0].len, to);
  }

  /** A free block ends where the first used one begins, or at the end. */
  lemma NextLive(a: seq<Block>, b: seq<Block>, from: nat, to: nat)
    requires Tiled(a, from, to) && Apart(a) && a != [] && !a[0].used
    requires Tiled(b, from, to) && Apart(b) && b != [] && !b[0].used
    requires Live(a) == Live(b)
    ensures a[0].len <= b[0].len
  {
    HeadLive(a, from, to);
    HeadLive(b, from, to);
    if |b| == 1 {
      TiledAts(a, from, to);
      assert a[0] in a;
    } else {
      HeadLive(b[1..], from + HDR + b[0].len, to);
    }
  }

  /** The live blocks determine the state of the heap: it does not depend on how it came about. */
  lemma LiveDetermines(a: seq<Block>, b: seq<Block>, total: nat)
    requires Sound(a, total) && Sound(b, total) && Live(a) == Live(b)
    ensures a == b
  {
    SameBlocks(a, b, 0, total);
  }

  lemma EmptyBefore(p: seq<int>, h: int)
    requires h !in p && (p != [] ==> p[0] == h)
    ensures p == []
  {
    assert forall i :: 0 <= i < |p| ==> p[i] in p;
  }

  /** Where a live block is. */
  lemma LiveBlock(bs: seq<Block>, h: nat, total: nat) returns (before: seq<Block>, b: Block, behind: seq<Block>)
    requires Sound(bs, total) && h in Live(bs)
    ensures bs == before + [b] + behind && b.used && b.at == h
    ensures Pick(bs, true) == Pick(before, true) + [h] + Pick(behind, true)
    ensures var p, q := Pick(before, false), Pick(behind, false);
            Pick(bs, false) == p + q && q != [] && (forall x <- p :: x < h) && (forall x <- q :: h < x)
  {
    hide Tiled, Apart, Live, Pick;
    InLive(bs, h);
    var used := Pick(bs, true);
    var k :| 0 <= k < |used| && used[k] == h;
    var i := PickIndex(bs, true, k);
    before, b, behind := bs[..i], bs[i], bs[i + 1..];
    BlocksAround(bs, i);
    PickAround(before, b, behind, true);
    PickAround(before, b, behind, false);
    HighestIsFree(before, b, behind, total);
    BothBounds(before, b, behind, false, total);
    assert Pick(before, false) + [] == Pick(before, false);
  }

  lemma HighestIsFree(before: seq<Block>, b: Block, behind: seq<Block>, total: nat)
    requires Sound(before + [b] + behind, total) && b.used
    ensures Pick(behind, false) != []
  {
    var bs := before + [b] + behind;
    assert bs[|bs| - 1] == if behind == [] then b else behind[|behind| - 1];
    PickLast(behind);
  }

  // ---------------------------------------------------------------- links around a released block

  lemma LinkOf(next: map<int, int>, head: int, p: seq<int>, h: int, q: seq<int>)
    requires Linked(next, head, p + [h] + q)
    ensures h in next && next[h] == (if q == [] then NULL else q[0]) && (q != [] ==> q[0] in next)
    ensures p != [] ==> head == p[0]
    ensures p == [] ==> head == h
    ensures h !in p && h !in q
  {
    hide Linked;
    var ns := p + [h] + q;
    LinkedIs(next, head, ns);
    LinkedAt(next, head, ns, |p|);
    AllLinked(next, head, ns);
    assert ns[|p|] == h;
    assert q != [] ==> ns[|p| + 1] == q[0] && q[0] in ns;
    forall i | 0 <= i < |p|
      ensures p[i] != h
    {
      assert ns[i] == p[i];
      RtList.Different(ns, i, |p|);
    }
    forall i | 0 <= i < |q|
      ensures q[i] != h
    {
      assert ns[|p| + 1 + i] == q[i];
      RtList.Different(ns, |p| + 1 + i, |p|);
    }
  }

  lemma SkipHere(next: map<int, int>, head: int, p: seq<int>, h: int, q: seq<int>)
    requires Linked(next, head, p + [h] + q) && p != []
    ensures h in next && Linked(next[p[|p| - 1] := next[h]], head, p + q)
  {
    hide Linked;
    var ns := p + [h] + q;
    SkippedLinked(next, head, ns, |p| - 1);
    assert ns[|p|] == h && ns[|p| - 1] == p[|p| - 1];
    assert RtList.Removed(ns, |p|) == p + q;
  }

  lemma SkipBehind(next: map<int, int>, head: int, p: seq<int>, h: int, q: seq<int>)
    requires Linked(next, head, p + [h] + q) && q != []
    ensures q[0] in next && Linked(next[h := next[q[0]]], head, p + [h] + q[1..])
  {
    hide Linked;
    assert p + [h] + q == (p + [h]) + [q[0]] + q[1..];
    SkipHere(next, head, p + [h], q[0], q[1..]);
  }

  lemma SkipBoth(next: map<int, int>, head: int, p: seq<int>, h: int, q: seq<int>)
    requires Linked(next, head, p + [h] + q) && p != [] && q != []
    ensures q[0] in next && Linked(next[p[|p| - 1] := next[q[0]]], head, p + q[1..])
  {
    hide Linked;
    SkipBehind(next, head, p, h, q);
    var after := next[h := next[q[0]]];
    SkipHere(after, head, p, h, q[1..]);
    var l := p[|p| - 1];
    LinkOf(next, head, p, h, q);
    AllLinked(after[l := after[h]], head, p + q[1..]);
    assert l in p;
    LinkedElsewhere(after[l := after[h]], next[l := next[q[0]]], head, p + q[1..]);
  }

  /** The lengths after the block at b.at has been released; the length of one block changes. */
  lemma ReleasedSizes(len: map<int, nat>, before: seq<Block>, b: Block, behind: seq<Block>, total: nat)
    requires Tiled(before + [b] + behind, 0, total) && Sizes(len, before + [b] + behind)
    ensures b.at in len && len[b.at] == b.len
    ensures var n := |before|;
            var e := if FreeBehind(behind) then b.len + HDR + behind[0].len else b.len;
            var now := if FreeBefore(before) then len[before[n - 1].at := before[n - 1].len + HDR + e] else len[b.at := e];
            Sizes(now, Released(before, b, behind))
    ensures FreeBefore(before) ==> before[|before| - 1].at in len && len[before[|before| - 1].at] == before[|before| - 1].len
    ensures FreeBehind(behind) ==> behind[0].at in len && len[behind[0].at] == behind[0].len
  {
    hide Tiled, Released, Sizes, NoneAt;
    ReleasedIs(before, b, behind);
    Around(before, b, behind, total);
    SizesCut(len, before, b, behind);
    var n := |before|;
    var end := b.at + HDR + b.len;
    var e := if FreeBehind(behind) then b.len + HDR + behind[0].len else b.len;
    var rest := if FreeBehind(behind) then behind[1..] else behind;
    SizesRest(len, behind, end, total);
    NoneAtOutside(before, 0, b.at, b.at);
    TiledAts(rest, if FreeBehind(behind) then end + HDR + behind[0].len else end, total);
    if FreeBefore(before) {
      var l := before[n - 1];
      SizesLast(len, before, b.at);
      NoneAtOutside(rest, if FreeBehind(behind) then end + HDR + behind[0].len else end, total, l.at);
      SizesMiddle(len, before[..n - 1], Block(l.at, l.len + HDR + e, false), rest);
    } else {
      NoneAtOutside(rest, if FreeBehind(behind) then end + HDR + behind[0].len else end, total, b.at);
      SizesMiddle(len, before, Block(b.at, e, false), rest);
    }
  }

  lemma SizesRest(len: map<int, nat>, behind: seq<Block>, end: nat, total: nat)
    requires Tiled(behind, end, total) && Sizes(len, behind)
    ensures behind != [] ==>
              && behind[0].at in len && len[behind[0].at] == behind[0].len
              && Sizes(len, behind[1..]) && Tiled(behind[1..], end + HDR + behind[0].len, total)
  {
    hide Sizes;
    if behind != [] {
      assert behind == [behind[0]] + behind[1..];
      SizesOne(len, behind[0], behind[1..]);
    }
  }

  lemma SizesLast(len: map<int, nat>, before: seq<Block>, at: nat)
    requires Tiled(before, 0, at) && Sizes(len, before) && before != []
    ensures var n := |before| - 1;
            && before[n].at in len && len[before[n].at] == before[n].len
            && Sizes(len, before[..n]) && NoneAt(before[..n], before[n].at) && before[n].at < at
  {
    hide Sizes, NoneAt;
    var n := |before| - 1;
    LastOfBefore(before);
    SizesBoth(len, before[..n], [before[n]]);
    assert [before[n]] == [before[n]] + [];
    SizesOne(len, before[n], []);
    var mid := TiledCut(before[..n], [before[n]], 0, at);
    NoneAtOutside(before[..n], 0, mid, before[n].at);
    TiledAts([before[n]], mid, at);
    assert before[n] in [before[n]];
  }

  lemma SizesMiddle(len: map<int, nat>, before: seq<Block>, c: Block, rest: seq<Block>)
    requires Sizes(len, before) && Sizes(len, rest)
    requires NoneAt(before, c.at) && NoneAt(rest, c.at)
    ensures Sizes(len[c.at := c.len], before + ([c] + rest))
  {
    hide Sizes, NoneAt;
    assert before + ([c] + rest) == before + [c] + rest;
    SizesBut(len, before, c.at, c.len);
    SizesBut(len, rest, c.at, c.len);
    SizesCut(len[c.at := c.len], before, c, rest);
  }

  lemma AllocatedSizes(len: map<int, nat>, before: seq<Block>, b: Block, behind: seq<Block>, size: nat, total: nat)
    requires Tiled(before + [b] + behind, 0, total) && Sizes(len, before + [b] + behind) && size + HDR <= b.len
    ensures b.at in len && len[b.at] == b.len
    ensures Sizes(len[b.at + HDR + size := b.len - HDR - size][b.at := size], Allocated(before, b, behind, size))
  {
    hide Tiled, Sizes, NoneAt;
    Around(before, b, behind, total);
    SizesCut(len, before, b, behind);
    var t := Two(b, size);
    var now := len[t[1].at := t[1].len];
    NoneAtOutside(before, 0, b.at, b.at);
    NoneAtOutside(before, 0, b.at, t[1].at);
    NoneAtOutside(behind, b.at + HDR + b.len, total, b.at);
    NoneAtOutside(behind, b.at + HDR + b.len, total, t[1].at);
    SizesBut(len, before, t[1].at, t[1].len);
    SizesBut(len, behind, t[1].at, t[1].len);
    SizesBut(now, before, b.at, size);
    SizesBut(now, behind, b.at, size);
    var last := now[b.at := size];
    SizesOne(last, t[1], behind);
    SizesOne(last, t[0], [t[1]] + behind);
    SizesBoth(last, before, [t[0]] + ([t[1]] + behind));
    assert before + ([t[0]] + ([t[1]] + behind)) == Allocated(before, b, behind, size);
  }

  // ---------------------------------------------------------------- room and references

  /** A free block has at least n bytes. */
  predicate Room(bs: seq<Block>, n: nat) {
    exists b <- bs :: !b.used && n <= b.len
  }

  lemma {:induction false} FreeInPick(bs: seq<Block>, b: Block)
    requires b in bs && !b.used
    ensures b.at in Pick(bs, false)
  {
    PickFirst(bs, false);
    if b != bs[0] { FreeInPick(bs[1..], b); }
  }

  lemma NoRoom(len: map<int, nat>, bs: seq<Block>, n: nat)
    requires Sizes(len, bs) && forall x <- Pick(bs, false) :: x in len && len[x] < n
    ensures !Room(bs, n)
  {
    forall b | b in bs && !b.used
      ensures b.len < n
    {
      FreeInPick(bs, b);
    }
  }

  lemma NoneBefore(before: seq<Block>, b: Block, behind: seq<Block>, n: nat, total: nat)
    requires Tiled(before + [b] + behind, 0, total) && !Room(before, n)
    ensures forall x <- before + [b] + behind :: !x.used && x.at < b.at ==> x.len < n
  {
    Around(before, b, behind, total);
    TiledAts(behind, b.at + HDR + b.len, total);
  }

  /** A shell variable: of unknown type, or with a value. */
  datatype Variable = Unknown | Holds(ptr: int)

  predicate Points(vars: seq<Variable>, p: int) {
    exists i :: 0 <= i < |vars| && vars[i] == Holds(p)
  }

  /** The blocks that a variable points to. */
  function Kept(live: map<nat, nat>, vars: seq<Variable>): map<nat, nat> {
    map x | x in live && Points(vars, x + HDR) :: live[x]
  }

  /** The blocks left over when collection has come to the address `to`. */
  ghost predicate KeptBelow(live: map<nat, nat>, was: map<nat, nat>, vars: seq<Variable>, to: nat) {
    && (forall x :: x in live <==> x in was && (to <= x || Points(vars, x + HDR)))
    && forall x <- live :: live[x] == was[x]
  }

  lemma NextUsed(bs: seq<Block>, h: nat, x: nat, p: seq<nat>, q: seq<nat>)
    requires Ascending(Pick(bs, true)) && Pick(bs, true) == p + [h] + q && x in Live(bs) && h < x
    ensures q != [] && q[0] <= x
  {
    hide Live, Pick;
    InLive(bs, x);
    var ns := Pick(bs, true);
    assert ns[|p|] == h;
    var i :| 0 <= i < |ns| && ns[i] == x;
    var j := |p| + 1;
    assert j <= i && ns[j] == q[0];
    assert j < i ==> ns[j] < ns[i];
  }

  lemma LiveWithin(bs: seq<Block>, total: nat)
    requires Sound(bs, total)
    ensures forall x <- Live(bs) :: x < total
  {
    LiveBounds(bs, 0, total);
  }

  lemma KeptNone(was: map<nat, nat>, vars: seq<Variable>)
    ensures KeptBelow(was, was, vars, 0)
  {
  }

  lemma KeptStep(before: map<nat, nat>, after: map<nat, nat>, was: map<nat, nat>, vars: seq<Variable>, to: nat, h: nat)
    requires KeptBelow(before, was, vars, to) && h in before && to <= h && forall x <- before :: to <= x ==> h <= x
    requires after == if Points(vars, h + HDR) then before else before - {h}
    ensures KeptBelow(after, was, vars, h + 1)
  {
    hide Points;
  }

  lemma KeptAll(live: map<nat, nat>, was: map<nat, nat>, vars: seq<Variable>, to: nat)
    requires KeptBelow(live, was, vars, to) && forall x <- live :: x < to
    ensures live == Kept(was, vars)
  {
    hide Points;
  }

  lemma PickLengths(len: map<int, nat>, bs: seq<Block>)
    requires Sizes(len, bs)
    ensures forall x <- Pick(bs, false) :: x in len
  {
    hide Pick, Sizes;
    forall x | x in Pick(bs, false)
      ensures x in len
    {
      var ns := Pick(bs, false);
      var k :| 0 <= k < |ns| && ns[k] == x;
      var i := PickIndex(bs, false, k);
      BlocksAround(bs, i);
      SizesCut(len, bs[..i], bs[i], bs[i + 1..]);
    }
  }

  lemma InsertedMiddle(p: seq<nat>, h: nat, z: nat, q: seq<nat>)
    ensures RtList.Inserted(p + [h] + q, |p| + 1, z) == p + [h] + ([z] + q)
  {
    hide RtList.Inserted;
    var r, s := RtList.Inserted(p + [h] + q, |p| + 1, z), p + [h] + ([z] + q);
    assert forall i :: 0 <= i < |s| ==> r[i] == s[i];
  }

  /** Where a free block is, and the addresses that its split makes. */
  lemma FreeBlock(before: seq<Block>, b: Block, behind: seq<Block>, n: nat, total: nat)
    requires Sound(before + [b] + behind, total) && !b.used && n + HDR <= b.len
    ensures var bs, z := before + [b] + behind, b.at + HDR + n;
            var p, q := Pick(before, false), Pick(behind, false);
            && Pick(bs, true) == Pick(before, true) + Pick(behind, true)
            && Pick(bs, false) == p + [b.at] + q
            && z !in Pick(bs, false) && z !in Pick(bs, true) && b.at !in Pick(bs, true)
            && b.at !in p + ([z] + q)
            && (forall x <- Pick(bs, true) :: x !in Pick(bs, false))
            && (forall x <- p + ([z] + q) :: x !in Pick(bs, true))
            && (forall x <- Pick(before, true) :: x < b.at) && (forall x <- Pick(behind, true) :: b.at < x)
            && IntAscending(Pick(bs, true))
  {
    hide Tiled, Apart, Pick;
    var bs := before + [b] + behind;
    PickAround(before, b, behind, true);
    PickAround(before, b, behind, false);
    assert Pick(before, true) + [] == Pick(before, true);
    BothBounds(before, b, behind, true, total);
    BothBounds(before, b, behind, false, total);
    Around(before, b, behind, total);
    PickBounds(behind, true, b.at + HDR + b.len, total);
    PickBounds(behind, false, b.at + HDR + b.len, total);
    PickDisjoint(bs, 0, total);
    PickBounds(bs, true, 0, total);
    AsInts(Pick(bs, true));
  }

  class ShellHeap {
    const size: nat
    var len: map<int, nat>
    var next: map<int, int>
    var freeList: int
    var allocateList: int
    ghost var bs: seq<Block>

    ghost predicate Valid()
      reads this
    {
      Sound(bs, size) && Lists(next, freeList, allocateList, bs) && Sizes(len, bs)
    }

    ghost function LiveBlocks(): map<nat, nat>
      reads this
    {
      Live(bs)
    }

    /** finsh_heap_init. */
    constructor (size: nat)
      requires size >= HDR
      ensures Valid() && LiveBlocks() == map[] && this.size == size
    {
      this.size := size;
      len, next := map[0 := size - HDR], map[0 := NULL];
      freeList, allocateList := 0, NULL;
      bs := [Block(0, size - HDR, false)];
      new;
      assert bs[1..] == [] && Live(bs[1..]) == map[] && Pick(bs[1..], false) == [] && Pick(bs[1..], true) == [];
      assert [0] + [] == [0] && Pick(bs, false) == [0] && Pick(bs, true) == [];
      assert At(next, [0], 0);
    }

    /** finsh_block_insert. The caller sees to it that the block does not come last, or that its link is
        NULL. */
    method BlockInsert(list: int, h: int, ghost ns: seq<int>) returns (head: int, ghost k: nat)
      requires Linked(next, list, ns) && IntAscending(ns) && h !in ns && h in next && h >= 0
      requires (forall x <- ns :: x >= 0)
      requires (forall x <- ns :: x < h) ==> next[h] == NULL
      modifies this`next
      ensures k <= |ns| && (forall i :: 0 <= i < k ==> ns[i] < h) && (forall i :: k <= i < |ns| ==> h < ns[i])
      ensures Linked(next, head, RtList.Inserted(ns, k, h))
      ensures forall x <- old(next) :: x !in ns && x != h ==> x in next && next[x] == old(next[x])
    {
      hide Linked, RtList.Inserted;
      LinkedIs(next, list, ns);
      AllLinked(next, list, ns);
      k := 0;
      assert ns != [] ==> ns[0] in ns && ns[0] >= 0;
      assert forall i :: 0 < i < |ns| ==> ns[0] < ns[i];
      if list == NULL {
        InsertedLinked(next, list, ns, 0, h);
        return h, 0;
      }
      if list > h {
        InsertedLinked(next, list, ns, 0, h);
        next := next[h := list];
        return h, 0;
      }
      var node := list;
      k := 1;
      assert ns[0] in ns && ns[0] < h;
      LinkedAt(next, list, ns, 0);
      while next[node] != NULL && next[node] <= h
        invariant next == old(next) && 1 <= k <= |ns| && node == ns[k - 1] && node in next && At(next, ns, k - 1)
        invariant forall i :: 0 <= i < k ==> ns[i] < h
        decreases |ns| - k
      {
        assert ns[k] in ns;
        node := next[node];
        LinkedAt(next, list, ns, k);
        k := k + 1;
      }
      if k < |ns| { assert ns[k] in ns; assert forall i :: k < i < |ns| ==> ns[k] < ns[i]; }
      InsertedLinked(next, list, ns, k, h);
      if next[node] != NULL { next := next[h := next[node]]; }
      next := next[node := h];
      head := list;
    }

    /** finsh_block_remove. */
    method BlockRemove(list: int, h: int, ghost ns: seq<int>, ghost k: nat) returns (head: int)
      requires Linked(next, list, ns) && k < |ns| && ns[k] == h
      modifies this`next
      ensures Linked(next, head, RtList.Removed(ns, k))
      ensures forall x <- old(next) :: x !in ns ==> x in next && next[x] == old(next[x])
      ensures h in next
    {
      hide Linked, RtList.Removed;
      LinkedIs(next, list, ns);
      AllLinked(next, list, ns);
      RemovedLinked(next, list, ns, k);
      var node := list;
      if node == h {
        RtList.Different(ns, 0, k);
        head := next[h];
        next := next[h := NULL];
        return;
      }
      ghost var j := 0;
      LinkedAt(next, list, ns, 0);
      while next[node] != h
        invariant next == old(next) && j < k && node == ns[j] && node in next && At(next, ns, j)
        decreases k - j
      {
        RtList.Different(ns, j + 1, k);
        node := next[node];
        j := j + 1;
        LinkedAt(next, list, ns, j);
      }
      RtList.Different(ns, j + 1, k);
      next := next[node := next[h]];
      head := list;
    }

    /** finsh_block_split. */
    method BlockSplit(h: int, n: nat, ghost ns: seq<int>, ghost k: nat)
      requires Linked(next, freeList, ns) && k < |ns| && ns[k] == h && h in len && len[h] >= n + HDR
      requires h + HDR + n !in ns
      modifies this`next, this`len
      ensures var z := h + HDR + n;
              && Linked(next, freeList, RtList.Inserted(ns, k + 1, z))
              && len == old(len)[z := old(len)[h] - HDR - n][h := n]
      ensures forall x <- old(next) :: x !in ns && x != h + HDR + n ==> x in next && next[x] == old(next[x])
    {
      hide Linked, RtList.Inserted;
      SplitLinked(next, freeList, ns, k, h + HDR + n);
      var z := h + HDR + n;
      len := len[z := len[h] - HDR - n];
      len := len[h := n];
      next := next[z := next[h]];
      next := next[h := z];
    }

    /** finsh_block_merge, on a free list in which the block b has taken its place. */
    method BlockMerge(h: int, ghost before: seq<Block>, ghost b: Block, ghost behind: seq<Block>)
      requires Tiled(before + [b] + behind, 0, size) && Sizes(len, before + [b] + behind) && h == b.at
      requires Linked(next, freeList, Pick(before, false) + [h] + Pick(behind, false))
      modifies this`next, this`len
      ensures Linked(next, freeList, Pick(Released(before, b, behind), false)) && Sizes(len, Released(before, b, behind))
      ensures forall x <- old(next) :: x !in Pick(before, false) && x != h ==> x in next && next[x] == old(next[x])
    {
      hide Linked, Tiled, Pick, Released, Sizes;
      ghost var p, q := Pick(before, false), Pick(behind, false);
      Around(before, b, behind, size);
      SizesCut(len, before, b, behind);
      ReleasedSizes(len, before, b, behind, size);
      ReleasedPickFree(before, b, behind);
      PreviousTouches(len, before, h);
      NextTouches(b, behind, size);
      LinkOf(next, freeList, p, h, q);
      BothBounds(before, b, behind, false, size);
      var nextNode := next[h];
      var previous := FindPrevious(h, p, q);
      assert forall x <- q :: x >= 0;
      if previous != NULL && previous + len[previous] + HDR == h {
        if nextNode != NULL && h + len[h] + HDR == nextNode {
          SkipBoth(next, freeList, p, h, q);
          len := len[previous := len[previous] + (len[h] + len[nextNode] + 2 * HDR)];
          next := next[previous := next[nextNode]];
        } else {
          SkipHere(next, freeList, p, h, q);
          len := len[previous := len[previous] + (len[h] + HDR)];
          next := next[previous := next[h]];
        }
      } else if nextNode != NULL && h + len[h] + HDR == nextNode {
        SkipBehind(next, freeList, p, h, q);
        len := len[h := len[h] + (len[nextNode] + HDR)];
        next := next[h := next[nextNode]];
      } else {
        assert len[h := b.len] == len;
      }
    }

    /** The search for the previous block in finsh_block_merge. */
    method FindPrevious(h: int, ghost p: seq<int>, ghost q: seq<int>) returns (previous: int)
      requires Linked(next, freeList, p + [h] + q)
      ensures previous == if p == [] then NULL else p[|p| - 1]
    {
      hide Linked;
      LinkOf(next, freeList, p, h, q);
      if freeList == h {
        EmptyBefore(p, h);
        return NULL;
      }
      ghost var ns := p + [h] + q;
      ghost var k := 0;
      assert forall i :: 0 <= i < |p| ==> ns[i] in p;
      previous := freeList;
      LinkedAt(next, freeList, ns, 0);
      while next[previous] != h
        invariant k < |p| && previous == ns[k] && previous in next && At(next, ns, k)
        decreases |p| - k
      {
        assert ns[|p|] == h;
        assert k + 1 < |p|;
        previous := next[previous];
        k := k + 1;
        LinkedAt(next, freeList, ns, k);
      }
    }

    /** finsh_heap_free. */
    method HeapFree(ptr: int)
      requires Valid() && ptr - HDR in LiveBlocks()
      modifies this
      ensures Valid() && LiveBlocks() == old(LiveBlocks()) - {ptr - HDR}
    {
      hide Linked, Tiled, Pick, Released, Sizes, Apart, Live, RtList.Inserted, RtList.Removed, Ascending, IntAscending;
      var h := ptr - HDR;
      ghost var used, free := Pick(bs, true), Pick(bs, false);
      ghost var before, b, behind := LiveBlock(bs, h, size);
      ghost var p, q := Pick(before, false), Pick(behind, false);
      ghost var k := |Pick(before, true)|;
      ghost var rest := Pick(before, true) + Pick(behind, true);
      ReleasedSound(before, b, behind, size);
      ReleasedLive(before, b, behind, size);
      ReleasedPickUsed(before, b, behind);
      RemovedMiddle(Pick(before, true), h, Pick(behind, true));
      PickBounds(bs, false, 0, size);
      PickDisjoint(bs, 0, size);
      AsInts(free);
      LinkOf(next, allocateList, Pick(before, true), h, Pick(behind, true));
      AllLinked(next, freeList, free);
      assert q[0] in q && q[0] in free && (forall x <- p :: x in free);

      allocateList := BlockRemove(allocateList, h, used, k);
      LinkedElsewhere(old(next), next, freeList, free);
      ghost var removed := next;
      AllLinked(removed, allocateList, rest);
      ghost var at: nat;
      freeList, at := BlockInsert(freeList, h, free);
      LinkedElsewhere(removed, next, allocateList, rest);
      ghost var inserted := next;
      AllLinked(inserted, allocateList, rest);
      OrderedPlace(p, q, h, at);
      BlockMerge(h, before, b, behind);
      LinkedElsewhere(inserted, next, allocateList, rest);
      bs := Released(before, b, behind);
    }

    /** The scan of the variables in finsh_heap_gc. */
    method Referenced(vars: seq<Variable>, p: int) returns (found: bool)
      ensures found <==> Points(vars, p)
    {
      var i := 0;
      while i < |vars|
        invariant 0 <= i <= |vars| && forall j :: 0 <= j < i ==> vars[j] != Holds(p)
      {
        if vars[i] != Unknown && vars[i].ptr == p { return true; }
        i := i + 1;
      }
      found := false;
    }

    /** finsh_heap_gc: exactly the blocks that a variable points to stay. */
    method Collect(vars: seq<Variable>)
      requires Valid()
      modifies this
      ensures Valid() && LiveBlocks() == Kept(old(LiveBlocks()), vars)
    {
      hide Linked, Sound, Pick, Sizes, Live, Points, KeptBelow, Ascending;
      ghost var was := LiveBlocks();
      ghost var to: nat := 0;
      FirstUsed();
      KeptNone(was, vars);
      var header := allocateList;
      while header != NULL
        invariant Valid() && KeptBelow(LiveBlocks(), was, vars, to)
        invariant to <= size && (header != NULL ==> header in LiveBlocks())
        invariant forall x <- LiveBlocks() :: to <= x ==> header != NULL && header <= x
        invariant header != NULL ==> to <= header
        decreases header != NULL, size - to
      {
        var found := Referenced(vars, header + HDR);
        var temp := header;
        header := NextHeader(header);
        ghost var before := LiveBlocks();
        LiveWithin(bs, size);
        if !found { HeapFree(temp + HDR); }
        KeptStep(before, LiveBlocks(), was, vars, to, temp);
        to := temp + 1;
      }
      LiveWithin(bs, size);
      KeptAll(LiveBlocks(), was, vars, to);
    }

    /** The next block of the allocate list. */
    method NextHeader(header: int) returns (n: int)
      requires Valid() && header in LiveBlocks()
      ensures n != NULL ==> n in LiveBlocks() && header < n
      ensures forall x <- LiveBlocks() :: header < x ==> n != NULL && n <= x
    {
      hide Linked, Tiled, Apart, Pick, Sizes, Live, Ascending;
      ghost var before, b, behind := LiveBlock(bs, header, size);
      ghost var p, q := Pick(before, true), Pick(behind, true);
      LinkOf(next, allocateList, p, header, q);
      n := next[header];
      PickBounds(bs, true, 0, size);
      BothBounds(before, b, behind, true, size);
      if q != [] {
        assert q[0] in q && q[0] in Pick(bs, true);
        PickedIsLive(bs, q[0]);
      }
      forall x | x in LiveBlocks() && header < x
        ensures n != NULL && n <= x
      {
        NextUsed(bs, header, x, p, q);
      }
    }

    lemma FirstUsed()
      requires Valid()
      ensures allocateList != NULL ==> allocateList in LiveBlocks() && allocateList >= 0
      ensures forall x <- LiveBlocks() :: allocateList != NULL && allocateList <= x
    {
      hide Linked, Tiled, Apart, Pick, Sizes, Live;
      var ns := Pick(bs, true);
      LinkedIs(next, allocateList, ns);
      PickBounds(bs, true, 0, size);
      if ns != [] { PickedIsLive(bs, ns[0]); }
      forall x | x in LiveBlocks()
        ensures allocateList != NULL && allocateList <= x
      {
        InLive(bs, x);
      }
    }

    /** The search of finsh_heap_allocate for the first block of at least n bytes. */
    method FirstFit(n: nat) returns (header: int, ghost before: seq<Block>, ghost b: Block, ghost behind: seq<Block>)
      requires Valid()
      ensures header == NULL ==> !Room(bs, n)
      ensures header != NULL ==> bs == before + [b] + behind && b.at == header && !b.used && n <= b.len && !Room(before, n)
    {
      hide Linked, Tiled, Apart, Pick, Sizes, Room;
      ghost var ns := Pick(bs, false);
      ghost var k := 0;
      LinkedIs(next, freeList, ns);
      PickLengths(len, bs);
      header := freeList;
      while header != NULL && len[header] < n
        invariant k <= |ns| && header == if k < |ns| then ns[k] else NULL
        invariant forall i :: 0 <= i < k ==> len[ns[i]] < n
        decreases |ns| - k
      {
        LinkedAt(next, freeList, ns, k);
        header := next[header];
        k := k + 1;
      }
      before, b, behind := bs, Block(0, 0, false), [];
      if header == NULL {
        NoRoom(len, bs, n);
      } else {
        var i := PickIndex(bs, false, k);
        before, b, behind := bs[..i], bs[i], bs[i + 1..];
        BlocksAround(bs, i);
        PickAround(before, b, behind, false);
        SizesCut(len, before, b, behind);
        ghost var p := Pick(before, false);
        assert forall j :: 0 <= j < k ==> p[j] == ns[j];
        NoRoom(len, before, n);
      }
    }

    /** The end of finsh_heap_allocate: a free block is split, and its first part changes lists. */
    method TakeBlock(h: int, n: nat, ghost before: seq<Block>, ghost b: Block, ghost behind: seq<Block>)
      requires Valid() && bs == before + [b] + behind && h == b.at && !b.used && n + HDR <= b.len
      modifies this
      ensures Valid() && bs == Allocated(before, b, behind, n)
    {
      hide Linked, Tiled, Pick, Allocated, Sizes, Apart, Live, RtList.Inserted, RtList.Removed, Ascending, IntAscending;
      ghost var used, free := Pick(bs, true), Pick(bs, false);
      ghost var p, q := Pick(before, false), Pick(behind, false);
      ghost var z := h + HDR + n;
      FreeBlock(before, b, behind, n, size);
      AllocatedSizes(len, before, b, behind, n, size);
      AllocatedSound(before, b, behind, n, size);
      AllocatedPick(before, b, behind, n);
      AllLinked(next, allocateList, used);

      BlockSplit(h, n, free, |p|);
      LinkedElsewhere(old(next), next, allocateList, used);
      InsertedMiddle(p, h, z, q);
      RemovedMiddle(p, h, [z] + q);
      ghost var split := next;
      AllLinked(split, allocateList, used);
      freeList := BlockRemove(freeList, h, p + [h] + ([z] + q), |p|);
      LinkedElsewhere(split, next, allocateList, used);
      ghost var removed := next;
      AllLinked(removed, freeList, p + ([z] + q));
      next := next[h := NULL];
      LinkedElsewhere(removed, next, freeList, p + ([z] + q));
      LinkedElsewhere(removed, next, allocateList, used);
      ghost var cut := next;
      AllLinked(cut, freeList, p + ([z] + q));
      ghost var at: nat;
      allocateList, at := BlockInsert(allocateList, h, used);
      LinkedElsewhere(cut, next, freeList, p + ([z] + q));
      OrderedPlace(Pick(before, true), Pick(behind, true), h, at);
      assert p + ([z] + q) == p + [z] + q;
      bs := Allocated(before, b, behind, n);
    }

    /** finsh_heap_allocate: NULL, or the address of the data. Blocks that no variable points to are given
        up if, and only if, no free block is longer than the request and a header. In `found` are the blocks
        in which the request was looked for. */
    method Allocate(request: nat, vars: seq<Variable>) returns (ptr: int, ghost found: seq<Block>)
      requires Valid()
      modifies this
      ensures Valid() && Sound(found, size)
      ensures Room(old(bs), AlignUp(request) + HDR + 1) ==> found == old(bs)
      ensures !Room(old(bs), AlignUp(request) + HDR + 1) ==> Live(found) == Kept(old(LiveBlocks()), vars)
      ensures ptr == NULL <==> !Room(found, AlignUp(request) + HDR)
      ensures ptr == NULL ==> bs == found
      ensures ptr != NULL ==> ptr - HDR >= 0 && ptr - HDR !in Live(found)
                              && LiveBlocks() == Live(found)[ptr - HDR := AlignUp(request)]
      ensures ptr != NULL ==> forall x <- found :: !x.used && x.at < ptr - HDR ==> x.len <= AlignUp(request) + HDR
    {
      hide Linked, Tiled, Pick, Allocated, Sizes, Apart, Live;
      var n := AlignUp(request);
      ghost var before, b, behind;
      var header;
      header, before, b, behind := FirstFit(n + HDR + 1);
      ghost var first := header;
      if header == NULL {
        Collect(vars);
        header, before, b, behind := FirstFit(n + HDR);
        found := bs;
        if header == NULL { return NULL, found; }
      }
      found := bs;
      assert b in bs;
      NoneBefore(before, b, behind, if first == NULL then n + HDR else n + HDR + 1, size);
      TakeBlock(header, n, before, b, behind);
      AllocatedLive(before, b, behind, n, size);
      ptr := header + HDR;
    }
  }

  predicate IntAscending(ns: seq<int>) {
    forall i, j :: 0 <= i < j < |ns| ==> ns[i] < ns[j]
  }
}
