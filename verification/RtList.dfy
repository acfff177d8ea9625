/** The doubly linked rings of include/rtservice.h, on a memory of next and prev fields. */
module RtList {

  type Addr = int

  datatype Links = Links(next: map<Addr, Addr>, prev: map<Addr, Addr>)

  function Succ(i: nat, n: nat): nat { if i + 1 == n then 0 else i + 1 }

  function Pred(i: nat, n: nat): nat
    requires i < n
  {
    if i == 0 then n - 1 else i - 1
  }

  predicate Unique(ns: seq<Addr>) {
    forall i, j :: 0 <= i < j < |ns| ==> ns[i] != ns[j]
  }

  /** The node at position i is linked with its neighbours. */
  predicate At(l: Links, ns: seq<Addr>, i: nat)
    requires i < |ns|
  {
    && ns[i] in l.next && l.next[ns[i]] == ns[Succ(i, |ns|)]
    && ns[i] in l.prev && l.prev[ns[i]] == ns[Pred(i, |ns|)]
  }

  /** The nodes form one ring, in this order. */
  predicate Ring(l: Links, ns: seq<Addr>) {
    |ns| > 0 && Unique(ns) && forall i {:trigger At(l, ns, i)} :: 0 <= i < |ns| ==> At(l, ns, i)
  }

  /** rt_list_init. */
  function Alone(l: Links, x: Addr): Links {
    Links(l.next[x := x], l.prev[x := x])
  }

  /** The fields of a node that has been linked. */
  function Next(l: Links, x: Addr): Addr { if x in l.next then l.next[x] else x }

  function Prev(l: Links, x: Addr): Addr { if x in l.prev then l.prev[x] else x }

  /** rt_list_insert_after. */
  function InsertAfter(l: Links, p: Addr, x: Addr): Links {
    var q := Next(l, p);
    Links(l.next[x := q][p := x], l.prev[q := x][x := p])
  }

  /** rt_list_insert_before. */
  function InsertBefore(l: Links, q: Addr, x: Addr): Links {
    var p := Prev(l, q);
    Links(l.next[p := x][x := q], l.prev[x := p][q := x])
  }

  /** The neighbours of x are linked with each other. */
  function Detach(l: Links, x: Addr): Links {
    Links(l.next[Prev(l, x) := Next(l, x)], l.prev[Next(l, x) := Prev(l, x)])
  }

  /** rt_list_remove. */
  function Remove(l: Links, x: Addr): Links {
    Alone(Detach(l, x), x)
  }

  function Inserted(ns: seq<Addr>, k: nat, x: Addr): (r: seq<Addr>)
    requires k <= |ns|
    ensures |r| == |ns| + 1
    ensures forall i {:trigger r[i]} :: 0 <= i < |r| ==> r[i] == if i < k then ns[i] else if i == k then x else ns[i - 1]
    ensures forall y :: y in r <==> y in ns || y == x
  {
    ns[..k] + [x] + ns[k..]
  }

  function Removed(ns: seq<Addr>, k: nat): (r: seq<Addr>)
    requires k < |ns|
    ensures |r| == |ns| - 1
    ensures forall i {:trigger r[i]} :: 0 <= i < |r| ==> r[i] == if i < k then ns[i] else ns[i + 1]
  {
    ns[..k] + ns[k + 1..]
  }

  lemma UniqueInserted(ns: seq<Addr>, k: nat, x: Addr)
    requires Unique(ns) && k <= |ns| && x !in ns
    ensures Unique(Inserted(ns, k, x))
  {
    var r := Inserted(ns, k, x);
    hide Inserted;
    forall i, j | 0 <= i < j < |r|
      ensures r[i] != r[j]
    {
    }
  }

  lemma UniqueRemoved(ns: seq<Addr>, k: nat)
    requires Unique(ns) && k < |ns|
    ensures Unique(Removed(ns, k)) && forall y :: y in Removed(ns, k) <==> y in ns && y != ns[k]
  {
    var r := Removed(ns, k);
    hide Removed;
    forall y | y in ns && y != ns[k]
      ensures y in r
    {
      var i :| 0 <= i < |ns| && ns[i] == y;
      assert r[if i < k then i else i - 1] == y;
    }
  }

  lemma Different(ns: seq<Addr>, i: nat, j: nat)
    requires Unique(ns) && i < |ns| && j < |ns|
    ensures ns[i] == ns[j] <==> i == j
  {
  }

  /** A node of the ring, after an insertion behind position k. */
  lemma AtAfterInsert(l: Links, ns: seq<Addr>, k: nat, x: Addr, j: nat)
    requires Ring(l, ns) && k < |ns| && x !in ns && j < |ns|
    ensures At(InsertAfter(l, ns[k], x), Inserted(ns, k + 1, x), if j <= k then j else j + 1)
  {
    assert At(l, ns, k) && At(l, ns, j) && ns[j] != x;
    Different(ns, j, k);
    Different(ns, j, Succ(k, |ns|));
    hide Ring, Unique;
    assert j == Succ(k, |ns|) <==> k == Pred(j, |ns|);
    var i := if j <= k then j else j + 1;
    var r, m := Inserted(ns, k + 1, x), InsertAfter(l, ns[k], x);
    assert r[i] == ns[j];
    assert m.next[r[i]] == (if j == k then x else ns[Succ(j, |ns|)]) == r[Succ(i, |r|)];
    assert m.prev[r[i]] == (if k == Pred(j, |ns|) then x else ns[Pred(j, |ns|)]) == r[Pred(i, |r|)];
  }

  /** Inserting behind position k. */
  lemma InsertKeepsRing(l: Links, ns: seq<Addr>, k: nat, x: Addr)
    requires Ring(l, ns) && k < |ns| && x !in ns
    ensures Ring(InsertAfter(l, ns[k], x), Inserted(ns, k + 1, x))
  {
    UniqueInserted(ns, k + 1, x);
    assert At(l, ns, k);
    var r, m := Inserted(ns, k + 1, x), InsertAfter(l, ns[k], x);
    assert ns[Succ(k, |ns|)] == r[Succ(k + 1, |r|)];
    forall i | 0 <= i < |r|
      ensures At(m, r, i)
    {
      hide Inserted, InsertAfter, At, Unique;
      if i != k + 1 { AtAfterInsert(l, ns, k, x, if i <= k then i else i - 1); }
      else { AtInserted(l, ns, k, x); }
    }
  }

  lemma AtInserted(l: Links, ns: seq<Addr>, k: nat, x: Addr)
    requires Ring(l, ns) && k < |ns| && x !in ns
    ensures At(InsertAfter(l, ns[k], x), Inserted(ns, k + 1, x), k + 1)
  {
    assert At(l, ns, k) && ns[k] != x && ns[Succ(k, |ns|)] != x;
    hide Ring, Unique;
  }

  lemma InsertBeforeIsAfter(l: Links, ns: seq<Addr>, k: nat, x: Addr)
    requires Ring(l, ns) && k < |ns| && x !in ns
    ensures InsertBefore(l, ns[k], x) == InsertAfter(l, ns[Pred(k, |ns|)], x)
  {
    assert At(l, ns, k) && At(l, ns, Pred(k, |ns|));
    var p, q := ns[Pred(k, |ns|)], ns[k];
    assert l.next[p] == q && l.prev[q] == p && x != p && x != q;
    assert l.next[p := x][x := q] == l.next[x := q][p := x];
    assert l.prev[x := p][q := x] == l.prev[q := x][x := p];
  }

  /** Before the head of a list is at its end. */
  lemma InsertBeforeHeadAppends(l: Links, ns: seq<Addr>, x: Addr)
    requires Ring(l, ns) && x !in ns
    ensures Ring(InsertBefore(l, ns[0], x), ns + [x])
  {
    InsertBeforeIsAfter(l, ns, 0, x);
    InsertKeepsRing(l, ns, |ns| - 1, x);
    assert Inserted(ns, |ns|, x) == ns + [x];
  }

  /** The position of the node j after the one at k has gone. */
  lemma NeighboursAfterRemoval(n: nat, k: nat, j: nat)
    requires n > 1 && k < n && j < n && j != k
    ensures var i := if j < k then j else j - 1;
            && (j == Pred(k, n) <==> k == Succ(j, n)) && (j == Succ(k, n) <==> k == Pred(j, n))
            && Succ(i, n - 1) == (var s := if k == Succ(j, n) then Succ(k, n) else Succ(j, n); if s < k then s else s - 1)
            && Pred(i, n - 1) == (var p := if k == Pred(j, n) then Pred(k, n) else Pred(j, n); if p < k then p else p - 1)
  {
  }

  lemma AtAfterDetach(l: Links, ns: seq<Addr>, k: nat, j: nat)
    requires Ring(l, ns) && k < |ns| && |ns| > 1 && j < |ns| && j != k
    ensures At(Detach(l, ns[k]), Removed(ns, k), if j < k then j else j - 1)
  {
    hide Ring, Unique, Removed;
    RingAt(l, ns, k, j);
    RingAt(l, ns, k, k);
    Different(ns, j, Pred(k, |ns|));
    Different(ns, j, Succ(k, |ns|));
    NeighboursAfterRemoval(|ns|, k, j);
    hide Pred, Succ;
    assert Removed(ns, k)[if j < k then j else j - 1] == ns[j];
  }

  lemma RingAt(l: Links, ns: seq<Addr>, k: nat, j: nat)
    requires Ring(l, ns) && k < |ns| && j < |ns|
    ensures At(l, ns, j) && Unique(ns) && Succ(k, |ns|) < |ns| && Pred(k, |ns|) < |ns|
  {
  }

  lemma DetachKeepsRing(l: Links, ns: seq<Addr>, k: nat)
    requires Ring(l, ns) && k < |ns| && |ns| > 1
    ensures Ring(Detach(l, ns[k]), Removed(ns, k))
  {
    UniqueRemoved(ns, k);
    assert At(l, ns, k);
    var r, m := Removed(ns, k), Detach(l, ns[k]);
    hide Detach, At, Unique;
    forall i | 0 <= i < |r|
      ensures At(m, r, i)
    {
      AtAfterDetach(l, ns, k, if i < k then i else i + 1);
    }
  }

  lemma ElsewhereKeepsRing(l: Links, m: Links, ns: seq<Addr>)
    requires Ring(l, ns)
    requires forall y <- ns :: y in m.next && y in m.prev && y in l.next && y in l.prev
                               && m.next[y] == l.next[y] && m.prev[y] == l.prev[y]
    ensures Ring(m, ns)
  {
    forall i | 0 <= i < |ns|
      ensures At(m, ns, i)
    {
      assert At(l, ns, i) && ns[i] in ns;
    }
  }

  lemma RingHolds(l: Links, ns: seq<Addr>)
    requires Ring(l, ns)
    ensures forall y <- ns :: y in l.next && y in l.prev
  {
    forall y | y in ns
      ensures y in l.next && y in l.prev
    {
      var i :| 0 <= i < |ns| && ns[i] == y;
      assert At(l, ns, i);
    }
  }

  /** A removed node is alone, and the others close up. */
  lemma RemoveKeepsRing(l: Links, ns: seq<Addr>, k: nat)
    requires Ring(l, ns) && k < |ns| && |ns| > 1
    ensures Ring(Remove(l, ns[k]), Removed(ns, k)) && Ring(Remove(l, ns[k]), [ns[k]])
  {
    DetachKeepsRing(l, ns, k);
    UniqueRemoved(ns, k);
    RingHolds(Detach(l, ns[k]), Removed(ns, k));
    ElsewhereKeepsRing(Detach(l, ns[k]), Remove(l, ns[k]), Removed(ns, k));
    assert At(Remove(l, ns[k]), [ns[k]], 0);
  }

  lemma DetachInserted(l: Links, p: Addr, x: Addr)
    requires p in l.next && l.next[p] in l.prev && l.prev[l.next[p]] == p && x != p && x != l.next[p]
    ensures var m := Detach(InsertAfter(l, p, x), x);
            && (forall y <- l.next :: y != x ==> y in m.next && m.next[y] == l.next[y])
            && (forall y <- l.prev :: y != x ==> y in m.prev && m.prev[y] == l.prev[y])
  {
  }

  /** Detaching undoes insertion for every other node of the ring. */
  lemma DetachUndoesInsert(l: Links, ns: seq<Addr>, k: nat, x: Addr)
    requires Ring(l, ns) && k < |ns| && x !in ns
    ensures var m := Detach(InsertAfter(l, ns[k], x), x);
            Ring(m, ns) && forall y <- ns :: y in l.next && y in l.prev && m.next[y] == l.next[y] && m.prev[y] == l.prev[y]
  {
    RingHolds(l, ns);
    assert At(l, ns, k) && At(l, ns, Succ(k, |ns|)) && ns[k] in ns && ns[Succ(k, |ns|)] in ns;
    assert Pred(Succ(k, |ns|), |ns|) == k;
    DetachInserted(l, ns[k], x);
    assert forall y :: y in ns ==> y != x;
    hide Detach, InsertAfter, At, Unique;
    ElsewhereKeepsRing(l, Detach(InsertAfter(l, ns[k], x), x), ns);
  }
}
