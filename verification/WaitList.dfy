/** Wait lists whose entries carry the priority a thread was suspended with. */
module WaitList {
  import opened IpcList

  type Tid = nat

  datatype Waiter = Waiter(tid: Tid, prio: nat)

  function Priorities(ws: seq<Waiter>): (ps: seq<nat>)
    ensures |ps| == |ws| && forall i :: 0 <= i < |ws| ==> ps[i] == ws[i].prio
  {
    seq(|ws|, i requires 0 <= i < |ws| => ws[i].prio)
  }

  function Enqueue(ws: seq<Waiter>, w: Waiter, flag: Flag): seq<Waiter> {
    Insert(ws, Position(Priorities(ws), w.prio, flag), w)
  }

  function Without(ws: seq<Waiter>, t: Tid): seq<Waiter> {
    if ws == [] then [] else (if ws[0].tid == t then [] else [ws[0]]) + Without(ws[1..], t)
  }

  predicate Distinct(ws: seq<Waiter>) {
    forall i, j :: 0 <= i < j < |ws| ==> ws[i].tid != ws[j].tid
  }

  ghost predicate Waiting(ws: seq<Waiter>, t: Tid) {
    exists i :: 0 <= i < |ws| && ws[i].tid == t
  }


  /** A thread goes behind all others under FIFO; under PRIO, in a list that is in order, behind those that are no worse and
      before those that are. */
  lemma EnqueuePlaces(ws: seq<Waiter>, w: Waiter, flag: Flag)
    ensures flag.Fifo? ==> Enqueue(ws, w, flag) == ws + [w]
    ensures flag.Prio? && InOrder(ws, flag) ==>
              exists k :: && 0 <= k <= |ws| && Enqueue(ws, w, flag) == ws[..k] + [w] + ws[k..]
                          && (forall i :: 0 <= i < |ws| ==> (i < k <==> ws[i].prio <= w.prio))
  {
    var k := Position(Priorities(ws), w.prio, flag);
    if flag.Prio? && InOrder(ws, flag) {
      InsertKeepsSorted(Priorities(ws), w.prio);
      assert Enqueue(ws, w, flag) == ws[..k] + [w] + ws[k..];
    }
  }

  /** Under PRIO nobody waits behind a worse thread. */
  predicate InOrder(ws: seq<Waiter>, flag: Flag) {
    flag.Prio? ==> Sorted(Priorities(ws))
  }

  lemma EnqueueInOrder(ws: seq<Waiter>, w: Waiter, flag: Flag)
    requires InOrder(ws, flag)
    ensures InOrder(Enqueue(ws, w, flag), flag)
  {
    if flag.Prio? {
      var k := Position(Priorities(ws), w.prio, flag);
      InsertKeepsSorted(Priorities(ws), w.prio);
      hide Position, Sorted;
      assert Priorities(Insert(ws, k, w)) == Insert(Priorities(ws), k, w.prio);
    }
  }

  lemma RestInOrder(ws: seq<Waiter>, flag: Flag)
    requires InOrder(ws, flag) && ws != []
    ensures InOrder(ws[1..], flag)
  {
    var p, q := Priorities(ws), Priorities(ws[1..]);
    assert forall i :: 0 <= i < |q| ==> q[i] == p[i + 1];
  }

  lemma {:induction false} WithoutInOrder(ws: seq<Waiter>, t: Tid, flag: Flag)
    requires InOrder(ws, flag)
    ensures InOrder(Without(ws, t), flag) && forall w <- Without(ws, t) :: w in ws
  {
    if ws != [] {
      var r := Without(ws[1..], t);
      RestInOrder(ws, flag);
      WithoutInOrder(ws[1..], t, flag);
      assert [] + r == r;
      if ws[0].tid != t { FirstInOrder(ws, r, flag); }
    }
  }

  lemma FirstInOrder(ws: seq<Waiter>, r: seq<Waiter>, flag: Flag)
    requires ws != [] && InOrder(ws, flag) && InOrder(r, flag) && forall w <- r :: w in ws[1..]
    ensures InOrder([ws[0]] + r, flag)
  {
    var p, q, n := Priorities(ws), Priorities(r), Priorities([ws[0]] + r);
    if flag.Prio? {
      forall i | 0 <= i < |r|
        ensures p[0] <= q[i]
      {
        assert r[i] in ws[1..];
        var j :| 0 <= j < |ws[1..]| && ws[1..][j] == r[i];
        assert p[0] <= p[j + 1];
      }
      assert n[0] == p[0] && forall i :: 0 < i < |n| ==> n[i] == q[i - 1];
    }
  }

  lemma InsertWaits(ws: seq<Waiter>, k: nat, w: Waiter, t: Tid)
    requires k <= |ws|
    ensures Waiting(Insert(ws, k, w), t) <==> Waiting(ws, t) || t == w.tid
  {
    var r := Insert(ws, k, w);
    hide Insert;
    if t == w.tid {
      assert r[k].tid == t;
    } else if Waiting(ws, t) {
      var i :| 0 <= i < |ws| && ws[i].tid == t;
      assert r[if i < k then i else i + 1] == ws[i];
    }
  }

  lemma EnqueueWaits(ws: seq<Waiter>, w: Waiter, flag: Flag)
    requires Distinct(ws) && !Waiting(ws, w.tid)
    ensures var r := Enqueue(ws, w, flag);
            Distinct(r) && r != [] && forall t :: Waiting(r, t) <==> Waiting(ws, t) || t == w.tid
  {
    var k := Position(Priorities(ws), w.prio, flag);
    hide Position, Priorities;
    forall t
      ensures Waiting(Insert(ws, k, w), t) <==> Waiting(ws, t) || t == w.tid
    {
      InsertWaits(ws, k, w, t);
    }
    assert Distinct(Insert(ws, k, w)) by {
      assert forall i :: 0 <= i < |ws| ==> ws[i].tid != w.tid;
      hide Insert, Waiting;
    }
  }

  lemma WaitingSplits(ws: seq<Waiter>, t: Tid)
    requires ws != []
    ensures Waiting(ws, t) <==> ws[0].tid == t || Waiting(ws[1..], t)
  {
    if Waiting(ws[1..], t) {
      var i :| 0 <= i < |ws[1..]| && ws[1..][i].tid == t;
      assert ws[i + 1].tid == t;
    } else if ws[0].tid != t {
      forall i | 0 <= i < |ws|
        ensures ws[i].tid != t
      {
        if i > 0 { assert ws[i] == ws[1..][i - 1]; }
      }
    }
  }

  lemma FirstLeaves(ws: seq<Waiter>)
    requires ws != [] && Distinct(ws)
    ensures Distinct(ws[1..]) && Waiting(ws, ws[0].tid)
    ensures forall t :: Waiting(ws[1..], t) <==> Waiting(ws, t) && t != ws[0].tid
  {
    forall t
      ensures Waiting(ws[1..], t) <==> Waiting(ws, t) && t != ws[0].tid
    {
      WaitingSplits(ws, t);
    }
  }

  lemma {:induction false} WithoutWaits(ws: seq<Waiter>, t: Tid)
    requires Distinct(ws)
    ensures Distinct(Without(ws, t)) && forall u :: Waiting(Without(ws, t), u) <==> Waiting(ws, u) && u != t
  {
    if ws != [] {
      var rest, r := ws[1..], Without(ws[1..], t);
      WithoutWaits(rest, t);
      FirstLeaves(ws);
      if ws[0].tid != t {
        var all := [ws[0]] + r;
        assert Without(ws, t) == all;
        hide Without;
        assert !Waiting(r, ws[0].tid);
        assert Distinct(all);
        FirstLeaves(all);
        assert all[1..] == r;
      } else {
        assert Without(ws, t) == r;
      }
    }
  }

  /** The threads whose call satisfies p. */
  function Those<C>(calls: map<Tid, C>, p: C -> bool): set<Tid> {
    set t | t in calls && p(calls[t])
  }

  function Among<C>(calls: map<Tid, C>, p: C -> bool, t: Tid): nat {
    if t in calls && p(calls[t]) then 1 else 0
  }

  lemma SameButOne(a: set<Tid>, b: set<Tid>, t: Tid)
    requires a - {t} == b - {t}
    ensures |b| == |a| - (if t in a then 1 else 0) + (if t in b then 1 else 0)
  {
    assert t in a ==> a == a - {t} + {t};
    assert t in b ==> b == b - {t} + {t};
    assert t !in a ==> a == a - {t};
    assert t !in b ==> b == b - {t};
  }

  lemma CountAfterUpdate<C>(calls: map<Tid, C>, p: C -> bool, t: Tid, c: C)
    ensures |Those(calls[t := c], p)| == |Those(calls, p)| - Among(calls, p, t) + (if p(c) then 1 else 0)
  {
    SameButOne(Those(calls, p), Those(calls[t := c], p), t);
  }

  lemma CountAfterRemoval<C>(calls: map<Tid, C>, p: C -> bool, t: Tid)
    ensures |Those(calls - {t}, p)| == |Those(calls, p)| - Among(calls, p, t)
  {
    SameButOne(Those(calls, p), Those(calls - {t}, p), t);
  }
}
