/** Message queues: rt_mq_init, rt_mq_send, rt_mq_urgent, rt_mq_recv and rt_mq_control of src/ipc.c.

    A message travels in a node of a fixed pool. A sender takes a node off the free list, fills it
    with interrupts enabled, and links it into the queue; a receiver unlinks a node, copies it out
    with interrupts enabled, and gives it back. Each section that runs with interrupts disabled is
    one step, and so is each byte copied between sections.
  */
module MessageQueue {
  import opened IpcList
  import opened WaitList

  newtype Byte = x: int | 0 <= x < 256

  type Node = nat
  datatype Link = Null | To(node: Node)

  /** The pool of nodes, and the fields of struct rt_messagequeue that link them. */
  datatype Pool = Pool(next: seq<Link>, data: seq<seq<Byte>>, head: Link, tail: Link, free: Link, entry: nat)

  // ---------------------------------------------------------------- the linked lists

  function NextOf(p: Pool, n: Node): Link {
    if n < |p.next| then p.next[n] else Null
  }

  function SetNext(p: Pool, n: Node, l: Link): Pool {
    if n < |p.next| then p.(next := p.next[n := l]) else p
  }

  function WriteByte(p: Pool, n: Node, i: nat, b: Byte): Pool {
    if n < |p.data| && i < |p.data[n]| then p.(data := p.data[n := p.data[n][i := b]]) else p
  }

  /** Takes the first node off the free list. */
  function Grab(p: Pool): Pool {
    if p.free.To? then p.(free := NextOf(p, p.free.node)) else p
  }

  /** Puts node n on the free list. */
  function GiveBack(p: Pool, n: Node): Pool {
    SetNext(p, n, p.free).(free := To(n))
  }

  /** Links node n behind the tail. */
  function Append(p: Pool, n: Node): Pool {
    var p1 := if p.tail.To? then SetNext(p, p.tail.node, To(n)) else p;
    p1.(tail := To(n), head := if p.head == Null then To(n) else p.head, entry := p.entry + 1)
  }

  /** Links node n before the head. */
  function Prepend(p: Pool, n: Node): Pool {
    SetNext(p, n, p.head).(head := To(n), tail := if p.tail == Null then To(n) else p.tail, entry := p.entry + 1)
  }

  /** Unlinks the head. */
  function Unlink(p: Pool): Pool {
    if p.head.To? then p.(head := NextOf(p, p.head.node), tail := if p.tail == p.head then Null else p.tail) else p
  }

  /** The loop of a reset, over as many nodes as are queued: each goes to the free list. */
  function Drain(p: Pool, entries: nat): Pool
    decreases entries
  {
    if p.head == Null || entries == 0 then p
    else Drain(GiveBack(Unlink(p), p.head.node), entries - 1)
  }

  // ---------------------------------------------------------------- what the lists stand for

  datatype Place = Queued | Unused | HeldBy(tid: Tid)

  /** The queue and the free list as sequences, where each node is, the message in each queued node,
      and the message each receiver is copying out. */
  datatype Abs = Abs(
    queue: seq<Node>, free: seq<Node>, place: map<Node, Place>,
    payload: map<Node, seq<Byte>>, taken: map<Tid, seq<Byte>>)

  predicate Linked(next: seq<Link>, head: Link, ns: seq<Node>)
    decreases |ns|
  {
    if ns == [] then head == Null
    else head == To(ns[0]) && ns[0] < |next| && Linked(next, next[ns[0]], ns[1..])
  }

  predicate Unique(ns: seq<Node>) {
    forall i, j :: 0 <= i < j < |ns| ==> ns[i] != ns[j]
  }

  /** Every node of the pool is in exactly one place, and the lists hold those that are there. */
  ghost predicate Placed(count: nat, a: Abs) {
    && (forall n: Node :: n in a.place <==> n < count)
    && Unique(a.queue) && Unique(a.free)
    && (forall n <- a.queue :: n in a.place && a.place[n] == Queued)
    && (forall n <- a.free :: n in a.place && a.place[n] == Unused)
    && (forall n <- a.place :: a.place[n] == Queued ==> n in a.queue)
    && (forall n <- a.place :: a.place[n] == Unused ==> n in a.free)
  }

  ghost predicate Chains(p: Pool, a: Abs) {
    && |p.data| == |p.next|
    && Placed(|p.next|, a)
    && Linked(p.next, p.head, a.queue)
    && Linked(p.next, p.free, a.free)
    && p.tail == (if a.queue == [] then Null else To(a.queue[|a.queue| - 1]))
  }

  ghost predicate Structure(p: Pool, a: Abs) {
    Chains(p, a) && p.entry == |a.queue|
  }

  /** Node n holds message m. */
  predicate Stores(p: Pool, n: Node, m: seq<Byte>) {
    n < |p.data| && m <= p.data[n]
  }

  predicate Sized(p: Pool, size: nat) {
    forall i :: 0 <= i < |p.data| ==> |p.data[i]| == size
  }

  predicate Messages(p: Pool, size: nat, a: Abs) {
    Sized(p, size) && forall n <- a.queue :: n in a.payload && Stores(p, n, a.payload[n])
  }

  // ---------------------------------------------------------------- the deque

  function GrabAbs(a: Abs, t: Tid): Abs
    requires a.free != []
  {
    a.(free := a.free[1..], place := a.place[a.free[0] := HeldBy(t)])
  }

  function GiveBackAbs(a: Abs, n: Node): Abs {
    a.(free := [n] + a.free, place := a.place[n := Unused])
  }

  function AppendAbs(a: Abs, n: Node, m: seq<Byte>): Abs {
    a.(queue := a.queue + [n], place := a.place[n := Queued], payload := a.payload[n := m])
  }

  function PrependAbs(a: Abs, n: Node, m: seq<Byte>): Abs {
    a.(queue := [n] + a.queue, place := a.place[n := Queued], payload := a.payload[n := m])
  }

  function PopAbs(a: Abs, t: Tid): Abs
    requires a.queue != []
  {
    a.(queue := a.queue[1..], place := a.place[a.queue[0] := HeldBy(t)],
       taken := if a.queue[0] in a.payload then a.taken[t := a.payload[a.queue[0]]] else a.taken)
  }

  /** All queued nodes are given back, the oldest first. */
  function DrainAbs(a: Abs): Abs
    decreases |a.queue|
  {
    if a.queue == [] then a
    else DrainAbs(a.(queue := a.queue[1..], free := [a.queue[0]] + a.free, place := a.place[a.queue[0] := Unused]))
  }

  lemma {:induction false} LinkedElsewhere(next: seq<Link>, head: Link, ns: seq<Node>, n: Node, l: Link)
    requires Linked(next, head, ns) && n < |next| && n !in ns
    ensures Linked(next[n := l], head, ns)
    decreases |ns|
  {
    if ns != [] { LinkedElsewhere(next, next[ns[0]], ns[1..], n, l); }
  }

  lemma {:induction false} LinkedAtEnd(next: seq<Link>, head: Link, ns: seq<Node>, n: Node)
    requires Linked(next, head, ns) && ns != [] && Unique(ns) && n < |next| && next[n] == Null && n !in ns
    ensures ns[|ns| - 1] < |next| && Linked(next[ns[|ns| - 1] := To(n)], head, ns + [n])
    decreases |ns|
  {
    var rest := ns[1..];
    assert (ns + [n])[1..] == rest + [n];
    if rest == [] {
      assert Linked(next[ns[0] := To(n)], To(n), [n]);
    } else {
      LinkedAtEnd(next, next[ns[0]], rest, n);
      assert rest[|rest| - 1] == ns[|ns| - 1] != ns[0];
    }
  }

  lemma LinkedInFront(next: seq<Link>, head: Link, ns: seq<Node>, n: Node)
    requires Linked(next, head, ns) && n < |next| && n !in ns
    ensures Linked(next[n := head], To(n), [n] + ns)
  {
    LinkedElsewhere(next, head, ns, n, head);
    assert ([n] + ns)[1..] == ns;
  }

  // ---------------------------------------------------------------- where the nodes are

  lemma UniqueInFront(ns: seq<Node>, n: Node)
    requires Unique(ns) && n !in ns
    ensures Unique([n] + ns) && Unique(ns + [n])
    ensures forall m :: m in [n] + ns <==> m == n || m in ns
  {
    var r := [n] + ns;
    assert forall i :: 0 < i < |r| ==> r[i] == ns[i - 1];
  }

  lemma UniqueRest(ns: seq<Node>)
    requires Unique(ns) && ns != []
    ensures Unique(ns[1..]) && forall m :: m in ns[1..] <==> m in ns && m != ns[0]
  {
    assert forall m :: m in ns <==> m == ns[0] || m in ns[1..];
  }

  lemma PlacedElsewhere(count: nat, a: Abs, n: Node, t: Tid)
    requires Placed(count, a) && n in a.place
    ensures a.free != [] && a.free[0] == n ==> Placed(count, GrabAbs(a, t))
    ensures a.queue != [] && a.queue[0] == n ==> Placed(count, PopAbs(a, t))
  {
    hide Unique;
    if a.free != [] && a.free[0] == n { UniqueRest(a.free); }
    if a.queue != [] && a.queue[0] == n { UniqueRest(a.queue); }
  }

  lemma PlacedBack(count: nat, a: Abs, n: Node, m: seq<Byte>)
    requires Placed(count, a) && n in a.place && a.place[n].HeldBy?
    ensures n !in a.queue && n !in a.free
    ensures Placed(count, GiveBackAbs(a, n)) && Placed(count, AppendAbs(a, n, m)) && Placed(count, PrependAbs(a, n, m))
  {
    hide Placed, Unique, GiveBackAbs, AppendAbs, PrependAbs;
    HeldElsewhere(count, a, n);
    UniqueInFront(a.queue, n);
    UniqueInFront(a.free, n);
    PlacedFree(count, a, n);
    PlacedQueued(count, a, n, m, a.queue + [n]);
    PlacedQueued(count, a, n, m, [n] + a.queue);
    AbsIs(a, n, m);
  }

  lemma HeldElsewhere(count: nat, a: Abs, n: Node)
    requires Placed(count, a) && n in a.place && a.place[n].HeldBy?
    ensures n !in a.queue && n !in a.free && Unique(a.queue) && Unique(a.free)
  {
    hide Unique;
  }

  lemma AbsIs(a: Abs, n: Node, m: seq<Byte>)
    ensures GiveBackAbs(a, n) == a.(free := [n] + a.free, place := a.place[n := Unused])
    ensures AppendAbs(a, n, m) == a.(queue := a.queue + [n], place := a.place[n := Queued], payload := a.payload[n := m])
    ensures PrependAbs(a, n, m) == a.(queue := [n] + a.queue, place := a.place[n := Queued], payload := a.payload[n := m])
  {
  }

  lemma PlacedFree(count: nat, a: Abs, n: Node)
    requires Placed(count, a) && n in a.place && a.place[n].HeldBy? && Unique([n] + a.free)
    ensures Placed(count, a.(free := [n] + a.free, place := a.place[n := Unused]))
  {
    hide Unique;
  }

  lemma PlacedQueued(count: nat, a: Abs, n: Node, m: seq<Byte>, queue: seq<Node>)
    requires Placed(count, a) && n in a.place && a.place[n].HeldBy? && Unique(queue)
    requires forall x :: x in queue <==> x in a.queue || x == n
    ensures Placed(count, a.(queue := queue, place := a.place[n := Queued], payload := a.payload[n := m]))
  {
    hide Unique;
  }

  // ---------------------------------------------------------------- each operation on the pool

  lemma GrabKeeps(p: Pool, a: Abs, t: Tid)
    requires Chains(p, a) && p.free.To?
    ensures a.free != [] && p.free.node == a.free[0] && Chains(Grab(p), GrabAbs(a, t))
  {
    PlacedElsewhere(|p.next|, a, a.free[0], t);
    hide Placed;
  }

  lemma GiveBackKeeps(p: Pool, a: Abs, n: Node)
    requires Chains(p, a) && n in a.place && a.place[n].HeldBy?
    ensures Chains(GiveBack(p, n), GiveBackAbs(a, n))
  {
    PlacedBack(|p.next|, a, n, []);
    assert n < |p.next|;
    hide Placed, Linked;
    LinkedInFront(p.next, p.free, a.free, n);
    LinkedElsewhere(p.next, p.head, a.queue, n, p.free);
  }

  lemma AppendKeeps(p: Pool, a: Abs, n: Node, m: seq<Byte>)
    requires Chains(p, a) && n in a.place && a.place[n].HeldBy? && NextOf(p, n) == Null
    ensures Chains(Append(p, n), AppendAbs(a, n, m))
  {
    hide Placed, Linked, Unique;
    PlacedBack(|p.next|, a, n, m);
    PlacedIs(|p.next|, a, n);
    if a.queue == [] {
      assert [] + [n] == [n];
      LinkedAlone(p.next, n);
    } else {
      var last := a.queue[|a.queue| - 1];
      LinkedAtEnd(p.next, p.head, a.queue, n);
      LinkedElsewhere(p.next, p.free, a.free, last, To(n));
    }
  }

  lemma LinkedAlone(next: seq<Link>, n: Node)
    requires n < |next| && next[n] == Null
    ensures Linked(next, To(n), [n])
    ensures forall head :: Linked(next, head, []) ==> head == Null
  {
  }

  lemma PlacedIs(count: nat, a: Abs, n: Node)
    requires Placed(count, a)
    ensures n in a.place <==> n < count
    ensures Unique(a.queue)
    ensures a.queue != [] ==> a.queue[|a.queue| - 1] in a.queue && a.queue[|a.queue| - 1] !in a.free
    ensures a.queue != [] ==> a.queue[0] in a.place && a.place[a.queue[0]] == Queued
  {
    hide Unique;
    assert a.queue != [] ==> a.queue[|a.queue| - 1] in a.queue && a.queue[0] in a.queue;
  }

  lemma PrependKeeps(p: Pool, a: Abs, n: Node, m: seq<Byte>)
    requires Chains(p, a) && n in a.place && a.place[n].HeldBy?
    ensures Chains(Prepend(p, n), PrependAbs(a, n, m))
  {
    PlacedBack(|p.next|, a, n, m);
    assert n < |p.next|;
    assert p.tail == Null <==> a.queue == [];
    hide Placed, Linked;
    LinkedInFront(p.next, p.head, a.queue, n);
    LinkedElsewhere(p.next, p.free, a.free, n, p.head);
  }

  lemma UnlinkKeeps(p: Pool, a: Abs, t: Tid)
    requires Chains(p, a) && a.queue != []
    ensures p.head.To? && p.head.node == a.queue[0] && Chains(Unlink(p), PopAbs(a, t))
  {
    var n, rest := a.queue[0], a.queue[1..];
    PlacedElsewhere(|p.next|, a, n, t);
    assert rest != [] ==> a.queue[|a.queue| - 1] == rest[|rest| - 1] && a.queue[|a.queue| - 1] != n;
    hide Placed;
  }

  lemma DrainOne(p: Pool, a: Abs)
    requires Chains(p, a) && a.queue != []
    ensures p.head.To? && p.head.node == a.queue[0] && a.queue[0] in a.place && a.place[a.queue[0]] == Queued
    ensures var n, r := a.queue[0], GiveBack(Unlink(p), a.queue[0]);
            && Chains(r, a.(queue := a.queue[1..], free := [n] + a.free, place := a.place[n := Unused]))
            && r.data == p.data && |r.next| == |p.next|
            && forall m: Node :: m != n ==> NextOf(r, m) == NextOf(p, m)
  {
    hide Chains, Placed;
    var n := a.queue[0];
    ChainsPlaced(p, a);
    PlacedIs(|p.next|, a, n);
    UnlinkKeeps(p, a, 0);
    GiveBackKeeps(Unlink(p), PopAbs(a, 0), n);
    var b := GiveBackAbs(PopAbs(a, 0), n);
    assert b.place == a.place[n := Unused];
    SameChains(GiveBack(Unlink(p), n), b, a.(queue := a.queue[1..], free := [n] + a.free, place := a.place[n := Unused]));
  }

  lemma ChainsPlaced(p: Pool, a: Abs)
    requires Chains(p, a)
    ensures Placed(|p.next|, a) && |p.data| == |p.next|
  {
  }

  lemma {:induction false} DrainKeeps(p: Pool, a: Abs)
    requires Chains(p, a)
    ensures var r, b := Drain(p, |a.queue|), DrainAbs(a);
            && Chains(r, b) && r.head == Null && r.tail == Null && r.data == p.data && |r.next| == |p.next|
            && b.queue == [] && b.payload == a.payload && b.taken == a.taken && b.place.Keys == a.place.Keys
            && (forall n <- a.place :: b.place[n] == if a.place[n] == Queued then Unused else a.place[n])
            && (forall n <- a.place :: a.place[n].HeldBy? ==> NextOf(r, n) == NextOf(p, n))
    decreases |a.queue|
  {
    if a.queue == [] {
      assert forall n <- a.place :: a.place[n] != Queued;
    } else {
      hide Chains, GiveBack, Unlink, NextOf;
      var n := a.queue[0];
      DrainOne(p, a);
      var p1 := GiveBack(Unlink(p), n);
      var a1 := a.(queue := a.queue[1..], free := [n] + a.free, place := a.place[n := Unused]);
      DrainKeeps(p1, a1);
      assert Drain(p, |a.queue|) == Drain(p1, |a1.queue|) && DrainAbs(a) == DrainAbs(a1);
      hide Drain, DrainAbs;
    }
  }

  lemma SameChains(p: Pool, a: Abs, b: Abs)
    requires Chains(p, a) && a.queue == b.queue && a.free == b.free && a.place == b.place
    ensures Chains(p, b)
  {
  }

  // ---------------------------------------------------------------- threads

  /** A call that has not returned: copying with interrupts enabled, or waiting, or resumed. */
  datatype Call =
    | Filling(node: Node, buffer: seq<Byte>, urgent: bool, cleared: bool, done: nat)
    | Draining(node: Node, got: seq<Byte>, want: nat)
    | Suspended(size: nat, prio: nat, timeout: int)
    | Resumed(size: nat, prio: nat, timeout: int, error: Error)

  datatype Error = Ok | TimedOut | Failed

  datatype Outcome = Sent | Full | Got(bytes: seq<Byte>) | Error(error: Error) | Continues

  /** `size` is the size of a message, rounded up to the alignment. */
  datatype State = State(size: nat, pool: Pool, receivers: seq<Waiter>, calls: map<Tid, Call>)

  /** rt_mq_init: the nodes are put on the free list one after the other. */
  function InitPool(data: seq<seq<Byte>>, done: nat): Pool
    requires done <= |data|
  {
    if done == 0 then Pool(seq(|data|, _ => Null), data, Null, Null, Null, 0)
    else GiveBack(InitPool(data, done - 1), done - 1)
  }

  function Init(size: nat, data: seq<seq<Byte>>): State {
    State(size, InitPool(data, |data|), [], map[])
  }

  function Leave(s: State, t: Tid): State {
    s.(calls := s.calls - {t})
  }

  function Wake(calls: map<Tid, Call>, t: Tid, e: Error): map<Tid, Call> {
    if t in calls && calls[t].Suspended? then calls[t := Resumed(calls[t].size, calls[t].prio, calls[t].timeout, e)]
    else calls
  }

  /** The first section of rt_mq_send and rt_mq_urgent. */
  function SendStart(s: State, t: Tid, buffer: seq<Byte>, urgent: bool): (State, Outcome) {
    if |buffer| > s.size then (s, Error(Failed))
    else if s.pool.free == Null then (s, Full)
    else
      (s.(pool := Grab(s.pool), calls := s.calls[t := Filling(s.pool.free.node, buffer, urgent, urgent, 0)]), Continues)
  }

  function ByteAt(p: Pool, n: Node, i: nat): Byte {
    if n < |p.data| && i < |p.data[n]| then p.data[n][i] else 0
  }

  /** One piece of work between two sections: a sender other than an urgent one clears the link of its
      node first. */
  function Copy(s: State, t: Tid): State
    requires t in s.calls
  {
    match s.calls[t]
    case Filling(n, buffer, urgent, cleared, done) =>
      if !cleared then
        s.(pool := SetNext(s.pool, n, Null), calls := s.calls[t := Filling(n, buffer, urgent, true, done)])
      else if done < |buffer| then
        s.(pool := WriteByte(s.pool, n, done, buffer[done]),
           calls := s.calls[t := Filling(n, buffer, urgent, cleared, done + 1)])
      else s
    case Draining(n, got, want) =>
      if |got| < want then s.(calls := s.calls[t := Draining(n, got + [ByteAt(s.pool, n, |got|)], want)]) else s
    case _ => s
  }

  /** The second section of rt_mq_send and rt_mq_urgent. */
  function SendLink(s: State, t: Tid): (State, Outcome)
    requires t in s.calls && s.calls[t].Filling?
  {
    var c := s.calls[t];
    var s1 := Leave(s.(pool := if c.urgent then Prepend(s.pool, c.node) else Append(s.pool, c.node)), t);
    (if s1.receivers == [] then s1
     else s1.(receivers := s1.receivers[1..], calls := Wake(s1.calls, s1.receivers[0].tid, Ok)), Sent)
  }

  function Min(a: nat, b: nat): nat { if a < b then a else b }

  /** One pass of the loop of rt_mq_recv, and the section behind it. */
  function RecvPass(s: State, t: Tid, size: nat, prio: nat, timeout: int, flag: Flag): (State, Outcome) {
    if s.pool.entry == 0 then
      if timeout == 0 then (Leave(s, t), Error(TimedOut))
      else (s.(receivers := Enqueue(s.receivers, Waiter(t, prio), flag),
               calls := s.calls[t := Suspended(size, prio, timeout)]), Continues)
    else if s.pool.head == Null then (s, Continues)
    else
      var n := s.pool.head.node;
      (s.(pool := Unlink(s.pool).(entry := s.pool.entry - 1),
          calls := s.calls[t := Draining(n, [], Min(size, s.size))]), Continues)
  }

  function TimeLeft(timeout: int, elapsed: nat): int {
    if timeout > 0 then (if timeout < elapsed then 0 else timeout - elapsed) else timeout
  }

  function RecvAgain(s: State, t: Tid, elapsed: nat, flag: Flag): (State, Outcome)
    requires t in s.calls && s.calls[t].Resumed?
  {
    var c := s.calls[t];
    if c.error != Ok then (Leave(s, t), Error(c.error))
    else RecvPass(s, t, c.size, c.prio, TimeLeft(c.timeout, elapsed), flag)
  }

  /** The last section of rt_mq_recv. */
  function RecvEnd(s: State, t: Tid): (State, Outcome)
    requires t in s.calls && s.calls[t].Draining?
  {
    (Leave(s.(pool := GiveBack(s.pool, s.calls[t].node)), t), Got(s.calls[t].got))
  }

  function Expire(s: State, t: Tid): State {
    s.(receivers := Without(s.receivers, t), calls := Wake(s.calls, t, TimedOut))
  }

  function FailAll(ws: seq<Waiter>, calls: map<Tid, Call>): map<Tid, Call> {
    if ws == [] then calls else FailAll(ws[1..], Wake(calls, ws[0].tid, Failed))
  }

  function Reset(s: State): State {
    s.(pool := Drain(s.pool, s.pool.entry).(entry := 0), receivers := [], calls := FailAll(s.receivers, s.calls))
  }

  datatype Step =
    | DoSend(t: Tid, buffer: seq<Byte>, urgent: bool)
    | DoCopy(t: Tid)
    | DoLink(t: Tid)
    | DoRecv(t: Tid, size: nat, prio: nat, timeout: int)
    | DoAgain(t: Tid, elapsed: nat)
    | DoEnd(t: Tid)
    | DoExpire(t: Tid)
    | DoReset

  predicate Enabled(s: State, step: Step) {
    match step
    case DoSend(t, _, _) => t !in s.calls
    case DoCopy(t) => t in s.calls && (s.calls[t].Filling? || s.calls[t].Draining?)
    case DoLink(t) =>
      t in s.calls && s.calls[t].Filling? && s.calls[t].cleared && s.calls[t].done == |s.calls[t].buffer|
    case DoRecv(t, _, _, _) => t !in s.calls
    case DoAgain(t, _) => t in s.calls && s.calls[t].Resumed?
    case DoEnd(t) => t in s.calls && s.calls[t].Draining? && |s.calls[t].got| == s.calls[t].want
    case DoExpire(t) => t in s.calls && s.calls[t].Suspended? && s.calls[t].timeout > 0
    case DoReset => true
  }

  function Apply(s: State, step: Step, flag: Flag): (State, Outcome)
    requires Enabled(s, step)
  {
    match step
    case DoSend(t, buffer, urgent) => SendStart(s, t, buffer, urgent)
    case DoCopy(t) => (Copy(s, t), Continues)
    case DoLink(t) => SendLink(s, t)
    case DoRecv(t, size, prio, timeout) => RecvPass(s, t, size, prio, timeout, flag)
    case DoAgain(t, elapsed) => RecvAgain(s, t, elapsed, flag)
    case DoEnd(t) => RecvEnd(s, t)
    case DoExpire(t) => (Expire(s, t), Continues)
    case DoReset => (Reset(s), Continues)
  }

  // ---------------------------------------------------------------- invariant

  predicate Holds(c: Call) {
    c.Filling? || c.Draining?
  }

  /** What a thread in the middle of a call relies on. */
  predicate CallOk(p: Pool, size: nat, a: Abs, t: Tid, c: Call) {
    && (Holds(c) ==> c.node in a.place && a.place[c.node] == HeldBy(t))
    && (c.Filling? ==>
          && c.done <= |c.buffer| <= size
          && Stores(p, c.node, c.buffer[..c.done])
          && (c.urgent ==> c.cleared)
          && (c.cleared && !c.urgent ==> NextOf(p, c.node) == Null))
    && (c.Draining? ==>
          && t in a.taken && |a.taken[t]| <= size && Stores(p, c.node, a.taken[t])
          && |c.got| <= c.want <= size && Stores(p, c.node, c.got))
  }

  predicate Calls(s: State, a: Abs) {
    && (forall t <- s.calls :: CallOk(s.pool, s.size, a, t, s.calls[t]))
    && (forall n <- a.place :: a.place[n].HeldBy? ==>
          var t := a.place[n].tid; t in s.calls && Holds(s.calls[t]) && s.calls[t].node == n)
  }

  predicate Tries(c: Call) {
    c.Resumed? && c.error == Ok
  }

  ghost predicate Waits(s: State) {
    && Distinct(s.receivers)
    && (forall t :: Waiting(s.receivers, t) <==> t in s.calls && s.calls[t].Suspended?)
  }

  predicate NoLostWakeUp(s: State) {
    s.receivers != [] ==> s.pool.entry <= |Those(s.calls, Tries)|
  }

  ghost predicate Inv(s: State, a: Abs) {
    Structure(s.pool, a) && Messages(s.pool, s.size, a) && Calls(s, a) && Waits(s) && NoLostWakeUp(s)
  }

  // ---------------------------------------------------------------- what each step does to the deque

  function AbsStep(a: Abs, s: State, step: Step): Abs
    requires Enabled(s, step)
  {
    match step
    case DoSend(t, buffer, _) => if |buffer| <= s.size && a.free != [] then GrabAbs(a, t) else a
    case DoCopy(_) => a
    case DoLink(t) =>
      var c := s.calls[t];
      if c.urgent then PrependAbs(a, c.node, c.buffer) else AppendAbs(a, c.node, c.buffer)
    case DoRecv(t, _, _, _) => if a.queue != [] then PopAbs(a, t) else a
    case DoAgain(t, _) => if s.calls[t].error == Ok && a.queue != [] then PopAbs(a, t) else a
    case DoEnd(t) => GiveBackAbs(a, s.calls[t].node)
    case DoExpire(_) => a
    case DoReset => DrainAbs(a)
  }

  // ---------------------------------------------------------------- the wait list

  lemma WaitsKept(s: State, r: State)
    requires Waits(s) && s.receivers == r.receivers
    requires forall u :: u in s.calls && s.calls[u].Suspended? <==> u in r.calls && r.calls[u].Suspended?
    ensures Waits(r)
  {
  }

  lemma SuspendKeepsWaits(s: State, t: Tid, size: nat, prio: nat, timeout: int, flag: Flag)
    requires Waits(s) && (t in s.calls ==> !s.calls[t].Suspended?)
    ensures Waits(s.(receivers := Enqueue(s.receivers, Waiter(t, prio), flag), calls := s.calls[t := Suspended(size, prio, timeout)]))
  {
    EnqueueWaits(s.receivers, Waiter(t, prio), flag);
    hide Enqueue, Distinct, Waiting;
  }

  lemma WakeKeepsWaits(s: State)
    requires Waits(s) && s.receivers != []
    ensures var t := s.receivers[0].tid;
            && t in s.calls && s.calls[t].Suspended?
            && Waits(s.(receivers := s.receivers[1..], calls := Wake(s.calls, t, Ok)))
  {
    FirstLeaves(s.receivers);
    hide Distinct, Waiting;
  }

  /** A link makes one message more, and one thread more tries to get it if any waits. */
  lemma WakeLosesNoWakeUp(s: State)
    requires Waits(s) && s.receivers != [] && s.pool.entry <= |Those(s.calls, Tries)| + 1
    ensures NoLostWakeUp(s.(receivers := s.receivers[1..], calls := Wake(s.calls, s.receivers[0].tid, Ok)))
  {
    WakeKeepsWaits(s);
    hide Those, Waits;
    var t := s.receivers[0].tid;
    CountAfterUpdate(s.calls, Tries, t, Wake(s.calls, t, Ok)[t]);
  }

  // ---------------------------------------------------------------- the calls of other threads

  /** From (p, a) to (q, b) nothing changes that another thread than t holds. */
  predicate Undisturbed(p: Pool, a: Abs, q: Pool, b: Abs, t: Tid) {
    && |q.data| == |p.data|
    && (forall n <- a.place :: a.place[n].HeldBy? && a.place[n].tid != t ==>
          && n in b.place && b.place[n] == a.place[n]
          && NextOf(q, n) == NextOf(p, n)
          && (n < |p.data| ==> q.data[n] == p.data[n]))
    && (forall n <- b.place :: b.place[n].HeldBy? && b.place[n].tid != t ==> n in a.place && a.place[n] == b.place[n])
    && (forall u <- a.taken :: u != t ==> u in b.taken && b.taken[u] == a.taken[u])
  }

  /** The calls of other threads are the same, or were and are at rest. */
  predicate SameOthers(c: map<Tid, Call>, d: map<Tid, Call>, t: Tid) {
    && (forall u <- d :: u != t ==> u in c && (d[u] == c[u] || (!Holds(c[u]) && !Holds(d[u]))))
    && (forall u <- c :: u != t ==> u in d)
  }

  lemma CallsKept(s: State, a: Abs, r: State, b: Abs, t: Tid)
    requires Calls(s, a) && r.size == s.size
    requires Undisturbed(s.pool, a, r.pool, b, t) && SameOthers(s.calls, r.calls, t)
    requires t in r.calls ==> CallOk(r.pool, r.size, b, t, r.calls[t])
    requires forall n <- b.place :: b.place[n] == HeldBy(t) ==> t in r.calls && Holds(r.calls[t]) && r.calls[t].node == n
    ensures Calls(r, b)
  {
    forall u | u in r.calls
      ensures CallOk(r.pool, r.size, b, u, r.calls[u])
    {
      if u != t {
        assert CallOk(s.pool, s.size, a, u, s.calls[u]);
      }
    }
  }

  // ---------------------------------------------------------------- each step

  /** A thread that makes no message and takes none loses no wake-up, unless it was about to try. */
  lemma SameWakeUps(s: State, r: State, t: Tid, c: Call)
    requires NoLostWakeUp(s) && r.receivers == s.receivers && r.pool.entry == s.pool.entry
    requires r.calls == s.calls[t := c] && !Tries(c) && (t in s.calls ==> !Tries(s.calls[t]))
    ensures NoLostWakeUp(r)
  {
    CountAfterUpdate(s.calls, Tries, t, c);
    hide Those;
  }

  lemma GrabUndisturbs(p: Pool, a: Abs, t: Tid)
    requires Chains(p, a) && p.free.To? && a.free != [] && p.free.node == a.free[0]
    ensures Undisturbed(p, a, Grab(p), GrabAbs(a, t), t)
  {
    hide Linked, Unique;
    assert a.free[0] in a.free;
  }

  lemma GrabbedCall(s: State, a: Abs, t: Tid, buffer: seq<Byte>, urgent: bool)
    requires Chains(s.pool, a) && |buffer| <= s.size && s.pool.free.To? && a.free != [] && s.pool.free.node == a.free[0]
    ensures CallOk(Grab(s.pool), s.size, GrabAbs(a, t), t, Filling(s.pool.free.node, buffer, urgent, urgent, 0))
  {
    hide Linked, Unique;
    assert a.free[0] in a.free;
  }

  lemma PutOthers(c: map<Tid, Call>, t: Tid, call: Call)
    ensures SameOthers(c, c[t := call], t)
  {
  }

  /** The only node that a thread outside the send routines holds is the one it takes. */
  lemma GrabbedNode(s: State, a: Abs, t: Tid)
    requires Calls(s, a) && t !in s.calls && a.free != []
    ensures forall n <- GrabAbs(a, t).place :: GrabAbs(a, t).place[n] == HeldBy(t) ==> n == a.free[0]
  {
    hide CallOk;
  }

  lemma SendStartKeepsCalls(s: State, a: Abs, t: Tid, buffer: seq<Byte>, urgent: bool)
    requires Chains(s.pool, a) && Messages(s.pool, s.size, a) && Calls(s, a)
    requires t !in s.calls && |buffer| <= s.size && s.pool.free.To? && a.free != []
    requires s.pool.free.node == a.free[0]
    ensures Calls(SendStart(s, t, buffer, urgent).0, GrabAbs(a, t))
  {
    hide Linked, Chains, Messages, Placed, Unique, Calls, CallOk, Undisturbed, SameOthers, Stores, Grab;
    var r, b := SendStart(s, t, buffer, urgent).0, GrabAbs(a, t);
    GrabUndisturbs(s.pool, a, t);
    GrabbedCall(s, a, t, buffer, urgent);
    PutOthers(s.calls, t, r.calls[t]);
    GrabbedNode(s, a, t);
    CallsKept(s, a, r, b, t);
  }

  lemma SendStartKeeps(s: State, a: Abs, t: Tid, buffer: seq<Byte>, urgent: bool)
    requires Inv(s, a) && t !in s.calls
    ensures Inv(SendStart(s, t, buffer, urgent).0, AbsStep(a, s, DoSend(t, buffer, urgent)))
  {
    assert a.free != [] <==> s.pool.free != Null;
    if |buffer| <= s.size && s.pool.free.To? {
      var r, b := SendStart(s, t, buffer, urgent).0, GrabAbs(a, t);
      GrabKeeps(s.pool, a, t);
      hide Chains, Calls, NoLostWakeUp, Waits, Messages;
      SendStartKeepsCalls(s, a, t, buffer, urgent);
      MessagesSame(s.pool, r.pool, s.size, a, b);
      WaitsKept(s, r);
      SameWakeUps(s, r, t, r.calls[t]);
    }
  }

  lemma MessagesSame(p: Pool, q: Pool, size: nat, a: Abs, b: Abs)
    requires Messages(p, size, a) && p.data == q.data && a.queue == b.queue && a.payload == b.payload
    ensures Messages(q, size, b)
  {
  }

  // Copying

  lemma ClearKeeps(p: Pool, a: Abs, n: Node)
    requires Chains(p, a) && n in a.place && a.place[n].HeldBy?
    ensures Chains(SetNext(p, n, Null), a)
  {
    PlacedBack(|p.next|, a, n, []);
    assert n < |p.next|;
    hide Placed, Linked;
    LinkedElsewhere(p.next, p.head, a.queue, n, Null);
    LinkedElsewhere(p.next, p.free, a.free, n, Null);
  }

  lemma WriteKeeps(p: Pool, a: Abs, size: nat, n: Node, i: nat, x: Byte)
    requires Chains(p, a) && Messages(p, size, a) && n in a.place && a.place[n].HeldBy? && i < size
    ensures Chains(WriteByte(p, n, i, x), a) && Messages(WriteByte(p, n, i, x), size, a)
    ensures n < |p.data| && |p.data[n]| == size && WriteByte(p, n, i, x).data == p.data[n := p.data[n][i := x]]
  {
    assert n < |p.next| && n !in a.queue;
    hide Placed, Linked;
  }

  lemma CallIs(s: State, a: Abs, t: Tid)
    requires Calls(s, a) && t in s.calls
    ensures CallOk(s.pool, s.size, a, t, s.calls[t])
  {
    hide CallOk;
  }

  lemma HeldIs(p: Pool, size: nat, a: Abs, t: Tid, c: Call)
    requires CallOk(p, size, a, t, c) && Holds(c)
    ensures c.node in a.place && a.place[c.node] == HeldBy(t)
  {
    hide Stores;
  }

  lemma CopyUndisturbs(s: State, a: Abs, t: Tid)
    requires Structure(s.pool, a) && Calls(s, a) && Enabled(s, DoCopy(t))
    ensures Undisturbed(s.pool, a, Copy(s, t).pool, a, t) && SameOthers(s.calls, Copy(s, t).calls, t)
  {
    hide Structure, Calls, CallOk;
    CallIs(s, a, t);
    HeldIs(s.pool, s.size, a, t, s.calls[t]);
  }

  lemma CopyKeepsCall(s: State, a: Abs, t: Tid)
    requires Enabled(s, DoCopy(t)) && Structure(s.pool, a) && Sized(s.pool, s.size) && CallOk(s.pool, s.size, a, t, s.calls[t])
    ensures var r := Copy(s, t); CallOk(r.pool, r.size, a, t, r.calls[t]) && r.calls[t].node == s.calls[t].node
  {
    var r, c := Copy(s, t), s.calls[t];
    var n := c.node;
    assert n < |s.pool.next| && |s.pool.data[n]| == s.size;
    hide Structure, Sized;
    if c.Filling? && c.cleared && c.done < |c.buffer| {
      assert c.buffer[..c.done + 1] == c.buffer[..c.done] + [c.buffer[c.done]];
      assert c.buffer[..c.done + 1] <= r.pool.data[n];
    } else if c.Draining? && |c.got| < c.want {
      assert c.got + [s.pool.data[n][|c.got|]] <= s.pool.data[n];
    }
  }

  lemma CopyKeepsCalls(s: State, a: Abs, t: Tid)
    requires Structure(s.pool, a) && Messages(s.pool, s.size, a) && Calls(s, a) && Enabled(s, DoCopy(t))
    ensures Calls(Copy(s, t), a)
  {
    hide Structure, CallOk, Undisturbed, SameOthers;
    CopyUndisturbs(s, a, t);
    CopyKeepsCall(s, a, t);
    CallsKept(s, a, Copy(s, t), a, t);
  }

  lemma DoneIs(p: Pool, size: nat, a: Abs, t: Tid, c: Call)
    requires CallOk(p, size, a, t, c)
    ensures c.Filling? ==> c.done <= |c.buffer| <= size
  {
    hide Stores;
  }

  lemma CopyKeeps(s: State, a: Abs, t: Tid)
    requires Inv(s, a) && Enabled(s, DoCopy(t))
    ensures Inv(Copy(s, t), a)
  {
    hide Calls, CallOk, NoLostWakeUp, Waits, Messages, Chains;
    var r, c := Copy(s, t), s.calls[t];
    CallIs(s, a, t);
    HeldIs(s.pool, s.size, a, t, c);
    DoneIs(s.pool, s.size, a, t, c);
    CopyKeepsCalls(s, a, t);
    if c.Filling? && !c.cleared {
      ClearKeeps(s.pool, a, c.node);
      MessagesSame(s.pool, r.pool, s.size, a, a);
    } else if c.Filling? && c.done < |c.buffer| {
      WriteKeeps(s.pool, a, s.size, c.node, c.done, c.buffer[c.done]);
    }
    if r.calls != s.calls {
      WaitsKept(s, r);
      SameWakeUps(s, r, t, r.calls[t]);
    }
  }

  // Linking

  function Linked1(s: State, t: Tid): State
    requires t in s.calls && s.calls[t].Filling?
  {
    var c := s.calls[t];
    Leave(s.(pool := if c.urgent then Prepend(s.pool, c.node) else Append(s.pool, c.node)), t)
  }

  lemma AppendUndisturbs(p: Pool, a: Abs, n: Node, m: seq<Byte>, t: Tid)
    requires Chains(p, a) && n in a.place && a.place[n] == HeldBy(t)
    ensures Undisturbed(p, a, Append(p, n), AppendAbs(a, n, m), t)
  {
    if a.queue != [] {
      var last := a.queue[|a.queue| - 1];
      assert last in a.queue && last in a.place && a.place[last] == Queued;
    }
    hide Linked, Placed;
  }

  lemma PrependUndisturbs(p: Pool, a: Abs, n: Node, m: seq<Byte>, t: Tid)
    requires Chains(p, a) && n in a.place && a.place[n] == HeldBy(t)
    ensures Undisturbed(p, a, Prepend(p, n), PrependAbs(a, n, m), t)
  {
    hide Linked, Placed;
  }

  lemma LinkKeepsCalls(s: State, a: Abs, t: Tid)
    requires Structure(s.pool, a) && Calls(s, a) && Enabled(s, DoLink(t))
    ensures Calls(Linked1(s, t), AbsStep(a, s, DoLink(t)))
  {
    var r, c, b := Linked1(s, t), s.calls[t], AbsStep(a, s, DoLink(t));
    assert CallOk(s.pool, s.size, a, t, c);
    hide Undisturbed, Append, Prepend, Chains;
    if c.urgent {
      PrependUndisturbs(s.pool, a, c.node, c.buffer, t);
    } else {
      AppendUndisturbs(s.pool, a, c.node, c.buffer, t);
    }
    hide CallOk;
    CallsKept(s, a, r, b, t);
  }

  lemma LinkKeepsPool(s: State, a: Abs, t: Tid)
    requires Structure(s.pool, a) && Messages(s.pool, s.size, a) && Calls(s, a) && Enabled(s, DoLink(t))
    ensures Structure(Linked1(s, t).pool, AbsStep(a, s, DoLink(t)))
    ensures Messages(Linked1(s, t).pool, s.size, AbsStep(a, s, DoLink(t)))
  {
    hide Calls, Chains, Messages, Stores;
    var c := s.calls[t];
    var b := AbsStep(a, s, DoLink(t));
    Filled(s, a, t);
    if c.urgent { PrependKeeps(s.pool, a, c.node, c.buffer); } else { AppendKeeps(s.pool, a, c.node, c.buffer); }
    MessagesWith(s.pool, Linked1(s, t).pool, s.size, a, b, c.node, c.buffer);
  }

  /** A node that is about to be linked holds the whole message. */
  lemma Filled(s: State, a: Abs, t: Tid)
    requires Calls(s, a) && Enabled(s, DoLink(t))
    ensures var c := s.calls[t];
            && c.node in a.place && a.place[c.node] == HeldBy(t) && Stores(s.pool, c.node, c.buffer)
            && (!c.urgent ==> NextOf(s.pool, c.node) == Null)
  {
    hide Stores, NextOf;
    var c := s.calls[t];
    assert CallOk(s.pool, s.size, a, t, c);
    assert c.buffer[..c.done] == c.buffer;
  }

  lemma MessagesWith(p: Pool, q: Pool, size: nat, a: Abs, b: Abs, n: Node, m: seq<Byte>)
    requires Messages(p, size, a) && q.data == p.data && Stores(p, n, m)
    requires b.queue == a.queue + [n] || b.queue == [n] + a.queue
    requires b.payload == a.payload[n := m]
    ensures Messages(q, size, b)
  {
    assert forall x <- b.queue :: x == n || x in a.queue;
  }

  lemma WakeKeepsCalls(s: State, a: Abs, u: Tid, e: Error)
    requires Calls(s, a)
    ensures Calls(s.(receivers := if s.receivers == [] then [] else s.receivers[1..], calls := Wake(s.calls, u, e)), a)
  {
  }

  lemma LinkKeeps(s: State, a: Abs, t: Tid)
    requires Inv(s, a) && Enabled(s, DoLink(t))
    ensures Inv(SendLink(s, t).0, AbsStep(a, s, DoLink(t)))
  {
    var m, b := Linked1(s, t), AbsStep(a, s, DoLink(t));
    LinkKeepsCalls(s, a, t);
    LinkKeepsPool(s, a, t);
    CountAfterRemoval(s.calls, Tries, t);
    hide Calls, Waits, Messages, Structure, Those;
    WaitsKept(s, m);
    if m.receivers == [] {
      assert NoLostWakeUp(m);
    } else {
      WakeKeepsCalls(m, b, m.receivers[0].tid, Ok);
      WakeKeepsWaits(m);
      WakeLosesNoWakeUp(m);
    }
  }

  // Receiving

  predicate Ready(s: State, t: Tid) {
    t in s.calls ==> Tries(s.calls[t])
  }

  lemma TakeKeepsCalls(s: State, a: Abs, t: Tid, size: nat, prio: nat, timeout: int, flag: Flag)
    requires Structure(s.pool, a) && Messages(s.pool, s.size, a) && Calls(s, a) && Ready(s, t) && a.queue != []
    requires s.pool.head == To(a.queue[0])
    ensures Calls(RecvPass(s, t, size, prio, timeout, flag).0, PopAbs(a, t))
  {
    hide Linked, Messages, Placed, Unique, Waiting, Enqueue;
    var r, b := RecvPass(s, t, size, prio, timeout, flag).0, PopAbs(a, t);
    var n := a.queue[0];
    PlacedIs(|s.pool.next|, a, n);
    FrontIs(s.pool, s.size, a);
    assert Undisturbed(s.pool, a, r.pool, b, t) by { hide CallOk, Calls; }
    assert CallOk(r.pool, r.size, b, t, r.calls[t]) by { hide Calls, Undisturbed; }
    hide Structure, CallOk, Undisturbed;
    CallsKept(s, a, r, b, t);
  }

  lemma FrontIs(p: Pool, size: nat, a: Abs)
    requires Messages(p, size, a) && a.queue != []
    ensures var n := a.queue[0]; n in a.payload && Stores(p, n, a.payload[n]) && |p.data[n]| == size
  {
    assert a.queue[0] in a.queue;
  }

  lemma TakeKeepsPool(s: State, a: Abs, t: Tid)
    requires Structure(s.pool, a) && Messages(s.pool, s.size, a) && s.pool.entry > 0
    ensures s.pool.head == To(a.queue[0])
    ensures Structure(Unlink(s.pool).(entry := s.pool.entry - 1), PopAbs(a, t))
    ensures Messages(Unlink(s.pool).(entry := s.pool.entry - 1), s.size, PopAbs(a, t))
  {
    UnlinkKeeps(s.pool, a, t);
    assert forall m <- a.queue[1..] :: m in a.queue;
    hide Placed, Linked;
  }

  lemma RestKeepsCalls(s: State, a: Abs, r: State, t: Tid)
    requires Calls(s, a) && Ready(s, t) && r.pool == s.pool && r.size == s.size
    requires r.calls == s.calls - {t} || (t in r.calls && r.calls[t].Suspended? && r.calls == s.calls[t := r.calls[t]])
    ensures Calls(r, a)
  {
    hide Stores;
  }

  lemma RecvPassKeeps(s: State, a: Abs, t: Tid, size: nat, prio: nat, timeout: int, flag: Flag)
    requires Inv(s, a) && Ready(s, t)
    ensures Inv(RecvPass(s, t, size, prio, timeout, flag).0, if a.queue != [] then PopAbs(a, t) else a)
  {
    var r := RecvPass(s, t, size, prio, timeout, flag).0;
    CountAfterRemoval(s.calls, Tries, t);
    hide Calls, Messages, Chains, Those, Waits, Enqueue;
    if s.pool.entry == 0 {
      RestKeepsCalls(s, a, r, t);
      if timeout == 0 { WaitsKept(s, r); }
      else { SuspendKeepsWaits(s, t, size, prio, timeout, flag); }
    } else {
      TakeKeepsPool(s, a, t);
      TakeKeepsCalls(s, a, t, size, prio, timeout, flag);
      CountAfterUpdate(s.calls, Tries, t, r.calls[t]);
      WaitsKept(s, r);
    }
  }

  lemma GiveBackUndisturbs(p: Pool, a: Abs, n: Node, t: Tid)
    requires n in a.place && a.place[n] == HeldBy(t)
    ensures Undisturbed(p, a, GiveBack(p, n), GiveBackAbs(a, n), t)
  {
  }

  lemma HeldOnce(s: State, a: Abs, t: Tid)
    requires Calls(s, a) && t in s.calls
    ensures forall n <- a.place :: a.place[n] == HeldBy(t) ==> Holds(s.calls[t]) && s.calls[t].node == n
  {
    hide CallOk;
  }

  lemma EndKeepsCalls(s: State, a: Abs, t: Tid)
    requires Structure(s.pool, a) && Calls(s, a) && Enabled(s, DoEnd(t))
    ensures Calls(RecvEnd(s, t).0, GiveBackAbs(a, s.calls[t].node))
  {
    hide Structure, Calls, CallOk, Undisturbed, GiveBack;
    var r, c, b := RecvEnd(s, t).0, s.calls[t], GiveBackAbs(a, s.calls[t].node);
    CallIs(s, a, t);
    HeldIs(s.pool, s.size, a, t, c);
    GiveBackUndisturbs(s.pool, a, c.node, t);
    HeldOnce(s, a, t);
    CallsKept(s, a, r, b, t);
  }

  lemma EndKeeps(s: State, a: Abs, t: Tid)
    requires Inv(s, a) && Enabled(s, DoEnd(t))
    ensures Inv(RecvEnd(s, t).0, GiveBackAbs(a, s.calls[t].node))
  {
    var r, c, b := RecvEnd(s, t).0, s.calls[t], GiveBackAbs(a, s.calls[t].node);
    assert CallOk(s.pool, s.size, a, t, c);
    EndKeepsCalls(s, a, t);
    CountAfterRemoval(s.calls, Tries, t);
    hide Calls, Messages, Chains, Those, Waits;
    GiveBackKeeps(s.pool, a, c.node);
    MessagesSame(s.pool, r.pool, s.size, a, b);
    WaitsKept(s, r);
  }

  /** A receiver gets as many bytes as it asked for and a node has, and they agree with the message
      that was at the front of the queue when it took it. */
  lemma EndGivesMessage(s: State, a: Abs, t: Tid)
    requires Inv(s, a) && Enabled(s, DoEnd(t))
    ensures var got := RecvEnd(s, t).1.bytes;
            && |got| == s.calls[t].want
            && t in a.taken
            && forall i :: 0 <= i < |got| && i < |a.taken[t]| ==> got[i] == a.taken[t][i]
  {
    assert CallOk(s.pool, s.size, a, t, s.calls[t]);
  }

  // Time-out and reset

  lemma ExpireKeeps(s: State, a: Abs, t: Tid)
    requires Inv(s, a) && Enabled(s, DoExpire(t))
    ensures Inv(Expire(s, t), a)
  {
    var r := Expire(s, t);
    assert Waits(r) by {
      WithoutWaits(s.receivers, t);
      hide Without, Distinct, Waiting, Calls, Structure, Messages, NoLostWakeUp;
    }
    assert Calls(r, a) by {
      WakeKeepsCalls(s, a, t, TimedOut);
      hide Structure, Messages, NoLostWakeUp, Waits;
    }
    hide Calls, Structure, Messages, Waits, Those;
    assert s.receivers == [] ==> r.receivers == [];
    CountAfterUpdate(s.calls, Tries, t, r.calls[t]);
  }

  lemma {:induction false} FailAllFails(ws: seq<Waiter>, calls: map<Tid, Call>)
    ensures var r := FailAll(ws, calls);
            && r.Keys == calls.Keys
            && forall t <- calls ::
                 if calls[t].Suspended? && Waiting(ws, t) then r[t].Resumed? && r[t].error == Failed
                 else r[t] == calls[t]
  {
    if ws != [] {
      var c := Wake(calls, ws[0].tid, Failed);
      FailAllFails(ws[1..], c);
      forall t | t in calls
        ensures Waiting(ws, t) <==> ws[0].tid == t || Waiting(ws[1..], t)
      {
        WaitingSplits(ws, t);
      }
      hide Waiting;
    }
  }

  lemma ResetKeepsPool(s: State, a: Abs)
    requires Structure(s.pool, a) && Messages(s.pool, s.size, a)
    ensures Structure(Reset(s).pool, DrainAbs(a)) && Messages(Reset(s).pool, s.size, DrainAbs(a))
  {
    DrainKeeps(s.pool, a);
    hide Drain, DrainAbs, Linked, Placed;
  }

  lemma StoresSame(p: Pool, q: Pool)
    requires p.data == q.data
    ensures forall n, m :: Stores(p, n, m) <==> Stores(q, n, m)
  {
  }

  lemma NextSame(p: Pool, q: Pool)
    requires p.next == q.next
    ensures forall n :: NextOf(p, n) == NextOf(q, n)
  {
  }

  lemma HoldersKept(s: State, a: Abs, r: State, b: Abs)
    requires Calls(s, a) && r.calls.Keys == s.calls.Keys
    requires forall t <- r.calls :: CallOk(r.pool, r.size, b, t, r.calls[t])
    requires forall t <- s.calls :: Holds(s.calls[t]) ==> r.calls[t] == s.calls[t]
    requires forall n <- b.place :: b.place[n].HeldBy? ==> n in a.place && a.place[n] == b.place[n]
    ensures Calls(r, b)
  {
    hide CallOk;
  }

  lemma ResetKeepsCalls(s: State, a: Abs)
    requires Structure(s.pool, a) && Calls(s, a)
    ensures Calls(Reset(s), DrainAbs(a))
  {
    hide Drain, DrainAbs, FailAll, Placed, Waiting, Chains, Calls, NextOf, Stores, Linked;
    DrainKeeps(s.pool, a);
    FailAllFails(s.receivers, s.calls);
    var r, b := Reset(s), DrainAbs(a);
    forall t | t in r.calls
      ensures CallOk(r.pool, r.size, b, t, r.calls[t])
    {
      CallIs(s, a, t);
      StoresSame(s.pool, r.pool);
      NextSame(Drain(s.pool, s.pool.entry), r.pool);
    }
    HoldersKept(s, a, r, b);
  }

  lemma ResetKeeps(s: State, a: Abs)
    requires Inv(s, a)
    ensures Inv(Reset(s), DrainAbs(a))
  {
    ResetKeepsPool(s, a);
    ResetKeepsCalls(s, a);
    assert Waits(Reset(s)) by {
      FailAllFails(s.receivers, s.calls);
      assert Distinct([]) && forall t :: !Waiting([], t);
      hide Structure, Messages, Calls, FailAll, NoLostWakeUp, Waiting, Drain, Distinct;
    }
    hide Structure, Messages, Calls, Waits, FailAll;
  }

  lemma StepKeepsInv(s: State, a: Abs, step: Step, flag: Flag)
    requires Inv(s, a) && Enabled(s, step)
    ensures Inv(Apply(s, step, flag).0, AbsStep(a, s, step))
  {
    hide Inv;
    match step
    case DoSend(t, buffer, urgent) => SendStartKeeps(s, a, t, buffer, urgent);
    case DoCopy(t) => CopyKeeps(s, a, t);
    case DoLink(t) => LinkKeeps(s, a, t);
    case DoRecv(t, size, prio, timeout) => RecvPassKeeps(s, a, t, size, prio, timeout, flag);
    case DoAgain(t, elapsed) =>
      var c := s.calls[t];
      if c.error == Ok {
        RecvPassKeeps(s, a, t, c.size, c.prio, TimeLeft(c.timeout, elapsed), flag);
      } else {
        GiveUpKeeps(s, a, t);
      }
    case DoEnd(t) => EndKeeps(s, a, t);
    case DoExpire(t) => ExpireKeeps(s, a, t);
    case DoReset => ResetKeeps(s, a);
  }

  lemma GiveUpKeeps(s: State, a: Abs, t: Tid)
    requires Inv(s, a) && t in s.calls && s.calls[t].Resumed? && s.calls[t].error != Ok
    ensures Inv(Leave(s, t), a)
  {
    CountAfterRemoval(s.calls, Tries, t);
    WaitsKept(s, Leave(s, t));
    hide Structure, Messages, Those, Waits;
    assert Calls(Leave(s, t), a);
  }

  // ---------------------------------------------------------------- the deque of messages

  /** The queued messages, in order. */
  function Contents(a: Abs): (ms: seq<seq<Byte>>)
    ensures |ms| == |a.queue|
  {
    seq(|a.queue|, i requires 0 <= i < |a.queue| => if a.queue[i] in a.payload then a.payload[a.queue[i]] else [])
  }

  lemma NotQueued(p: Pool, a: Abs, n: Node)
    requires Chains(p, a) && n in a.place && a.place[n].HeldBy?
    ensures n !in a.queue
  {
    hide Linked, Unique;
  }

  lemma LinkOnDeque(s: State, a: Abs, t: Tid)
    requires Inv(s, a) && Enabled(s, DoLink(t))
    ensures var q, r, c := Contents(a), Contents(AbsStep(a, s, DoLink(t))), s.calls[t];
            r == if c.urgent then [c.buffer] + q else q + [c.buffer]
  {
    hide Linked, CallOk, Calls, Unique, Messages, Waits, Chains;
    var n := s.calls[t].node;
    CallIs(s, a, t);
    HeldIs(s.pool, s.size, a, t, s.calls[t]);
    NotQueued(s.pool, a, n);
    assert forall i :: 0 <= i < |a.queue| ==> a.queue[i] in a.queue;
  }

  /** A link puts the whole message of its sender at the end, or in front if it is urgent; a receiver
      that finds the queue not empty takes the message in front; a reset drops all; and no other
      step changes what is queued. */
  lemma StepOnDeque(s: State, a: Abs, step: Step)
    requires Inv(s, a) && Enabled(s, step)
    ensures var q, r, b := Contents(a), Contents(AbsStep(a, s, step)), AbsStep(a, s, step);
            match step
            case DoLink(t) => r == if s.calls[t].urgent then [s.calls[t].buffer] + q else q + [s.calls[t].buffer]
            case DoRecv(t, _, _, _) => if q == [] then r == q else q == [b.taken[t]] + r
            case DoAgain(t, _) => if q == [] || s.calls[t].error != Ok then r == q else q == [b.taken[t]] + r
            case DoReset => r == []
            case _ => r == q
  {
    hide Linked, Calls, Unique, Messages, Waits;
    match step
    case DoLink(t) => LinkOnDeque(s, a, t);
    case DoRecv(t, _, _, _) =>
      TakenIsFirst(s, a, t);
    case DoAgain(t, _) =>
      TakenIsFirst(s, a, t);
    case DoReset => DrainKeeps(s.pool, a);
    case _ =>
  }

  lemma TakenIsFirst(s: State, a: Abs, t: Tid)
    requires Inv(s, a)
    ensures a.queue != [] ==> t in PopAbs(a, t).taken && Contents(a) == [PopAbs(a, t).taken[t]] + Contents(PopAbs(a, t))
  {
    if a.queue != [] {
      assert a.queue[0] in a.queue;
      hide Chains, Calls, Waits;
    }
  }

  // ---------------------------------------------------------------- whole runs

  predicate Run(s: State, steps: seq<Step>, flag: Flag)
    decreases |steps|
  {
    steps == [] || (Enabled(s, steps[0]) && Run(Apply(s, steps[0], flag).0, steps[1..], flag))
  }

  function After(s: State, steps: seq<Step>, flag: Flag): State
    requires Run(s, steps, flag)
    decreases |steps|
  {
    if steps == [] then s else After(Apply(s, steps[0], flag).0, steps[1..], flag)
  }

  /** The queue and the free list after a run, by the steps of a deque. */
  function AbsAfter(a: Abs, s: State, steps: seq<Step>, flag: Flag): Abs
    requires Run(s, steps, flag)
    decreases |steps|
  {
    if steps == [] then a else AbsAfter(AbsStep(a, s, steps[0]), Apply(s, steps[0], flag).0, steps[1..], flag)
  }

  lemma StepKeepsOrder(s: State, step: Step, flag: Flag)
    requires Enabled(s, step) && InOrder(s.receivers, flag)
    ensures InOrder(Apply(s, step, flag).0.receivers, flag)
  {
    hide InOrder, Enqueue, Without, Wake, FailAll, Drain, Grab, GiveBack, Append, Prepend, Unlink, Copy, TimeLeft;
    CopyKeepsWaiters(s);
    match step
    case DoLink(t) => if s.receivers != [] { RestInOrder(s.receivers, flag); }
    case DoRecv(t, _, prio, _) => EnqueueInOrder(s.receivers, Waiter(t, prio), flag);
    case DoAgain(t, _) => EnqueueInOrder(s.receivers, Waiter(t, s.calls[t].prio), flag);
    case DoExpire(t) => WithoutInOrder(s.receivers, t, flag);
    case DoReset => NobodyInOrder(flag);
    case _ =>
  }

  lemma CopyKeepsWaiters(s: State)
    ensures forall t <- s.calls :: Copy(s, t).receivers == s.receivers
  {
  }

  lemma NobodyInOrder(flag: Flag)
    ensures InOrder([], flag)
  {
  }

  /** Over all runs: under PRIO no receiver waits behind a worse one. */
  lemma {:induction false} RunsKeepOrder(s: State, steps: seq<Step>, flag: Flag)
    requires Run(s, steps, flag) && InOrder(s.receivers, flag)
    ensures InOrder(After(s, steps, flag).receivers, flag)
    decreases |steps|
  {
    if steps != [] {
      hide InOrder, Apply;
      StepKeepsOrder(s, steps[0], flag);
      RunsKeepOrder(Apply(s, steps[0], flag).0, steps[1..], flag);
    }
  }

  lemma {:induction false} RunsKeepInv(s: State, a: Abs, steps: seq<Step>, flag: Flag)
    requires Inv(s, a) && Run(s, steps, flag)
    ensures Inv(After(s, steps, flag), AbsAfter(a, s, steps, flag))
    decreases |steps|
  {
    if steps != [] {
      StepKeepsInv(s, a, steps[0], flag);
      hide Inv;
      RunsKeepInv(Apply(s, steps[0], flag).0, AbsStep(a, s, steps[0]), steps[1..], flag);
    }
  }

  function Descending(n: nat): (ns: seq<Node>)
    ensures |ns| == n
  {
    if n == 0 then [] else [n - 1] + Descending(n - 1)
  }

  /** While rt_mq_init runs, the nodes from `done` on are not on the free list yet. */
  ghost function InitAbs(count: nat, done: nat): Abs {
    Abs([], Descending(done), Homes(count, done), map[], map[])
  }

  ghost function Homes(count: nat, done: nat): (h: map<Node, Place>)
    ensures forall n: Node :: n in h <==> n < count
    ensures forall n <- h :: h[n] == if n < done then Unused else HeldBy(0)
  {
    if count == 0 then map[] else Homes(count - 1, done)[count - 1 := if count - 1 < done then Unused else HeldBy(0)]
  }

  lemma NothingOnTheFreeList(data: seq<seq<Byte>>)
    ensures Structure(InitPool(data, 0), InitAbs(|data|, 0))
    ensures InitPool(data, 0).data == data && |InitPool(data, 0).next| == |data|
  {
  }

  lemma InitPoolStep(data: seq<seq<Byte>>, done: nat)
    requires 0 < done <= |data|
    ensures var p, q := InitPool(data, done), InitPool(data, done - 1);
            p == GiveBack(q, done - 1) && p.entry == q.entry && p.data == q.data && |p.next| == |q.next|
  {
  }

  lemma StructureIs(p: Pool, a: Abs)
    ensures Structure(p, a) <==> Chains(p, a) && p.entry == |a.queue|
  {
  }

  lemma OneMoreFree(count: nat, done: nat)
    requires 0 < done <= count
    ensures var b, a := InitAbs(count, done - 1), InitAbs(count, done);
            && done - 1 in b.place && b.place[done - 1].HeldBy? && b.queue == []
            && var r := GiveBackAbs(b, done - 1);
            && r.place == a.place && r.free == a.free && r.queue == a.queue == []
  {
  }

  lemma {:induction false} InitPoolHolds(data: seq<seq<Byte>>, done: nat)
    requires done <= |data|
    ensures Structure(InitPool(data, done), InitAbs(|data|, done)) && InitPool(data, done).data == data
    ensures |InitPool(data, done).next| == |data|
  {
    hide *;
    if done == 0 {
      NothingOnTheFreeList(data);
    } else {
      var q, b := InitPool(data, done - 1), InitAbs(|data|, done - 1);
      InitPoolHolds(data, done - 1);
      StructureIs(q, b);
      OneMoreFree(|data|, done);
      GiveBackKeeps(q, b, done - 1);
      SameChains(GiveBack(q, done - 1), GiveBackAbs(b, done - 1), InitAbs(|data|, done));
      InitPoolStep(data, done);
      StructureIs(InitPool(data, done), InitAbs(|data|, done));
    }
  }

  lemma InitHolds(size: nat, data: seq<seq<Byte>>)
    requires forall i :: 0 <= i < |data| ==> |data[i]| == size
    ensures Inv(Init(size, data), InitAbs(|data|, |data|))
  {
    InitPoolHolds(data, |data|);
    assert forall t :: !Waiting([], t);
    hide Structure;
  }

  /** From its initialisation on, whatever threads send, receive, time out and reset, and wherever
      they are interrupted: every node is in exactly one place, the links and `entry` describe the
      deque, and nobody waits for a message that nobody is about to take. When no call is under way
      no node is missing from the queue and the free list. */
  lemma MessageQueueIsADeque(size: nat, data: seq<seq<Byte>>, steps: seq<Step>, flag: Flag)
    requires forall i :: 0 <= i < |data| ==> |data[i]| == size
    requires Run(Init(size, data), steps, flag)
    ensures var s := After(Init(size, data), steps, flag);
            var a := AbsAfter(InitAbs(|data|, |data|), Init(size, data), steps, flag);
            && Inv(s, a)
            && |s.pool.next| == |data|
            && ((forall t <- s.calls :: !Tries(s.calls[t])) && s.receivers != [] ==> Contents(a) == [])
            && (s.calls == map[] ==> forall n: Node :: n < |data| ==> n in a.queue || n in a.free)
  {
    var s0, a0 := Init(size, data), InitAbs(|data|, |data|);
    InitHolds(size, data);
    RunsKeepInv(s0, a0, steps, flag);
    PoolKeepsSize(s0, a0, steps, flag);
    InitPoolHolds(data, |data|);
    var s := After(s0, steps, flag);
    if forall t <- s.calls :: !Tries(s.calls[t]) {
      assert Those(s.calls, Tries) == {};
    }
  }

  lemma DrainKeepsSize(s: State, a: Abs)
    requires Inv(s, a)
    ensures |Drain(s.pool, s.pool.entry).next| == |s.pool.next|
  {
    hide Calls, Waits, Messages;
    DrainKeeps(s.pool, a);
  }

  lemma StepKeepsSize(s: State, a: Abs, step: Step, flag: Flag)
    requires Inv(s, a) && Enabled(s, step)
    ensures |Apply(s, step, flag).0.pool.next| == |s.pool.next|
  {
    hide Inv, Drain, FailAll, Without, Enqueue, WriteByte, Wake;
    DrainKeepsSize(s, a);
    match step {
      case DoSend(_, _, _) =>
      case DoCopy(t) => WriteKeepsSize(s.pool);
      case DoLink(t) =>
      case _ =>
    }
  }

  lemma WriteKeepsSize(p: Pool)
    ensures forall n, i, x :: |WriteByte(p, n, i, x).next| == |p.next|
  {
  }

  lemma {:induction false} PoolKeepsSize(s: State, a: Abs, steps: seq<Step>, flag: Flag)
    requires Inv(s, a) && Run(s, steps, flag)
    ensures |After(s, steps, flag).pool.next| == |s.pool.next|
    decreases |steps|
  {
    if steps != [] {
      hide Inv;
      StepKeepsInv(s, a, steps[0], flag);
      StepKeepsSize(s, a, steps[0], flag);
      PoolKeepsSize(Apply(s, steps[0], flag).0, AbsStep(a, s, steps[0]), steps[1..], flag);
    }
  }

  // ---------------------------------------------------------------- what each call asked for, and gets

  datatype Fate = Open | Expired | Cancelled

  /** What a call was given by its caller; of a receiver also how long it has waited, and what has become of its last
      wait. */
  datatype Request =
    | ToSend(buffer: seq<Byte>, urgent: bool)
    | ToRecv(size: nat, prio: nat, timeout: int, spent: nat, fate: Fate)

  function Ask(k: map<Tid, Request>, s: State, step: Step): map<Tid, Request> {
    match step
    case DoSend(t, buffer, urgent) => k[t := ToSend(buffer, urgent)]
    case DoRecv(t, size, prio, timeout) => k[t := ToRecv(size, prio, timeout, 0, Open)]
    case DoAgain(t, elapsed) => if t in k && k[t].ToRecv? then k[t := k[t].(spent := k[t].spent + elapsed)] else k
    case DoExpire(t) => if t in k && k[t].ToRecv? then k[t := k[t].(fate := Expired)] else k
    case DoReset =>
      map t <- k :: if k[t].ToRecv? && t in s.calls && s.calls[t].Suspended? then k[t].(fate := Cancelled) else k[t]
    case _ => k
  }

  function Asked(k: map<Tid, Request>, s: State, steps: seq<Step>, flag: Flag): map<Tid, Request>
    requires Run(s, steps, flag)
    decreases |steps|
  {
    if steps == [] then k else Asked(Ask(k, s, steps[0]), Apply(s, steps[0], flag).0, steps[1..], flag)
  }

  /** What is left of a time-out after some waiting; a negative one is forever. */
  function Left(timeout: int, spent: nat): int {
    if timeout <= 0 then timeout else if spent >= timeout then 0 else timeout - spent
  }

  predicate Follows(c: Call, q: Request, size: nat) {
    match c
    case Filling(_, buffer, urgent, _, _) => q == ToSend(buffer, urgent)
    case Draining(_, _, want) => q.ToRecv? && want == (if q.size < size then q.size else size)
    case Suspended(n, prio, timeout) =>
      q.ToRecv? && n == q.size && prio == q.prio && timeout == Left(q.timeout, q.spent) != 0 && q.fate == Open
    case Resumed(n, prio, timeout, error) =>
      && q.ToRecv? && n == q.size && prio == q.prio && timeout == Left(q.timeout, q.spent) != 0
      && match error
         case Ok => q.fate == Open
         case TimedOut => q.fate == Expired
         case Failed => q.fate == Cancelled
  }

  ghost predicate AsAsked(s: State, k: map<Tid, Request>) {
    forall t <- s.calls :: t in k && Follows(s.calls[t], k[t], s.size)
  }

  lemma TimeRunsOn(timeout: int, spent: nat, elapsed: nat)
    ensures TimeLeft(Left(timeout, spent), elapsed) == Left(timeout, spent + elapsed)
  {
  }

  lemma RecvPassAsAsked(s: State, k: map<Tid, Request>, t: Tid, size: nat, prio: nat, timeout: int, flag: Flag)
    requires AsAsked(s, k) && t in k && k[t].ToRecv? && k[t].fate == Open
    requires size == k[t].size && prio == k[t].prio && timeout == Left(k[t].timeout, k[t].spent)
    requires s.pool.entry > 0 ==> s.pool.head.To?
    ensures AsAsked(RecvPass(s, t, size, prio, timeout, flag).0, k)
  {
    hide Enqueue;
  }

  lemma ResetAsAsked(s: State, a: Abs, k: map<Tid, Request>)
    requires Inv(s, a) && AsAsked(s, k)
    ensures AsAsked(Reset(s), Ask(k, s, DoReset))
  {
    hide FailAll, Structure, Messages, Calls, Left;
    FailAllFails(s.receivers, s.calls);
    FailAllAsks(s.receivers, s.calls);
  }

  lemma {:induction false} FailAllAsks(ws: seq<Waiter>, calls: map<Tid, Call>)
    ensures var r := FailAll(ws, calls);
            && r.Keys == calls.Keys
            && forall t <- calls :: r[t] == calls[t] ||
                 (calls[t].Suspended? && r[t] == Resumed(calls[t].size, calls[t].prio, calls[t].timeout, Failed))
  {
    if ws != [] { FailAllAsks(ws[1..], Wake(calls, ws[0].tid, Failed)); }
  }

  lemma StepAsAsked(s: State, a: Abs, k: map<Tid, Request>, step: Step, flag: Flag)
    requires Inv(s, a) && Enabled(s, step) && AsAsked(s, k)
    ensures AsAsked(Apply(s, step, flag).0, Ask(k, s, step))
  {
    hide Inv, RecvPass, Reset, Left, TimeLeft, Grab, GiveBack, Append, Prepend, Without, WriteByte, SetNext;
    NodesInRange(s, a);
    match step
    case DoSend(t, buffer, urgent) =>
    case DoCopy(t) =>
    case DoLink(t) =>
    case DoRecv(t, size, prio, timeout) =>
      LeftAtFirst(timeout);
      var k1 := Ask(k, s, step);
      assert AsAsked(s, k1);
      RecvPassAsAsked(s, k1, t, size, prio, timeout, flag);
    case DoAgain(t, elapsed) =>
      var c, k1 := s.calls[t], Ask(k, s, step);
      if c.error == Ok {
        TimeRunsOn(k[t].timeout, k[t].spent, elapsed);
        AgainAsAsked(s, k1, t, elapsed, flag);
      }
    case DoEnd(t) =>
    case DoExpire(t) =>
    case DoReset => ResetAsAsked(s, a, k);
  }

  lemma LeftAtFirst(timeout: int)
    ensures Left(timeout, 0) == timeout
  {
  }

  /** A pass in which only the thread that makes it has another request. */
  lemma AgainAsAsked(s: State, k: map<Tid, Request>, t: Tid, elapsed: nat, flag: Flag)
    requires t in s.calls && s.calls[t].Resumed? && s.calls[t].error == Ok && t in k && k[t].ToRecv? && k[t].fate == Open
    requires forall u <- s.calls :: u != t ==> u in k && Follows(s.calls[u], k[u], s.size)
    requires var c := s.calls[t]; c.size == k[t].size && c.prio == k[t].prio && TimeLeft(c.timeout, elapsed) == Left(k[t].timeout, k[t].spent)
    requires s.pool.entry > 0 ==> s.pool.head.To?
    ensures AsAsked(RecvAgain(s, t, elapsed, flag).0, k)
  {
    hide Enqueue;
  }

  /** Over all runs, whatever else happens to the queue: a send links what it was given, urgently if it was asked to; a
      receive that waits, or has been resumed, has its size, its priority and what is left of its time; and it has been
      resumed with the reason that there was. */
  lemma {:induction false} RunsAsAsked(s: State, a: Abs, k: map<Tid, Request>, steps: seq<Step>, flag: Flag)
    requires Inv(s, a) && AsAsked(s, k) && Run(s, steps, flag)
    ensures AsAsked(After(s, steps, flag), Asked(k, s, steps, flag))
    decreases |steps|
  {
    if steps != [] {
      hide Inv, AsAsked, Ask;
      StepKeepsInv(s, a, steps[0], flag);
      StepAsAsked(s, a, k, steps[0], flag);
      RunsAsAsked(Apply(s, steps[0], flag).0, AbsStep(a, s, steps[0]), Ask(k, s, steps[0]), steps[1..], flag);
    }
  }

  /** A receiver gets as many bytes as it asked for, or as a message has room for if it asked for more. If it asked for no
      fewer than the message has, the whole message that was in front when it took it comes first in them. */
  lemma ReceiverGetsWhatItAsked(s: State, a: Abs, k: map<Tid, Request>, t: Tid, flag: Flag)
    requires Inv(s, a) && AsAsked(s, k) && Enabled(s, DoEnd(t))
    ensures t in k && k[t].ToRecv? && t in a.taken
    ensures var (r, o) := Apply(s, DoEnd(t), flag);
            && o.Got? && t !in r.calls
            && |o.bytes| == (if k[t].size < s.size then k[t].size else s.size)
            && (|a.taken[t]| <= k[t].size ==> a.taken[t] <= o.bytes)
            && (forall i :: 0 <= i < |o.bytes| && i < |a.taken[t]| ==> o.bytes[i] == a.taken[t][i])
  {
    hide Structure, Messages, Waits, NoLostWakeUp;
    assert CallOk(s.pool, s.size, a, t, s.calls[t]);
    EndGivesMessage(s, a, t);
  }

  /** So it is in every run from the initialisation on. */
  lemma RunsGiveWhatIsAsked(size: nat, data: seq<seq<Byte>>, steps: seq<Step>, flag: Flag, t: Tid)
    requires (forall i :: 0 <= i < |data| ==> |data[i]| == size) && Run(Init(size, data), steps, flag)
    requires Enabled(After(Init(size, data), steps, flag), DoEnd(t))
    ensures var s, k := After(Init(size, data), steps, flag), Asked(map[], Init(size, data), steps, flag);
            var a := AbsAfter(InitAbs(|data|, |data|), Init(size, data), steps, flag);
            && t in k && k[t].ToRecv? && t in a.taken
            && var got := Apply(s, DoEnd(t), flag).1.bytes;
            && |got| == (if k[t].size < s.size then k[t].size else s.size)
            && (|a.taken[t]| <= k[t].size ==> a.taken[t] <= got)
  {
    hide Inv, AsAsked, Run, After, AbsAfter, Asked, InitAbs, Enabled;
    var s0, a0 := Init(size, data), InitAbs(|data|, |data|);
    InitHolds(size, data);
    RunsKeepInv(s0, a0, steps, flag);
    NothingAsked(size, data);
    RunsAsAsked(s0, a0, map[], steps, flag);
    ReceiverGetsWhatItAsked(After(s0, steps, flag), AbsAfter(a0, s0, steps, flag), Asked(map[], s0, steps, flag), t, flag);
  }

  lemma NothingAsked(size: nat, data: seq<seq<Byte>>)
    ensures AsAsked(Init(size, data), map[])
  {
  }

  /** A message that is too long is refused, and so is one that no node is left for; for any other the call begins
      to fill a node with all of it. */
  lemma SendAnswers(s: State, a: Abs, t: Tid, buffer: seq<Byte>, urgent: bool)
    requires Inv(s, a) && t !in s.calls
    ensures var (r, o) := SendStart(s, t, buffer, urgent);
            && (o == Error(Failed) <==> |buffer| > s.size)
            && (o == Full <==> |buffer| <= s.size && a.free == [])
            && (o == Error(Failed) || o == Full || o == Continues)
            && (if o == Continues then t in r.calls && r.calls[t].Filling? && r.calls[t].buffer == buffer && r.calls[t].urgent == urgent
                else r == s)
  {
    hide Messages, Calls, Waits, NoLostWakeUp, Placed;
  }

  /** The outcome of a receive, or of a new try of it. */
  lemma RecvAnswers(s: State, a: Abs, k: map<Tid, Request>, step: Step, flag: Flag)
    requires Inv(s, a) && AsAsked(s, k) && Enabled(s, step) && (step.DoRecv? || step.DoAgain?)
    ensures step.t in Ask(k, s, step) && Ask(k, s, step)[step.t].ToRecv?
    ensures var q, (r, o) := Ask(k, s, step)[step.t], Apply(s, step, flag);
            && (o == Error(Failed) <==> q.fate == Cancelled)
            && (o == Error(TimedOut) <==> q.fate == Expired || (q.fate == Open && Contents(a) == [] && Left(q.timeout, q.spent) == 0))
            && (o == Continues <==> q.fate == Open && (Contents(a) != [] || Left(q.timeout, q.spent) != 0))
            && (o == Error(Failed) || o == Error(TimedOut) || o == Continues)
            && (if o == Continues then step.t in r.calls && (r.calls[step.t].Suspended? <==> Contents(a) == [])
                                       && (r.calls[step.t].Draining? <==> Contents(a) != [])
                else r == Leave(s, step.t))
  {
    hide Messages, Calls, Waits, NoLostWakeUp, Chains, Enqueue;
    NodesInRange(s, a);
    if step.DoAgain? { TimeRunsOn(k[step.t].timeout, k[step.t].spent, step.elapsed); }
  }

  // ---------------------------------------------------------------- the object

  class MessageQueueObject {
    const flag: Flag
    const size: nat
    const next: array<Link>
    const data: array<seq<Byte>>
    var head: Link
    var tail: Link
    var free: Link
    var entry: nat
    var receivers: seq<Waiter>
    var calls: map<Tid, Call>
    ghost var shadow: Abs

    ghost function Value(): State
      reads this, next, data
    {
      State(size, Pool(next[..], data[..], head, tail, free, entry), receivers, calls)
    }

    ghost predicate Valid()
      reads this, next, data
    {
      Inv(Value(), shadow)
    }

    constructor (size: nat, count: nat, flag: Flag)
      ensures Valid() && this.flag == flag && fresh(next) && fresh(data)
      ensures Value() == Init(size, seq(count, _ => seq(size, _ => 0)))
    {
      hide Inv, InitAbs;
      this.size, this.flag := size, flag;
      next, data := new Link[count](_ => Null), new seq<Byte>[count](_ => seq(size, _ => 0));
      head, tail, free, entry, receivers, calls := Null, Null, Null, 0, [], map[];
      shadow := InitAbs(count, count);
      new;
      ghost var bytes := seq(count, _ => seq(size, _ => 0 as Byte));
      var i := 0;
      assert data[..] == bytes;
      assert next[..] == seq(|bytes|, _ => Null);
      while i < count
        invariant i <= count && head == Null && tail == Null && entry == 0 && receivers == [] && calls == map[]
        invariant this.size == size && this.flag == flag && data[..] == bytes
        invariant next.Length == count && fresh(next) && fresh(data) && shadow == InitAbs(count, count)
        invariant Pool(next[..], bytes, Null, Null, free, 0) == InitPool(bytes, i)
      {
        next[i] := free;
        free := To(i);
        i := i + 1;
      }
      InitHolds(size, bytes);
    }

    /** The first section of rt_mq_send and rt_mq_urgent. */
    method BeginSend(t: Tid, buffer: seq<Byte>, urgent: bool) returns (o: Outcome)
      requires Valid() && t !in calls
      modifies this
      ensures (Value(), o) == SendStart(old(Value()), t, buffer, urgent) && Valid()
    {
      if |buffer| > size { return Error(Failed); }
      ghost var before := Value();
      SendStartKeeps(before, shadow, t, buffer, urgent);
      if free == Null { return Full; }
      var n := free.node;
      GrabKeeps(before.pool, shadow, t);
      NodesInRange(before, shadow);
      free := next[n];
      calls := calls[t := Filling(n, buffer, urgent, urgent, 0)];
      shadow := AbsStep(shadow, before, DoSend(t, buffer, urgent));
      o := Continues;
    }

    /** The node is linked before the head, or behind the tail. */
    method LinkNode(n: nat, urgent: bool)
      requires n < next.Length && (tail.To? ==> tail.node < next.Length)
      modifies this`head, this`tail, this`entry, next
      ensures var p := old(Value()).pool;
              Value() == old(Value()).(pool := if urgent then Prepend(p, n) else Append(p, n))
    {
      if urgent {
        next[n] := head;
        head := To(n);
        if tail == Null { tail := To(n); }
      } else {
        if tail != Null { next[tail.node] := To(n); }
        tail := To(n);
        if head == Null { head := To(n); }
      }
      entry := entry + 1;
    }

    /** The second section of rt_mq_send and rt_mq_urgent. */
    method EndSend(t: Tid) returns (o: Outcome)
      requires Valid() && Enabled(Value(), DoLink(t))
      modifies this, next
      ensures (Value(), o) == SendLink(old(Value()), t) && Valid()
    {
      hide Inv, AbsStep, Calls, CallOk, Wake, Append, Prepend;
      var c := calls[t];
      var n := c.node;
      ghost var before := Value();
      LinkKeeps(before, shadow, t);
      NodesInRange(before, shadow);
      shadow := AbsStep(shadow, before, DoLink(t));
      LinkNode(n, c.urgent);
      calls := calls - {t};
      if receivers != [] {
        calls := Wake(calls, receivers[0].tid, Ok);
        receivers := receivers[1..];
      }
      o := Sent;
    }

    /** One pass of the loop of rt_mq_recv, and the section behind it. */
    method Receive(t: Tid, want: nat, prio: nat, timeout: int) returns (o: Outcome)
      requires Valid() && Ready(Value(), t)
      modifies this
      ensures (Value(), o) == RecvPass(old(Value()), t, want, prio, timeout, flag) && Valid()
    {
      hide Inv, PopAbs, Ready, Position, Insert;
      ghost var before := Value();
      RecvPassKeeps(before, shadow, t, want, prio, timeout, flag);
      NodesInRange(before, shadow);
      shadow := if shadow.queue != [] then PopAbs(shadow, t) else shadow;
      if entry == 0 {
        if timeout == 0 {
          calls := calls - {t};
          return Error(TimedOut);
        }
        var k := FindPosition(Priorities(receivers), prio, flag);
        receivers := Insert(receivers, k, Waiter(t, prio));
        calls := calls[t := Suspended(want, prio, timeout)];
        return Continues;
      }
      var n := head.node;
      head := next[n];
      if tail == To(n) { tail := Null; }
      entry := entry - 1;
      calls := calls[t := Draining(n, [], Min(want, size))];
      o := Continues;
    }

    /** The last section of rt_mq_recv. */
    method EndReceive(t: Tid) returns (o: Outcome)
      requires Valid() && Enabled(Value(), DoEnd(t))
      modifies this, next
      ensures (Value(), o) == RecvEnd(old(Value()), t) && Valid()
    {
      hide Inv, GiveBackAbs, Calls, CallOk;
      var c := calls[t];
      ghost var before := Value();
      EndKeeps(before, shadow, t);
      NodesInRange(before, shadow);
      shadow := GiveBackAbs(shadow, c.node);
      next[c.node] := free;
      free := To(c.node);
      calls := calls - {t};
      o := Got(c.got);
    }
  
    /** A copy of one byte, or the clearing of the link, between two sections. */
    method CopyPiece(t: Tid)
      requires Valid() && Enabled(Value(), DoCopy(t))
      modifies this, next, data
      ensures Value() == Copy(old(Value()), t) && Valid()
    {
      hide Inv, CallOk;
      ghost var before := Value();
      CopyKeeps(before, shadow, t);
      NodesInRange(before, shadow);
      RoomInNode(before, shadow, t);
      match calls[t]
      case Filling(n, buffer, urgent, cleared, done) =>
        if !cleared {
          next[n] := Null;
          calls := calls[t := Filling(n, buffer, urgent, true, done)];
        } else if done < |buffer| {
          data[n] := data[n][done := buffer[done]];
          calls := calls[t := Filling(n, buffer, urgent, cleared, done + 1)];
        }
      case Draining(n, got, want) =>
        if |got| < want {
          calls := calls[t := Draining(n, got + [data[n][|got|]], want)];
        }
    }

    method ResetQueue()
      requires Valid()
      modifies this, next
      ensures Value() == Reset(old(Value())) && Valid()
    {
      hide Inv, Chains, NextOf, DrainAbs;
      ghost var before, a := Value(), shadow;
      ResetKeeps(before, shadow);
      InvGivesChains(before, shadow);
      shadow := DrainAbs(shadow);
      while receivers != []
        invariant FailAll(receivers, calls) == FailAll(before.receivers, before.calls)
        invariant before.pool == Pool(next[..], data[..], head, tail, free, entry) && shadow == DrainAbs(old(shadow))
        decreases |receivers|
      {
        calls := Wake(calls, receivers[0].tid, Failed);
        receivers := receivers[1..];
      }
      assert FailAll([], calls) == calls;
      ghost var p := before.pool;
      while head != Null
        invariant receivers == [] && calls == FailAll(before.receivers, before.calls) && shadow == DrainAbs(old(shadow))
        invariant p == Pool(next[..], data[..], head, tail, free, entry) && Chains(p, a)
        invariant Drain(p, |a.queue|) == Drain(before.pool, before.pool.entry)
        decreases |a.queue|
      {
        ChainsHead(p, a);
        DrainOne(p, a);
        var n := head.node;
        head := next[n];
        if tail == To(n) { tail := Null; }
        next[n] := free;
        free := To(n);
        UnlinkIs(p);
        p := GiveBack(Unlink(p), n);
        a := a.(queue := a.queue[1..], free := [n] + a.free, place := a.place[n := Unused]);
      }
      entry := 0;
    }
  }

  lemma InvGivesChains(s: State, a: Abs)
    requires Inv(s, a)
    ensures Chains(s.pool, a) && s.pool.entry == |a.queue| && |s.pool.data| == |s.pool.next|
  {
  }

  lemma ChainsHead(p: Pool, a: Abs)
    requires Chains(p, a)
    ensures p.head == (if a.queue == [] then Null else To(a.queue[0]))
    ensures a.queue != [] ==> a.queue[0] < |p.next|
  {
  }

  lemma UnlinkIs(p: Pool)
    requires p.head.To? && p.head.node < |p.next|
    ensures Unlink(p) == p.(head := p.next[p.head.node], tail := if p.tail == p.head then Null else p.tail)
  {
  }

  lemma RoomInNode(s: State, a: Abs, t: Tid)
    requires Inv(s, a) && t in s.calls && Holds(s.calls[t]) && s.calls[t].node < |s.pool.data|
    ensures |s.pool.data[s.calls[t].node]| == s.size
    ensures s.calls[t].Filling? ==> |s.calls[t].buffer| <= s.size
    ensures s.calls[t].Draining? ==> s.calls[t].want <= s.size
  {
    assert CallOk(s.pool, s.size, a, t, s.calls[t]);
  }

  /** Where the links and the calls can point. */
  lemma NodesInRange(s: State, a: Abs)
    requires Inv(s, a)
    ensures s.pool.head.To? ==> s.pool.head.node < |s.pool.next|
    ensures s.pool.tail.To? ==> s.pool.tail.node < |s.pool.next|
    ensures s.pool.free.To? ==> s.pool.free.node < |s.pool.next|
    ensures forall t <- s.calls :: Holds(s.calls[t]) ==> s.calls[t].node < |s.pool.next|
    ensures |s.pool.data| == |s.pool.next|
    ensures s.pool.entry > 0 ==> s.pool.head.To?
  {
    assert s.pool.tail.To? ==> s.pool.tail.node in a.queue;
    forall t | t in s.calls && Holds(s.calls[t])
      ensures s.calls[t].node < |s.pool.next|
    {
      assert CallOk(s.pool, s.size, a, t, s.calls[t]);
    }
  }
}
