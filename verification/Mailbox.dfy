/** Mailboxes: rt_mb_send_wait, rt_mb_recv and rt_mb_control of src/ipc.c.

    Each section that runs with interrupts disabled is one step. A thread whose call was suspended
    and has been resumed tries again when it next runs, and others may get in before it.
  */
module Mailbox {
  import opened IpcList
  import Sequences
  import opened WaitList

  type Word = nat

  datatype Op = Send(value: Word) | Recv

  datatype Error = Ok | TimedOut | Failed

  /** A call that has not returned: on a wait list, or resumed with this error and not run yet. */
  datatype Call =
    | Suspended(op: Op, prio: nat, timeout: int)
    | Resumed(op: Op, prio: nat, timeout: int, error: Error)

  datatype Ring = Ring(pool: seq<Word>, entry: nat, inOffset: nat, outOffset: nat)

  datatype State = State(ring: Ring, receivers: seq<Waiter>, senders: seq<Waiter>, calls: map<Tid, Call>)

  datatype Outcome = Sent | Got(value: Word) | Full | Error(error: Error) | Waits

  function Init(pool: seq<Word>): State {
    State(Ring(pool, 0, 0, 0), [], [], map[])
  }

  // ---------------------------------------------------------------- the ring is a bounded queue

  function Wrap(i: nat, size: nat): nat {
    if i >= size then i - size else i
  }

  predicate ValidRing(r: Ring) {
    && r.entry <= |r.pool|
    && (|r.pool| == 0 ==> r.inOffset == 0 && r.outOffset == 0)
    && (|r.pool| > 0 ==> r.outOffset < |r.pool| && r.inOffset == Wrap(r.outOffset + r.entry, |r.pool|))
  }

  /** The mails in the ring, oldest first. */
  function Mails(r: Ring): (q: seq<Word>)
    requires ValidRing(r)
    ensures |q| == r.entry
  {
    seq(r.entry, i requires 0 <= i < r.entry => r.pool[Wrap(r.outOffset + i, |r.pool|)])
  }

  function Next(i: nat, size: nat): nat {
    if i + 1 >= size then 0 else i + 1
  }

  function Put(r: Ring, v: Word): Ring
    requires r.inOffset < |r.pool|
  {
    r.(pool := r.pool[r.inOffset := v], inOffset := Next(r.inOffset, |r.pool|), entry := r.entry + 1)
  }

  function Get(r: Ring): Ring
    requires r.entry > 0
  {
    r.(outOffset := Next(r.outOffset, |r.pool|), entry := r.entry - 1)
  }

  lemma PutAppends(r: Ring, v: Word)
    requires ValidRing(r) && r.entry < |r.pool|
    ensures r.inOffset < |r.pool| && ValidRing(Put(r, v)) && Mails(Put(r, v)) == Mails(r) + [v]
  {
    var q := Mails(Put(r, v));
    forall i | 0 <= i <= r.entry
      ensures q[i] == (Mails(r) + [v])[i]
    {
      assert i < r.entry ==> Wrap(r.outOffset + i, |r.pool|) != r.inOffset;
    }
  }

  lemma GetRemovesFirst(r: Ring)
    requires ValidRing(r) && r.entry > 0
    ensures r.outOffset < |r.pool| && r.pool[r.outOffset] == Mails(r)[0]
    ensures ValidRing(Get(r)) && Mails(Get(r)) == Mails(r)[1..]
  {
    assert Wrap(r.outOffset + 0, |r.pool|) == r.outOffset;
    var q := Mails(Get(r));
    forall i | 0 <= i < r.entry - 1
      ensures q[i] == Mails(r)[i + 1]
    {
      assert Wrap(Next(r.outOffset, |r.pool|) + i, |r.pool|) == Wrap(r.outOffset + (i + 1), |r.pool|);
    }
  }

  // ---------------------------------------------------------------- steps

  function Wake(calls: map<Tid, Call>, t: Tid, e: Error): map<Tid, Call> {
    if t in calls then calls[t := Resumed(calls[t].op, calls[t].prio, calls[t].timeout, e)] else calls
  }

  function Leave(s: State, t: Tid): State {
    s.(calls := s.calls - {t})
  }

  /** One pass of the loop of rt_mb_send_wait: full, or a mail goes in and a receiver is resumed. */
  function SendPass(s: State, t: Tid, v: Word, prio: nat, timeout: int, flag: Flag): (State, Outcome)
    requires ValidRing(s.ring)
  {
    if s.ring.entry == |s.ring.pool| then
      if timeout == 0 then (Leave(s, t), Full)
      else (s.(senders := Enqueue(s.senders, Waiter(t, prio), flag),
               calls := s.calls[t := Suspended(Send(v), prio, timeout)]), Waits)
    else
      var s1 := Leave(s.(ring := Put(s.ring, v)), t);
      (if s1.receivers == [] then s1
       else s1.(receivers := s1.receivers[1..], calls := Wake(s1.calls, s1.receivers[0].tid, Ok)), Sent)
  }

  function RecvPass(s: State, t: Tid, prio: nat, timeout: int, flag: Flag): (State, Outcome)
    requires ValidRing(s.ring)
  {
    if s.ring.entry == 0 then
      if timeout == 0 then (Leave(s, t), Error(TimedOut))
      else (s.(receivers := Enqueue(s.receivers, Waiter(t, prio), flag),
               calls := s.calls[t := Suspended(Recv, prio, timeout)]), Waits)
    else
      var s1 := Leave(s.(ring := Get(s.ring)), t);
      (if s1.senders == [] then s1
       else s1.(senders := s1.senders[1..], calls := Wake(s1.calls, s1.senders[0].tid, Ok)),
       Got(s.ring.pool[s.ring.outOffset]))
  }

  function Pass(s: State, t: Tid, op: Op, prio: nat, timeout: int, flag: Flag): (State, Outcome)
    requires ValidRing(s.ring)
  {
    match op
    case Send(v) => SendPass(s, t, v, prio, timeout, flag)
    case Recv => RecvPass(s, t, prio, timeout, flag)
  }

  function TimeLeft(timeout: int, elapsed: nat): int {
    if timeout > 0 then (if timeout < elapsed then 0 else timeout - elapsed) else timeout
  }

  /** A resumed thread runs again: it returns its error, or makes another pass. */
  function Again(s: State, t: Tid, elapsed: nat, flag: Flag): (State, Outcome)
    requires ValidRing(s.ring) && t in s.calls && s.calls[t].Resumed?
  {
    var c := s.calls[t];
    if c.error != Ok then (Leave(s, t), Error(c.error))
    else Pass(s, t, c.op, c.prio, TimeLeft(c.timeout, elapsed), flag)
  }

  function Expire(s: State, t: Tid): State {
    s.(receivers := Without(s.receivers, t), senders := Without(s.senders, t), calls := Wake(s.calls, t, TimedOut))
  }

  function FailAll(ws: seq<Waiter>, calls: map<Tid, Call>): map<Tid, Call> {
    if ws == [] then calls else FailAll(ws[1..], Wake(calls, ws[0].tid, Failed))
  }

  function Reset(s: State): State {
    State(Ring(s.ring.pool, 0, 0, 0), [], [], FailAll(s.senders, FailAll(s.receivers, s.calls)))
  }

  datatype Step =
    | DoCall(t: Tid, op: Op, prio: nat, timeout: int)
    | DoAgain(t: Tid, elapsed: nat)
    | DoExpire(t: Tid)
    | DoReset

  predicate Enabled(s: State, step: Step) {
    match step
    case DoCall(t, _, _, _) => t !in s.calls
    case DoAgain(t, _) => t in s.calls && s.calls[t].Resumed?
    case DoExpire(t) => t in s.calls && s.calls[t].Suspended? && s.calls[t].timeout > 0
    case DoReset => true
  }

  function Apply(s: State, step: Step, flag: Flag): (r: (State, Outcome))
    requires ValidRing(s.ring) && Enabled(s, step)
    ensures ValidRing(r.0.ring)
  {
    match step
    case DoCall(t, op, prio, timeout) =>
      PassKeepsRing(s, t, op, prio, timeout, flag);
      Pass(s, t, op, prio, timeout, flag)
    case DoAgain(t, elapsed) =>
      var c := s.calls[t];
      PassKeepsRing(s, t, c.op, c.prio, TimeLeft(c.timeout, elapsed), flag);
      Again(s, t, elapsed, flag)
    case DoExpire(t) => (Expire(s, t), Waits)
    case DoReset => (Reset(s), Waits)
  }

  lemma PassKeepsRing(s: State, t: Tid, op: Op, prio: nat, timeout: int, flag: Flag)
    requires ValidRing(s.ring)
    ensures ValidRing(Pass(s, t, op, prio, timeout, flag).0.ring)
  {
    if op.Send? && s.ring.entry < |s.ring.pool| { PutAppends(s.ring, op.value); }
    if op.Recv? && s.ring.entry > 0 { GetRemovesFirst(s.ring); }
  }

  // ---------------------------------------------------------------- invariant

  /** A wait list holds exactly the suspended calls of its kind. */
  ghost predicate Lists(s: State) {
    && Distinct(s.receivers) && Distinct(s.senders)
    && (forall t :: Waiting(s.receivers, t) <==> t in s.calls && s.calls[t].Suspended? && s.calls[t].op.Recv?)
    && (forall t :: Waiting(s.senders, t) <==> t in s.calls && s.calls[t].Suspended? && s.calls[t].op.Send?)
  }

  predicate TriesToReceive(c: Call) {
    c.Resumed? && c.error == Ok && c.op.Recv?
  }

  predicate TriesToSend(c: Call) {
    c.Resumed? && c.error == Ok && c.op.Send?
  }

  /** Threads that have been resumed to try again. */
  function WokenReceivers(calls: map<Tid, Call>): set<Tid> {
    Those(calls, TriesToReceive)
  }

  function WokenSenders(calls: map<Tid, Call>): set<Tid> {
    Those(calls, TriesToSend)
  }

  /** While anybody waits, no more mails (or free places) are there than threads on their way. */
  predicate NoLostWakeUp(s: State) {
    && (s.receivers != [] ==> s.ring.entry <= |WokenReceivers(s.calls)|)
    && (s.senders != [] ==> |s.ring.pool| - s.ring.entry <= |WokenSenders(s.calls)|)
  }

  ghost predicate Inv(s: State) {
    ValidRing(s.ring) && Lists(s) && NoLostWakeUp(s)
  }


  // ---------------------------------------------------------------- each step

  /** t is about to make a pass: it is calling for the first time, or has been resumed. */
  predicate Ready(s: State, t: Tid, op: Op) {
    t in s.calls ==> s.calls[t].Resumed? && s.calls[t].op == op
  }

  lemma SuspendKeepsLists(s: State, t: Tid, op: Op, prio: nat, timeout: int, flag: Flag)
    requires Lists(s) && Ready(s, t, op)
    ensures var calls := s.calls[t := Suspended(op, prio, timeout)];
            && (op.Send? ==> Lists(s.(senders := Enqueue(s.senders, Waiter(t, prio), flag), calls := calls)))
            && (op.Recv? ==> Lists(s.(receivers := Enqueue(s.receivers, Waiter(t, prio), flag), calls := calls)))
  {
    hide Enqueue, Distinct, Waiting;
    if op.Send? { EnqueueWaits(s.senders, Waiter(t, prio), flag); }
    else { EnqueueWaits(s.receivers, Waiter(t, prio), flag); }
  }

  lemma LeaveKeepsLists(s: State, t: Tid, op: Op)
    requires Lists(s) && Ready(s, t, op)
    ensures Lists(Leave(s, t))
  {
    hide Distinct, Waiting;
  }

  lemma WakeReceiverKeepsLists(s: State)
    requires Lists(s) && s.receivers != []
    ensures var t := s.receivers[0].tid;
            && t in s.calls && s.calls[t].Suspended? && s.calls[t].op.Recv?
            && Lists(s.(receivers := s.receivers[1..], calls := Wake(s.calls, t, Ok)))
  {
    FirstLeaves(s.receivers);
    hide Distinct, Waiting;
  }

  lemma WakeSenderKeepsLists(s: State)
    requires Lists(s) && s.senders != []
    ensures var t := s.senders[0].tid;
            && t in s.calls && s.calls[t].Suspended? && s.calls[t].op.Send?
            && Lists(s.(senders := s.senders[1..], calls := Wake(s.calls, t, Ok)))
  {
    FirstLeaves(s.senders);
    hide Distinct, Waiting;
  }

  lemma SendPassKeepsLists(s: State, t: Tid, v: Word, prio: nat, timeout: int, flag: Flag)
    requires ValidRing(s.ring) && Lists(s) && Ready(s, t, Send(v))
    ensures Lists(SendPass(s, t, v, prio, timeout, flag).0)
  {
    hide Lists, Enqueue, Wake;
    if s.ring.entry == |s.ring.pool| {
      if timeout == 0 { LeaveKeepsLists(s, t, Send(v)); }
      else { SuspendKeepsLists(s, t, Send(v), prio, timeout, flag); }
    } else {
      var s0 := s.(ring := Put(s.ring, v));
      SameLists(s, s0);
      LeaveKeepsLists(s0, t, Send(v));
      if s0.receivers != [] { WakeReceiverKeepsLists(Leave(s0, t)); }
    }
  }

  lemma RecvPassKeepsLists(s: State, t: Tid, prio: nat, timeout: int, flag: Flag)
    requires ValidRing(s.ring) && Lists(s) && Ready(s, t, Recv)
    ensures Lists(RecvPass(s, t, prio, timeout, flag).0)
  {
    hide Lists, Enqueue, Wake, ValidRing;
    if s.ring.entry == 0 {
      if timeout == 0 { LeaveKeepsLists(s, t, Recv); }
      else { SuspendKeepsLists(s, t, Recv, prio, timeout, flag); }
    } else {
      var s0 := s.(ring := Get(s.ring));
      SameLists(s, s0);
      LeaveKeepsLists(s0, t, Recv);
      if s0.senders != [] { WakeSenderKeepsLists(Leave(s0, t)); }
    }
  }

  lemma SendPassLosesNoWakeUp(s: State, t: Tid, v: Word, prio: nat, timeout: int, flag: Flag)
    requires ValidRing(s.ring) && Lists(s) && NoLostWakeUp(s) && Ready(s, t, Send(v))
    ensures NoLostWakeUp(SendPass(s, t, v, prio, timeout, flag).0)
  {
    hide Those, Enqueue;
    CountAfterRemoval(s.calls, TriesToReceive, t);
    CountAfterRemoval(s.calls, TriesToSend, t);
    CountAfterUpdate(s.calls, TriesToReceive, t, Suspended(Send(v), prio, timeout));
    CountAfterUpdate(s.calls, TriesToSend, t, Suspended(Send(v), prio, timeout));
    if s.receivers != [] {
      WakeReceiverKeepsLists(s);
      var w := s.receivers[0].tid;
      CountAfterUpdate(s.calls - {t}, TriesToReceive, w, Wake(s.calls, w, Ok)[w]);
      CountAfterUpdate(s.calls - {t}, TriesToSend, w, Wake(s.calls, w, Ok)[w]);
    }
    hide Lists, Waiting, Distinct;
  }

  lemma RecvPassLosesNoWakeUp(s: State, t: Tid, prio: nat, timeout: int, flag: Flag)
    requires ValidRing(s.ring) && Lists(s) && NoLostWakeUp(s) && Ready(s, t, Recv)
    ensures NoLostWakeUp(RecvPass(s, t, prio, timeout, flag).0)
  {
    hide Those, Enqueue;
    CountAfterRemoval(s.calls, TriesToReceive, t);
    CountAfterRemoval(s.calls, TriesToSend, t);
    CountAfterUpdate(s.calls, TriesToReceive, t, Suspended(Recv, prio, timeout));
    CountAfterUpdate(s.calls, TriesToSend, t, Suspended(Recv, prio, timeout));
    if s.senders != [] {
      WakeSenderKeepsLists(s);
      var w := s.senders[0].tid;
      CountAfterUpdate(s.calls - {t}, TriesToReceive, w, Wake(s.calls, w, Ok)[w]);
      CountAfterUpdate(s.calls - {t}, TriesToSend, w, Wake(s.calls, w, Ok)[w]);
    }
    hide Lists, Waiting, Distinct;
  }

  lemma PassKeepsInv(s: State, t: Tid, op: Op, prio: nat, timeout: int, flag: Flag)
    requires Inv(s) && Ready(s, t, op)
    ensures Inv(Pass(s, t, op, prio, timeout, flag).0)
  {
    hide Lists, NoLostWakeUp, ValidRing, Ready, SendPass, RecvPass;
    PassKeepsRing(s, t, op, prio, timeout, flag);
    match op
    case Send(v) =>
      SendPassKeepsLists(s, t, v, prio, timeout, flag);
      SendPassLosesNoWakeUp(s, t, v, prio, timeout, flag);
    case Recv =>
      RecvPassKeepsLists(s, t, prio, timeout, flag);
      RecvPassLosesNoWakeUp(s, t, prio, timeout, flag);
  }

  lemma SameLists(a: State, b: State)
    requires Lists(a) && a.receivers == b.receivers && a.senders == b.senders && a.calls == b.calls
    ensures Lists(b)
  {
  }

  lemma ExpireKeepsInv(s: State, t: Tid)
    requires Inv(s) && t in s.calls && s.calls[t].Suspended?
    ensures Inv(Expire(s, t))
  {
    var r := Expire(s, t);
    assert Lists(r) by {
      WithoutWaits(s.receivers, t);
      WithoutWaits(s.senders, t);
      hide Without, Distinct, Waiting, ValidRing, NoLostWakeUp;
    }
    assert NoLostWakeUp(r) by {
      hide Lists, Waiting, Distinct, Those;
      WithoutOfEmpty(s.receivers, t);
      WithoutOfEmpty(s.senders, t);
      CountAfterUpdate(s.calls, TriesToReceive, t, Wake(s.calls, t, TimedOut)[t]);
      CountAfterUpdate(s.calls, TriesToSend, t, Wake(s.calls, t, TimedOut)[t]);
    }
  }

  lemma WithoutOfEmpty(ws: seq<Waiter>, t: Tid)
    ensures ws == [] ==> Without(ws, t) == []
  {
  }

  lemma {:induction false} FailAllFails(ws: seq<Waiter>, calls: map<Tid, Call>)
    requires forall i :: 0 <= i < |ws| ==> ws[i].tid in calls
    ensures var r := FailAll(ws, calls);
            && r.Keys == calls.Keys
            && forall t <- calls :: && r[t].op == calls[t].op
                                    && (Waiting(ws, t) ==> r[t].Resumed? && r[t].error == Failed)
                                    && (!Waiting(ws, t) ==> r[t] == calls[t])
  {
    if ws != [] {
      var c := Wake(calls, ws[0].tid, Failed);
      FailAllFails(ws[1..], c);
      var r := FailAll(ws, calls);
      forall t <- calls
        ensures r[t].op == calls[t].op
        ensures Waiting(ws, t) ==> r[t].Resumed? && r[t].error == Failed
        ensures !Waiting(ws, t) ==> r[t] == calls[t]
      {
        WaitingSplits(ws, t);
      }
    }
  }

  lemma ResetKeepsInv(s: State)
    requires Inv(s)
    ensures Inv(Reset(s)) && Mails(Reset(s).ring) == []
    ensures forall t :: Waiting(s.receivers, t) || Waiting(s.senders, t) ==>
              t in Reset(s).calls && Reset(s).calls[t].Resumed? && Reset(s).calls[t].error == Failed
  {
    assert forall i :: 0 <= i < |s.receivers| ==> Waiting(s.receivers, s.receivers[i].tid);
    assert forall i :: 0 <= i < |s.senders| ==> Waiting(s.senders, s.senders[i].tid);
    FailAllFails(s.receivers, s.calls);
    var c := FailAll(s.receivers, s.calls);
    FailAllFails(s.senders, c);
    hide FailAll;
    assert forall t :: !Waiting([], t);
    hide Waiting;
  }

  lemma StepKeepsInv(s: State, step: Step, flag: Flag)
    requires Inv(s) && Enabled(s, step)
    ensures Inv(Apply(s, step, flag).0)
  {
    match step
    case DoCall(t, op, prio, timeout) => PassKeepsInv(s, t, op, prio, timeout, flag);
    case DoAgain(t, elapsed) =>
      var c := s.calls[t];
      if c.error == Ok {
        PassKeepsInv(s, t, c.op, c.prio, TimeLeft(c.timeout, elapsed), flag);
      } else {
        LeaveKeepsLists(s, t, c.op);
        CountAfterRemoval(s.calls, TriesToReceive, t);
        CountAfterRemoval(s.calls, TriesToSend, t);
      }
    case DoExpire(t) => ExpireKeepsInv(s, t);
    case DoReset => ResetKeepsInv(s);
  }

  /** Under PRIO both wait lists are in order. */
  predicate Ordered(s: State, flag: Flag) {
    InOrder(s.receivers, flag) && InOrder(s.senders, flag)
  }

  lemma PassKeepsOrder(s: State, t: Tid, op: Op, prio: nat, timeout: int, flag: Flag)
    requires ValidRing(s.ring) && Ordered(s, flag)
    ensures Ordered(Pass(s, t, op, prio, timeout, flag).0, flag)
  {
    hide ValidRing, Put, Get, Wake, Enqueue, InOrder;
    EnqueueInOrder(s.senders, Waiter(t, prio), flag);
    EnqueueInOrder(s.receivers, Waiter(t, prio), flag);
    if s.senders != [] { RestInOrder(s.senders, flag); }
    if s.receivers != [] { RestInOrder(s.receivers, flag); }
  }

  lemma StepKeepsOrder(s: State, step: Step, flag: Flag)
    requires ValidRing(s.ring) && Enabled(s, step) && Ordered(s, flag)
    ensures Ordered(Apply(s, step, flag).0, flag)
  {
    hide ValidRing, Pass, Wake, FailAll, TimeLeft;
    match step
    case DoCall(t, op, prio, timeout) => PassKeepsOrder(s, t, op, prio, timeout, flag);
    case DoAgain(t, elapsed) => PassKeepsOrder(s, t, s.calls[t].op, s.calls[t].prio, TimeLeft(s.calls[t].timeout, elapsed), flag);
    case DoExpire(t) => WithoutInOrder(s.receivers, t, flag); WithoutInOrder(s.senders, t, flag);
    case DoReset =>
  }

  // ---------------------------------------------------------------- whole runs

  predicate Run(s: State, steps: seq<Step>, flag: Flag)
    requires ValidRing(s.ring)
    decreases |steps|
  {
    steps == [] || (Enabled(s, steps[0]) && Run(Apply(s, steps[0], flag).0, steps[1..], flag))
  }

  datatype Fate = Open | Expired | Cancelled

  /** What a call was given by its caller, how long it has waited, and what has become of its last wait. */
  datatype Request = Request(op: Op, prio: nat, timeout: int, spent: nat, fate: Fate)

  /** The mails accepted and the mails handed out since the last reset, in order, and what was asked for. */
  datatype Ledger = Ledger(sent: seq<Word>, got: seq<Word>, asked: map<Tid, Request>)

  const Blank := Ledger([], [], map[])

  function Ask(k: map<Tid, Request>, s: State, step: Step): map<Tid, Request> {
    match step
    case DoCall(t, op, prio, timeout) => k[t := Request(op, prio, timeout, 0, Open)]
    case DoAgain(t, elapsed) => if t in k then k[t := k[t].(spent := k[t].spent + elapsed)] else k
    case DoExpire(t) => if t in k then k[t := k[t].(fate := Expired)] else k
    case DoReset => map t <- k :: if t in s.calls && s.calls[t].Suspended? then k[t].(fate := Cancelled) else k[t]
  }

  function Record(l: Ledger, s: State, step: Step, flag: Flag): Ledger
    requires ValidRing(s.ring) && Enabled(s, step)
  {
    var k := Ask(l.asked, s, step);
    if step.DoReset? then Ledger([], [], k)
    else match Apply(s, step, flag).1
      case Sent => Ledger(if step.t in k && k[step.t].op.Send? then l.sent + [k[step.t].op.value] else l.sent, l.got, k)
      case Got(v) => Ledger(l.sent, l.got + [v], k)
      case _ => l.(asked := k)
  }

  function After(s: State, l: Ledger, steps: seq<Step>, flag: Flag): (State, Ledger)
    requires ValidRing(s.ring) && Run(s, steps, flag)
    decreases |steps|
  {
    if steps == [] then (s, l)
    else After(Apply(s, steps[0], flag).0, Record(l, s, steps[0], flag), steps[1..], flag)
  }

  /** What is left of a time-out after some waiting; a negative one is forever. */
  function Left(timeout: int, spent: nat): int {
    if timeout <= 0 then timeout else if spent >= timeout then 0 else timeout - spent
  }

  /** A call that waits, or has been resumed, does what it was asked to, with what is left of its time; and it has been
      resumed with the reason that there was. */
  predicate Follows(c: Call, q: Request) {
    && c.op == q.op && c.prio == q.prio && c.timeout == Left(q.timeout, q.spent) != 0
    && match c
       case Suspended(_, _, _) => q.fate == Open
       case Resumed(_, _, _, Ok) => q.fate == Open
       case Resumed(_, _, _, TimedOut) => q.fate == Expired
       case Resumed(_, _, _, Failed) => q.fate == Cancelled
  }

  ghost predicate AsAsked(s: State, k: map<Tid, Request>) {
    forall t <- s.calls :: t in k && Follows(s.calls[t], k[t])
  }

  lemma TimeRunsOn(timeout: int, spent: nat, elapsed: nat)
    ensures TimeLeft(Left(timeout, spent), elapsed) == Left(timeout, spent + elapsed)
    ensures Left(timeout, 0) == timeout
  {
  }

  lemma PassAsAsked(s: State, k: map<Tid, Request>, t: Tid, op: Op, prio: nat, timeout: int, flag: Flag)
    requires ValidRing(s.ring) && t in k && k[t].fate == Open
    requires forall u <- s.calls :: u != t ==> u in k && Follows(s.calls[u], k[u])
    requires op == k[t].op && prio == k[t].prio && timeout == Left(k[t].timeout, k[t].spent)
    requires forall i :: 0 <= i < |s.receivers| ==> s.receivers[i].tid in s.calls && s.calls[s.receivers[i].tid].Suspended?
    requires forall i :: 0 <= i < |s.senders| ==> s.senders[i].tid in s.calls && s.calls[s.senders[i].tid].Suspended?
    ensures AsAsked(Pass(s, t, op, prio, timeout, flag).0, k)
  {
    hide Enqueue, Put, Get, ValidRing, Left;
  }

  lemma WaitersSuspended(s: State)
    requires Lists(s)
    ensures forall i :: 0 <= i < |s.receivers| ==> s.receivers[i].tid in s.calls && s.calls[s.receivers[i].tid].Suspended?
    ensures forall i :: 0 <= i < |s.senders| ==> s.senders[i].tid in s.calls && s.calls[s.senders[i].tid].Suspended?
  {
    assert forall i :: 0 <= i < |s.receivers| ==> Waiting(s.receivers, s.receivers[i].tid);
    assert forall i :: 0 <= i < |s.senders| ==> Waiting(s.senders, s.senders[i].tid);
  }

  lemma {:induction false} FailAllIs(ws: seq<Waiter>, calls: map<Tid, Call>)
    ensures var r := FailAll(ws, calls);
            && r.Keys == calls.Keys
            && forall t <- calls :: r[t] == if Waiting(ws, t) then Resumed(calls[t].op, calls[t].prio, calls[t].timeout, Failed) else calls[t]
  {
    if ws != [] {
      var c := Wake(calls, ws[0].tid, Failed);
      FailAllIs(ws[1..], c);
      forall t | t in calls
        ensures FailAll(ws, calls)[t] == if Waiting(ws, t) then Resumed(calls[t].op, calls[t].prio, calls[t].timeout, Failed) else calls[t]
      {
        WaitingSplits(ws, t);
      }
    } else {
      assert forall t :: !Waiting(ws, t);
    }
  }

  lemma ResetAsAsked(s: State, k: map<Tid, Request>)
    requires Lists(s) && AsAsked(s, k)
    ensures AsAsked(Reset(s), Ask(k, s, DoReset))
  {
    hide FailAll, Distinct, Waiting, Left;
    FailAllIs(s.receivers, s.calls);
    FailAllIs(s.senders, FailAll(s.receivers, s.calls));
  }

  lemma StepAsAsked(s: State, k: map<Tid, Request>, step: Step, flag: Flag)
    requires Inv(s) && Enabled(s, step) && AsAsked(s, k)
    ensures AsAsked(Apply(s, step, flag).0, Ask(k, s, step))
  {
    hide Lists, NoLostWakeUp, ValidRing, Pass, Reset, Left, TimeLeft, Without;
    WaitersSuspended(s);
    match step
    case DoCall(t, op, prio, timeout) =>
      TimeRunsOn(timeout, 0, 0);
      PassAsAsked(s, Ask(k, s, step), t, op, prio, timeout, flag);
    case DoAgain(t, elapsed) =>
      var c := s.calls[t];
      if c.error == Ok {
        TimeRunsOn(k[t].timeout, k[t].spent, elapsed);
        PassAsAsked(s, Ask(k, s, step), t, c.op, c.prio, TimeLeft(c.timeout, elapsed), flag);
      }
    case DoExpire(t) =>
    case DoReset => ResetAsAsked(s, k);
  }

  /** At a full mailbox (or an empty one) a pass gives up if no time is left and waits if there is some; otherwise a
      sender has sent, and a receiver gets the oldest mail. */
  predicate Answers(q: seq<Word>, room: nat, op: Op, timeout: int, o: Outcome) {
    if op.Send? then if |q| < room then o == Sent else if timeout == 0 then o == Full else o == Waits
    else if q != [] then o == Got(q[0]) else if timeout == 0 then o == Error(TimedOut) else o == Waits
  }

  lemma PassAnswers(s: State, t: Tid, op: Op, prio: nat, timeout: int, flag: Flag)
    requires Inv(s) && Ready(s, t, op)
    ensures var (r, o) := Pass(s, t, op, prio, timeout, flag);
            && Answers(Mails(s.ring), |s.ring.pool|, op, timeout, o)
            && (o == Waits <==> t in r.calls) && (o == Waits ==> r.calls[t].Suspended?)
  {
    hide NoLostWakeUp, Enqueue, Put, Get, Distinct;
    NotWoken(s, t);
    if s.ring.entry > 0 { GetRemovesFirst(s.ring); }
    hide Lists, Mails;
  }

  /** The outcome of a call, or of a new try of it: cancelled by a reset, or timed out, if that has happened to its wait,
      and otherwise that of a pass with the time that is left. */
  lemma CallAnswers(s: State, l: Ledger, step: Step, flag: Flag)
    requires Inv(s) && AsAsked(s, l.asked) && Enabled(s, step) && (step.DoCall? || step.DoAgain?)
    ensures step.t in Ask(l.asked, s, step)
    ensures var q, (r, o) := Ask(l.asked, s, step)[step.t], Apply(s, step, flag);
            && (match q.fate
                case Cancelled => o == Error(Failed)
                case Expired => o == Error(TimedOut)
                case Open => Answers(Mails(s.ring), |s.ring.pool|, q.op, Left(q.timeout, q.spent), o))
            && (o == Waits <==> step.t in r.calls)
            && (o == Waits ==> r.calls[step.t].Suspended?)
  {
    hide Inv, Pass, Answers, Mails, TimeLeft, Left;
    match step
    case DoCall(t, op, prio, timeout) =>
      TimeRunsOn(timeout, 0, 0);
      PassAnswers(s, t, op, prio, timeout, flag);
    case DoAgain(t, elapsed) =>
      var c := s.calls[t];
      TimeRunsOn(l.asked[t].timeout, l.asked[t].spent, elapsed);
      if c.error == Ok { PassAnswers(s, t, c.op, c.prio, TimeLeft(c.timeout, elapsed), flag); }
  }

  lemma NotWoken(s: State, t: Tid)
    requires Lists(s) && (t in s.calls ==> s.calls[t].Resumed?)
    ensures s.receivers != [] ==> s.receivers[0].tid != t
    ensures s.senders != [] ==> s.senders[0].tid != t
  {
    WaitersSuspended(s);
  }

  /** First in, first out, nothing lost and nothing twice. */
  predicate InStep(s: State, l: Ledger)
    requires ValidRing(s.ring)
  {
    l.sent == l.got + Mails(s.ring)
  }

  lemma PassInStep(s: State, t: Tid, op: Op, prio: nat, timeout: int, flag: Flag)
    requires ValidRing(s.ring)
    ensures var (r, o) := Pass(s, t, op, prio, timeout, flag);
            && ValidRing(r.ring)
            && (o == Sent ==> op.Send? && Mails(r.ring) == Mails(s.ring) + [op.value])
            && (o.Got? ==> Mails(s.ring) == [o.value] + Mails(r.ring))
            && (o != Sent && !o.Got? ==> r.ring == s.ring)
  {
    assert s.ring.entry <= |s.ring.pool|;
    hide ValidRing, Mails, Enqueue, Wake;
    if op.Send? && s.ring.entry < |s.ring.pool| { PutAppends(s.ring, op.value); }
    if op.Recv? && s.ring.entry > 0 { GetRemovesFirst(s.ring); }
  }

  lemma ResetEmpties(s: State)
    requires ValidRing(s.ring)
    ensures ValidRing(Reset(s).ring) && Mails(Reset(s).ring) == []
  {
    hide FailAll;
  }

  lemma StepInStep(s: State, l: Ledger, step: Step, flag: Flag)
    requires ValidRing(s.ring) && Enabled(s, step) && InStep(s, l) && AsAsked(s, l.asked)
    ensures InStep(Apply(s, step, flag).0, Record(l, s, step, flag))
  {
    hide ValidRing, Mails, Pass, Put, Get, FailAll, Wake;
    match step
    case DoCall(t, op, prio, timeout) => PassInStep(s, t, op, prio, timeout, flag);
    case DoAgain(t, elapsed) =>
      var c := s.calls[t];
      PassInStep(s, t, c.op, c.prio, TimeLeft(c.timeout, elapsed), flag);
    case DoExpire(_) =>
    case DoReset => ResetEmpties(s);
  }

  lemma {:induction false} RunsKeepInv(s: State, l: Ledger, steps: seq<Step>, flag: Flag)
    requires Inv(s) && InStep(s, l) && AsAsked(s, l.asked) && Ordered(s, flag) && Run(s, steps, flag)
    ensures var (r, m) := After(s, l, steps, flag); Inv(r) && InStep(r, m) && AsAsked(r, m.asked) && Ordered(r, flag)
    decreases |steps|
  {
    if steps != [] {
      hide Inv, InStep, AsAsked, Ask, Enabled, Ordered;
      StepKeepsInv(s, steps[0], flag);
      InvIs(s);
      StepInStep(s, l, steps[0], flag);
      StepKeepsOrder(s, steps[0], flag);
      StepAsAsked(s, l.asked, steps[0], flag);
      RecordAsks(s, l, steps[0], flag);
      RunsKeepInv(Apply(s, steps[0], flag).0, Record(l, s, steps[0], flag), steps[1..], flag);
    }
  }

  lemma InvIs(s: State)
    requires Inv(s)
    ensures ValidRing(s.ring)
  {
  }

  lemma RecordAsks(s: State, l: Ledger, step: Step, flag: Flag)
    requires ValidRing(s.ring) && Enabled(s, step)
    ensures Record(l, s, step, flag).asked == Ask(l.asked, s, step)
  {
    hide Ask;
  }

  /** The mailbox, from its initialisation on, whatever is sent, received, timed out and reset in
      whatever order: what receivers got, followed by what is in the ring, is what senders sent; and
      once every resumed thread has run, a receiver waits only at an empty mailbox and a sender only
      at a full one. */
  lemma MailboxIsAQueue(pool: seq<Word>, steps: seq<Step>, flag: Flag)
    requires Run(Init(pool), steps, flag)
    ensures var (s, l) := After(Init(pool), Blank, steps, flag);
            && ValidRing(s.ring) && |Mails(s.ring)| <= |s.ring.pool|
            && l.sent == l.got + Mails(s.ring)
            && AsAsked(s, l.asked) && Ordered(s, flag)
            && NoLostWakeUp(s)
            && ((forall t <- s.calls :: s.calls[t].Suspended?) ==>
                  && (s.receivers != [] ==> Mails(s.ring) == [])
                  && (s.senders != [] ==> |Mails(s.ring)| == |s.ring.pool|))
  {
    var s0 := Init(pool);
    assert Lists(s0) by { assert !exists t :: Waiting([], t); }
    assert InStep(s0, Blank);
    RunsKeepInv(s0, Blank, steps, flag);
    var s := After(s0, Blank, steps, flag).0;
    if forall t <- s.calls :: s.calls[t].Suspended? {
      assert WokenReceivers(s.calls) == {} && WokenSenders(s.calls) == {};
    }
  }

  // ---------------------------------------------------------------- the object

  class MailboxObject {
    const flag: Flag
    const pool: array<Word>
    var entry: nat
    var inOffset: nat
    var outOffset: nat
    var receivers: seq<Waiter>
    var senders: seq<Waiter>
    var calls: map<Tid, Call>

    constructor (pool: array<Word>, flag: Flag)
      ensures Value() == Init(pool[..]) && this.flag == flag && this.pool == pool
    {
      this.flag, this.pool := flag, pool;
      entry, inOffset, outOffset, receivers, senders, calls := 0, 0, 0, [], [], map[];
    }

    ghost function Value(): State
      reads this, pool
    {
      State(Ring(pool[..], entry, inOffset, outOffset), receivers, senders, calls)
    }

    /** rt_mb_send_wait, from one disabling of interrupts to the next enabling of them. */
    method SendSection(t: Tid, v: Word, prio: nat, timeout: int) returns (o: Outcome)
      requires ValidRing(Value().ring)
      modifies this, pool
      ensures (Value(), o) == SendPass(old(Value()), t, v, prio, timeout, flag)
    {
      if entry == pool.Length {
        if timeout == 0 {
          calls := calls - {t};
          return Full;
        }
        var k := FindPosition(Priorities(senders), prio, flag);
        senders := Insert(senders, k, Waiter(t, prio));
        calls := calls[t := Suspended(Send(v), prio, timeout)];
        return Waits;
      }
      pool[inOffset] := v;
      inOffset := inOffset + 1;
      if inOffset >= pool.Length { inOffset := 0; }
      entry := entry + 1;
      calls := calls - {t};
      if receivers != [] {
        calls := Wake(calls, receivers[0].tid, Ok);
        receivers := receivers[1..];
      }
      o := Sent;
    }

    /** rt_mb_recv, from one disabling of interrupts to the next enabling of them. */
    method RecvSection(t: Tid, prio: nat, timeout: int) returns (o: Outcome)
      requires ValidRing(Value().ring)
      modifies this
      ensures (Value(), o) == RecvPass(old(Value()), t, prio, timeout, flag)
    {
      if entry == 0 {
        if timeout == 0 {
          calls := calls - {t};
          return Error(TimedOut);
        }
        var k := FindPosition(Priorities(receivers), prio, flag);
        receivers := Insert(receivers, k, Waiter(t, prio));
        calls := calls[t := Suspended(Recv, prio, timeout)];
        return Waits;
      }
      o := Got(pool[outOffset]);
      outOffset := outOffset + 1;
      if outOffset >= pool.Length { outOffset := 0; }
      entry := entry - 1;
      calls := calls - {t};
      if senders != [] {
        calls := Wake(calls, senders[0].tid, Ok);
        senders := senders[1..];
      }
    }

    method ResetMailbox()
      modifies this
      ensures Value() == Reset(old(Value()))
    {
      while receivers != []
        invariant FailAll(receivers, calls) == FailAll(old(receivers), old(calls))
        invariant senders == old(senders)
        decreases |receivers|
      {
        calls := Wake(calls, receivers[0].tid, Failed);
        receivers := receivers[1..];
      }
      while senders != []
        invariant receivers == []
        invariant FailAll(senders, calls) == FailAll(old(senders), FailAll(old(receivers), old(calls)))
        decreases |senders|
      {
        calls := Wake(calls, senders[0].tid, Failed);
        senders := senders[1..];
      }
      entry, inOffset, outOffset := 0, 0, 0;
    }
  }
}
