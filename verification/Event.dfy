/** Event sets: rt_event_send, rt_event_recv and rt_event_control of src/ipc.c.

    Each section that runs with interrupts disabled is one step. A thread that was
    suspended in rt_event_recv and has been resumed, but has not run yet, is found in
    `results` with the value it will return.
  */
module Event {
  import opened IpcList
  import opened Sequences

  /** A 32-bit event word, as the set of the numbers of its bits. */
  type Bits = set<nat>
  type Tid = nat

  /** A suspended receiver: event_set and event_info. An option has the AND flag, or else
      the OR flag. */
  datatype Waiter = Waiter(tid: Tid, prio: nat, want: Bits, all: bool, clear: bool)

  datatype Outcome = Received(asked: Waiter, got: Bits) | TimedOut | Failed

  datatype State = State(events: Bits, waiting: seq<Waiter>, results: map<Tid, Outcome>)

  const Init := State({}, [], map[])

  predicate Satisfied(events: Bits, w: Waiter) {
    if w.all then w.want <= events else events * w.want != {}
  }


  function Priorities(ws: seq<Waiter>): (ps: seq<nat>)
    ensures |ps| == |ws| && forall i :: 0 <= i < |ws| ==> ps[i] == ws[i].prio
  {
    seq(|ws|, i requires 0 <= i < |ws| => ws[i].prio)
  }

  function Suspend(ws: seq<Waiter>, w: Waiter, flag: Flag): seq<Waiter> {
    Insert(ws, Position(Priorities(ws), w.prio, flag), w)
  }

  // ---------------------------------------------------------------- steps

  /** The scan of rt_event_send, from the first waiter on. */
  function Scan(events: Bits, ws: seq<Waiter>, results: map<Tid, Outcome>): State {
    if ws == [] then State(events, [], results)
    else
      var w := ws[0];
      if Satisfied(events, w) then
        Scan(if w.clear then events - events * w.want else events, ws[1..],
             results[w.tid := Received(w, events * w.want)])
      else
        var rest := Scan(events, ws[1..], results);
        rest.(waiting := [w] + rest.waiting)
  }

  function Send(s: State, bits: Bits): State {
    if bits == {} then s else Scan(s.events + bits, s.waiting, s.results)
  }

  /** rt_event_recv up to its return or its suspension; None means suspended. */
  function Recv(s: State, w: Waiter, flag: Flag, wait: bool): (State, Option<Outcome>) {
    if w.want == {} then (s, Some(Failed))
    else if Satisfied(s.events, w) then
      (s.(events := if w.clear then s.events - w.want else s.events), Some(Received(w, s.events * w.want)))
    else if !wait then (s, Some(TimedOut))
    else (s.(waiting := Suspend(s.waiting, w, flag)), None)
  }


  function WithoutThread(ws: seq<Waiter>, t: Tid): seq<Waiter> {
    if ws == [] then []
    else (if ws[0].tid == t then [] else [ws[0]]) + WithoutThread(ws[1..], t)
  }

  /** The thread timer expires in the wait. */
  function Expire(s: State, t: Tid): State {
    s.(waiting := WithoutThread(s.waiting, t), results := s.results[t := TimedOut])
  }

  function FailAll(ws: seq<Waiter>, results: map<Tid, Outcome>): map<Tid, Outcome> {
    if ws == [] then results else FailAll(ws[1..], results[ws[0].tid := Failed])
  }

  /** RT_IPC_CMD_RESET. */
  function Reset(s: State): State {
    State({}, [], FailAll(s.waiting, s.results))
  }

  datatype Step =
    | DoSend(bits: Bits)
    | DoRecv(w: Waiter, flag: Flag, wait: bool)
    | DoExpire(t: Tid)
    | DoReset
    | DoReturn(t: Tid)

  predicate Waiting(s: State, t: Tid) {
    exists i :: 0 <= i < |s.waiting| && s.waiting[i].tid == t
  }

  /** A thread inside rt_event_recv does not call it again; a timer expires only in a wait; a
      thread returns only once resumed. */
  predicate Enabled(s: State, step: Step) {
    match step
    case DoRecv(w, _, _) => !Waiting(s, w.tid) && w.tid !in s.results
    case DoExpire(t) => Waiting(s, t)
    case DoReturn(t) => t in s.results
    case _ => true
  }

  function Apply(s: State, step: Step): State {
    match step
    case DoSend(bits) => Send(s, bits)
    case DoRecv(w, flag, wait) => Recv(s, w, flag, wait).0
    case DoExpire(t) => Expire(s, t)
    case DoReset => Reset(s)
    case DoReturn(t) => s.(results := s.results - {t})
  }

  predicate Run(s: State, steps: seq<Step>)
    decreases |steps|
  {
    steps == [] || (Enabled(s, steps[0]) && Run(Apply(s, steps[0]), steps[1..]))
  }

  function After(s: State, steps: seq<Step>): State
    decreases |steps|
  {
    if steps == [] then s else After(Apply(s, steps[0]), steps[1..])
  }

  // ---------------------------------------------------------------- invariant

  predicate NoLostWakeUp(s: State) {
    forall w <- s.waiting :: w.want != {} && !Satisfied(s.events, w)
  }

  /** What a resumed receiver is told is a non-empty part of what it asked for, all of it for
      an AND receiver. */
  predicate Honest(o: Outcome) {
    o.Received? ==>
      && o.got != {}
      && o.got <= o.asked.want
      && (o.asked.all ==> o.got == o.asked.want)
  }

  predicate Inv(s: State) {
    && NoLostWakeUp(s)
    && (forall t <- s.results :: Honest(s.results[t]))
    && (forall i, j :: 0 <= i < j < |s.waiting| ==> s.waiting[i].tid != s.waiting[j].tid)
    && (forall w <- s.waiting :: w.tid !in s.results)
  }

  /** Taking bits away satisfies nobody. */
  lemma Antitone(big: Bits, small: Bits, w: Waiter)
    requires small <= big && !Satisfied(big, w)
    ensures !Satisfied(small, w)
  {
  }

  /** Scanning only takes bits away, keeps the order of those left, and leaves nobody waiting
      who is satisfied by what is left in the end, although CLEAR removes bits in mid-scan. */
  lemma {:induction false} ScanLeavesUnsatisfied(events: Bits, ws: seq<Waiter>, results: map<Tid, Outcome>)
    ensures var r := Scan(events, ws, results);
            && r.events <= events
            && (forall w <- r.waiting :: w in ws && !Satisfied(r.events, w))
  {
    if ws != [] {
      var w := ws[0];
      if Satisfied(events, w) {
        ScanLeavesUnsatisfied(if w.clear then events - events * w.want else events, ws[1..],
                              results[w.tid := Received(w, events * w.want)]);
      } else {
        ScanLeavesUnsatisfied(events, ws[1..], results);
        Antitone(events, Scan(events, ws[1..], results).events, w);
      }
    }
  }

  predicate Distinct(ws: seq<Waiter>) {
    forall i, j :: 0 <= i < j < |ws| ==> ws[i].tid != ws[j].tid
  }

  /** Every waiter either still waits or has been resumed with an honest result. */
  lemma {:induction false} ScanPartitions(events: Bits, ws: seq<Waiter>, results: map<Tid, Outcome>)
    requires Distinct(ws) && (forall w <- ws :: w.want != {} && w.tid !in results)
    requires forall t <- results :: Honest(results[t])
    ensures var r := Scan(events, ws, results);
            && Distinct(r.waiting)
            && (forall w <- r.waiting :: w in ws && w.tid !in r.results)
            && (forall t <- r.results :: Honest(r.results[t]))
            && (forall t <- results :: t in r.results && r.results[t] == results[t])
            && (forall w <- ws :: w in r.waiting || (w.tid in r.results && r.results[w.tid].Received?
                                                     && r.results[w.tid].asked == w))
  {
    if ws != [] {
      var w := ws[0];
      if Satisfied(events, w) {
        var got := events * w.want;
        assert Honest(Received(w, got));
        ScanPartitions(if w.clear then events - got else events, ws[1..], results[w.tid := Received(w, got)]);
      } else {
        ScanPartitions(events, ws[1..], results);
        ScanKeepsThread(events, ws[1..], results, w.tid);
      }
    }
  }

  /** The scan gives results only to waiters. */
  lemma {:induction false} ScanKeepsThread(events: Bits, ws: seq<Waiter>, results: map<Tid, Outcome>, t: Tid)
    requires t !in results && forall w <- ws :: w.tid != t
    ensures t !in Scan(events, ws, results).results
  {
    if ws != [] {
      var w := ws[0];
      if Satisfied(events, w) {
        ScanKeepsThread(if w.clear then events - events * w.want else events, ws[1..],
                        results[w.tid := Received(w, events * w.want)], t);
      } else {
        ScanKeepsThread(events, ws[1..], results, t);
      }
    }
  }

  lemma {:induction false} ScanAppend(events: Bits, a: seq<Waiter>, b: seq<Waiter>, results: map<Tid, Outcome>)
    ensures var first := Scan(events, a, results);
            var second := Scan(first.events, b, first.results);
            Scan(events, a + b, results) == second.(waiting := first.waiting + second.waiting)
  {
    if a == [] {
      assert a + b == b;
      assert [] + Scan(events, b, results).waiting == Scan(events, b, results).waiting;
    } else {
      var w := a[0];
      assert (a + b)[1..] == a[1..] + b;
      if Satisfied(events, w) {
        ScanAppend(if w.clear then events - events * w.want else events, a[1..], b,
                   results[w.tid := Received(w, events * w.want)]);
      } else {
        ScanAppend(events, a[1..], b, results);
        var first := Scan(events, a[1..], results);
        var second := Scan(first.events, b, first.results);
        assert [w] + (first.waiting + second.waiting) == ([w] + first.waiting) + second.waiting;
      }
    }
  }

  /** Who is resumed: the waiter at position i, exactly when the bits that the waiters before it
      have left satisfy it; and it is given those of its bits that are left. */
  lemma ScanDecides(events: Bits, ws: seq<Waiter>, i: nat)
    requires Distinct(ws) && i < |ws|
    ensures var left := Scan(events, ws[..i], map[]).events;
            var r := Scan(events, ws, map[]).results;
            && (ws[i].tid in r <==> Satisfied(left, ws[i]))
            && (Satisfied(left, ws[i]) ==> r[ws[i].tid] == Received(ws[i], left * ws[i].want))
  {
    var w := ws[i];
    var first := Scan(events, ws[..i], map[]);
    assert ws == ws[..i] + ([w] + ws[i + 1..]);
    ScanAppend(events, ws[..i], [w] + ws[i + 1..], map[]);
    ScanAppend(first.events, [w], ws[i + 1..], first.results);
    ScanKeepsThread(events, ws[..i], map[], w.tid);
    var mid := Scan(first.events, [w], first.results);
    assert Scan(mid.events, [], mid.results) == State(mid.events, [], mid.results);
    if Satisfied(first.events, w) {
      ScanKeepsResult(mid.events, ws[i + 1..], mid.results, w.tid);
    } else {
      ScanKeepsThread(mid.events, ws[i + 1..], mid.results, w.tid);
    }
  }

  lemma {:induction false} ScanKeepsResult(events: Bits, ws: seq<Waiter>, results: map<Tid, Outcome>, t: Tid)
    requires t in results && forall w <- ws :: w.tid != t
    ensures var r := Scan(events, ws, results).results; t in r && r[t] == results[t]
  {
    if ws != [] {
      var w := ws[0];
      if Satisfied(events, w) {
        ScanKeepsResult(if w.clear then events - events * w.want else events, ws[1..],
                        results[w.tid := Received(w, events * w.want)], t);
      } else {
        ScanKeepsResult(events, ws[1..], results, t);
      }
    }
  }

  /** w has been resumed, with CLEAR, by bit b among others. */
  predicate Took(results: map<Tid, Outcome>, w: Waiter, b: nat) {
    w.clear && w.tid in results && results[w.tid].Received? && b in results[w.tid].got
  }

  /** Conservation: a bit that was set is gone after the scan exactly when some resumed waiter
      took it, and no two waiters ever take the same bit. */
  lemma {:induction false} ScanConserves(events: Bits, ws: seq<Waiter>, results: map<Tid, Outcome>, b: nat)
    requires Distinct(ws) && (forall w <- ws :: w.tid !in results) && b in events
    ensures var r := Scan(events, ws, results);
            && (b !in r.events <==> exists w <- ws :: Took(r.results, w, b))
            && (forall v, w :: v in ws && w in ws && Took(r.results, v, b) && Took(r.results, w, b) ==> v == w)
  {
    if ws != [] {
      var w, rest := ws[0], ws[1..];
      var r := Scan(events, ws, results);
      if Satisfied(events, w) {
        var left := if w.clear then events - events * w.want else events;
        var told := results[w.tid := Received(w, events * w.want)];
        ScanKeepsResult(left, rest, told, w.tid);
        if b in left {
          ScanConserves(left, rest, told, b);
          assert !Took(r.results, w, b);
        } else {
          NeverTaken(left, rest, told, b);
          assert Took(r.results, w, b);
        }
      } else {
        ScanConserves(events, rest, results, b);
        ScanKeepsThread(events, rest, results, w.tid);
      }
    }
  }

  lemma {:induction false} NeverTaken(events: Bits, ws: seq<Waiter>, results: map<Tid, Outcome>, b: nat)
    requires Distinct(ws) && (forall w <- ws :: w.tid !in results) && b !in events
    ensures var r := Scan(events, ws, results);
            b !in r.events && forall w <- ws :: !Took(r.results, w, b)
  {
    if ws != [] {
      var w, rest := ws[0], ws[1..];
      if Satisfied(events, w) {
        var left := if w.clear then events - events * w.want else events;
        var told := results[w.tid := Received(w, events * w.want)];
        NeverTaken(left, rest, told, b);
        ScanKeepsResult(left, rest, told, w.tid);
      } else {
        NeverTaken(events, rest, results, b);
        ScanKeepsThread(events, rest, results, w.tid);
      }
    }
  }

  lemma ThreadsRest(ws: seq<Waiter>)
    requires Distinct(ws) && ws != []
    ensures Distinct(ws[1..]) && (forall w <- ws[1..] :: w.tid != ws[0].tid)
    ensures forall w :: w in ws <==> w == ws[0] || w in ws[1..]
  {
    assert ws == [ws[0]] + ws[1..];
  }

  lemma ThreadsFirst(w: Waiter, ws: seq<Waiter>)
    requires Distinct(ws) && forall v <- ws :: v.tid != w.tid
    ensures Distinct([w] + ws)
  {
    var r := [w] + ws;
    assert forall i :: 0 < i < |r| ==> r[i] == ws[i - 1] && ws[i - 1] in ws;
  }

  lemma {:induction false} RemovalIsSubset(ws: seq<Waiter>, t: Tid)
    requires Distinct(ws)
    ensures var r := WithoutThread(ws, t);
            && Distinct(r)
            && (forall w :: w in r <==> w in ws && w.tid != t)
  {
    hide Distinct;
    if ws != [] {
      var rest, r := ws[1..], WithoutThread(ws[1..], t);
      ThreadsRest(ws);
      RemovalIsSubset(rest, t);
      assert [] + r == r;
      if ws[0].tid != t { ThreadsFirst(ws[0], r); }
    }
  }

  lemma {:induction false} FailAllFails(ws: seq<Waiter>, results: map<Tid, Outcome>)
    requires forall t <- results :: Honest(results[t])
    ensures forall t <- FailAll(ws, results) :: Honest(FailAll(ws, results)[t])
    ensures forall w <- ws :: w.tid in FailAll(ws, results)
    ensures forall t <- results :: t in FailAll(ws, results)
  {
    if ws != [] {
      FailAllFails(ws[1..], results[ws[0].tid := Failed]);
    }
  }

  lemma ScanNone(events: Bits, results: map<Tid, Outcome>)
    ensures Scan(events, [], results) == State(events, [], results)
  {
  }

  lemma ScanOne(events: Bits, w: Waiter, results: map<Tid, Outcome>)
    ensures Scan(events, [w], results) ==
            if Satisfied(events, w) then
              State(if w.clear then events - events * w.want else events, [], results[w.tid := Received(w, events * w.want)])
            else State(events, [w], results)
  {
    var set1 := if w.clear then events - events * w.want else events;
    assert Scan(set1, [], results[w.tid := Received(w, events * w.want)]) == State(set1, [], results[w.tid := Received(w, events * w.want)]);
    assert Scan(events, [], results) == State(events, [], results);
  }

  lemma ScanNext(events: Bits, ws: seq<Waiter>, k: nat, results: map<Tid, Outcome>)
    requires k < |ws|
    ensures var s, w := Scan(events, ws[..k], results), ws[k];
            Scan(events, ws[..k + 1], results) ==
              if Satisfied(s.events, w) then
                State(if w.clear then s.events - s.events * w.want else s.events, s.waiting,
                      s.results[w.tid := Received(w, s.events * w.want)])
              else State(s.events, s.waiting + [w], s.results)
  {
    hide Scan, Satisfied;
    var s, w := Scan(events, ws[..k], results), ws[k];
    assert ws[..k + 1] == ws[..k] + [w];
    ScanAppend(events, ws[..k], [w], results);
    ScanOne(s.events, w, s.results);
    assert s.waiting + [] == s.waiting;
  }

  lemma StepKeepsInv(s: State, step: Step)
    requires Inv(s) && Enabled(s, step)
    ensures Inv(Apply(s, step))
  {
    match step
    case DoSend(bits) =>
      if bits != {} {
        ScanLeavesUnsatisfied(s.events + bits, s.waiting, s.results);
        ScanPartitions(s.events + bits, s.waiting, s.results);
      }
    case DoRecv(w, flag, wait) => RecvKeepsInv(s, w, flag, wait);
    case DoExpire(t) => RemovalIsSubset(s.waiting, t);
    case DoReset => FailAllFails(s.waiting, s.results);
    case DoReturn(t) =>
  }

  lemma TakenIsHonest(events: Bits, w: Waiter)
    requires w.want != {} && Satisfied(events, w)
    ensures Honest(Received(w, events * w.want))
  {
  }

  lemma SuspendKeepsInv(s: State, w: Waiter, flag: Flag)
    requires Inv(s) && !Waiting(s, w.tid) && w.tid !in s.results && w.want != {} && !Satisfied(s.events, w)
    ensures Inv(s.(waiting := Suspend(s.waiting, w, flag)))
  {
    hide Satisfied, Insert, Position, Priorities, Honest;
    var k := Position(Priorities(s.waiting), w.prio, flag);
    InsertIs(s.waiting, k, w);
    assert Suspend(s.waiting, w, flag) == Insert(s.waiting, k, w);
  }

  lemma InsertIs(ws: seq<Waiter>, k: nat, w: Waiter)
    requires k <= |ws| && (forall v <- ws :: v.tid != w.tid)
    requires forall i, j :: 0 <= i < j < |ws| ==> ws[i].tid != ws[j].tid
    ensures var r := Insert(ws, k, w);
            && (forall v :: v in r <==> v in ws || v == w)
            && (forall i, j :: 0 <= i < j < |r| ==> r[i].tid != r[j].tid)
  {
    var r := Insert(ws, k, w);
    hide Insert;
    assert forall i :: 0 <= i < |ws| ==> ws[i] in ws;
  }

  lemma RecvKeepsInv(s: State, w: Waiter, flag: Flag, wait: bool)
    requires Inv(s) && !Waiting(s, w.tid) && w.tid !in s.results
    ensures Inv(Recv(s, w, flag, wait).0)
    ensures var r := Recv(s, w, flag, wait).1; r.Some? ==> Honest(r.value)
  {
    hide Satisfied, Insert, Position, Priorities, Suspend;
    var r := Recv(s, w, flag, wait).0;
    if w.want == {} {
    } else if Satisfied(s.events, w) {
      TakenIsHonest(s.events, w);
      forall v <- s.waiting
        ensures !Satisfied(r.events, v)
      {
        Antitone(s.events, r.events, v);
      }
    } else if wait {
      SuspendKeepsInv(s, w, flag);
    }
  }

  /** No wake-up is ever lost: whatever threads send, receive, time out and reset, in whatever
      order, nobody is left waiting for a condition that holds, and nobody is told of bits it did
      not ask for or of none at all. */
  lemma {:induction false} RunsKeepInv(s: State, steps: seq<Step>)
    requires Inv(s) && Run(s, steps)
    ensures Inv(After(s, steps))
    decreases |steps|
  {
    if steps != [] {
      StepKeepsInv(s, steps[0]);
      RunsKeepInv(Apply(s, steps[0]), steps[1..]);
    }
  }

  /** From rt_event_init on. */
  lemma NoWakeUpIsLost(steps: seq<Step>)
    requires Run(Init, steps)
    ensures Inv(After(Init, steps))
  {
    RunsKeepInv(Init, steps);
  }

  // ---------------------------------------------------------------- which bits are set

  predicate Sends(step: Step, b: nat) {
    step.DoSend? && b in step.bits
  }

  /** A receiver with CLEAR takes the bit in this step: one that is woken, or one that need not wait. */
  predicate Takes(s: State, step: Step, b: nat) {
    match step
    case DoSend(bits) => exists w <- s.waiting :: Took(Send(s, bits).results, w, b)
    case DoRecv(w, flag, wait) => w.clear && w.want != {} && Satisfied(s.events, w) && b in s.events && b in w.want
    case _ => false
  }

  lemma SendSets(s: State, bits: Bits, b: nat)
    requires Inv(s)
    ensures b in Send(s, bits).events <==>
              (b in s.events || b in bits) && !exists w <- s.waiting :: Took(Send(s, bits).results, w, b)
  {
    if bits == {} {
      assert forall w <- s.waiting :: !Took(s.results, w, b);
    } else if b in s.events + bits {
      ScanConserves(s.events + bits, s.waiting, s.results, b);
    } else {
      ScanLeavesUnsatisfied(s.events + bits, s.waiting, s.results);
    }
  }

  /** A bit is set after a step exactly if it was set or is sent now, and the step is no reset, and nobody takes
      the bit. */
  lemma StepSets(s: State, step: Step, b: nat)
    requires Inv(s) && Enabled(s, step)
    ensures b in Apply(s, step).events <==> !step.DoReset? && (b in s.events || Sends(step, b)) && !Takes(s, step, b)
  {
    hide Inv, Scan, Insert, Position, Priorities;
    if step.DoSend? { SendSets(s, step.bits, b); }
  }

  /** The bit is sent in step i, and from then on there is no reset and nobody takes it. */
  ghost predicate Lasts(s: State, steps: seq<Step>, i: nat, b: nat) {
    && i < |steps| && Sends(steps[i], b)
    && forall j :: i <= j < |steps| ==> !steps[j].DoReset? && !Takes(After(s, steps[..j]), steps[j], b)
  }

  lemma {:induction false} RunAppend(s: State, a: seq<Step>, b: seq<Step>)
    ensures After(s, a + b) == After(After(s, a), b)
    ensures Run(s, a + b) <==> Run(s, a) && Run(After(s, a), b)
    decreases |a|
  {
    if a == [] {
      assert a + b == b;
    } else {
      assert (a + b)[0] == a[0] && (a + b)[1..] == a[1..] + b;
      hide Enabled, Apply;
      RunAppend(Apply(s, a[0]), a[1..], b);
    }
  }

  lemma LastStep(s: State, steps: seq<Step>)
    requires steps != [] && Run(s, steps)
    ensures var n := |steps| - 1;
            var r := After(s, steps[..n]);
            Run(s, steps[..n]) && Enabled(r, steps[n]) && After(s, steps) == Apply(r, steps[n])
  {
    var n := |steps| - 1;
    assert steps == steps[..n] + [steps[n]];
    RunAppend(s, steps[..n], [steps[n]]);
    var r := After(s, steps[..n]);
    assert After(Apply(r, steps[n]), [steps[n]][1..]) == Apply(r, steps[n]);
  }

  lemma LastsLonger(s: State, steps: seq<Step>, i: nat, b: nat)
    requires steps != []
    ensures var n := |steps| - 1;
            Lasts(s, steps, i, b) <==>
              && (Lasts(s, steps[..n], i, b) || (i == n && Sends(steps[n], b)))
              && !steps[n].DoReset? && !Takes(After(s, steps[..n]), steps[n], b)
  {
    hide Sends, Takes, After;
    var n := |steps| - 1;
    var rest := steps[..n];
    forall j | 0 <= j <= n
      ensures steps[..n][..j] == steps[..j]
    {
    }
    assert forall j :: 0 <= j < n ==> rest[j] == steps[j];
    if Lasts(s, steps, i, b) && i < n {
      assert forall j :: i <= j < n ==> !rest[j].DoReset? && !Takes(After(s, rest[..j]), rest[j], b);
    }
  }

  /** Over all runs: a bit is set exactly if some thread has sent it, and since then, that step included, nobody has
      reset the events and no receiver with CLEAR has taken the bit. */
  lemma {:induction false} EventsAre(steps: seq<Step>, b: nat)
    requires Run(Init, steps)
    ensures b in After(Init, steps).events <==> exists i: nat :: Lasts(Init, steps, i, b)
    decreases |steps|
  {
    if steps != [] {
      hide Inv, Run, After, Apply, Enabled, Takes, Lasts;
      var n := |steps| - 1;
      LastStep(Init, steps);
      EventsAre(steps[..n], b);
      NoWakeUpIsLost(steps[..n]);
      StepSets(After(Init, steps[..n]), steps[n], b);
      forall i: nat
        ensures Lasts(Init, steps, i, b) <==>
                  && (Lasts(Init, steps[..n], i, b) || (i == n && Sends(steps[n], b)))
                  && !steps[n].DoReset? && !Takes(After(Init, steps[..n]), steps[n], b)
      {
        LastsLonger(Init, steps, i, b);
      }
      if b in After(Init, steps).events && Sends(steps[n], b) { assert Lasts(Init, steps, n, b); }
    }
  }

  // ---------------------------------------------------------------- what the receivers are told

  datatype Fate = Open | Expired | Cancelled

  /** What a thread has asked for, in its own words, and what has become of its wait. */
  datatype Request = Request(w: Waiter, fate: Fate)

  function Ask(k: map<Tid, Request>, s: State, step: Step): map<Tid, Request> {
    match step
    case DoRecv(w, _, _) => k[w.tid := Request(w, Open)]
    case DoExpire(t) => if t in k then k[t := k[t].(fate := Expired)] else k
    case DoReset => map t <- k :: if Waiting(s, t) then k[t].(fate := Cancelled) else k[t]
    case _ => k
  }

  function Asked(k: map<Tid, Request>, s: State, steps: seq<Step>): map<Tid, Request>
    decreases |steps|
  {
    if steps == [] then k else Asked(Ask(k, s, steps[0]), Apply(s, steps[0]), steps[1..])
  }

  /** Threads wait for what they have asked for; those that have been resumed are told what has happened. */
  ghost predicate AsAsked(s: State, k: map<Tid, Request>) {
    && (forall w <- s.waiting :: w.tid in k && k[w.tid] == Request(w, Open))
    && (forall t <- s.results :: t in k &&
          match s.results[t]
          case Received(asked, _) => k[t] == Request(asked, Open)
          case TimedOut => k[t].fate == Expired
          case Failed => k[t].fate == Cancelled)
  }

  lemma {:induction false} ScanTells(events: Bits, ws: seq<Waiter>, results: map<Tid, Outcome>, t: Tid)
    ensures var r := Scan(events, ws, results).results;
            t in r ==> (t in results && r[t] == results[t]) || (r[t].Received? && r[t].asked in ws && r[t].asked.tid == t)
  {
    if ws != [] {
      var w, rest := ws[0], ws[1..];
      if Satisfied(events, w) {
        ScanTells(if w.clear then events - events * w.want else events, rest, results[w.tid := Received(w, events * w.want)], t);
      } else {
        ScanTells(events, rest, results, t);
      }
    }
  }

  predicate Names(ws: seq<Waiter>, t: Tid) {
    exists w <- ws :: w.tid == t
  }

  lemma {:induction false} FailAllIs(ws: seq<Waiter>, results: map<Tid, Outcome>, t: Tid)
    ensures var r := FailAll(ws, results);
            && (t in r <==> t in results || Names(ws, t))
            && (t in r ==> r[t] == if Names(ws, t) then Failed else results[t])
  {
    if ws != [] {
      FailAllIs(ws[1..], results[ws[0].tid := Failed], t);
      NamesRest(ws, t);
    }
  }

  lemma NamesRest(ws: seq<Waiter>, t: Tid)
    requires ws != []
    ensures Names(ws, t) <==> ws[0].tid == t || Names(ws[1..], t)
  {
    assert ws == [ws[0]] + ws[1..];
    assert ws[0] in ws;
    if Names(ws[1..], t) {
      var w :| w in ws[1..] && w.tid == t;
      assert w in ws;
    }
  }

  lemma StepAsAsked(s: State, k: map<Tid, Request>, step: Step)
    requires Inv(s) && Enabled(s, step) && AsAsked(s, k)
    ensures AsAsked(Apply(s, step), Ask(k, s, step))
  {
    var r := Apply(s, step);
    match step
    case DoSend(bits) =>
      if bits != {} {
        hide Inv, Scan;
        ScanLeavesUnsatisfied(s.events + bits, s.waiting, s.results);
        forall t | t in r.results
          ensures (t in s.results && r.results[t] == s.results[t])
                  || (r.results[t].Received? && r.results[t].asked in s.waiting && r.results[t].asked.tid == t)
        {
          ScanTells(s.events + bits, s.waiting, s.results, t);
        }
      }
    case DoRecv(w, flag, wait) => RecvAsAsked(s, k, w, flag, wait);
    case DoExpire(t) => RemovalIsSubset(s.waiting, t);
    case DoReset => ResetAsAsked(s, k);
    case DoReturn(t) =>
  }

  lemma ResetAsAsked(s: State, k: map<Tid, Request>)
    requires Inv(s) && AsAsked(s, k)
    ensures AsAsked(Reset(s), Ask(k, s, DoReset))
  {
    hide FailAll, Satisfied, Honest;
    forall t
      ensures Waiting(s, t) <==> Names(s.waiting, t)
      ensures var r := FailAll(s.waiting, s.results);
              && (t in r <==> t in s.results || Names(s.waiting, t))
              && (t in r ==> r[t] == if Names(s.waiting, t) then Failed else s.results[t])
    {
      FailAllIs(s.waiting, s.results, t);
      if Waiting(s, t) {
        var i :| 0 <= i < |s.waiting| && s.waiting[i].tid == t;
        assert s.waiting[i] in s.waiting;
      }
    }
  }

  lemma RecvAsAsked(s: State, k: map<Tid, Request>, w: Waiter, flag: Flag, wait: bool)
    requires Inv(s) && AsAsked(s, k) && !Waiting(s, w.tid) && w.tid !in s.results
    ensures AsAsked(Recv(s, w, flag, wait).0, k[w.tid := Request(w, Open)])
  {
    hide Satisfied, Insert, Position, Priorities, Honest;
    var j := Position(Priorities(s.waiting), w.prio, flag);
    InsertIs(s.waiting, j, w);
    assert Suspend(s.waiting, w, flag) == Insert(s.waiting, j, w);
    assert forall v <- s.waiting :: v.tid != w.tid;
  }

  /** Over all runs: each thread waits for the very bits, with the very options, that it has asked for; and when it is
      resumed it is told that it has received some of these, or that its time is over, or that the events have been
      reset while it waited, whichever has happened. */
  lemma {:induction false} RunsAsAsked(s: State, k: map<Tid, Request>, steps: seq<Step>)
    requires Inv(s) && AsAsked(s, k) && Run(s, steps)
    ensures AsAsked(After(s, steps), Asked(k, s, steps))
    decreases |steps|
  {
    if steps != [] {
      hide Inv, AsAsked, Apply, Ask, Enabled;
      StepKeepsInv(s, steps[0]);
      StepAsAsked(s, k, steps[0]);
      RunsAsAsked(Apply(s, steps[0]), Ask(k, s, steps[0]), steps[1..]);
    }
  }

  /** A receiver goes behind all others under FIFO; under PRIO, in a list that is in order, behind those that are no worse
      and before those that are, so that the list stays in order. */
  lemma SuspendPlaces(ws: seq<Waiter>, w: Waiter, flag: Flag)
    ensures flag.Fifo? ==> Suspend(ws, w, flag) == ws + [w]
    ensures flag.Prio? && Sorted(Priorities(ws)) ==>
              && Sorted(Priorities(Suspend(ws, w, flag)))
              && exists k :: && 0 <= k <= |ws| && Suspend(ws, w, flag) == ws[..k] + [w] + ws[k..]
                             && (forall i :: 0 <= i < |ws| ==> (i < k <==> ws[i].prio <= w.prio))
  {
    var k := Position(Priorities(ws), w.prio, flag);
    if flag.Prio? && Sorted(Priorities(ws)) {
      InsertKeepsSorted(Priorities(ws), w.prio);
      hide Position, Sorted;
      assert Priorities(Insert(ws, k, w)) == Insert(Priorities(ws), k, w.prio);
      assert Suspend(ws, w, flag) == ws[..k] + [w] + ws[k..];
    }
  }

  /** With AND every bit asked for has to be set, with OR any one. */
  lemma SatisfiedIff(events: Bits, w: Waiter)
    ensures Satisfied(events, w) <==> if w.all then forall b <- w.want :: b in events else exists b <- w.want :: b in events
  {
    if !w.all && events * w.want != {} {
      var b :| b in events * w.want;
      assert b in w.want && b in events;
    }
    if b :| b in w.want && b in events {
      assert b in events * w.want;
    }
  }

  /** A receiver is told at once that it asked for nothing, or gets the bits that are set of those it wants if they
      satisfy it; otherwise it is told at once that there are none if it does not wait, and waits if it does. */
  lemma RecvAnswers(s: State, w: Waiter, flag: Flag, wait: bool)
    requires Inv(s) && !Waiting(s, w.tid) && w.tid !in s.results
    ensures var (r, o) := Recv(s, w, flag, wait);
            && (o == Some(Failed) <==> w.want == {})
            && (o == Some(TimedOut) <==> w.want != {} && !Satisfied(s.events, w) && !wait)
            && (o == None <==> w.want != {} && !Satisfied(s.events, w) && wait)
            && (o.Some? && o.value.Received? ==> o.value.asked == w && forall b :: b in o.value.got <==> b in s.events && b in w.want)
            && (Waiting(r, w.tid) <==> o == None)
            && r.results == s.results && (o.Some? ==> r.waiting == s.waiting) && (o == None ==> r.events == s.events)
  {
    hide Satisfied, Insert, Position, Priorities;
    var j := Position(Priorities(s.waiting), w.prio, flag);
    var ws := Insert(s.waiting, j, w);
    InsertIs(s.waiting, j, w);
    assert Suspend(s.waiting, w, flag) == ws;
    assert w in ws;
    var i :| 0 <= i < |ws| && ws[i] == w;
    assert ws[i].tid == w.tid;
  }

  // ---------------------------------------------------------------- the object

  class EventObject {
    const flag: Flag
    var events: Bits
    var waiting: seq<Waiter>
    var results: map<Tid, Outcome>

    constructor (flag: Flag)
      ensures Value() == Init && this.flag == flag
    {
      this.flag := flag;
      events, waiting, results := {}, [], map[];
    }

    ghost function Value(): State
      reads this
    {
      State(events, waiting, results)
    }

    method SendBits(bits: Bits) returns (ok: bool)
      modifies this
      ensures ok == (bits != {}) && Value() == Send(old(Value()), bits)
    {
      hide Scan;
      ScanNone(events + bits, results);
      if bits == {} { return false; }
      events := events + bits;
      var n := 0;
      ghost var scanned, ws := 0, waiting;
      while n < |waiting|
        invariant n <= |waiting| && scanned <= |ws|
        invariant waiting[n..] == ws[scanned..]
        invariant State(events, waiting[..n], results) == Scan(old(events) + bits, ws[..scanned], old(results))
        decreases |ws| - scanned
      {
        var w := waiting[n];
        ghost var left := waiting[..n];
        assert ws[scanned] == w;
        ScanNext(old(events) + bits, ws, scanned, old(results));
        if (w.all && w.want <= events) || (!w.all && events * w.want != {}) {
          results := results[w.tid := Received(w, events * w.want)];
          if w.clear {
            events := events - events * w.want;
          }
          ghost var after := waiting[n + 1..];
          waiting := waiting[..n] + waiting[n + 1..];
          assert waiting[..n] == left && waiting[n..] == after;
          assert after == ws[scanned..][1..];
        } else {
          assert waiting[..n + 1] == left + [w];
          assert waiting[n + 1..] == ws[scanned..][1..];
          n := n + 1;
        }
        assert ws[scanned..][1..] == ws[scanned + 1..];
        scanned := scanned + 1;
      }
      assert ws[..scanned] == ws && waiting[..n] == waiting;
      ok := true;
    }

    method Receive(w: Waiter, wait: bool) returns (outcome: Option<Outcome>)
      modifies this
      ensures (Value(), outcome) == Recv(old(Value()), w, flag, wait)
    {
      if w.want == {} { return Some(Failed); }
      var ok := if w.all then w.want <= events else events * w.want != {};
      if ok {
        outcome := Some(Received(w, events * w.want));
        if w.clear {
          events := events - w.want;
        }
      } else if !wait {
        outcome := Some(TimedOut);
      } else {
        var k := FindPosition(Priorities(waiting), w.prio, flag);
        waiting := Insert(waiting, k, w);
        outcome := None;
      }
    }

    method ResetEvent()
      modifies this
      ensures Value() == Reset(old(Value()))
    {
      while waiting != []
        invariant FailAll(waiting, results) == FailAll(old(waiting), old(results))
        decreases |waiting|
      {
        results := results[waiting[0].tid := Failed];
        waiting := waiting[1..];
      }
      events := {};
    }
  }
}
