/** Mutexes with priority inheritance: rt_mutex_take and rt_mutex_release of src/ipc.c, with the
    thread time-out of src/thread.c.

    Each section that runs with interrupts disabled is one step, and any thread that is not
    suspended may take the next one. `time` is the waiting time: 0 does not wait, a positive time
    starts the thread timer, a negative one waits forever.
  */
module Mutex {
  import opened IpcList
  import opened Sequences

  type Tid = nat

  datatype Error = Ok | TimedOut | Failed

  /** Where a thread is: outside rt_mutex_take, suspended in it, or put back on the ready list but
      still inside it. */
  datatype Place = Outside | Suspended(timed: bool) | Resumed

  datatype Thread = Thread(prio: nat, error: Error, place: Place)

  datatype State = State(
    value: nat, owner: Option<Tid>, hold: nat, original: nat, waiters: seq<Tid>, threads: map<Tid, Thread>)

  /** `hold` is an 8-bit counter. */
  const HOLD_LIMIT := 256
  const NO_PRIORITY := 0xff

  function Up(hold: nat): nat { if hold + 1 == HOLD_LIMIT then 0 else hold + 1 }

  function Down(hold: nat): nat { if hold == 0 then HOLD_LIMIT - 1 else hold - 1 }

  function Init(base: map<Tid, nat>): State {
    State(1, None, 0, NO_PRIORITY, [], map t | t in base :: Thread(base[t], Ok, Outside))
  }

  function PrioOf(threads: map<Tid, Thread>, t: Tid): nat {
    if t in threads then threads[t].prio else 0
  }

  function Priorities(ws: seq<Tid>, threads: map<Tid, Thread>): (ps: seq<nat>)
    ensures |ps| == |ws| && forall i :: 0 <= i < |ws| ==> ps[i] == PrioOf(threads, ws[i])
  {
    seq(|ws|, i requires 0 <= i < |ws| => PrioOf(threads, ws[i]))
  }

  // ---------------------------------------------------------------- steps

  function SetError(s: State, t: Tid, e: Error): State
    requires t in s.threads
  {
    s.(threads := s.threads[t := s.threads[t].(error := e)])
  }

  /** The owner's priority is raised to p when p is better. */
  function Boost(s: State, p: nat): State {
    match s.owner
    case Some(o) =>
      if o in s.threads && p < s.threads[o].prio then
        s.(threads := s.threads[o := s.threads[o].(prio := p)])
      else s
    case None => s
  }

  function Suspend(s: State, t: Tid, timed: bool, flag: Flag): State
    requires t in s.threads
  {
    var k := Position(Priorities(s.waiters, s.threads), s.threads[t].prio, flag);
    s.(waiters := Insert(s.waiters, k, t),
       threads := s.threads[t := s.threads[t].(place := Suspended(timed))])
  }

  /** rt_mutex_take up to its return or its suspension; None means suspended. */
  function Take(s0: State, t: Tid, time: int, flag: Flag): (State, Option<Error>)
    requires t in s0.threads
  {
    var s := SetError(s0, t, Ok);
    if s.owner == Some(t) then (s.(hold := Up(s.hold)), Some(Ok))
    else if s.value > 0 then
      (s.(value := s.value - 1, owner := Some(t), original := s.threads[t].prio,
          hold := Up(s.hold)), Some(Ok))
    else if time == 0 then (SetError(s, t, TimedOut), Some(TimedOut))
    else (Suspend(Boost(s, s.threads[t].prio), t, time > 0, flag), None)
  }

  /** The end of the last hold: the owner gets its priority back, and the first waiter the mutex. */
  function HandOff(s: State, t: Tid): State
    requires t in s.threads
  {
    var threads := s.threads[t := s.threads[t].(prio := s.original)];
    if s.waiters != [] && s.waiters[0] in threads then
      var w := s.waiters[0];
      s.(owner := Some(w), original := threads[w].prio, hold := Up(s.hold),
         waiters := s.waiters[1..], threads := threads[w := threads[w].(place := Resumed)])
    else
      s.(value := s.value + 1, owner := None, original := NO_PRIORITY, threads := threads)
  }

  function Release(s: State, t: Tid): (State, Error)
    requires t in s.threads
  {
    if s.owner != Some(t) then (SetError(s, t, Failed), Failed)
    else
      var s1 := s.(hold := Down(s.hold));
      (if s1.hold == 0 then HandOff(s1, t) else s1, Ok)
  }

  /** rt_thread_timeout. */
  function Expire(s: State, t: Tid): State
    requires t in s.threads
  {
    s.(waiters := Without(s.waiters, t),
       threads := s.threads[t := s.threads[t].(error := TimedOut, place := Resumed)])
  }

  /** The rest of a rt_mutex_take that has been suspended: it returns the thread's error. */
  function Return(s: State, t: Tid): (State, Error)
    requires t in s.threads
  {
    (s.(threads := s.threads[t := s.threads[t].(place := Outside)]), s.threads[t].error)
  }

  datatype Step =
    | DoTake(t: Tid, time: int)
    | DoRelease(t: Tid)
    | DoExpire(t: Tid)
    | DoReturn(t: Tid)

  predicate Enabled(s: State, step: Step) {
    && step.t in s.threads
    && match step
       case DoTake(t, _) => s.threads[t].place == Outside
       case DoRelease(t) => s.threads[t].place == Outside
       case DoExpire(t) => s.threads[t].place == Suspended(true)
       case DoReturn(t) => s.threads[t].place == Resumed
  }

  /** The owner takes the mutex once more than the counter can say. */
  predicate Overflows(s: State, step: Step) {
    step.DoTake? && s.owner == Some(step.t) && s.hold == HOLD_LIMIT - 1
  }

  function Apply(s: State, step: Step, flag: Flag): State
    requires step.t in s.threads
  {
    match step
    case DoTake(t, time) => Take(s, t, time, flag).0
    case DoRelease(t) => Release(s, t).0
    case DoExpire(t) => Expire(s, t)
    case DoReturn(t) => Return(s, t).0
  }

  /** How many more takes than releases the step completes with success, for its thread. */
  function Gain(s: State, step: Step, flag: Flag): int
    requires step.t in s.threads
  {
    match step
    case DoTake(t, time) => if Take(s, t, time, flag).1 == Some(Ok) then 1 else 0
    case DoRelease(t) => if Release(s, t).1 == Ok then -1 else 0
    case DoExpire(_) => 0
    case DoReturn(t) => if Return(s, t).1 == Ok then 1 else 0
  }

  predicate Run(s: State, steps: seq<Step>, flag: Flag)
    decreases |steps|
  {
    steps == [] ||
    (Enabled(s, steps[0]) && !Overflows(s, steps[0]) && Run(Apply(s, steps[0], flag), steps[1..], flag))
  }

  function After(s: State, steps: seq<Step>, flag: Flag): State
    requires Run(s, steps, flag)
    decreases |steps|
  {
    if steps == [] then s else After(Apply(s, steps[0], flag), steps[1..], flag)
  }

  /** Completed takes minus completed releases of thread t. */
  function Net(s: State, steps: seq<Step>, flag: Flag, t: Tid): int
    requires Run(s, steps, flag)
    decreases |steps|
  {
    if steps == [] then 0
    else (if steps[0].t == t then Gain(s, steps[0], flag) else 0)
         + Net(Apply(s, steps[0], flag), steps[1..], flag, t)
  }

  // ---------------------------------------------------------------- invariants

  predicate Counters(s: State) {
    && (s.value == 1 || s.value == 0)
    && (s.value == 1 <==> s.owner == None)
    && (s.value == 1 <==> s.hold == 0)
    && s.hold < HOLD_LIMIT
    && (s.owner == None ==> s.waiters == [] && s.original == NO_PRIORITY)
  }

  predicate WaitList(s: State) {
    && Distinct(s.waiters)
    && (forall t <- s.waiters :: t in s.threads)
    && (forall t <- s.threads :: t in s.waiters <==> s.threads[t].place.Suspended?)
  }

  /** A suspended take has no error yet; one that is about to return is told Ok when its thread is the owner, and
      that its time is over otherwise. */
  predicate Told(s: State) {
    && (s.owner.Some? ==> s.owner.value in s.threads)
    && (forall t <- s.threads :: s.threads[t].place.Suspended? ==> s.threads[t].error == Ok && s.owner != Some(t))
    && (forall t <- s.threads :: s.threads[t].place == Resumed ==>
          s.threads[t].error == if s.owner == Some(t) then Ok else TimedOut)
  }

  /** Only the owner runs at another priority than its own, and that one is remembered. */
  predicate Borrowed(s: State, base: map<Tid, nat>) {
    && s.threads.Keys == base.Keys
    && (forall t <- s.threads :: s.owner != Some(t) ==> s.threads[t].prio == base[t])
    && (s.owner.Some? && s.owner.value in base ==> s.original == base[s.owner.value]
                                                    && s.threads[s.owner.value].prio <= s.original)
  }

  /** What holds under both flags. */
  predicate Inv(s: State, base: map<Tid, nat>) {
    Counters(s) && WaitList(s) && Told(s) && Borrowed(s, base)
  }

  /** No priority inversion: the owner is never worse than anybody it keeps waiting. */
  predicate Inherits(s: State) {
    s.owner.Some? ==> forall t <- s.waiters :: PrioOf(s.threads, s.owner.value) <= PrioOf(s.threads, t)
  }

  predicate InOrder(ws: seq<Tid>, threads: map<Tid, Thread>) {
    forall i, j :: 0 <= i < j < |ws| ==> PrioOf(threads, ws[i]) <= PrioOf(threads, ws[j])
  }

  predicate PrioInv(s: State) {
    InOrder(s.waiters, s.threads) && Inherits(s)
  }

  // ---------------------------------------------------------------- the wait list

  lemma {:induction false} WithoutInOrder(ws: seq<Tid>, threads: map<Tid, Thread>, t: Tid)
    requires InOrder(ws, threads)
    ensures InOrder(Without(ws, t), threads)
  {
    hide InOrder, PrioOf;
    if ws != [] {
      var rest, r := ws[1..], Without(ws[1..], t);
      assert ws == [ws[0]] + rest;
      InOrderFirst(ws[0], rest, threads);
      WithoutInOrder(rest, threads, t);
      WithoutHas(rest, t);
      InOrderFirst(ws[0], r, threads);
    } else {
      assert Without(ws, t) == ws;
    }
  }

  lemma InOrderFirst(t: Tid, ws: seq<Tid>, threads: map<Tid, Thread>)
    ensures InOrder([t] + ws, threads)
            <==> InOrder(ws, threads) && forall w <- ws :: PrioOf(threads, t) <= PrioOf(threads, w)
  {
    hide PrioOf;
    var r := [t] + ws;
    assert forall i :: 0 < i < |r| ==> r[i] == ws[i - 1];
    if InOrder(r, threads) {
      forall i | 0 <= i < |ws|
        ensures ws[i] == r[i + 1] && PrioOf(threads, t) <= PrioOf(threads, ws[i])
      {
        assert r[0] == t && ws[i] == r[i + 1];
      }
    }
  }

  lemma InsertMembers(ws: seq<Tid>, k: nat, t: Tid)
    requires k <= |ws| && Distinct(ws) && t !in ws
    ensures var r := Insert(ws, k, t); Distinct(r) && r != [] && forall w :: w in r <==> w in ws || w == t
  {
    var r := Insert(ws, k, t);
    hide Insert;
    assert forall i :: 0 <= i < |ws| ==> ws[i] != t;
  }

  lemma InsertInOrder(ws: seq<Tid>, threads: map<Tid, Thread>, t: Tid)
    requires InOrder(ws, threads)
    ensures InOrder(Insert(ws, Position(Priorities(ws, threads), PrioOf(threads, t), Prio), t), threads)
  {
    hide PrioOf, Priorities, Position, Insert, Sorted, InOrder;
    var ps, p := Priorities(ws, threads), PrioOf(threads, t);
    var k := Position(ps, p, Prio);
    PrioritiesInOrder(ws, threads);
    InsertKeepsSorted(ps, p);
    InsertPriorities(ws, threads, k, t);
    PrioritiesInOrder(Insert(ws, k, t), threads);
  }

  lemma PrioritiesInOrder(ws: seq<Tid>, threads: map<Tid, Thread>)
    ensures InOrder(ws, threads) <==> Sorted(Priorities(ws, threads))
  {
    hide PrioOf, Priorities;
  }

  lemma InsertPriorities(ws: seq<Tid>, threads: map<Tid, Thread>, k: nat, t: Tid)
    requires k <= |ws|
    ensures Priorities(Insert(ws, k, t), threads) == Insert(Priorities(ws, threads), k, PrioOf(threads, t))
  {
    var r, rp := Insert(ws, k, t), Insert(Priorities(ws, threads), k, PrioOf(threads, t));
    assert forall i :: 0 <= i < |r| ==> rp[i] == PrioOf(threads, r[i]);
  }

  /** The order of the list depends on the priorities of its members only. */
  lemma SameOrder(ws: seq<Tid>, a: map<Tid, Thread>, b: map<Tid, Thread>)
    requires InOrder(ws, a) && forall t <- ws :: PrioOf(a, t) == PrioOf(b, t)
    ensures InOrder(ws, b)
  {
    assert forall i :: 0 <= i < |ws| ==> ws[i] in ws;
  }

  // ---------------------------------------------------------------- each step

  lemma BoostKeeps(s: State, p: nat, base: map<Tid, nat>)
    requires Inv(s, base) && s.value == 0
    ensures Inv(Boost(s, p), base)
    ensures PrioInv(s) ==> PrioInv(Boost(s, p))
    ensures PrioOf(Boost(s, p).threads, s.owner.value) <= p
    ensures forall t <- s.threads :: s.owner != Some(t) ==> Boost(s, p).threads[t] == s.threads[t]
  {
    if PrioInv(s) { SameOrder(s.waiters, s.threads, Boost(s, p).threads); }
  }

  lemma SuspendKeeps(s: State, t: Tid, timed: bool, flag: Flag, base: map<Tid, nat>)
    requires Inv(s, base) && t in s.threads && s.threads[t].place == Outside && s.threads[t].error == Ok
    requires s.value == 0 && s.owner != Some(t)
    ensures Inv(Suspend(s, t, timed, flag), base)
  {
    hide Position, Insert, Distinct, Priorities;
    var k := Position(Priorities(s.waiters, s.threads), s.threads[t].prio, flag);
    InsertMembers(s.waiters, k, t);
    var r := Suspend(s, t, timed, flag);
    assert Borrowed(r, base) by { hide WaitList, Told; }
    assert Told(r) by { hide WaitList, Borrowed; }
    assert WaitList(r) by { hide Told, Borrowed; }
  }

  lemma SuspendKeepsPrio(s: State, t: Tid, timed: bool)
    requires t in s.threads && PrioInv(s) && s.owner.Some? && s.owner.value != t && t !in s.waiters && Distinct(s.waiters)
    requires PrioOf(s.threads, s.owner.value) <= PrioOf(s.threads, t)
    ensures PrioInv(Suspend(s, t, timed, Prio))
  {
    var k := Position(Priorities(s.waiters, s.threads), s.threads[t].prio, Prio);
    InsertMembers(s.waiters, k, t);
    InsertInOrder(s.waiters, s.threads, t);
    var r := Suspend(s, t, timed, Prio);
    SameOrder(r.waiters, s.threads, r.threads);
  }

  lemma TakeKeeps(s0: State, t: Tid, time: int, flag: Flag, base: map<Tid, nat>)
    requires Inv(s0, base) && Enabled(s0, DoTake(t, time)) && !Overflows(s0, DoTake(t, time))
    ensures Inv(Take(s0, t, time, flag).0, base)
    ensures flag.Prio? && PrioInv(s0) ==> PrioInv(Take(s0, t, time, flag).0)
  {
    var s := SetError(s0, t, Ok);
    SetErrorKeeps(s0, t, Ok, base);
    if s.owner != Some(t) && s.value == 0 {
      if time == 0 {
        SetErrorKeeps(s, t, TimedOut, base);
      } else {
        var p := s.threads[t].prio;
        BoostKeeps(s, p, base);
        SuspendKeeps(Boost(s, p), t, time > 0, flag, base);
        if flag.Prio? && PrioInv(s0) {
          SuspendKeepsPrio(Boost(s, p), t, time > 0);
        }
      }
    }
  }

  lemma SetErrorKeeps(s: State, t: Tid, e: Error, base: map<Tid, nat>)
    requires Inv(s, base) && t in s.threads && s.threads[t].place == Outside
    ensures Inv(SetError(s, t, e), base)
    ensures PrioInv(s) ==> PrioInv(SetError(s, t, e))
  {
    if PrioInv(s) { SameOrder(s.waiters, s.threads, SetError(s, t, e).threads); }
  }

  /** The last hold gives the priority back and passes the mutex on. */
  lemma HandOffKeeps(s: State, t: Tid, base: map<Tid, nat>)
    requires t in s.threads && s.threads[t].place == Outside && s.owner == Some(t) && s.value == 0
    requires s.hold == 0 && WaitList(s) && Told(s) && Borrowed(s, base)
    ensures Inv(HandOff(s, t), base)
    ensures HandOff(s, t).threads[t].prio == base[t]
  {
    if s.waiters != [] {
      var w, rest := s.waiters[0], s.waiters[1..];
      assert w in s.threads && w != t && w !in rest;
      assert forall v :: v in s.waiters <==> v == w || v in rest;
      var r := HandOff(s, t);
      assert r.waiters == rest && r.threads.Keys == s.threads.Keys;
      hide HandOff;
    }
  }

  /** Nobody who still waits is better than the thread the mutex is passed on to. */
  lemma HandOffKeepsPrio(s: State, t: Tid)
    requires t in s.threads && s.threads[t].place == Outside && s.owner == Some(t)
    requires WaitList(s) && InOrder(s.waiters, s.threads)
    ensures PrioInv(HandOff(s, t))
  {
    assert t !in s.waiters;
    var r := HandOff(s, t);
    if s.waiters != [] {
      var w := s.waiters[0];
      assert r.waiters == s.waiters[1..];
      assert forall v <- s.waiters :: PrioOf(r.threads, v) == PrioOf(s.threads, v);
      hide HandOff;
      assert forall i :: 0 <= i < |r.waiters| ==> r.waiters[i] == s.waiters[i + 1];
      SameOrder(r.waiters, s.threads, r.threads);
    }
  }

  lemma ExpireKeeps(s: State, t: Tid, base: map<Tid, nat>)
    requires Inv(s, base) && Enabled(s, DoExpire(t))
    ensures Inv(Expire(s, t), base)
    ensures PrioInv(s) ==> PrioInv(Expire(s, t))
  {
    WithoutDistinct(s.waiters, t);
    if PrioInv(s) {
      WithoutInOrder(s.waiters, s.threads, t);
      SameOrder(Expire(s, t).waiters, s.threads, Expire(s, t).threads);
    }
  }

  lemma ReleaseKeeps(s: State, t: Tid, base: map<Tid, nat>)
    requires Inv(s, base) && Enabled(s, DoRelease(t))
    ensures Inv(Release(s, t).0, base)
    ensures PrioInv(s) ==> PrioInv(Release(s, t).0)
  {
    if s.owner == Some(t) {
      var s1 := s.(hold := Down(s.hold));
      if s1.hold == 0 {
        HandOffKeeps(s1, t, base);
        if PrioInv(s) { HandOffKeepsPrio(s1, t); }
      }
      hide HandOff;
    } else {
      SetErrorKeeps(s, t, Failed, base);
    }
  }

  lemma ReturnKeeps(s: State, t: Tid, base: map<Tid, nat>)
    requires Inv(s, base) && Enabled(s, DoReturn(t))
    ensures Inv(Return(s, t).0, base)
    ensures PrioInv(s) ==> PrioInv(Return(s, t).0)
  {
    if PrioInv(s) { SameOrder(s.waiters, s.threads, Return(s, t).0.threads); }
  }

  lemma StepKeepsInv(s: State, step: Step, flag: Flag, base: map<Tid, nat>)
    requires Inv(s, base) && Enabled(s, step) && !Overflows(s, step)
    ensures Inv(Apply(s, step, flag), base)
    ensures flag.Prio? && PrioInv(s) ==> PrioInv(Apply(s, step, flag))
  {
    hide Inv, PrioInv, Take, Release, Expire, Return;
    match step
    case DoTake(t, time) => TakeKeeps(s, t, time, flag, base);
    case DoRelease(t) => ReleaseKeeps(s, t, base);
    case DoExpire(t) => ExpireKeeps(s, t, base);
    case DoReturn(t) => ReturnKeeps(s, t, base);
  }

  // ---------------------------------------------------------------- whole runs

  lemma {:induction false} RunsKeepInv(s: State, steps: seq<Step>, flag: Flag, base: map<Tid, nat>)
    requires Inv(s, base) && Run(s, steps, flag)
    ensures Inv(After(s, steps, flag), base)
    ensures flag.Prio? && PrioInv(s) ==> PrioInv(After(s, steps, flag))
    decreases |steps|
  {
    if steps != [] {
      StepKeepsInv(s, steps[0], flag, base);
      RunsKeepInv(Apply(s, steps[0], flag), steps[1..], flag, base);
    }
  }

  /** The holds that thread t knows of. */
  function Held(s: State, t: Tid): int {
    if s.owner == Some(t) && t in s.threads then s.hold - (if s.threads[t].place == Resumed then 1 else 0)
    else 0
  }

  lemma GainIsHeld(s: State, step: Step, flag: Flag, base: map<Tid, nat>, t: Tid)
    requires Inv(s, base) && Enabled(s, step) && !Overflows(s, step)
    ensures Held(Apply(s, step, flag), t) - Held(s, t) == if step.t == t then Gain(s, step, flag) else 0
  {
    hide Position, Insert, Without, PrioOf, Borrowed;
    match step
    case DoTake(u, time) => TakeGain(s, u, time, flag, t);
    case DoRelease(u) => ReleaseGain(s, u, t);
    case DoExpire(u) =>
    case DoReturn(u) =>
  }

  lemma TakeGain(s: State, u: Tid, time: int, flag: Flag, t: Tid)
    requires Counters(s) && u in s.threads && s.threads[u].place == Outside && !Overflows(s, DoTake(u, time))
    ensures Held(Take(s, u, time, flag).0, t) - Held(s, t)
            == if u == t && Take(s, u, time, flag).1 == Some(Ok) then 1 else 0
  {
    hide Position, Insert, PrioOf;
  }

  lemma ReleaseGain(s: State, u: Tid, t: Tid)
    requires Counters(s) && WaitList(s) && u in s.threads && s.threads[u].place == Outside
    ensures Held(Release(s, u).0, t) - Held(s, t) == if u == t && Release(s, u).1 == Ok then -1 else 0
  {
    if s.waiters != [] {
      assert s.waiters[0] in s.threads && s.threads[s.waiters[0]].place.Suspended?;
    }
    hide WaitList;
  }

  lemma {:induction false} NetIsHeld(s: State, steps: seq<Step>, flag: Flag, base: map<Tid, nat>, t: Tid)
    requires Inv(s, base) && Run(s, steps, flag)
    ensures Net(s, steps, flag, t) == Held(After(s, steps, flag), t) - Held(s, t)
    decreases |steps|
  {
    if steps != [] {
      StepKeepsInv(s, steps[0], flag, base);
      GainIsHeld(s, steps[0], flag, base, t);
      NetIsHeld(Apply(s, steps[0], flag), steps[1..], flag, base, t);
    }
  }

  lemma InitHolds(base: map<Tid, nat>)
    ensures Inv(Init(base), base) && PrioInv(Init(base))
  {
  }

  /** Mutual exclusion, under both flags: after any run a thread that has completed more takes
      than releases is the owner, its count is the hold count unless its last take has yet to
      return, and no other thread has completed more takes than releases. */
  lemma MutualExclusion(base: map<Tid, nat>, steps: seq<Step>, flag: Flag, t: Tid, u: Tid)
    requires Run(Init(base), steps, flag) && t != u
    ensures var s := After(Init(base), steps, flag);
            var n := Net(Init(base), steps, flag, t);
            && n == Held(s, t) >= 0
            && (n > 0 ==> s.owner == Some(t) && Net(Init(base), steps, flag, u) == 0)
  {
    InitHolds(base);
    RunsKeepInv(Init(base), steps, flag, base);
    NetIsHeld(Init(base), steps, flag, base, t);
    NetIsHeld(Init(base), steps, flag, base, u);
  }

  /** Priority inheritance, under the PRIO flag: after any run the owner is no worse than any
      thread it keeps waiting, everybody else runs at its own priority, and if the owner now ends
      its last hold it gets its own priority back and the next owner is no worse than anybody left. */
  lemma PriorityInheritance(base: map<Tid, nat>, steps: seq<Step>)
    requires Run(Init(base), steps, Prio)
    ensures var s := After(Init(base), steps, Prio);
            && PrioInv(s)
            && s.threads.Keys == base.Keys
            && (forall t <- base :: s.owner != Some(t) ==> s.threads[t].prio == base[t])
            && (s.owner.Some? && s.owner.value in s.threads && s.hold == 1 && s.threads[s.owner.value].place == Outside ==>
                  var r := Release(s, s.owner.value).0;
                  && r.threads[s.owner.value].prio == base[s.owner.value]
                  && PrioInv(r)
                  && (r.owner.Some? <==> s.waiters != []))
  {
    InitHolds(base);
    RunsKeepInv(Init(base), steps, Prio, base);
    var s := After(Init(base), steps, Prio);
    if s.owner.Some? && s.hold == 1 && s.threads[s.owner.value].place == Outside {
      var t := s.owner.value;
      HandOffKeeps(s.(hold := 0), t, base);
      HandOffKeepsPrio(s.(hold := 0), t);
      assert s.waiters != [] ==> s.waiters[0] in s.threads;
    }
  }

  // ---------------------------------------------------------------- answers

  /** A take returns at once if the mutex is free or the thread's own, or if it is another's and the thread does not wait;
      otherwise the thread is suspended, with a timer if the time is positive, and the mutex stays where it is. */
  lemma TakeAnswers(s: State, t: Tid, time: int, flag: Flag, base: map<Tid, nat>)
    requires Inv(s, base) && Enabled(s, DoTake(t, time))
    ensures var (r, o) := Take(s, t, time, flag);
            && (o == Some(Ok) <==> s.owner == None || s.owner == Some(t))
            && (o == Some(Ok) ==> r.owner == Some(t) && r.waiters == s.waiters && r.threads[t].prio == s.threads[t].prio)
            && (o == Some(TimedOut) <==> s.owner.Some? && s.owner != Some(t) && time == 0)
            && (o == Some(TimedOut) ==> r == s.(threads := s.threads[t := s.threads[t].(error := TimedOut)]))
            && (o == None <==> s.owner.Some? && s.owner != Some(t) && time != 0)
            && (o == None ==> && t in r.waiters && r.threads[t].place == Suspended(time > 0)
                              && r.owner == s.owner && r.hold == s.hold)
            && (o == None && flag.Fifo? ==> r.waiters == s.waiters + [t])
            && o != Some(Failed)
  {
    hide Position, Priorities;
    var s1 := SetError(s, t, Ok);
    if s1.owner != Some(t) && s1.value == 0 && time != 0 {
      var s2 := Boost(s1, s1.threads[t].prio);
      var k := Position(Priorities(s2.waiters, s2.threads), s2.threads[t].prio, flag);
      InsertMembers(s2.waiters, k, t);
    }
  }

  /** Only the owner releases, and a release that fails changes nothing but the error of its thread. */
  lemma ReleaseAnswers(s: State, t: Tid, base: map<Tid, nat>)
    requires Inv(s, base) && Enabled(s, DoRelease(t))
    ensures var (r, e) := Release(s, t);
            && (e == Ok <==> s.owner == Some(t)) && (e == Failed <==> s.owner != Some(t))
            && (e == Failed ==> r == s.(threads := s.threads[t := s.threads[t].(error := Failed)]))
            && (e == Ok && s.hold > 1 ==> r == s.(hold := s.hold - 1))
            && (e == Ok && s.hold == 1 ==> r.owner == if s.waiters == [] then None else Some(s.waiters[0]))
  {
    if s.waiters != [] { assert s.waiters[0] in s.waiters && s.waiters[0] != t; }
  }

  // ---------------------------------------------------------------- how much the owner borrows

  /** The own priorities of the threads whose takes have blocked since the owner got the mutex. */
  function Lend(lent: set<nat>, s: State, step: Step, flag: Flag, base: map<Tid, nat>): set<nat>
    requires step.t in s.threads
  {
    match step
    case DoTake(t, time) => if t in base && Take(s, t, time, flag).1 == None then lent + {base[t]} else lent
    case DoRelease(t) => if Release(s, t).0.owner != s.owner then {} else lent
    case _ => lent
  }

  /** The owner runs at the best of its own priority and those lent to it. */
  ghost predicate RunsAtBest(s: State, lent: set<nat>, base: map<Tid, nat>) {
    && (s.owner == None ==> lent == {})
    && (s.owner.Some? && s.owner.value in base ==>
          var p := PrioOf(s.threads, s.owner.value);
          && p <= base[s.owner.value] && (forall q <- lent :: p <= q)
          && (p == base[s.owner.value] || p in lent))
  }

  lemma StepRunsAtBest(s: State, lent: set<nat>, step: Step, flag: Flag, base: map<Tid, nat>)
    requires Inv(s, base) && Enabled(s, step) && !Overflows(s, step) && RunsAtBest(s, lent, base)
    ensures RunsAtBest(Apply(s, step, flag), Lend(lent, s, step, flag, base), base)
  {
    hide Take, Release, WaitList, Counters;
    match step
    case DoTake(t, time) => TakeRunsAtBest(s, lent, t, time, flag, base);
    case DoRelease(t) => ReleaseRunsAtBest(s, lent, t, flag, base);
    case DoExpire(t) =>
    case DoReturn(t) =>
  }

  lemma TakeRunsAtBest(s: State, lent: set<nat>, t: Tid, time: int, flag: Flag, base: map<Tid, nat>)
    requires Inv(s, base) && Enabled(s, DoTake(t, time)) && RunsAtBest(s, lent, base)
    ensures RunsAtBest(Take(s, t, time, flag).0, Lend(lent, s, DoTake(t, time), flag, base), base)
  {
    hide Position, Priorities, Insert, WaitList, Counters;
    CountersAre(s, base);
  }

  lemma CountersAre(s: State, base: map<Tid, nat>)
    requires Inv(s, base)
    ensures (s.value == 1 <==> s.owner == None) && (s.value == 1 || s.value == 0)
    ensures forall t <- s.waiters :: t in s.threads && s.owner != Some(t)
  {
    hide Distinct;
  }

  lemma ReleaseRunsAtBest(s: State, lent: set<nat>, t: Tid, flag: Flag, base: map<Tid, nat>)
    requires Inv(s, base) && Enabled(s, DoRelease(t)) && RunsAtBest(s, lent, base)
    ensures RunsAtBest(Release(s, t).0, Lend(lent, s, DoRelease(t), flag, base), base)
  {
    hide Distinct;
    if s.waiters != [] { assert s.waiters[0] in s.waiters; }
  }

  function Lent(lent: set<nat>, s: State, steps: seq<Step>, flag: Flag, base: map<Tid, nat>): set<nat>
    requires Run(s, steps, flag)
    decreases |steps|
  {
    if steps == [] then lent
    else Lent(Lend(lent, s, steps[0], flag, base), Apply(s, steps[0], flag), steps[1..], flag, base)
  }

  /** Over all runs, under either flag: the owner runs at its own priority, or at the best one of the threads that have
      blocked on it since it got the mutex, whichever is better, and at no other. */
  lemma {:induction false} RunsBorrowExactly(s: State, lent: set<nat>, steps: seq<Step>, flag: Flag, base: map<Tid, nat>)
    requires Inv(s, base) && RunsAtBest(s, lent, base) && Run(s, steps, flag)
    ensures RunsAtBest(After(s, steps, flag), Lent(lent, s, steps, flag, base), base)
    decreases |steps|
  {
    if steps != [] {
      hide Inv, RunsAtBest, Lend, Overflows, Apply, Enabled;
      StepKeepsInv(s, steps[0], flag, base);
      StepRunsAtBest(s, lent, steps[0], flag, base);
      RunsBorrowExactly(Apply(s, steps[0], flag), Lend(lent, s, steps[0], flag, base), steps[1..], flag, base);
    }
  }

  // ---------------------------------------------------------------- what the code does not keep

  /** The hold counter is what the invariant depends on: a step keeps it exactly when it is not
      the take that wraps the counter. */
  lemma KeepsInvIff(s: State, step: Step, flag: Flag, base: map<Tid, nat>)
    requires Inv(s, base) && Enabled(s, step)
    ensures Inv(Apply(s, step, flag), base) <==> !Overflows(s, step)
  {
    if !Overflows(s, step) { StepKeepsInv(s, step, flag, base); }
  }

  function TakeMany(s: State, t: Tid, n: nat, flag: Flag): State
    requires t in s.threads
  {
    if n == 0 then s else Take(TakeMany(s, t, n - 1, flag), t, 0, flag).0
  }

  /** While t owns the mutex, taking it again only counts, and at last wraps. */
  lemma {:induction false} TakeManyHolds(s: State, t: Tid, n: nat, flag: Flag)
    requires t in s.threads && s.threads[t].error == Ok && s.owner == Some(t) && s.hold + n <= HOLD_LIMIT
    ensures TakeMany(s, t, n, flag) == s.(hold := if s.hold + n == HOLD_LIMIT && n > 0 then 0 else s.hold + n)
  {
    if n > 0 {
      TakeManyHolds(s, t, n - 1, flag);
      assert SetError(TakeMany(s, t, n - 1, flag), t, Ok) == TakeMany(s, t, n - 1, flag);
    }
  }

  /** After 256 takes the count reads 0; one more take and one release free the mutex, and another
      thread gets it. */
  lemma WrappedHoldFreesTheMutex(base: map<Tid, nat>, t: Tid, u: Tid, flag: Flag)
    requires t in base && u in base && t != u
    ensures var taken := TakeMany(Init(base), t, HOLD_LIMIT + 1, flag);
            var released := Release(taken, t).0;
            released.owner == None && u in released.threads && Take(released, u, 0, flag).1 == Some(Ok)
  {
    var once := Take(Init(base), t, 0, flag).0;
    TakeManyAfterOne(Init(base), t, HOLD_LIMIT, flag);
    TakeManyHolds(once, t, HOLD_LIMIT - 1, flag);
    var full := TakeMany(once, t, HOLD_LIMIT - 1, flag);
    assert full == once.(hold := 0);
    assert TakeMany(once, t, HOLD_LIMIT, flag) == Take(full, t, 0, flag).0;
    hide TakeMany;
    var taken := Take(full, t, 0, flag).0;
    assert taken.hold == 1 && taken.owner == Some(t) && taken.waiters == [];
  }

  lemma {:induction false} TakeManyAfterOne(s: State, t: Tid, n: nat, flag: Flag)
    requires t in s.threads
    ensures TakeMany(s, t, n + 1, flag) == TakeMany(Take(s, t, 0, flag).0, t, n, flag)
  {
    if n > 0 { TakeManyAfterOne(s, t, n - 1, flag); }
    else { assert TakeMany(s, t, 0, flag) == s; }
  }

  /** The first waiter is no worse than any other one. */
  predicate FirstIsBest(s: State) {
    s.waiters == [] || forall w <- s.waiters[1..] :: PrioOf(s.threads, s.waiters[0]) <= PrioOf(s.threads, w)
  }

  /** The step ends the last hold while the first waiter is worse than another one. */
  predicate Inverts(s: State, step: Step) {
    step.DoRelease? && s.owner == Some(step.t) && s.hold == 1 && !FirstIsBest(s)
  }

  /** Under either flag, the end of the last hold leaves the new owner no worse than anybody it keeps
      waiting exactly if the first waiter was the best. */
  lemma HandOffInheritsIff(s: State, t: Tid, base: map<Tid, nat>)
    requires Inv(s, base) && Enabled(s, DoRelease(t)) && s.owner == Some(t) && s.hold == 1
    ensures Inherits(Release(s, t).0) <==> FirstIsBest(s)
  {
    assert t !in s.waiters;
    var r := Release(s, t).0;
    if s.waiters != [] {
      assert s.waiters[0] in s.waiters;
      assert r.waiters == s.waiters[1..] && r.owner == Some(s.waiters[0]);
      assert forall w <- s.waiters :: PrioOf(r.threads, w) == PrioOf(s.threads, w);
      hide Release;
      assert forall w <- s.waiters[1..] :: w in s.waiters;
    }
  }

  lemma TakeInherits(s0: State, t: Tid, time: int, flag: Flag, base: map<Tid, nat>)
    requires Inv(s0, base) && Inherits(s0) && Enabled(s0, DoTake(t, time))
    ensures Inherits(Take(s0, t, time, flag).0)
  {
    hide Suspend, Boost, WaitList, Told, Borrowed;
    var s := SetError(s0, t, Ok);
    SetErrorKeeps(s0, t, Ok, base);
    if s.owner != Some(t) && s.value == 0 && time != 0 {
      var p := s.threads[t].prio;
      BoostInherits(s, p, base);
      SuspendInherits(Boost(s, p), t, time > 0, flag);
    }
  }

  lemma BoostInherits(s: State, p: nat, base: map<Tid, nat>)
    requires Inv(s, base) && s.value == 0 && Inherits(s)
    ensures var r := Boost(s, p);
            && Inherits(r) && PrioOf(r.threads, s.owner.value) <= p && r.owner == s.owner && r.threads.Keys == s.threads.Keys
            && (forall u <- s.threads :: s.owner != Some(u) ==> r.threads[u] == s.threads[u])
  {
    hide WaitList, Borrowed;
  }

  lemma SuspendInherits(s: State, t: Tid, timed: bool, flag: Flag)
    requires t in s.threads && Inherits(s) && s.owner.Some? && s.owner != Some(t)
    requires PrioOf(s.threads, s.owner.value) <= PrioOf(s.threads, t)
    ensures Inherits(Suspend(s, t, timed, flag))
  {
    hide Position, Insert;
    var k := Position(Priorities(s.waiters, s.threads), s.threads[t].prio, flag);
    InsertHas(s.waiters, k, t);
  }

  lemma InsertHas(ws: seq<Tid>, k: nat, t: Tid)
    requires k <= |ws|
    ensures forall u <- Insert(ws, k, t) :: u in ws || u == t
  {
  }

  lemma StepInheritsUnlessHandOff(s: State, step: Step, flag: Flag, base: map<Tid, nat>)
    requires Inv(s, base) && Inherits(s) && Enabled(s, step) && !Overflows(s, step)
    requires !(step.DoRelease? && s.owner == Some(step.t) && s.hold == 1)
    ensures Inherits(Apply(s, step, flag))
  {
    match step
    case DoTake(t, time) => TakeInherits(s, t, time, flag, base);
    case DoRelease(t) =>
    case DoExpire(t) => WithoutDistinct(s.waiters, t);
    case DoReturn(t) =>
  }

  /** A step under either flag lets priorities invert exactly if it is a hand-off to a waiter that is worse
      than another one. */
  lemma StepInheritsIff(s: State, step: Step, flag: Flag, base: map<Tid, nat>)
    requires Inv(s, base) && Inherits(s) && Enabled(s, step) && !Overflows(s, step)
    ensures Inherits(Apply(s, step, flag)) <==> !Inverts(s, step)
  {
    hide Inv, Inherits, FirstIsBest, Take, Release, Expire, Return;
    if step.DoRelease? && s.owner == Some(step.t) && s.hold == 1 {
      HandOffInheritsIff(s, step.t, base);
    } else {
      StepInheritsUnlessHandOff(s, step, flag, base);
    }
  }

  predicate NeverInverts(s: State, steps: seq<Step>, flag: Flag)
    requires Run(s, steps, flag)
    decreases |steps|
  {
    steps == [] || (!Inverts(s, steps[0]) && NeverInverts(Apply(s, steps[0], flag), steps[1..], flag))
  }

  /** So a run without such hand-offs, under either flag, never has an owner worse than a waiter. */
  lemma {:induction false} RunsInherit(s: State, steps: seq<Step>, flag: Flag, base: map<Tid, nat>)
    requires Inv(s, base) && Inherits(s) && Run(s, steps, flag) && NeverInverts(s, steps, flag)
    ensures Inherits(After(s, steps, flag))
    decreases |steps|
  {
    if steps != [] {
      hide Inv, Inherits, Inverts, Apply;
      StepKeepsInv(s, steps[0], flag, base);
      StepInheritsIff(s, steps[0], flag, base);
      RunsInherit(Apply(s, steps[0], flag), steps[1..], flag, base);
    }
  }

  /** Under the PRIO flag there are none, */
  lemma PrioNeverInverts(s: State, step: Step)
    requires PrioInv(s)
    ensures !Inverts(s, step)
  {
    if s.waiters != [] {
      var rest := s.waiters[1..];
      assert forall i :: 0 <= i < |rest| ==> rest[i] == s.waiters[i + 1];
    }
  }

  /** and under the FIFO flag the mutex can go to a thread that is worse than one it keeps waiting. */
  lemma FifoInverts(a: Tid, b: Tid, c: Tid)
    requires a != b && b != c && a != c
    ensures var s0 := Init(map[a := 10, b := 20, c := 5]);
            && Enabled(s0, DoTake(a, 0))
            && var s1 := Apply(s0, DoTake(a, 0), Fifo);
            && Enabled(s1, DoTake(b, -1))
            && var s2 := Apply(s1, DoTake(b, -1), Fifo);
            && Enabled(s2, DoTake(c, -1))
            && var s3 := Apply(s2, DoTake(c, -1), Fifo);
            && Enabled(s3, DoRelease(a))
            && var s4 := Apply(s3, DoRelease(a), Fifo);
            && s4.owner == Some(b) && PrioOf(s4.threads, b) == 20
            && c in s4.waiters && PrioOf(s4.threads, c) == 5
            && !Inherits(s4)
  {
    var s0 := Init(map[a := 10, b := 20, c := 5]);
    var s1 := Apply(s0, DoTake(a, 0), Fifo);
    var s2 := Apply(s1, DoTake(b, -1), Fifo);
    assert s2.waiters == [b];
    var s3 := Apply(s2, DoTake(c, -1), Fifo);
    assert s3.waiters == [b, c];
    var s4 := Apply(s3, DoRelease(a), Fifo);
    assert s4.waiters == [c] && c in s4.waiters;
  }

  // ---------------------------------------------------------------- the object

  /** What an enabled step keeps, whatever the own priorities of the threads are. */
  ghost predicate Kept(s: State, step: Step, r: State, flag: Flag) {
    Enabled(s, step) ==>
      && (forall base :: Inv(s, base) ==> Inv(r, base))
      && (flag.Prio? && PrioInv(s) && (exists base :: Inv(s, base)) ==> PrioInv(r))
  }

  lemma TakeKept(s: State, t: Tid, time: int, flag: Flag)
    requires t in s.threads && !Overflows(s, DoTake(t, time))
    ensures Kept(s, DoTake(t, time), Take(s, t, time, flag).0, flag)
  {
    hide Inv, PrioInv, Take;
    forall base | Inv(s, base) && Enabled(s, DoTake(t, time))
      ensures Inv(Take(s, t, time, flag).0, base) && (flag.Prio? && PrioInv(s) ==> PrioInv(Take(s, t, time, flag).0))
    {
      TakeKeeps(s, t, time, flag, base);
    }
  }

  lemma ReleaseKept(s: State, t: Tid, flag: Flag)
    requires t in s.threads
    ensures Kept(s, DoRelease(t), Release(s, t).0, flag)
  {
    hide Inv, PrioInv, Release;
    forall base | Inv(s, base) && Enabled(s, DoRelease(t))
      ensures Inv(Release(s, t).0, base) && (PrioInv(s) ==> PrioInv(Release(s, t).0))
    {
      ReleaseKeeps(s, t, base);
    }
  }

  class MutexObject {
    const flag: Flag
    var value: nat
    var owner: Option<Tid>
    var hold: nat
    var original: nat
    var waiters: seq<Tid>
    var threads: map<Tid, Thread>

    constructor (flag: Flag, base: map<Tid, nat>)
      ensures Value() == Init(base) && this.flag == flag
    {
      this.flag := flag;
      value, owner, hold, original, waiters := 1, None, 0, NO_PRIORITY, [];
      threads := map t | t in base :: Thread(base[t], Ok, Outside);
    }

    ghost function Value(): State
      reads this
    {
      State(value, owner, hold, original, waiters, threads)
    }

    method TakeMutex(t: Tid, time: int) returns (result: Option<Error>)
      requires t in threads
      requires value == 0 ==> owner.Some? && owner.value in threads
      modifies this
      ensures (Value(), result) == Take(old(Value()), t, time, flag)
      ensures !old(Overflows(Value(), DoTake(t, time))) ==> Kept(old(Value()), DoTake(t, time), Value(), flag)
    {
      if !Overflows(Value(), DoTake(t, time)) { TakeKept(Value(), t, time, flag); }
      threads := threads[t := threads[t].(error := Ok)];
      if owner == Some(t) {
        hold := Up(hold);
        return Some(Ok);
      }
      if value > 0 {
        value := value - 1;
        owner := Some(t);
        original := threads[t].prio;
        hold := Up(hold);
        return Some(Ok);
      }
      if time == 0 {
        threads := threads[t := threads[t].(error := TimedOut)];
        return Some(TimedOut);
      }
      if threads[t].prio < threads[owner.value].prio {
        threads := threads[owner.value := threads[owner.value].(prio := threads[t].prio)];
      }
      var k := FindPosition(Priorities(waiters, threads), threads[t].prio, flag);
      waiters := Insert(waiters, k, t);
      threads := threads[t := threads[t].(place := Suspended(time > 0))];
      result := None;
    }

    method ReleaseMutex(t: Tid) returns (result: Error)
      requires t in threads && (forall w <- waiters :: w in threads)
      modifies this
      ensures (Value(), result) == Release(old(Value()), t)
      ensures Kept(old(Value()), DoRelease(t), Value(), flag)
    {
      ReleaseKept(Value(), t, flag);
      if owner != Some(t) {
        threads := threads[t := threads[t].(error := Failed)];
        return Failed;
      }
      hold := Down(hold);
      if hold == 0 {
        threads := threads[t := threads[t].(prio := original)];
        if waiters != [] {
          var w := waiters[0];
          owner := Some(w);
          original := threads[w].prio;
          hold := Up(hold);
          waiters := waiters[1..];
          threads := threads[w := threads[w].(place := Resumed)];
        } else {
          value := value + 1;
          owner := None;
          original := NO_PRIORITY;
        }
      }
      result := Ok;
    }
  }
}
