/** The scheduler of src/scheduler.c with the thread states of src/thread.c and the time slices of
    src/clock.c, on one processor. A smaller number is a better priority. */
module Scheduler {
  import opened Ffs
  import opened Sequences

  type Tid = nat

  // ---------------------------------------------------------------- the bitmap of non-empty queues

  /** rt_thread_ready_priority_group, for at most 32 priorities; and for up to 256 of them with
      rt_thread_ready_table below it, a byte for each bit of the group. */
  datatype Bitmap = OneLevel(group: nat) | TwoLevels(group: nat, table: seq<nat>)

  const GROUPS := 32
  const BYTE := 8

  function Capacity(b: Bitmap): nat { if b.OneLevel? then GROUPS else GROUPS * BYTE }

  function SetPriority(b: Bitmap, p: nat): Bitmap {
    match b
    case OneLevel(g) => OneLevel(SetBit(g, p))
    case TwoLevels(g, t) =>
      var n := p / BYTE;
      if n < |t| then TwoLevels(SetBit(g, n), t[n := SetBit(t[n], p % BYTE)]) else b
  }

  function ClearPriority(b: Bitmap, p: nat): Bitmap {
    match b
    case OneLevel(g) => OneLevel(ClearBit(g, p))
    case TwoLevels(g, t) =>
      var n := p / BYTE;
      if n < |t| then
        var byte := ClearBit(t[n], p % BYTE);
        TwoLevels(if byte == 0 then ClearBit(g, n) else g, t[n := byte])
      else b
  }

  /** The search of rt_schedule; -1 if there is none. */
  function Highest(b: Bitmap): int {
    match b
    case OneLevel(g) => FindFirstSet(g) - 1
    case TwoLevels(g, t) =>
      var n := FindFirstSet(g) - 1;
      if 0 <= n < |t| then n * BYTE + FindFirstSet(t[n]) - 1 else -1
  }

  /** Bit p of the bitmap. */
  predicate Marked(b: Bitmap, p: nat) {
    match b
    case OneLevel(g) => p in Bits(g)
    case TwoLevels(g, t) => p / BYTE < |t| && p % BYTE in Bits(t[p / BYTE])
  }

  /** No bit lies beyond its word, and a bit of the group says that a byte of the table is not 0. */
  ghost predicate WellFormed(b: Bitmap) {
    && (forall n <- Bits(b.group) :: n < GROUPS)
    && (b.TwoLevels? ==>
          && |b.table| == GROUPS
          && (forall n: nat :: n < GROUPS ==>
                && (forall k <- Bits(b.table[n]) :: k < BYTE)
                && (n in Bits(b.group) <==> Bits(b.table[n]) != {})))
  }

  lemma SetMarks(b: Bitmap, p: nat)
    requires WellFormed(b) && p < Capacity(b)
    ensures WellFormed(SetPriority(b, p))
    ensures forall q: nat :: Marked(SetPriority(b, p), q) <==> p == q || Marked(b, q)
  {
    hide Bits, SetBit;
    match b
    case OneLevel(g) => BitsOfSet(g, p);
    case TwoLevels(g, t) =>
      BitsOfSet(g, p / BYTE);
      BitsOfSet(t[p / BYTE], p % BYTE);
  }

  lemma ClearMarks(b: Bitmap, p: nat)
    requires WellFormed(b) && p < Capacity(b)
    ensures WellFormed(ClearPriority(b, p))
    ensures forall q: nat :: Marked(ClearPriority(b, p), q) <==> p != q && Marked(b, q)
  {
    hide Bits, ClearBit;
    match b
    case OneLevel(g) => BitsOfClear(g, p);
    case TwoLevels(g, t) =>
      BitsOfClear(g, p / BYTE);
      BitsOfClear(t[p / BYTE], p % BYTE);
      NoBits(ClearBit(t[p / BYTE], p % BYTE));
  }

  /** Both bitmaps find the same: the best priority that is marked. */
  lemma HighestIsBest(b: Bitmap, p: nat)
    requires WellFormed(b) && Marked(b, p)
    ensures 0 <= Highest(b) <= p && Marked(b, Highest(b)) && Highest(b) < Capacity(b)
    ensures forall q: nat :: q < Highest(b) ==> !Marked(b, q)
  {
    hide Bits, FindFirstSet;
    FindsLowestOfBits(b.group);
    if b.TwoLevels? {
      var n := FindFirstSet(b.group) - 1;
      FindsLowestOfBits(b.table[n]);
    }
  }

  // ---------------------------------------------------------------- the state


  /** RT_THREAD_INIT, RT_THREAD_READY and RT_THREAD_SUSPEND. */
  datatype Stat = Initial | Ready | Suspended

  datatype Thread = Thread(stat: Stat, prio: nat, initPrio: nat, slice: nat, remaining: nat)

  /** rt_thread_priority_table, the bitmap, the threads, rt_current_thread and rt_scheduler_lock_nest. */
  datatype State = State(queues: seq<seq<Tid>>, bitmap: Bitmap, threads: map<Tid, Thread>, current: Option<Tid>, lockNest: nat)

  // ---------------------------------------------------------------- steps

  /** rt_schedule. With no thread ready at all the source reads outside its table; the idle thread
      sees to it that this does not happen. */
  function Schedule(s: State): State {
    var p := Highest(s.bitmap);
    if s.lockNest == 0 && 0 <= p < |s.queues| && s.queues[p] != [] then s.(current := Some(s.queues[p][0])) else s
  }

  /** rt_schedule_insert_thread. */
  function Insert(s: State, t: Tid): State
    requires t in s.threads
  {
    var p := s.threads[t].prio;
    var threads := s.threads[t := s.threads[t].(stat := Ready)];
    if p < |s.queues| then
      s.(queues := s.queues[p := s.queues[p] + [t]], bitmap := SetPriority(s.bitmap, p), threads := threads)
    else s.(threads := threads)
  }

  /** rt_schedule_remove_thread. */
  function Remove(s: State, t: Tid): State
    requires t in s.threads
  {
    var p := s.threads[t].prio;
    if p < |s.queues| then
      var q := Without(s.queues[p], t);
      s.(queues := s.queues[p := q], bitmap := if q == [] then ClearPriority(s.bitmap, p) else s.bitmap)
    else s
  }

  function SetStat(s: State, t: Tid, stat: Stat): State
    requires t in s.threads
  {
    s.(threads := s.threads[t := s.threads[t].(stat := stat)])
  }

  function SetPrio(s: State, t: Tid, p: nat): State
    requires t in s.threads
  {
    s.(threads := s.threads[t := s.threads[t].(prio := p)])
  }

  /** The section of rt_thread_suspend. */
  function SuspendSection(s: State, t: Tid): State
    requires t in s.threads
  {
    Remove(SetStat(s, t, Suspended), t)
  }

  /** rt_thread_suspend. */
  function Suspend(s: State, t: Tid): State
    requires t in s.threads
  {
    if s.threads[t].stat != Ready then s else SuspendSection(s, t)
  }

  /** The first section of rt_thread_resume takes the thread out of the list it is in, which ought to be a wait
      list. It does not touch the bitmap. */
  function Unlink(s: State, t: Tid): State {
    s.(queues := seq(|s.queues|, p requires 0 <= p < |s.queues| => Without(s.queues[p], t)))
  }

  /** rt_thread_resume, where nothing comes between its sections. */
  function Resume(s: State, t: Tid): State
    requires t in s.threads
  {
    if s.threads[t].stat != Suspended then s else Insert(Unlink(s, t), t)
  }

  /** What rt_thread_startup writes before it resumes the thread. */
  function Prepare(s: State, t: Tid): State
    requires t in s.threads
  {
    SetStat(SetPrio(s, t, s.threads[t].initPrio), t, Suspended)
  }

  /** rt_thread_timeout, of a suspended thread. It runs in rt_timer_check, with interrupts disabled. */
  function Timeout(s: State, t: Tid): State
    requires t in s.threads
  {
    Schedule(Insert(s, t))
  }

  /** RT_THREAD_CTRL_CHANGE_PRIORITY. */
  function ChangePriority(s: State, t: Tid, p: nat): State
    requires t in s.threads
  {
    if s.threads[t].stat == Ready then Insert(SetPrio(Remove(s, t), t, p), t) else SetPrio(s, t, p)
  }

  /** Whether rt_thread_yield does anything. A thread is alone in its queue exactly when its next and prev
      are the same. */
  predicate CanRotate(s: State) {
    && s.current.Some? && s.current.value in s.threads
    && var th := s.threads[s.current.value]; th.stat == Ready && th.prio < |s.queues| && |s.queues[th.prio]| > 1
  }

  /** The section of rt_thread_yield. */
  function Rotate(s: State): State {
    if CanRotate(s) then
      var t := s.current.value;
      var p := s.threads[t].prio;
      s.(queues := s.queues[p := Without(s.queues[p], t) + [t]])
    else s
  }

  /** rt_thread_yield. */
  function Yield(s: State): State {
    if CanRotate(s) then Schedule(Rotate(s)) else s
  }

  /** The section of rt_exit_critical. */
  function Unlock(s: State): State {
    s.(lockNest := if s.lockNest <= 1 then 0 else s.lockNest - 1)
  }

  function ExitCritical(s: State): State {
    if s.lockNest <= 1 then Schedule(Unlock(s)) else Unlock(s)
  }

  /** The time slice in rt_tick_increase. */
  function CountDown(s: State): State {
    if s.current.Some? && s.current.value in s.threads then
      var t := s.current.value;
      var th := s.threads[t];
      var n := if th.remaining == 0 then 0xffff_ffff else if th.remaining == 1 then th.slice else th.remaining - 1;
      s.(threads := s.threads[t := th.(remaining := n)])
    else s
  }

  /** rt_tick_increase, but for the timers. */
  function Tick(s: State): State
    requires s.current.Some? && s.current.value in s.threads
  {
    if s.threads[s.current.value].remaining == 1 then Yield(CountDown(s)) else CountDown(s)
  }

  // ---------------------------------------------------------------- the sections, in any interleaving

  type Caller = nat

  /** Where a call has got to: rt_thread_startup past its assertion, rt_thread_resume past its check of the
      state or past its first section, rt_thread_suspend past its check. */
  datatype Phase = Starting | Unlinking | Linking | Suspending

  datatype Call = Call(t: Tid, phase: Phase)

  /** The scheduler, and the calls under way. */
  datatype Machine = Machine(s: State, calls: map<Caller, Call>)

  /** What is done with interrupts enabled between one section and the next is a step of its own, so that others
      can come between. A startup ends in a resume, and startup, time-out, yield and the end of a critical section
      in DoSchedule; a sleep is a suspend and DoSchedule. */
  datatype Step =
    | DoSchedule
    | DoStartup(c: Caller, t: Tid)
    | DoPrepare(c: Caller)
    | DoResume(c: Caller, t: Tid)
    | DoUnlink(c: Caller)
    | DoInsert(c: Caller)
    | DoSuspend(c: Caller, t: Tid)
    | DoRemove(c: Caller)
    | DoTimeout(t: Tid)
    | DoChange(t: Tid, p: nat)
    | DoRotate
    | DoCountDown
    | DoEnter
    | DoUnlock

  predicate Under(m: Machine, c: Caller, phase: Phase) {
    c in m.calls && m.calls[c].phase == phase && m.calls[c].t in m.s.threads
  }

  /** Startup and time-out assert the state of the thread. */
  predicate Enabled(m: Machine, step: Step) {
    match step
    case DoStartup(c, t) => c !in m.calls && t in m.s.threads && m.s.threads[t].stat == Initial
    case DoPrepare(c) => Under(m, c, Starting)
    case DoResume(c, t) => c !in m.calls && t in m.s.threads
    case DoUnlink(c) => Under(m, c, Unlinking)
    case DoInsert(c) => Under(m, c, Linking)
    case DoSuspend(c, t) => c !in m.calls && t in m.s.threads
    case DoRemove(c) => Under(m, c, Suspending)
    case DoTimeout(t) => t in m.s.threads && m.s.threads[t].stat == Suspended
    case DoChange(t, p) => t in m.s.threads && p < |m.s.queues|
    case _ => true
  }

  function Apply(m: Machine, step: Step): Machine
    requires Enabled(m, step)
  {
    match step
    case DoSchedule => m.(s := Schedule(m.s))
    case DoStartup(c, t) => m.(calls := m.calls[c := Call(t, Starting)])
    case DoPrepare(c) => Machine(Prepare(m.s, m.calls[c].t), m.calls - {c})
    case DoResume(c, t) => if m.s.threads[t].stat == Suspended then m.(calls := m.calls[c := Call(t, Unlinking)]) else m
    case DoUnlink(c) => Machine(Unlink(m.s, m.calls[c].t), m.calls[c := Call(m.calls[c].t, Linking)])
    case DoInsert(c) => Machine(Insert(m.s, m.calls[c].t), m.calls - {c})
    case DoSuspend(c, t) => if m.s.threads[t].stat == Ready then m.(calls := m.calls[c := Call(t, Suspending)]) else m
    case DoRemove(c) => Machine(SuspendSection(m.s, m.calls[c].t), m.calls - {c})
    case DoTimeout(t) => m.(s := Timeout(m.s, t))
    case DoChange(t, p) => m.(s := ChangePriority(m.s, t, p))
    case DoRotate => m.(s := Rotate(m.s))
    case DoCountDown => m.(s := CountDown(m.s))
    case DoEnter => m.(s := m.s.(lockNest := m.s.lockNest + 1))
    case DoUnlock => m.(s := Unlock(m.s))
  }

  // ---------------------------------------------------------------- invariant

  /** A bit is set exactly for a queue that is not empty. */
  ghost predicate BitmapOk(b: Bitmap, queues: seq<seq<Tid>>) {
    && WellFormed(b)
    && |queues| <= Capacity(b)
    && forall p: nat :: Marked(b, p) <==> p < |queues| && queues[p] != []
  }

  /** Each ready thread is in the queue of its priority, once, and no other thread is in any queue. */
  ghost predicate QueuesOk(queues: seq<seq<Tid>>, threads: map<Tid, Thread>) {
    && (forall t <- threads :: threads[t].prio < |queues| && threads[t].initPrio < |queues|)
    && (forall p: nat :: p < |queues| ==> Distinct(queues[p]))
    && (forall p: nat, t :: p < |queues| && t in queues[p] ==> t in threads && threads[t].stat == Ready && threads[t].prio == p)
    && (forall t <- threads :: threads[t].stat == Ready ==> t in queues[threads[t].prio])
  }

  ghost predicate Inv(s: State) {
    && BitmapOk(s.bitmap, s.queues)
    && QueuesOk(s.queues, s.threads)
    && (s.current.Some? ==> s.current.value in s.threads)
  }

  /** The current thread is ready, and no ready thread is better. */
  predicate Selected(s: State) {
    && s.current.Some? && s.current.value in s.threads && s.threads[s.current.value].stat == Ready
    && forall u <- s.threads :: s.threads[u].stat == Ready ==> s.threads[s.current.value].prio <= s.threads[u].prio
  }

  lemma ScheduleSelects(s: State)
    requires Inv(s)
    ensures Inv(Schedule(s))
    ensures s.lockNest == 0 && (exists t :: t in s.threads && s.threads[t].stat == Ready) ==>
              Selected(Schedule(s)) && var p := Schedule(s).threads[Schedule(s).current.value].prio;
                                       p < |s.queues| && s.queues[p] != [] && Schedule(s).current == Some(s.queues[p][0])
  {
    hide WellFormed, Marked, Highest, Distinct;
    if s.lockNest == 0 && exists t :: t in s.threads && s.threads[t].stat == Ready {
      var t :| t in s.threads && s.threads[t].stat == Ready;
      HighestIsBest(s.bitmap, s.threads[t].prio);
      var p := Highest(s.bitmap);
      assert s.queues[p][0] in s.queues[p];
      forall u | u in s.threads && s.threads[u].stat == Ready
        ensures p <= s.threads[u].prio
      {
        assert Marked(s.bitmap, s.threads[u].prio);
      }
    } else {
      var p := Highest(s.bitmap);
      if 0 <= p < |s.queues| && s.queues[p] != [] { assert s.queues[p][0] in s.queues[p]; }
    }
  }

  lemma BitmapAfterPut(b: Bitmap, queues: seq<seq<Tid>>, p: nat, q: seq<Tid>)
    requires BitmapOk(b, queues) && p < |queues|
    ensures BitmapOk(if q != [] then SetPriority(b, p) else ClearPriority(b, p), queues[p := q])
    ensures (q == [] <==> queues[p] == []) ==> BitmapOk(b, queues[p := q])
  {
    hide WellFormed, Marked, SetPriority, ClearPriority;
    SetMarks(b, p);
    ClearMarks(b, p);
    SameCapacity(b, p);
  }

  lemma SameCapacity(b: Bitmap, p: nat)
    ensures Capacity(SetPriority(b, p)) == Capacity(b) == Capacity(ClearPriority(b, p))
  {
  }

  lemma InsertKeeps(s: State, t: Tid)
    requires Inv(s) && t in s.threads && s.threads[t].stat != Ready
    ensures Inv(Insert(s, t))
  {
    hide BitmapOk, Distinct, SetPriority;
    var p := s.threads[t].prio;
    LastDistinct(s.queues[p], t);
    BitmapAfterPut(s.bitmap, s.queues, p, s.queues[p] + [t]);
  }

  /** Between the removal and what follows it the thread is in no queue. */
  lemma RemoveKeeps(s: State, t: Tid, th: Thread)
    requires Inv(s) && t in s.threads && s.threads[t].stat == Ready
    requires th.stat != Ready && th.prio < |s.queues| && th.initPrio < |s.queues|
    ensures Inv(Remove(s, t).(threads := s.threads[t := th]))
  {
    hide BitmapOk, Distinct, ClearPriority, Without;
    var p := s.threads[t].prio;
    var q := Without(s.queues[p], t);
    WithoutDistinct(s.queues[p], t);
    BitmapAfterPut(s.bitmap, s.queues, p, q);
    assert s.queues[p] != [];
  }

  /** Whatever the thread is, suspending it leaves it in no queue. */
  lemma SuspendSectionKeeps(s: State, t: Tid)
    requires Inv(s) && t in s.threads
    ensures Inv(SuspendSection(s, t))
  {
    hide Inv, ClearPriority, Without;
    ThreadInRange(s, t);
    var th := s.threads[t].(stat := Suspended);
    if s.threads[t].stat == Ready {
      RemoveKeeps(s, t, th);
      assert SuspendSection(s, t) == Remove(s, t).(threads := s.threads[t := th]);
    } else {
      OtherKeeps(s, t, th);
      NotQueued(s, t);
      EmptyStaysEmpty(SetStat(s, t, Suspended), th.prio);
    }
  }

  lemma EmptyStaysEmpty(s: State, p: nat)
    requires Inv(s) && p < |s.queues|
    ensures s.queues[p] == [] ==> Inv(s.(bitmap := ClearPriority(s.bitmap, p)))
    ensures s.queues[p := s.queues[p]] == s.queues
  {
    hide QueuesOk, ClearPriority, WellFormed, Marked;
    assert s.queues[p := s.queues[p]] == s.queues;
    BitmapAfterPut(s.bitmap, s.queues, p, s.queues[p]);
  }

  lemma NotQueued(s: State, t: Tid)
    requires Inv(s) && t in s.threads && s.threads[t].stat != Ready
    ensures Unlink(s, t) == s
    ensures forall p: nat :: p < |s.queues| ==> Without(s.queues[p], t) == s.queues[p]
  {
    hide BitmapOk, Without, Distinct;
    forall p: nat | p < |s.queues|
      ensures Without(s.queues[p], t) == s.queues[p]
    {
      WithoutOther(s.queues[p], t);
    }
    assert Unlink(s, t).queues == s.queues;
  }

  lemma SuspendKeeps(s: State, t: Tid)
    requires Inv(s) && t in s.threads
    ensures Inv(Suspend(s, t))
  {
    hide Inv, SuspendSection;
    SuspendSectionKeeps(s, t);
  }

  lemma ThreadInRange(s: State, t: Tid)
    requires Inv(s) && t in s.threads
    ensures s.threads[t].prio < |s.queues| && s.threads[t].initPrio < |s.queues|
  {
  }

  lemma ResumeKeeps(s: State, t: Tid)
    requires Inv(s) && t in s.threads
    ensures Inv(Resume(s, t))
  {
    hide Inv, Insert, Unlink;
    if s.threads[t].stat == Suspended {
      NotQueued(s, t);
      InsertKeeps(s, t);
    }
  }

  /** A thread that is not ready may change in any way in which it is not ready. */
  lemma OtherKeeps(s: State, t: Tid, th: Thread)
    requires Inv(s) && t in s.threads && s.threads[t].stat != Ready
    requires th.stat != Ready && th.prio < |s.queues| && th.initPrio < |s.queues|
    ensures Inv(s.(threads := s.threads[t := th]))
  {
    hide BitmapOk, Distinct;
  }

  /** Exactly when a thread may be inserted: it is not ready. */
  lemma InsertIff(s: State, t: Tid)
    requires Inv(s) && t in s.threads
    ensures Inv(Insert(s, t)) <==> s.threads[t].stat != Ready
  {
    hide BitmapOk, SetPriority, WellFormed, Marked;
    if s.threads[t].stat != Ready { InsertKeeps(s, t); }
    else {
      var p := s.threads[t].prio;
      var q := s.queues[p];
      var i :| 0 <= i < |q| && q[i] == t;
      assert (q + [t])[i] == (q + [t])[|q|];
      assert Insert(s, t).queues[p] == q + [t];
    }
  }

  /** Exactly when a thread may be taken out of its list: it is not ready. Then it is in no queue. */
  lemma UnlinkIff(s: State, t: Tid)
    requires Inv(s) && t in s.threads
    ensures Inv(Unlink(s, t)) <==> s.threads[t].stat != Ready
  {
    hide BitmapOk, Without, Distinct;
    if s.threads[t].stat != Ready { NotQueued(s, t); }
    else { WithoutHas(s.queues[s.threads[t].prio], t); }
  }

  /** Exactly when a thread may be prepared for its start: it is not ready. */
  lemma PrepareIff(s: State, t: Tid)
    requires Inv(s) && t in s.threads
    ensures Inv(Prepare(s, t)) <==> s.threads[t].stat != Ready
  {
    hide BitmapOk, Distinct;
    if s.threads[t].stat != Ready {
      var th := s.threads[t].(prio := s.threads[t].initPrio, stat := Suspended);
      OtherKeeps(s, t, th);
      assert Prepare(s, t) == s.(threads := s.threads[t := th]);
    } else {
      var r, p := Prepare(s, t), s.threads[t].prio;
      assert t in r.queues[p] && r.threads[t].stat == Suspended;
    }
  }

  lemma ChangeKeeps(s: State, t: Tid, p: nat)
    requires Inv(s) && t in s.threads && p < |s.queues|
    ensures Inv(ChangePriority(s, t, p))
  {
    hide Inv, SetPriority, ClearPriority, Without;
    ThreadInRange(s, t);
    if s.threads[t].stat == Ready {
      var th := s.threads[t].(prio := p, stat := Suspended);
      RemoveKeeps(s, t, th);
      var s1 := Remove(s, t).(threads := s.threads[t := th]);
      InsertKeeps(s1, t);
      assert s1.threads[t := th.(stat := Ready)] == s.threads[t := s.threads[t].(prio := p)];
      assert ChangePriority(s, t, p) == Insert(s1, t);
    } else if s.threads[t].stat != Ready {
      OtherKeeps(s, t, s.threads[t].(prio := p));
    }
  }

  lemma RotateKeeps(s: State, t: Tid)
    requires Inv(s) && t in s.threads && s.threads[t].stat == Ready
    ensures var p := s.threads[t].prio;
            p < |s.queues| && Inv(s.(queues := s.queues[p := Without(s.queues[p], t) + [t]]))
  {
    hide BitmapOk, Distinct, Without;
    var p := s.threads[t].prio;
    WithoutDistinct(s.queues[p], t);
    LastDistinct(Without(s.queues[p], t), t);
    BitmapAfterPut(s.bitmap, s.queues, p, Without(s.queues[p], t) + [t]);
    assert s.queues[p] != [];
  }

  lemma RotationKeeps(s: State)
    requires Inv(s)
    ensures Inv(Rotate(s))
  {
    hide Inv, Without;
    if CanRotate(s) { RotateKeeps(s, s.current.value); }
  }

  lemma YieldKeeps(s: State)
    requires Inv(s)
    ensures Inv(Yield(s))
  {
    hide Inv, Rotate, Schedule;
    RotationKeeps(s);
    ScheduleSelects(Rotate(s));
  }

  /** How much of its slice a thread has left is no matter of the queues. */
  lemma RemainingKeeps(s: State, t: Tid, n: nat)
    requires Inv(s) && t in s.threads
    ensures Inv(s.(threads := s.threads[t := s.threads[t].(remaining := n)]))
  {
    hide BitmapOk, Distinct;
  }

  lemma CriticalKeeps(s: State, n: nat)
    requires Inv(s)
    ensures Inv(s.(lockNest := n))
  {
  }

  lemma CountDownKeeps(s: State)
    requires Inv(s)
    ensures Inv(CountDown(s))
  {
    hide Inv;
    if s.current.Some? && s.current.value in s.threads {
      var th := s.threads[s.current.value];
      RemainingKeeps(s, s.current.value, if th.remaining == 0 then 0xffff_ffff else if th.remaining == 1 then th.slice else th.remaining - 1);
    }
  }

  /** A startup or a resume that goes on finds its thread as it left it: not ready. */
  predicate Safe(m: Machine, step: Step)
    requires Enabled(m, step)
  {
    match step
    case DoPrepare(c) => m.s.threads[m.calls[c].t].stat != Ready
    case DoUnlink(c) => m.s.threads[m.calls[c].t].stat != Ready
    case DoInsert(c) => m.s.threads[m.calls[c].t].stat != Ready
    case _ => true
  }

  /** Exactly the safe steps keep the queues and the bitmap. */
  lemma StepKeepsInvIff(m: Machine, step: Step)
    requires Inv(m.s) && Enabled(m, step)
    ensures Inv(Apply(m, step).s) <==> Safe(m, step)
  {
    hide Inv, Schedule, Insert, SuspendSection, Unlink, Prepare, ChangePriority, Rotate, CountDown;
    match step
    case DoSchedule => ScheduleSelects(m.s);
    case DoStartup(c, t) =>
    case DoPrepare(c) => PrepareIff(m.s, m.calls[c].t);
    case DoResume(c, t) =>
    case DoUnlink(c) => UnlinkIff(m.s, m.calls[c].t);
    case DoInsert(c) => InsertIff(m.s, m.calls[c].t);
    case DoSuspend(c, t) =>
    case DoRemove(c) => SuspendSectionKeeps(m.s, m.calls[c].t);
    case DoTimeout(t) => InsertKeeps(m.s, t); ScheduleSelects(Insert(m.s, t));
    case DoChange(t, p) => ChangeKeeps(m.s, t, p);
    case DoRotate => RotationKeeps(m.s);
    case DoCountDown => CountDownKeeps(m.s);
    case DoEnter => CriticalKeeps(m.s, m.s.lockNest + 1);
    case DoUnlock => CriticalKeeps(m.s, Unlock(m.s).lockNest);
  }

  /** A run of safe steps. */
  predicate Run(m: Machine, steps: seq<Step>)
    decreases |steps|
  {
    steps == [] || (Enabled(m, steps[0]) && Safe(m, steps[0]) && Run(Apply(m, steps[0]), steps[1..]))
  }

  function After(m: Machine, steps: seq<Step>): Machine
    requires Run(m, steps)
    decreases |steps|
  {
    if steps == [] then m else After(Apply(m, steps[0]), steps[1..])
  }

  /** In every safe run, whatever comes between the sections: a bit of the bitmap is set exactly for a queue
      that is not empty, each ready thread is in the queue of its current priority and nowhere else; and
      whenever rt_schedule comes next with the scheduler unlocked and some thread ready, it makes a ready
      thread of the best priority the current one, the one that has been longest in its queue. */
  lemma {:induction false} RunsSelectTheBest(m: Machine, steps: seq<Step>)
    requires Inv(m.s) && Run(m, steps)
    ensures var r := After(m, steps).s;
            && Inv(r)
            && (r.lockNest == 0 && (exists t :: t in r.threads && r.threads[t].stat == Ready) ==>
                  && Selected(Schedule(r))
                  && var p := Schedule(r).threads[Schedule(r).current.value].prio;
                     p < |r.queues| && r.queues[p] != [] && Schedule(r).current == Some(r.queues[p][0]))
    decreases |steps|
  {
    hide Apply, Safe, Inv, Selected, Schedule;
    if steps == [] {
      ScheduleSelects(m.s);
    } else {
      StepKeepsInvIff(m, steps[0]);
      RunsSelectTheBest(Apply(m, steps[0]), steps[1..]);
    }
  }

  // ---------------------------------------------------------------- the locked scheduler

  /** No step changes the current thread while the scheduler is locked. */
  lemma StepKeepsCurrent(m: Machine, step: Step)
    requires Enabled(m, step)
    ensures Apply(m, step).s.lockNest == Nest(m.s.lockNest, step)
    ensures m.s.lockNest > 0 ==> Apply(m, step).s.current == m.s.current
  {
    hide Highest, SetPriority, ClearPriority, Without;
  }

  function Nest(n: nat, step: Step): nat {
    match step
    case DoEnter => n + 1
    case DoUnlock => if n > 0 then n - 1 else 0
    case _ => n
  }

  function NestAfter(n: nat, steps: seq<Step>): nat
    decreases |steps|
  {
    if steps == [] then n else NestAfter(Nest(n, steps[0]), steps[1..])
  }

  /** Of n critical sections, and those entered later, one at least is never left. */
  predicate Locked(n: nat, steps: seq<Step>)
    decreases |steps|
  {
    n > 0 && (steps == [] || Locked(Nest(n, steps[0]), steps[1..]))
  }

  lemma {:induction false} LockedDeeper(n: nat, k: nat, steps: seq<Step>)
    requires Locked(n, steps)
    ensures Locked(n + k, steps) && NestAfter(n + k, steps) == NestAfter(n, steps) + k
    decreases |steps|
  {
    if steps != [] {
      NestPositive(n, k, steps[0], steps[1..]);
      LockedDeeper(Nest(n, steps[0]), k, steps[1..]);
    }
  }

  lemma NestPositive(n: nat, k: nat, step: Step, rest: seq<Step>)
    requires n > 0 && Locked(Nest(n, step), rest)
    ensures Nest(n + k, step) == Nest(n, step) + k
  {
    assert Nest(n, step) > 0;
  }

  lemma {:induction false} LockedRunsKeepCurrent(m: Machine, steps: seq<Step>)
    requires Run(m, steps) && Locked(m.s.lockNest, steps)
    ensures var r := After(m, steps).s; r.current == m.s.current && r.lockNest == NestAfter(m.s.lockNest, steps)
    decreases |steps|
  {
    hide Apply, Enabled, Safe;
    if steps != [] {
      StepKeepsCurrent(m, steps[0]);
      LockedRunsKeepCurrent(Apply(m, steps[0]), steps[1..]);
    }
  }

  /** A critical section belongs to one thread: from its beginning to the end that matches it, with other sections
      inside or around it, and whatever threads become ready, time out or are scheduled for, the current
      thread is the same, and the nesting comes back to where it was. */
  lemma CriticalSection(m: Machine, steps: seq<Step>)
    requires Run(m, [DoEnter] + steps + [DoUnlock]) && Locked(1, steps) && NestAfter(1, steps) == 1
    ensures var r := After(m, [DoEnter] + steps + [DoUnlock]).s;
            r.current == m.s.current && r.lockNest == m.s.lockNest
  {
    hide Apply, Enabled, Safe, Locked, NestAfter;
    var all, rest := [DoEnter] + steps + [DoUnlock], steps + [DoUnlock];
    assert all[0] == DoEnter && all[1..] == rest;
    var m1 := Apply(m, DoEnter);
    StepKeepsCurrent(m, DoEnter);
    EntersOnly(m);
    RunAppend(m1, steps, [DoUnlock]);
    LockedDeeper(1, m.s.lockNest, steps);
    LockedRunsKeepCurrent(m1, steps);
    var m2 := After(m1, steps);
    StepKeepsCurrent(m2, DoUnlock);
    assert [DoUnlock][1..] == [] && After(Apply(m2, DoUnlock), []) == Apply(m2, DoUnlock);
  }

  lemma EntersOnly(m: Machine)
    ensures Apply(m, DoEnter).s.current == m.s.current && Apply(m, DoEnter).s.lockNest == m.s.lockNest + 1
  {
  }

  lemma {:induction false} RunAppend(m: Machine, a: seq<Step>, b: seq<Step>)
    requires Run(m, a + b)
    ensures Run(m, a) && Run(After(m, a), b) && After(m, a + b) == After(After(m, a), b)
    decreases |a|
  {
    hide Apply, Enabled, Safe;
    if a == [] {
      assert a + b == b;
    } else {
      assert (a + b)[0] == a[0] && (a + b)[1..] == a[1..] + b;
      RunAppend(Apply(m, a[0]), a[1..], b);
    }
  }

  /** The end of the outermost section schedules: the best ready thread runs then. The end of an inner one changes
      nothing but the count. */
  lemma ExitSelects(s: State)
    requires Inv(s)
    ensures s.lockNest > 1 ==> ExitCritical(s) == s.(lockNest := s.lockNest - 1)
    ensures s.lockNest <= 1 && (exists t :: t in s.threads && s.threads[t].stat == Ready) ==>
              Selected(ExitCritical(s)) && ExitCritical(s).lockNest == 0
  {
    hide Inv, Schedule;
    CriticalKeeps(s, 0);
    ScheduleSelects(s.(lockNest := 0));
    ScheduleChangesCurrent(s.(lockNest := 0));
  }

  // ---------------------------------------------------------------- what each step does to the threads

  /** The thread that the step is about. */
  function Subject(m: Machine, step: Step): Option<Tid>
    requires Enabled(m, step)
  {
    match step
    case DoPrepare(c) => Some(m.calls[c].t)
    case DoUnlink(c) => Some(m.calls[c].t)
    case DoInsert(c) => Some(m.calls[c].t)
    case DoRemove(c) => Some(m.calls[c].t)
    case DoTimeout(t) => Some(t)
    case DoChange(t, p) => Some(t)
    case DoRotate => m.s.current
    case DoCountDown => m.s.current
    case _ => None
  }

  /** The threads and queues of s and r differ at most in t, and the others keep their order. */
  ghost predicate OnlyMoves(s: State, r: State, t: Option<Tid>) {
    && r.threads.Keys == s.threads.Keys && |r.queues| == |s.queues|
    && (forall u <- s.threads :: t != Some(u) ==> r.threads[u] == s.threads[u])
    && (forall p: nat :: p < |s.queues| ==>
          if t.Some? then Without(r.queues[p], t.value) == Without(s.queues[p], t.value) else r.queues[p] == s.queues[p])
  }

  /** t is the last one of the queue of its priority. */
  predicate IsLast(s: State, t: Tid) {
    t in s.threads && s.threads[t].prio < |s.queues|
    && var q := s.queues[s.threads[t].prio]; q != [] && q[|q| - 1] == t
  }

  /** No step touches the state, the priorities or the order of any thread but that it is about; and that one gets the
      state and the priority it should have, and goes behind all others of its priority. */
  lemma StepChanges(m: Machine, step: Step)
    requires Inv(m.s) && Enabled(m, step) && Safe(m, step)
    ensures OnlyMoves(m.s, Apply(m, step).s, Subject(m, step))
    ensures var s, r := m.s, Apply(m, step).s;
            match step
            case DoPrepare(c) =>
              var t := m.calls[c].t; r.threads[t] == s.threads[t].(stat := Suspended, prio := s.threads[t].initPrio)
            case DoInsert(c) => var t := m.calls[c].t; r.threads[t] == s.threads[t].(stat := Ready) && IsLast(r, t)
            case DoRemove(c) => var t := m.calls[c].t; r.threads[t] == s.threads[t].(stat := Suspended)
            case DoTimeout(t) => r.threads[t] == s.threads[t].(stat := Ready) && IsLast(r, t)
            case DoChange(t, p) =>
              r.threads[t] == s.threads[t].(prio := p) && (s.threads[t].stat == Ready ==> IsLast(r, t))
            case DoCountDown =>
              s.current.Some? && s.current.value in s.threads ==>
                var t := s.current.value;
                var left := (s.threads[t].remaining - 1) % 0x1_0000_0000;
                s.threads[t].remaining < 0x1_0000_0000 ==>
                  r.threads[t] == s.threads[t].(remaining := if left == 0 then s.threads[t].slice else left)
            case DoRotate => r.threads == s.threads && (CanRotate(s) ==> IsLast(r, s.current.value))
            case _ => r.threads == s.threads
  {
    hide BitmapOk, QueuesOk, Highest, SetPriority, ClearPriority;
    var t := Subject(m, step);
    match step
    case DoPrepare(c) =>
    case DoUnlink(c) => NotQueued(m.s, t.value);
    case DoInsert(c) => InsertMoves(m.s, t.value);
    case DoRemove(c) => RemoveMoves(SetStat(m.s, t.value, Suspended), t.value);
    case DoTimeout(_) => InsertMoves(m.s, t.value); ScheduleChangesCurrent(Insert(m.s, t.value));
    case DoChange(_, p) => ChangeMoves(m.s, t.value, p);
    case DoRotate => RotateMoves(m.s);
    case _ =>
  }

  /** Only rt_schedule changes the current thread, by itself or at the end of a time-out. */
  lemma StepSelects(m: Machine, step: Step)
    requires Inv(m.s) && Enabled(m, step)
    ensures !step.DoSchedule? && !step.DoTimeout? ==> Apply(m, step).s.current == m.s.current
    ensures step.DoTimeout? && m.s.lockNest == 0 ==> Selected(Apply(m, step).s)
  {
    if step.DoTimeout? {
      hide Inv, Selected, Schedule;
      var r := Insert(m.s, step.t);
      InsertKeeps(m.s, step.t);
      ThreadInRange(m.s, step.t);
      InsertIs(m.s, step.t);
      InsertLeavesLock(m.s, step.t);
      ScheduleSelects(r);
      assert r.threads[step.t].stat == Ready;
    } else {
      hide Highest, SetPriority, ClearPriority, Without, Inv;
    }
  }

  lemma InsertLeavesLock(s: State, t: Tid)
    requires t in s.threads
    ensures Insert(s, t).lockNest == s.lockNest
  {
  }

  lemma WithoutTwice(q: seq<Tid>, t: Tid)
    ensures Without(Without(q, t), t) == Without(q, t) && Without(q + [t], t) == Without(q, t)
  {
    WithoutHas(q, t);
    WithoutOther(Without(q, t), t);
    WithoutAppend(q, [t], t);
  }

  lemma {:induction false} WithoutAppend(a: seq<Tid>, b: seq<Tid>, t: Tid)
    ensures Without(a + b, t) == Without(a, t) + Without(b, t)
  {
    if a == [] { assert a + b == b; }
    else {
      assert (a + b)[0] == a[0] && (a + b)[1..] == a[1..] + b;
      WithoutAppend(a[1..], b, t);
    }
  }

  lemma InsertMoves(s: State, t: Tid)
    requires Inv(s) && t in s.threads
    ensures OnlyMoves(s, Insert(s, t), Some(t)) && IsLast(Insert(s, t), t)
    ensures Insert(s, t).threads == s.threads[t := s.threads[t].(stat := Ready)]
  {
    ThreadInRange(s, t);
    hide Inv, SetPriority, Without;
    WithoutTwice(s.queues[s.threads[t].prio], t);
  }

  lemma RemoveMoves(s: State, t: Tid)
    requires t in s.threads
    ensures OnlyMoves(s, Remove(s, t), Some(t)) && Remove(s, t).threads == s.threads
  {
    hide ClearPriority, Without;
    if s.threads[t].prio < |s.queues| { WithoutTwice(s.queues[s.threads[t].prio], t); }
  }

  lemma ChangeMoves(s: State, t: Tid, p: nat)
    requires Inv(s) && t in s.threads && p < |s.queues|
    ensures var r := ChangePriority(s, t, p);
            && OnlyMoves(s, r, Some(t)) && r.threads == s.threads[t := s.threads[t].(prio := p)]
            && (s.threads[t].stat == Ready ==> IsLast(r, t))
  {
    hide Inv, SetPriority, ClearPriority, Without;
    if s.threads[t].stat == Ready {
      RemoveMoves(s, t);
      var s1 := SetPrio(Remove(s, t), t, p);
      WithoutTwice(s1.queues[p], t);
    }
  }

  lemma RotateMoves(s: State)
    ensures OnlyMoves(s, Rotate(s), s.current) && Rotate(s).threads == s.threads
    ensures CanRotate(s) ==> IsLast(Rotate(s), s.current.value)
  {
    hide Without;
    if CanRotate(s) {
      var t := s.current.value;
      var q := s.queues[s.threads[t].prio];
      WithoutTwice(q, t);
      WithoutTwice(Without(q, t), t);
    }
  }

  // ---------------------------------------------------------------- what makes a run safe

  /** A startup or a resume of the thread is under way. */
  predicate Rising(m: Machine, c: Caller, t: Tid) {
    c in m.calls && m.calls[c].t == t && m.calls[c].phase != Suspending
  }

  predicate Alone(m: Machine, t: Tid) {
    forall c <- m.calls :: !Rising(m, c, t)
  }

  /** No startup, resume or time-out of a thread begins while a startup or a resume of it is under way. */
  predicate Apart(m: Machine, step: Step) {
    match step
    case DoStartup(c, t) => Alone(m, t)
    case DoResume(c, t) => Alone(m, t)
    case DoTimeout(t) => Alone(m, t)
    case _ => true
  }

  /** Each thread has one startup or resume under way at most, and while it has it is not ready. */
  ghost predicate CallsOk(m: Machine) {
    && (forall c <- m.calls :: m.calls[c].phase != Suspending ==>
          m.calls[c].t in m.s.threads && m.s.threads[m.calls[c].t].stat != Ready)
    && forall c <- m.calls, d <- m.calls :: c != d && m.calls[c].phase != Suspending && m.calls[d].phase != Suspending ==>
         m.calls[c].t != m.calls[d].t
  }

  lemma ApartKeeps(m: Machine, step: Step)
    requires CallsOk(m) && Enabled(m, step) && Apart(m, step)
    ensures Safe(m, step) && CallsOk(Apply(m, step))
  {
    hide CallsOk, Alone, Schedule, Insert, SuspendSection, Unlink, Prepare, ChangePriority, Rotate, CountDown;
    CallsAre(m);
    match step
    case DoStartup(c, t) => CallAdded(m, c, t, Starting);
    case DoResume(c, t) => CallAdded(m, c, t, Unlinking);
    case DoSuspend(c, t) => CallAdded(m, c, t, Suspending);
    case DoPrepare(c) => CallGoesOn(m, c);
    case DoUnlink(c) => CallGoesOn(m, c);
    case DoInsert(c) => CallGoesOn(m, c);
    case DoRemove(c) => CallGoesOn(m, c);
    case _ => NoCallGoesOn(m, step);
  }

  /** The steps of the calls. */
  lemma CallGoesOn(m: Machine, c: Caller)
    requires CallsOk(m) && c in m.calls && m.calls[c].t in m.s.threads
    ensures var s, t, calls := m.s, m.calls[c].t, m.calls;
            && (calls[c].phase == Starting ==> CallsOk(Machine(Prepare(s, t), calls - {c})))
            && (calls[c].phase == Unlinking ==> CallsOk(Machine(Unlink(s, t), calls[c := Call(t, Linking)])))
            && (calls[c].phase == Linking ==> CallsOk(Machine(Insert(s, t), calls - {c})))
            && (calls[c].phase == Suspending ==> CallsOk(Machine(SuspendSection(s, t), calls - {c})))
  {
    hide CallsOk, Insert, SuspendSection, Unlink;
    CallsAre(m);
    var s, t, calls := m.s, m.calls[c].t, m.calls;
    ThreadsAre(s, t, 0);
    match calls[c].phase
    case Starting => CallsStay(m, Machine(Prepare(s, t), calls - {c}), t);
    case Unlinking => CallsStay(m, Machine(Unlink(s, t), calls[c := Call(t, Linking)]), t);
    case Linking => CallsStay(m, Machine(Insert(s, t), calls - {c}), t);
    case Suspending => CallsStay(m, Machine(SuspendSection(s, t), calls - {c}), t);
  }

  /** The other steps leave the calls as they are. */
  lemma NoCallGoesOn(m: Machine, step: Step)
    requires CallsOk(m) && Enabled(m, step) && Apart(m, step) && Apply(m, step).calls == m.calls
    requires step.DoSchedule? || step.DoTimeout? || step.DoChange? || step.DoRotate? || step.DoCountDown?
             || step.DoEnter? || step.DoUnlock?
    ensures CallsOk(Apply(m, step))
  {
    hide CallsOk, Alone, Schedule, Insert, ChangePriority, Rotate, CountDown;
    CallsAre(m);
    SameThreads(m.s);
    var r := Apply(m, step);
    var u := if step.DoTimeout? || step.DoChange? then step.t else 0;
    if step.DoTimeout? {
      AloneIs(m, u);
      ThreadsAre(m.s, u, 0);
      SameThreads(Insert(m.s, u));
    } else if step.DoChange? {
      ThreadsAre(m.s, u, step.p);
    }
    CallsStay(m, r, u);
  }

  lemma CallsAre(m: Machine)
    requires CallsOk(m)
    ensures forall c <- m.calls :: m.calls[c].phase != Suspending ==>
              m.calls[c].t in m.s.threads && m.s.threads[m.calls[c].t].stat != Ready
    ensures forall c <- m.calls, d <- m.calls :: c != d && m.calls[c].phase != Suspending && m.calls[d].phase != Suspending ==>
              m.calls[c].t != m.calls[d].t
  {
  }

  lemma CallAdded(m: Machine, c: Caller, t: Tid, phase: Phase)
    requires CallsOk(m) && c !in m.calls && t in m.s.threads
    requires phase != Suspending ==> Alone(m, t)
    ensures m.s.threads[t].stat != Ready || phase == Suspending ==> CallsOk(m.(calls := m.calls[c := Call(t, phase)]))
  {
    if phase != Suspending { AloneIs(m, t); }
    hide Alone;
  }

  /** At most one thread becomes ready, and no startup or resume of it is left. */
  lemma CallsStay(m: Machine, r: Machine, t: Tid)
    requires CallsOk(m) && m.s.threads.Keys <= r.s.threads.Keys
    requires forall c <- r.calls :: c in m.calls && r.calls[c].t == m.calls[c].t
                                    && (r.calls[c].phase == Suspending <==> m.calls[c].phase == Suspending)
    requires forall u <- m.s.threads :: u != t && m.s.threads[u].stat != Ready ==> r.s.threads[u].stat != Ready
    requires (t in m.s.threads && (m.s.threads[t].stat != Ready ==> r.s.threads[t].stat != Ready))
             || forall c <- r.calls :: r.calls[c].phase != Suspending ==> r.calls[c].t != t
    ensures CallsOk(r)
  {
  }

  lemma AloneIs(m: Machine, t: Tid)
    requires Alone(m, t)
    ensures forall c <- m.calls :: m.calls[c].phase != Suspending ==> m.calls[c].t != t
  {
    forall c | c in m.calls && m.calls[c].phase != Suspending
      ensures m.calls[c].t != t
    {
      assert !Rising(m, c, t);
    }
  }

  /** What the steps do to the threads. */
  lemma ThreadsAre(s: State, t: Tid, p: nat)
    requires t in s.threads
    ensures Insert(s, t).threads == s.threads[t := s.threads[t].(stat := Ready)]
    ensures SuspendSection(s, t).threads == s.threads[t := s.threads[t].(stat := Suspended)]
    ensures Unlink(s, t).threads == s.threads
    ensures ChangePriority(s, t, p).threads == s.threads[t := s.threads[t].(prio := p)]
  {
    hide SetPriority, ClearPriority, Without;
  }

  lemma SameThreads(s: State)
    ensures Schedule(s).threads == s.threads && Rotate(s).threads == s.threads
    ensures CountDown(s).threads.Keys == s.threads.Keys
    ensures forall t <- s.threads :: CountDown(s).threads[t].stat == s.threads[t].stat
  {
    hide Highest, Without;
  }

  predicate ApartRun(m: Machine, steps: seq<Step>)
    decreases |steps|
  {
    steps == [] || (Enabled(m, steps[0]) && Apart(m, steps[0]) && ApartRun(Apply(m, steps[0]), steps[1..]))
  }

  /** Calls that are kept apart are always safe, however else they interleave. Those that run with interrupts
      disabled from check to insertion are. */
  lemma {:induction false} ApartRunsAreSafe(m: Machine, steps: seq<Step>)
    requires CallsOk(m) && ApartRun(m, steps)
    ensures Run(m, steps)
    decreases |steps|
  {
    hide Apply, Safe, Apart, CallsOk;
    if steps != [] {
      ApartKeeps(m, steps[0]);
      ApartRunsAreSafe(Apply(m, steps[0]), steps[1..]);
    }
  }

  /** The steps of two resumes of the same thread, each past its check before the other has gone on. */
  function TwoResumes(t: Tid): seq<Step> {
    [DoResume(0, t), DoResume(1, t), DoUnlink(0), DoUnlink(1), DoInsert(0)]
  }

  /** What goes wrong otherwise: after those steps, each of them safe, the second insertion puts the thread, whichever
      it is, into its queue a second time. */
  lemma ResumedTwice(s: State, t: Tid)
    requires Inv(s) && t in s.threads && s.threads[t].stat == Suspended
    ensures var m, p := Machine(s, map[]), s.threads[t].prio;
            && Run(m, TwoResumes(t)) && p < |s.queues|
            && var r := After(m, TwoResumes(t));
               && Enabled(r, DoInsert(1)) && !Safe(r, DoInsert(1))
               && Apply(r, DoInsert(1)).s.queues == s.queues[p := s.queues[p] + [t] + [t]]
               && !Inv(Apply(r, DoInsert(1)).s)
  {
    hide Insert, Unlink, Inv;
    NotQueued(s, t);
    ThreadInRange(s, t);
    var m0 := Machine(s, map[]);
    var m1 := Machine(s, map[0 := Call(t, Unlinking)]);
    var m2 := Machine(s, map[0 := Call(t, Unlinking), 1 := Call(t, Unlinking)]);
    var m3 := Machine(s, map[0 := Call(t, Linking), 1 := Call(t, Unlinking)]);
    var m4 := Machine(s, map[0 := Call(t, Linking), 1 := Call(t, Linking)]);
    var m5 := Machine(Insert(s, t), map[1 := Call(t, Linking)]);
    InsertIs(s, t);
    InsertIs(m5.s, t);
    AfterFive(m0, m1, m2, m3, m4, m5, TwoResumes(t));
    InsertKeeps(s, t);
    InsertIff(m5.s, t);
  }

  lemma InsertIs(s: State, t: Tid)
    requires t in s.threads && s.threads[t].prio < |s.queues|
    ensures var r, p := Insert(s, t), s.threads[t].prio;
            && r.queues == s.queues[p := s.queues[p] + [t]]
            && r.threads == s.threads[t := s.threads[t].(stat := Ready)]
  {
  }

  lemma TwiceInEmpty(t: Tid)
    ensures var e: seq<seq<Tid>> := [[]]; e[0 := e[0] + [t] + [t]] == [[t, t]]
  {
    var q: seq<Tid> := [];
    assert q + [t] + [t] == [t, t];
  }

  /** An input for that. */
  lemma ResumedTwiceExample()
    ensures var s := State([[]], OneLevel(0), map[7 := Thread(Suspended, 0, 0, 1, 1)], None, 0);
            var m := Machine(s, map[]);
            && Inv(s) && Run(m, TwoResumes(7)) && Enabled(After(m, TwoResumes(7)), DoInsert(1))
            && Apply(After(m, TwoResumes(7)), DoInsert(1)).s.queues == [[7, 7]]
  {
    hide Inv, Run, After, Apply, Enabled;
    var s := State([[]], OneLevel(0), map[7 := Thread(Suspended, 0, 0, 1, 1)], None, 0);
    OneSuspended(s);
    ResumedTwice(s, 7);
    TwiceInEmpty(7);
  }

  lemma OneSuspended(s: State)
    requires s == State([[]], OneLevel(0), map[7 := Thread(Suspended, 0, 0, 1, 1)], None, 0)
    ensures Inv(s)
  {
    NoBits(0);
  }

  lemma AfterFive(m0: Machine, m1: Machine, m2: Machine, m3: Machine, m4: Machine, m5: Machine, steps: seq<Step>)
    requires |steps| == 5
    requires Enabled(m0, steps[0]) && Safe(m0, steps[0]) && Apply(m0, steps[0]) == m1
    requires Enabled(m1, steps[1]) && Safe(m1, steps[1]) && Apply(m1, steps[1]) == m2
    requires Enabled(m2, steps[2]) && Safe(m2, steps[2]) && Apply(m2, steps[2]) == m3
    requires Enabled(m3, steps[3]) && Safe(m3, steps[3]) && Apply(m3, steps[3]) == m4
    requires Enabled(m4, steps[4]) && Safe(m4, steps[4]) && Apply(m4, steps[4]) == m5
    ensures Run(m0, steps) && After(m0, steps) == m5
  {
    hide Enabled, Safe, Apply;
    assert Run(m5, steps[5..]) && After(m5, steps[5..]) == m5;
    assert steps[4..][0] == steps[4] && steps[4..][1..] == steps[5..];
    assert Run(m4, steps[4..]) && After(m4, steps[4..]) == m5;
    assert steps[3..][0] == steps[3] && steps[3..][1..] == steps[4..];
    assert Run(m3, steps[3..]) && After(m3, steps[3..]) == m5;
    assert steps[2..][0] == steps[2] && steps[2..][1..] == steps[3..];
    assert Run(m2, steps[2..]) && After(m2, steps[2..]) == m5;
    assert steps[1..][0] == steps[1] && steps[1..][1..] == steps[2..];
    assert Run(m1, steps[1..]) && After(m1, steps[1..]) == m5;
  }

  /** The sections of a resume with nothing between them. */
  lemma SectionsResume(m: Machine, c: Caller, t: Tid)
    requires Inv(m.s) && c !in m.calls && t in m.s.threads && m.s.threads[t].stat == Suspended
    ensures Run(m, [DoResume(c, t), DoUnlink(c), DoInsert(c)])
    ensures After(m, [DoResume(c, t), DoUnlink(c), DoInsert(c)]) == m.(s := Resume(m.s, t))
  {
    hide Inv, Insert, Unlink;
    var steps := [DoResume(c, t), DoUnlink(c), DoInsert(c)];
    NotQueued(m.s, t);
    var m1, m2 := m.(calls := m.calls[c := Call(t, Unlinking)]), m.(calls := m.calls[c := Call(t, Linking)]);
    var m3 := m.(s := Resume(m.s, t));
    assert m1.calls[c := Call(t, Linking)] == m2.calls && m2.calls - {c} == m.calls;
    assert Apply(m, steps[0]) == m1 && Apply(m1, steps[1]) == m2 && Apply(m2, steps[2]) == m3;
    assert steps[1..][0] == steps[1] && steps[2..][0] == steps[2];
    assert steps[1..][1..] == steps[2..] && steps[2..][1..] == [];
    assert Run(m3, []) && After(m3, []) == m3;
    assert Run(m2, steps[2..]) && After(m2, steps[2..]) == m3;
    assert Run(m1, steps[1..]) && After(m1, steps[1..]) == m3;
  }

  // ---------------------------------------------------------------- round robin

  /** The current thread is the first of the best queue, the scheduler is not locked, and every thread of
      that queue has some of its slice left. */
  ghost predicate Turn(s: State, p: nat) {
    && Inv(s) && s.lockNest == 0 && p < |s.queues| && s.queues[p] != []
    && s.current == Some(s.queues[p][0])
    && (forall u <- s.threads :: s.threads[u].stat == Ready ==> p <= s.threads[u].prio)
    && (forall t <- s.queues[p] :: t in s.threads && s.threads[t].remaining > 0 && s.threads[t].slice > 0)
  }

  function Ticks(s: State, n: nat): State {
    if n == 0 then s
    else
      var r := Ticks(s, n - 1);
      if r.current.Some? && r.current.value in r.threads then Tick(r) else r
  }

  lemma {:induction false} TicksAdd(s: State, m: nat, n: nat)
    ensures Ticks(s, m + n) == Ticks(Ticks(s, m), n)
  {
    hide Tick;
    if n > 0 { TicksAdd(s, m, n - 1); }
  }

  lemma OneTick(s: State, n: nat)
    requires n > 0 && var r := Ticks(s, n - 1); r.current.Some? && r.current.value in r.threads
    ensures Ticks(s, n) == Tick(Ticks(s, n - 1))
  {
  }

  function SetRemaining(s: State, t: Tid, n: nat): State
    requires t in s.threads
  {
    s.(threads := s.threads[t := s.threads[t].(remaining := n)])
  }

  lemma CurrentIs(s: State, p: nat)
    requires Turn(s, p)
    ensures var t := s.queues[p][0];
            && s.current == Some(t) && t in s.threads && s.threads[t].remaining > 0
            && s.threads[t].stat == Ready && s.threads[t].prio == p
  {
    assert s.queues[p][0] in s.queues[p];
  }

  lemma TurnGoesOn(s: State, p: nat, n: nat)
    requires Turn(s, p) && n > 0
    ensures s.queues[p][0] in s.threads && Turn(SetRemaining(s, s.queues[p][0], n), p)
  {
    CurrentIs(s, p);
    RemainingKeeps(s, s.queues[p][0], n);
    hide Inv;
  }

  function Rotated(s: State, p: nat): State
    requires p < |s.queues| && s.queues[p] != []
  {
    var q := s.queues[p][1..] + [s.queues[p][0]];
    s.(queues := s.queues[p := q], current := Some(q[0]))
  }

  /** When the slice of the current thread ends, it goes to the end of its queue, and the next one runs. */
  lemma YieldRotates(s: State, p: nat)
    requires Turn(s, p)
    ensures s.current.Some? && s.current.value in s.threads && Yield(s) == Rotated(s, p) && Turn(Rotated(s, p), p)
  {
    hide Without, Schedule, WellFormed, Marked;
    CurrentIs(s, p);
    var t, q := s.queues[p][0], s.queues[p];
    var q1 := q[1..] + [t];
    if |q| > 1 {
      WithoutFirst(q);
      RotateKeeps(s, t);
      var s1 := s.(queues := s.queues[p := q1]);
      ScheduleSelects(s1);
      FirstOfBest(s1, p, t);
      ScheduleChangesCurrent(s1);
      assert forall u <- q1 :: u in q;
    } else {
      assert q1 == q && s.queues[p := q] == s.queues;
    }
  }

  lemma ScheduleChangesCurrent(s: State)
    ensures Schedule(s) == s.(current := Schedule(s).current)
  {
  }

  lemma FirstOfBest(s: State, p: nat, t: Tid)
    requires Inv(s) && s.lockNest == 0 && p < |s.queues| && t in s.queues[p]
    requires forall u <- s.threads :: s.threads[u].stat == Ready ==> p <= s.threads[u].prio
    ensures Schedule(s).current == Some(s.queues[p][0])
  {
    hide Schedule, WellFormed, Marked;
    ScheduleSelects(s);
    ScheduleChangesCurrent(s);
    assert t in s.threads && s.threads[t].stat == Ready && s.threads[t].prio == p;
  }

  lemma TickCounts(s: State, t: Tid)
    requires s.current == Some(t) && t in s.threads && s.threads[t].remaining > 0
    ensures s.threads[t].remaining > 1 ==> Tick(s) == SetRemaining(s, t, s.threads[t].remaining - 1)
    ensures s.threads[t].remaining == 1 ==>
              var s1 := SetRemaining(s, t, s.threads[t].slice); Tick(s) == Yield(s1)
  {
  }

  lemma SetTwice(s: State, t: Tid, m: nat, n: nat)
    requires t in s.threads
    ensures SetRemaining(SetRemaining(s, t, m), t, n) == SetRemaining(s, t, n)
    ensures SetRemaining(s, t, s.threads[t].remaining) == s
  {
    assert s.threads[t := s.threads[t]] == s.threads;
  }

  /** The current thread runs until its slice ends. */
  lemma {:induction false} SliceRuns(s: State, p: nat, n: nat)
    requires Turn(s, p) && s.queues[p][0] in s.threads && n < s.threads[s.queues[p][0]].remaining
    ensures s.current == Some(s.queues[p][0])
    ensures Ticks(s, n) == SetRemaining(s, s.queues[p][0], s.threads[s.queues[p][0]].remaining - n)
  {
    hide Inv, Tick, Ticks;
    CurrentIs(s, p);
    var t := s.queues[p][0];
    if n == 0 {
      SetTwice(s, t, 0, 0);
      NoTick(s);
    } else {
      SliceRuns(s, p, n - 1);
      OneTick(s, n);
      TickCounts(Ticks(s, n - 1), t);
      SetTwice(s, t, s.threads[t].remaining - (n - 1), s.threads[t].remaining - n);
    }
  }

  lemma NoTick(s: State)
    ensures Ticks(s, 0) == s
  {
  }

  /** Then the next one has its turn, and the first one has a whole slice before it. */
  lemma SliceEnds(s: State, p: nat)
    requires Turn(s, p) && s.queues[p][0] in s.threads
    ensures var t := s.queues[p][0];
            && s.current == Some(t)
            && Ticks(s, s.threads[t].remaining) == Rotated(SetRemaining(s, t, s.threads[t].slice), p)
            && Turn(Rotated(SetRemaining(s, t, s.threads[t].slice), p), p)
  {
    hide Inv, Yield, Tick, Ticks, Rotated;
    CurrentIs(s, p);
    var t := s.queues[p][0];
    var n := s.threads[t].remaining;
    SliceRuns(s, p, n - 1);
    OneTick(s, n);
    TickCounts(Ticks(s, n - 1), t);
    SetTwice(s, t, 1, s.threads[t].slice);
    assert t in s.queues[p];
    TurnGoesOn(s, p, s.threads[t].slice);
    YieldRotates(SetRemaining(s, t, s.threads[t].slice), p);
  }

  /** The slices that the first k threads of a queue have left. */
  function TimeOf(threads: map<Tid, Thread>, q: seq<Tid>, k: nat): nat
    requires k <= |q|
  {
    if k == 0 then 0 else TimeOf(threads, q, k - 1) + (if q[k - 1] in threads then threads[q[k - 1]].remaining else 0)
  }

  /** The first k threads have had their turn: they are behind the others, each with a whole slice. */
  ghost predicate Turned(s: State, r: State, p: nat, k: nat)
    requires p < |s.queues| && k <= |s.queues[p]|
  {
    var q := s.queues[p];
    && r.queues == s.queues[p := q[k..] + q[..k]] && r.threads.Keys == s.threads.Keys
    && (forall t <- s.threads :: t !in q[..k] ==> r.threads[t] == s.threads[t])
    && (forall t <- s.threads :: t in q[..k] ==> r.threads[t] == s.threads[t].(remaining := s.threads[t].slice))
  }

  lemma NothingTurned(s: State, p: nat)
    requires p < |s.queues|
    ensures Turned(s, s, p, 0)
  {
    var q := s.queues[p];
    assert q[0..] + q[..0] == q && s.queues[p := q] == s.queues;
  }

  /** The thread at position k of the best queue becomes current after exactly the ticks that the threads
      before it have left of their slices, if nothing else happens. After the whole queue the order is the
      same again, with whole slices. */
  lemma {:induction false} RoundRobin(s: State, p: nat, k: nat)
    requires Turn(s, p) && k <= |s.queues[p]|
    ensures var r := Ticks(s, TimeOf(s.threads, s.queues[p], k)); Turn(r, p) && Turned(s, r, p, k)
  {
    hide Inv, Rotated, Tick, Ticks, Turned;
    var q := s.queues[p];
    if k == 0 {
      NoTick(s);
      NothingTurned(s, p);
    } else {
      RoundRobin(s, p, k - 1);
      var before := TimeOf(s.threads, q, k - 1);
      var r := Ticks(s, before);
      HeadAfter(s, r, p, k - 1);
      SliceEnds(r, p);
      TicksAdd(s, before, s.threads[q[k - 1]].remaining);
      OneMoreTurned(s, r, p, k);
    }
  }

  /** And it stays current until its own slice ends. */
  lemma RoundRobinTurn(s: State, p: nat, k: nat, n: nat)
    requires Turn(s, p) && k < |s.queues[p]|
    ensures s.queues[p][k] in s.threads
    ensures n < s.threads[s.queues[p][k]].remaining ==>
              Ticks(s, TimeOf(s.threads, s.queues[p], k) + n).current == Some(s.queues[p][k])
  {
    hide Inv, Tick, Ticks;
    RoundRobin(s, p, k);
    var r := Ticks(s, TimeOf(s.threads, s.queues[p], k));
    HeadAfter(s, r, p, k);
    if n < s.threads[s.queues[p][k]].remaining {
      SliceRuns(r, p, n);
      TicksAdd(s, TimeOf(s.threads, s.queues[p], k), n);
    }
  }

  lemma HeadAfter(s: State, r: State, p: nat, k: nat)
    requires Turn(s, p) && k < |s.queues[p]| && Turned(s, r, p, k)
    ensures var t := s.queues[p][k];
            p < |r.queues| && r.queues[p] != [] && r.queues[p][0] == t && t in s.threads && t in r.threads && r.threads[t] == s.threads[t] && t !in s.queues[p][..k]
  {
    var q := s.queues[p];
    assert q[k] in q;
    assert Distinct(q);
  }

  lemma OneMoreTurned(s: State, r: State, p: nat, k: nat)
    requires Turn(s, p) && 0 < k <= |s.queues[p]| && Turned(s, r, p, k - 1) && r.queues[p][0] in r.threads
    ensures r.queues[p] != []
    ensures var t := r.queues[p][0]; Turned(s, Rotated(SetRemaining(r, t, r.threads[t].slice), p), p, k)
  {
    hide Inv, Distinct;
    HeadAfter(s, r, p, k - 1);
    var q, t := s.queues[p], s.queues[p][k - 1];
    assert (q[k - 1..] + q[..k - 1])[1..] + [t] == q[k..] + q[..k];
    assert q[..k] == q[..k - 1] + [t];
  }

  // ---------------------------------------------------------------- the object

  /** The invariant holds again as soon as t has become a thread that is not ready. */
  ghost predicate WithoutReady(s: State, t: Tid) {
    forall th: Thread :: th.stat != Ready && th.prio < |s.queues| && th.initPrio < |s.queues| ==>
      Inv(s.(threads := s.threads[t := th]))
  }

  lemma RemoveKeepsOthers(s: State, t: Tid)
    requires Inv(s) && t in s.threads && s.threads[t].stat == Ready
    ensures WithoutReady(Remove(s, t), t)
  {
    hide Inv, Without, ClearPriority;
    forall th: Thread | th.stat != Ready && th.prio < |s.queues| && th.initPrio < |s.queues|
      ensures Inv(Remove(s, t).(threads := s.threads[t := th]))
    {
      RemoveKeeps(s, t, th);
    }
  }

  /** The globals of the scheduler, for at most 32 priorities. */
  class SchedulerObject {
    var queues: seq<seq<Tid>>
    var group: nat
    var threads: map<Tid, Thread>
    var current: Option<Tid>
    var lockNest: nat

    ghost function Value(): State
      reads this
    {
      State(queues, OneLevel(group), threads, current, lockNest)
    }

    /** rt_system_scheduler_init, and threads that have not been started. */
    constructor (priorities: nat, threads: map<Tid, Thread>)
      requires priorities <= GROUPS
      requires forall t <- threads :: threads[t].stat == Initial && threads[t].prio < priorities && threads[t].initPrio < priorities
      ensures Inv(Value()) && this.threads == threads && current == None && lockNest == 0 && |queues| == priorities
    {
      queues := seq(priorities, _ => []);
      this.threads := threads;
      group, current, lockNest := 0, None, 0;
      new;
      NoBits(0);
    }

    method RunSchedule()
      requires Inv(Value())
      modifies this`current
      ensures Value() == Schedule(old(Value())) && Inv(Value())
    {
      ScheduleSelects(Value());
      if lockNest == 0 {
        var p := FindFirstSet(group) - 1;
        if 0 <= p < |queues| && queues[p] != [] {
          var to := queues[p][0];
          if current != Some(to) { current := Some(to); }
        }
      }
    }

    method InsertThread(t: Tid)
      requires t in threads && threads[t].prio < |queues|
      modifies this
      ensures Value() == Insert(old(Value()), t)
      ensures old(Inv(Value()) && threads[t].stat != Ready) ==> Inv(Value())
    {
      if Inv(Value()) && threads[t].stat != Ready { InsertKeeps(Value(), t); }
      threads := threads[t := threads[t].(stat := Ready)];
      var p := threads[t].prio;
      queues := queues[p := queues[p] + [t]];
      group := SetBit(group, p);
    }

    method RemoveThread(t: Tid)
      requires t in threads && threads[t].prio < |queues|
      modifies this
      ensures Value() == Remove(old(Value()), t)
      ensures old(Inv(Value()) && threads[t].stat == Ready) ==> WithoutReady(Value(), t)
    {
      if Inv(Value()) && threads[t].stat == Ready { RemoveKeepsOthers(Value(), t); }
      var p := threads[t].prio;
      queues := queues[p := Without(queues[p], t)];
      if queues[p] == [] { group := ClearBit(group, p); }
    }

    /** rt_list_remove. */
    method UnlinkThread(t: Tid)
      modifies this`queues
      ensures Value() == Unlink(old(Value()), t)
    {
      var before := queues;
      queues := seq(|before|, p requires 0 <= p < |before| => Without(before[p], t));
      assert queues == Unlink(old(Value()), t).queues;
    }

    method SuspendThread(t: Tid) returns (ok: bool)
      requires t in threads && threads[t].prio < |queues|
      modifies this
      ensures Value() == Suspend(old(Value()), t) && ok == (old(threads[t].stat) == Ready)
      ensures old(Inv(Value())) ==> Inv(Value())
    {
      if Inv(Value()) { SuspendKeeps(Value(), t); }
      if threads[t].stat != Ready { return false; }
      threads := threads[t := threads[t].(stat := Suspended)];
      RemoveThread(t);
      ok := true;
    }

    method ResumeThread(t: Tid) returns (ok: bool)
      requires t in threads && threads[t].prio < |queues|
      modifies this
      ensures Value() == Resume(old(Value()), t) && ok == (old(threads[t].stat) == Suspended)
      ensures old(Inv(Value())) ==> Inv(Value())
    {
      if Inv(Value()) { ResumeKeeps(Value(), t); }
      if threads[t].stat != Suspended { return false; }
      UnlinkThread(t);
      InsertThread(t);
      ok := true;
    }

    method ChangeThreadPriority(t: Tid, p: nat)
      requires t in threads && threads[t].prio < |queues| && p < |queues|
      modifies this
      ensures Value() == ChangePriority(old(Value()), t, p)
      ensures old(Inv(Value())) ==> Inv(Value())
    {
      if Inv(Value()) { ChangeKeeps(Value(), t, p); }
      if threads[t].stat == Ready {
        RemoveThread(t);
        threads := threads[t := threads[t].(prio := p)];
        InsertThread(t);
      } else {
        threads := threads[t := threads[t].(prio := p)];
      }
    }

    method YieldThread()
      requires Inv(Value()) && current.Some?
      modifies this
      ensures Value() == Yield(old(Value())) && Inv(Value())
    {
      YieldKeeps(Value());
      var t := current.value;
      var p := threads[t].prio;
      if threads[t].stat == Ready && |queues[p]| > 1 {
        RotateKeeps(Value(), t);
        queues := queues[p := Without(queues[p], t) + [t]];
        RunSchedule();
      }
    }

    method TickIncrease()
      requires Inv(Value()) && current.Some?
      modifies this
      ensures Value() == Tick(old(Value())) && Inv(Value())
    {
      var t := current.value;
      var n := threads[t].remaining;
      n := if n == 0 then 0xffff_ffff else n - 1;
      RemainingKeeps(Value(), t, if n == 0 then threads[t].slice else n);
      if n == 0 {
        threads := threads[t := threads[t].(remaining := threads[t].slice)];
        YieldThread();
      } else {
        threads := threads[t := threads[t].(remaining := n)];
      }
    }

    method EnterCritical()
      modifies this`lockNest
      ensures lockNest == old(lockNest) + 1 && Value() == old(Value()).(lockNest := lockNest)
      ensures old(Inv(Value())) ==> Inv(Value())
    {
      if Inv(Value()) { CriticalKeeps(Value(), lockNest + 1); }
      lockNest := lockNest + 1;
    }

    method LeaveCritical()
      requires Inv(Value())
      modifies this
      ensures Value() == ExitCritical(old(Value())) && Inv(Value())
    {
      CriticalKeeps(Value(), if lockNest <= 1 then 0 else lockNest - 1);
      if lockNest <= 1 {
        lockNest := 0;
        RunSchedule();
      } else {
        lockNest := lockNest - 1;
      }
    }
  }
}
