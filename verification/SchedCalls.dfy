/** What a call of the scheduler, a wakeup and a timer interrupt come to over a run, whatever the other cores and the
    handlers do in between. */
module SchedCalls {
  import opened SchedModel
  import opened SchedInv
  import opened SchedRuns

  /** Core c does not do any of the given actions between moves i and j. */
  ghost predicate NoneBetween(ms: seq<Move>, c: nat, i: nat, j: nat, acts: set<Action>) {
    var none := j <= |ms| && forall h :: i < h < j && ms[h].core == c ==> ms[h].action !in acts;
    none
  }

  /** A step of a run, as core c sees it. */
  lemma CoreStep(ss: seq<State>, ms: seq<Move>, i: nat, c: nat)
    requires Run(ss, ms) && i < |ms| && c < |ss[i].cores|
    ensures |ss[i + 1].cores| == |ss[i].cores| && |ss[i + 1].threads| == |ss[i].threads|
    ensures CoreInv(ss[i].cores[c])
    ensures ms[i].core == c ==> Enabled(ss[i], c, ms[i].action) && AtPoint(ss[i].cores[c], ms[i].action)
    ensures ss[i + 1].cores[c] == if ms[i].core == c then CoreAfter(ss[i].cores[c], ms[i].action) else ss[i].cores[c]
    ensures ms[i].core < |ss[i].cores|
  {
    RunInv(ss, ms, i);
    AtCore(ss[i], c, 0);
    assert Follows(ss[i], ms[i], ss[i + 1]);
  }

  // ---- leaving a core ----

  /** The thread is on its way out of the core by the call, its status not switched yet. */
  predicate Leaving(k: Core, call: Call, t: nat) {
    k.current == Some(t) && (k.pc == Calling(call) || k.pc == Entered(call))
  }

  /** Outside thread code, wakeups and handlers do not move the code they interrupt. */
  lemma WakingKeeps(k: Core, a: Action)
    requires Tally(k) && Shape(k) && AtPoint(k, a) && Waking(a) && !k.pc.User?
    ensures CoreAfter(k, a).pc == k.pc && CoreAfter(k, a).current == k.current
  {
    SameCurrent(k, a);
    if a.WakeEnable? || a.IntrReturn? {
      assert k.count > 1;
    } else {
      OtherPc(k, a);
    }
  }

  lemma OtherPc(k: Core, a: Action)
    requires Waking(a) && !a.WakeEnable? && !a.IntrReturn?
    ensures CoreAfter(k, a).pc == k.pc
  {
  }

  lemma LeavingStep(k: Core, a: Action, call: Call, t: nat)
    requires CoreInv(k) && AtPoint(k, a) && Leaving(k, call, t) && a != SwitchStatus
    ensures Leaving(CoreAfter(k, a), call, t)
  {
    if Waking(a) {
      WakingKeeps(k, a);
    } else {
      assert a == Switch;
    }
  }

  /** And stays so until the switch. */
  lemma {:induction false} LeavingOn(ss: seq<State>, ms: seq<Move>, c: nat, i: nat, j: nat, call: Call, t: nat)
    requires Run(ss, ms) && i < j < |ss| && c < |ss[i + 1].cores| && Leaving(ss[i + 1].cores[c], call, t)
    requires NoneBetween(ms, c, i, j, {SwitchStatus})
    ensures c < |ss[j].cores| && Leaving(ss[j].cores[c], call, t)
  {
    if j > i + 1 {
      LeavingOn(ss, ms, c, i, j - 1, call, t);
      CoreStep(ss, ms, j - 1, c);
      if ms[j - 1].core == c {
        LeavingStep(ss[j - 1].cores[c], ms[j - 1].action, call, t);
      }
    }
  }

  /** What the call makes of the status. */
  lemma LeavingSwitches(ss: seq<State>, ms: seq<Move>, c: nat, i: nat, j: nat, call: Call, t: nat)
    requires Run(ss, ms) && i < j < |ms| && c < |ss[i + 1].cores| && Leaving(ss[i + 1].cores[c], call, t)
    requires NoneBetween(ms, c, i, j, {SwitchStatus}) && ms[j] == Move(c, SwitchStatus)
    ensures HasStatus(ss[j + 1], Some(t), if call == Yield then RUNNABLE else if call == Park then WAITING else DEAD)
    ensures c < |ss[j + 1].cores| && ss[j + 1].cores[c].pc == Switched(call) && ss[j + 1].cores[c].current == Some(t)
  {
    LeavingOn(ss, ms, c, i, j, call, t);
    CoreStep(ss, ms, j, c);
    RunInv(ss, ms, j);
    AtCore(ss[j], c, t);
    assert Follows(ss[j], ms[j], ss[j + 1]);
  }

  /** scheduler_yield makes the thread runnable, scheduler_park waiting and scheduler_exit dead. */
  lemma CallSwitches(ss: seq<State>, ms: seq<Move>, c: nat, k: nat, j: nat, call: Call, t: nat)
    requires Run(ss, ms) && k < j < |ms| && ms[k] == Move(c, Request(call)) && ms[j] == Move(c, SwitchStatus)
    requires c < |ss[k].cores| && ss[k].cores[c].current == Some(t) && NoneBetween(ms, c, k, j, {SwitchStatus})
    ensures HasStatus(ss[j + 1], Some(t), if call == Yield then RUNNABLE else if call == Park then WAITING else DEAD)
  {
    CoreStep(ss, ms, k, c);
    LeavingSwitches(ss, ms, c, k, j, call, t);
  }

  /** The ways into scheduler_yield_internal other than scheduler_yield: a reschedule with preemption enabled, and the last
      enable while a reschedule is wanted. */
  predicate Preempts(k: Core, a: Action) {
    || (a == Reschedule && k.count == 0)
    || ((a == Enable || a == WakeEnable || a == IntrReturn) && k.count == 1 && k.want)
  }

  /** They leave the current thread runnable. */
  lemma PreemptSwitches(ss: seq<State>, ms: seq<Move>, c: nat, k: nat, j: nat, t: nat)
    requires Run(ss, ms) && k < j < |ms| && ms[k].core == c < |ss[k].cores| && Preempts(ss[k].cores[c], ms[k].action)
    requires ss[k].cores[c].current == Some(t)
    requires ms[j] == Move(c, SwitchStatus) && NoneBetween(ms, c, k, j, {SwitchStatus})
    ensures HasStatus(ss[j + 1], Some(t), RUNNABLE)
  {
    CoreStep(ss, ms, k, c);
    LeavingSwitches(ss, ms, c, k, j, Yield, t);
  }

  /** The thread's status is switched, and it is not yet where the call puts it. */
  predicate Dropping(k: Core, call: Call, t: nat) {
    (k.pc == Switched(call) && k.current == Some(t)) || (k.pc == Dropped(call, t) && k.current.None?)
  }

  predicate Ending(a: Action) { a == Requeue || a == Publish || a == Refuse || a == FreeThread }

  lemma DroppingStep(k: Core, a: Action, call: Call, t: nat)
    requires CoreInv(k) && AtPoint(k, a) && !Ending(a)
    ensures Dropping(k, call, t) ==> Dropping(CoreAfter(k, a), call, t)
    ensures Leaving(k, call, t) ==> Leaving(CoreAfter(k, a), call, t) || Dropping(CoreAfter(k, a), call, t)
  {
    if Waking(a) && !k.pc.User? {
      WakingKeeps(k, a);
    } else if Dropping(k, call, t) {
      assert a == Drop;
    } else if Leaving(k, call, t) {
      assert a == Switch || a == SwitchStatus;
    }
  }

  lemma {:induction false} DroppingOn(ss: seq<State>, ms: seq<Move>, c: nat, i: nat, j: nat, call: Call, t: nat)
    requires Run(ss, ms) && i < j < |ss| && c < |ss[i + 1].cores| && Leaving(ss[i + 1].cores[c], call, t)
    requires NoneBetween(ms, c, i, j, {Requeue, Publish, Refuse, FreeThread})
    ensures c < |ss[j].cores| && (Leaving(ss[j].cores[c], call, t) || Dropping(ss[j].cores[c], call, t))
  {
    if j > i + 1 {
      DroppingOn(ss, ms, c, i, j - 1, call, t);
      CoreStep(ss, ms, j - 1, c);
      if ms[j - 1].core == c {
        DroppingStep(ss[j - 1].cores[c], ms[j - 1].action, call, t);
      }
    }
  }

  /** Where the thread ends up: at the end of the queue, with whoever its callback told, back on the way to the core, or
      on the free list. */
  predicate Fate(s: State, c: nat, a: Action, s': State, call: Call, t: nat)
    requires c < |s.cores| && c < |s'.cores|
  {
    && s'.cores[c].current.None?
    && match call
       case Yield => a == Requeue && s'.cores[c].queue == s.cores[c].queue + [t] && HasStatus(s', Some(t), RUNNABLE)
       case Park =>
         || (a == Publish && HasStatus(s', Some(t), WAITING) && CanClaim(s', t))
         || (a == Refuse && HasStatus(s', Some(t), RUNNABLE) && s'.cores[c].pc == Execute(t))
       case Exit => a == FreeThread && s'.freeList == [t] + s.freeList && HasStatus(s', Some(t), IDLE)
  }

  lemma CallEnds(ss: seq<State>, ms: seq<Move>, c: nat, k: nat, j: nat, call: Call, t: nat)
    requires Run(ss, ms) && k < j < |ms| && ms[k] == Move(c, Request(call)) && ms[j].core == c && Ending(ms[j].action)
    requires c < |ss[k].cores| && ss[k].cores[c].current == Some(t)
    requires NoneBetween(ms, c, k, j, {Requeue, Publish, Refuse, FreeThread})
    ensures c < |ss[j].cores| && c < |ss[j + 1].cores| && Fate(ss[j], c, ms[j].action, ss[j + 1], call, t)
  {
    CoreStep(ss, ms, k, c);
    LeavingEnds(ss, ms, c, k, j, call, t);
  }

  lemma PreemptEnds(ss: seq<State>, ms: seq<Move>, c: nat, k: nat, j: nat, t: nat)
    requires Run(ss, ms) && k < j < |ms| && ms[k].core == c < |ss[k].cores| && Preempts(ss[k].cores[c], ms[k].action)
    requires ss[k].cores[c].current == Some(t) && ms[j].core == c && Ending(ms[j].action)
    requires NoneBetween(ms, c, k, j, {Requeue, Publish, Refuse, FreeThread})
    ensures c < |ss[j].cores| && c < |ss[j + 1].cores| && Fate(ss[j], c, ms[j].action, ss[j + 1], Yield, t)
  {
    CoreStep(ss, ms, k, c);
    LeavingEnds(ss, ms, c, k, j, Yield, t);
  }

  lemma LeavingEnds(ss: seq<State>, ms: seq<Move>, c: nat, k: nat, j: nat, call: Call, t: nat)
    requires Run(ss, ms) && k < j < |ms| && ms[j].core == c && Ending(ms[j].action)
    requires c < |ss[k + 1].cores| && Leaving(ss[k + 1].cores[c], call, t)
    requires NoneBetween(ms, c, k, j, {Requeue, Publish, Refuse, FreeThread})
    ensures c < |ss[j].cores| && c < |ss[j + 1].cores| && Fate(ss[j], c, ms[j].action, ss[j + 1], call, t)
  {
    DroppingOn(ss, ms, c, k, j, call, t);
    CoreStep(ss, ms, j, c);
    RunInv(ss, ms, j);
    AtCore(ss[j], c, t);
    assert Follows(ss[j], ms[j], ss[j + 1]);
    FateStep(ss[j], c, ms[j].action, call, t);
  }

  lemma FateStep(s: State, c: nat, a: Action, call: Call, t: nat)
    requires Inv(s) && Enabled(s, c, a) && Ending(a) && Dropping(s.cores[c], call, t)
    ensures Fate(s, c, a, Step(s, c, a), call, t)
  {
    AtCore(s, c, t);
    assert Holds(s.cores[c], t, InHand);
  }

  // ---- coming to a core ----

  /** The thread is on its way to the core. */
  predicate Coming(k: Core, t: nat) {
    || (k.current.None?
        && (k.pc == Popped(t) || k.pc == Execute(t) || k.pc == Masked(t) || k.pc == Calm(t) || k.pc == Counted(t)))
    || (k.current == Some(t) && k.pc == Placed)
  }

  lemma ComingStep(k: Core, a: Action, t: nat)
    requires CoreInv(k) && AtPoint(k, a) && Coming(k, t) && a != Resume
    ensures Coming(CoreAfter(k, a), t)
  {
    if Waking(a) {
      WakingKeeps(k, a);
    } else {
      assert a == Unpark || a == MaskIrq || a == ClearWant || a == ZeroCount || a == SetCurrent;
    }
  }

  lemma {:induction false} ComingOn(ss: seq<State>, ms: seq<Move>, c: nat, i: nat, j: nat, t: nat)
    requires Run(ss, ms) && i < j < |ss| && c < |ss[i + 1].cores| && Coming(ss[i + 1].cores[c], t)
    requires NoneBetween(ms, c, i, j, {Resume})
    ensures c < |ss[j].cores| && Coming(ss[j].cores[c], t)
  {
    if j > i + 1 {
      ComingOn(ss, ms, c, i, j - 1, t);
      CoreStep(ss, ms, j - 1, c);
      if ms[j - 1].core == c {
        ComingStep(ss[j - 1].cores[c], ms[j - 1].action, t);
      }
    }
  }

  /** The thread that a core takes from its queue, or whose park was refused, is the next to run on it. */
  lemma TakenRuns(ss: seq<State>, ms: seq<Move>, c: nat, k: nat, j: nat, t: nat)
    requires Run(ss, ms) && k < j < |ms| && ms[j] == Move(c, Resume) && NoneBetween(ms, c, k, j, {Resume})
    requires c < |ss[k].cores|
    requires || (ms[k] == Move(c, Pop) && ss[k].cores[c].queue != [] && ss[k].cores[c].queue[0] == t)
             || (ms[k] == Move(c, Refuse) && ss[k].cores[c].pc == Dropped(Park, t))
    ensures c < |ss[j + 1].cores| && ss[j + 1].cores[c].current == Some(t) && ss[j + 1].cores[c].pc == User(0)
    ensures HasStatus(ss[j + 1], Some(t), RUNNING)
  {
    CoreStep(ss, ms, k, c);
    ComingOn(ss, ms, c, k, j, t);
    CoreStep(ss, ms, j, c);
    ReturnsEnabled(ss, ms, j);
  }

  // ---- interrupts ----

  /** Something in the handler has asked for a reschedule: the timer, or a wakeup. */
  ghost predicate AskedIn(ms: seq<Move>, c: nat, i: nat, j: nat) {
    exists h :: i < h < j <= |ms| && (ms[h] == Move(c, Tick) || ms[h] == Move(c, WakeAsk))
  }

  /** A tick and a wakeup ask for a reschedule and take the core out of its sleep, and so does a reschedule with preemption
      disabled. */
  lemma AskedFor(ss: seq<State>, ms: seq<Move>, k: nat)
    requires Run(ss, ms) && k < |ms| && ms[k].core < |ss[k].cores|
    requires || ms[k].action == Tick || ms[k].action == WakeAsk
             || (ms[k].action == Reschedule && ss[k].cores[ms[k].core].count != 0)
    ensures ms[k].core < |ss[k + 1].cores| && ss[k + 1].cores[ms[k].core].want && !ss[k + 1].cores[ms[k].core].parked
  {
    CoreStep(ss, ms, k, ms[k].core);
  }

  /** The core is in a handler that interrupted it in the state k0. */
  predicate InHandler(k: Core, k0: Core) {
    var handling := && k.intr.Handler? && k.pc == k0.pc && k.wake == k0.wake && k.current == k0.current
                    && k.count == k0.count + 1 + WakeNest(k.intr.wake);
    handling
  }

  lemma HandlerStep(k: Core, a: Action, k0: Core)
    requires CoreInv(k) && CoreInv(k0) && AtPoint(k, a) && InHandler(k, k0) && a != IntrReturn
    ensures InHandler(CoreAfter(k, a), k0)
    ensures CoreAfter(k, a).want <==> k.want || a == Tick || a == WakeAsk
  {
  }

  lemma {:induction false} HandlerOn(ss: seq<State>, ms: seq<Move>, c: nat, i: nat, j: nat)
    requires Run(ss, ms) && i < j < |ss| && ms[i] == Move(c, Interrupt) && c < |ss[i].cores|
    requires NoneBetween(ms, c, i, j, {IntrReturn})
    ensures c < |ss[j].cores| && InHandler(ss[j].cores[c], ss[i].cores[c])
    ensures ss[j].cores[c].want <==> ss[i].cores[c].want || AskedIn(ms, c, i, j)
  {
    CoreStep(ss, ms, i, c);
    if j > i + 1 {
      HandlerOn(ss, ms, c, i, j - 1);
      CoreStep(ss, ms, j - 1, c);
      AskedMore(ms, c, i, j - 1);
      if ms[j - 1].core == c {
        HandlerStep(ss[j - 1].cores[c], ms[j - 1].action, ss[i].cores[c]);
      }
    }
  }

  lemma AskedMore(ms: seq<Move>, c: nat, i: nat, j: nat)
    requires i < j < |ms|
    ensures AskedIn(ms, c, i, j + 1) <==> AskedIn(ms, c, i, j) || ms[j] == Move(c, Tick) || ms[j] == Move(c, WakeAsk)
  {
    if AskedIn(ms, c, i, j + 1) {
      var h :| i < h < j + 1 <= |ms| && (ms[h] == Move(c, Tick) || ms[h] == Move(c, WakeAsk));
      assert h < j ==> AskedIn(ms, c, i, j);
    }
    if AskedIn(ms, c, i, j) {
      var h :| i < h < j <= |ms| && (ms[h] == Move(c, Tick) || ms[h] == Move(c, WakeAsk));
    }
  }

  /** A timer interrupt preempts the thread it interrupted exactly if the thread had preemption enabled and the handler
      ticked or woke someone; otherwise the core goes on where it was, with its count as before. */
  lemma InterruptReturns(ss: seq<State>, ms: seq<Move>, c: nat, i: nat, j: nat)
    requires Run(ss, ms) && i < j < |ms| && ms[i] == Move(c, Interrupt) && ms[j] == Move(c, IntrReturn)
    requires c < |ss[i].cores| && NoneBetween(ms, c, i, j, {IntrReturn})
    ensures c < |ss[j + 1].cores|
    ensures var k, k' := ss[i].cores[c], ss[j + 1].cores[c];
            && k'.current == k.current && k'.wake == k.wake && k'.intr.NoIntr?
            && if k.pc == User(0) && k.wake.NoWake? && AskedIn(ms, c, i, j)
               then k'.pc == Entered(Yield) && k'.count == 1
               else k'.pc == k.pc && k'.count == k.count && (k'.want <==> k.want || AskedIn(ms, c, i, j))
  {
    CoreStep(ss, ms, i, c);
    HandlerOn(ss, ms, c, i, j);
    CoreStep(ss, ms, j, c);
  }

  // ---- wakeups ----

  /** The core is in a wakeup that its code outside interrupts began in the state k0, perhaps interrupted. */
  predicate InWakeup(k: Core, k0: Core, t: nat) {
    var waking := && k.pc == k0.pc && k.current == k0.current && (k.wake == Asked ==> k.want)
                  && (k.wake == Claim(t) || k.wake == Hand(t) || k.wake == Listed || k.wake == Asked);
    waking
  }

  lemma WakeupStep(k: Core, a: Action, k0: Core, t: nat)
    requires CoreInv(k) && CoreInv(k0) && AtPoint(k, a) && InWakeup(k, k0, t) && !CoreAfter(k, a).wake.NoWake?
    ensures InWakeup(CoreAfter(k, a), k0, t)
    ensures a == WakeQueue && k.intr.NoIntr? ==> CoreAfter(k, a).queue == [t] + k.queue
  {
    if Waking(a) {
      WakeupWaking(k, a, t);
    } else {
      assert false;
    }
  }

  lemma WakeupWaking(k: Core, a: Action, t: nat)
    requires CoreInv(k) && AtPoint(k, a) && InWakeup(k, k, t) && Waking(a) && !CoreAfter(k, a).wake.NoWake?
    ensures InWakeup(CoreAfter(k, a), k, t)
    ensures a == WakeQueue && k.intr.NoIntr? ==> CoreAfter(k, a).queue == [t] + k.queue
  {
  }

  /** From move i to state j the core has not finished its wakeup. */
  ghost predicate StillWaking(ss: seq<State>, c: nat, i: nat, j: nat) {
    var still := forall h :: i < h <= j && h < |ss| ==> Waker(ss[h], c);
    still
  }

  predicate Waker(s: State, c: nat) { c < |s.cores| && !s.cores[c].wake.NoWake? }

  lemma WakeupBegins(k: Core, t: nat)
    requires AtPoint(k, BeginWake(t))
    ensures InWakeup(CoreAfter(k, BeginWake(t)), k, t)
  {
  }

  lemma WakeupFirst(ss: seq<State>, ms: seq<Move>, c: nat, i: nat, t: nat)
    requires Run(ss, ms) && i < |ms| && ms[i] == Move(c, BeginWake(t)) && c < |ss[i].cores|
    ensures c < |ss[i + 1].cores| && InWakeup(ss[i + 1].cores[c], ss[i].cores[c], t) && CoreInv(ss[i].cores[c])
  {
    CoreStep(ss, ms, i, c);
    WakeupBegins(ss[i].cores[c], t);
  }

  lemma WakeupNext(ss: seq<State>, ms: seq<Move>, c: nat, j: nat, k0: Core, t: nat)
    requires Run(ss, ms) && j < |ms| && c < |ss[j].cores| && InWakeup(ss[j].cores[c], k0, t) && CoreInv(k0)
    requires Waker(ss[j + 1], c)
    ensures InWakeup(ss[j + 1].cores[c], k0, t)
  {
    CoreStep(ss, ms, j, c);
    if ms[j].core == c {
      WakeupStep(ss[j].cores[c], ms[j].action, k0, t);
    }
  }

  lemma {:induction false} WakeupOn(ss: seq<State>, ms: seq<Move>, c: nat, i: nat, j: nat, t: nat)
    requires Run(ss, ms) && i < j < |ss| && ms[i] == Move(c, BeginWake(t)) && c < |ss[i].cores|
    requires StillWaking(ss, c, i, j)
    ensures c < |ss[j].cores| && InWakeup(ss[j].cores[c], ss[i].cores[c], t)
  {
    WakeupFirst(ss, ms, c, i, t);
    if j > i + 1 {
      WakeupOn(ss, ms, c, i, j - 1, t);
      assert Waker(ss[j], c);
      WakeupNext(ss, ms, c, j - 1, ss[i].cores[c], t);
    }
  }

  /** The thread that is woken goes to the front of the queue of the waking core, runnable. */
  lemma WokenQueued(ss: seq<State>, ms: seq<Move>, c: nat, i: nat, j: nat, t: nat)
    requires Run(ss, ms) && i < j < |ms| && ms[i] == Move(c, BeginWake(t)) && StillWaking(ss, c, i, j)
    requires ms[j] == Move(c, WakeQueue) && c < |ss[i].cores| && c < |ss[j].cores| && ss[j].cores[c].intr.NoIntr?
    ensures c < |ss[j + 1].cores| && ss[j + 1].cores[c].queue == [t] + ss[j].cores[c].queue
    ensures HasStatus(ss[j + 1], Some(t), RUNNABLE)
  {
    WakeupOn(ss, ms, c, i, j, t);
    CoreStep(ss, ms, i, c);
    CoreStep(ss, ms, j, c);
    WakeupStep(ss[j].cores[c], WakeQueue, ss[i].cores[c], t);
    QueuedRunnable(ss, ms, j + 1, c, t);
  }

  lemma QueuedRunnable(ss: seq<State>, ms: seq<Move>, k: nat, c: nat, t: nat)
    requires Run(ss, ms) && k < |ss| && c < |ss[k].cores| && t in ss[k].cores[c].queue
    ensures HasStatus(ss[k], Some(t), RUNNABLE)
  {
    RunInv(ss, ms, k);
    AtCore(ss[k], c, t);
    assert Holds(ss[k].cores[c], t, InQueue);
  }

  /** The same for a wakeup in a handler. */
  lemma {:induction false} HandlerWakeOn(ss: seq<State>, ms: seq<Move>, c: nat, i: nat, j: nat, t: nat)
    requires Run(ss, ms) && i < j < |ss| && ms[i] == Move(c, IntrWake(t)) && c < |ss[i].cores|
    requires NoneBetween(ms, c, i, j, {WakeQueue})
    ensures c < |ss[j].cores| && (ss[j].cores[c].intr == Handler(Claim(t)) || ss[j].cores[c].intr == Handler(Hand(t)))
  {
    CoreStep(ss, ms, i, c);
    if j > i + 1 {
      HandlerWakeOn(ss, ms, c, i, j - 1, t);
      CoreStep(ss, ms, j - 1, c);
    }
  }

  lemma WokenInHandler(ss: seq<State>, ms: seq<Move>, c: nat, i: nat, j: nat, t: nat)
    requires Run(ss, ms) && i < j < |ms| && ms[i] == Move(c, IntrWake(t)) && c < |ss[i].cores|
    requires ms[j] == Move(c, WakeQueue) && NoneBetween(ms, c, i, j, {WakeQueue})
    ensures c < |ss[j].cores| && c < |ss[j + 1].cores| && ss[j + 1].cores[c].queue == [t] + ss[j].cores[c].queue
    ensures HasStatus(ss[j + 1], Some(t), RUNNABLE)
  {
    HandlerWakeOn(ss, ms, c, i, j, t);
    CoreStep(ss, ms, j, c);
    QueuedRunnable(ss, ms, j + 1, c, t);
  }

  /** A thread with preemption enabled that wakes another one gives way at the end of the call; any other caller goes on,
      with the request pending. */
  lemma WakeupReturns(ss: seq<State>, ms: seq<Move>, c: nat, i: nat, j: nat, t: nat)
    requires Run(ss, ms) && i < j < |ms| && ms[i] == Move(c, BeginWake(t)) && c < |ss[i].cores|
    requires ms[j] == Move(c, WakeEnable) && c < |ss[j].cores| && ss[j].cores[c].intr.NoIntr?
    requires StillWaking(ss, c, i, j)
    ensures c < |ss[j + 1].cores|
    ensures var k, k' := ss[i].cores[c], ss[j + 1].cores[c];
            && k'.current == k.current && k'.wake.NoWake? && k'.want
            && k'.pc == if k.pc == User(0) then Entered(Yield) else k.pc
  {
    WakeupOn(ss, ms, c, i, j, t);
    CoreStep(ss, ms, j, c);
  }

  // ---- causes ----

  predicate Asking(a: Action) { a == Tick || a == WakeAsk || a == Reschedule }

  /** A request to reschedule has a cause: a tick, a wakeup or a call of its core. */
  lemma {:induction false} RequestHasCause(ss: seq<State>, ms: seq<Move>, k: nat, c: nat)
    requires Run(ss, ms) && k < |ss| && c < |ss[k].cores| && ss[k].cores[c].want
    ensures exists h :: 0 <= h < k && ms[h].core == c && Asking(ms[h].action)
  {
    assert k > 0;
    assert Follows(ss[k - 1], ms[k - 1], ss[k]);
    CoreStep(ss, ms, k - 1, c);
    if ss[k - 1].cores[c].want {
      RequestHasCause(ss, ms, k - 1, c);
    } else {
      NewRequest(ss[k - 1].cores[c], ms[k - 1].action);
    }
  }

  lemma NewRequest(k: Core, a: Action)
    requires !k.want && CoreAfter(k, a).want
    ensures Asking(a)
  {
  }

  /** A core runs boot code exactly until it enters the scheduler. */
  lemma {:induction false} BootsFirst(ss: seq<State>, ms: seq<Move>, k: nat, c: nat)
    requires Run(ss, ms) && k < |ss| && c < |ss[k].cores|
    ensures ss[k].cores[c].pc != Boot <==> exists h :: 0 <= h < k && ms[h] == Move(c, Start)
  {
    if k > 0 {
      assert Follows(ss[k - 1], ms[k - 1], ss[k]);
      CoreStep(ss, ms, k - 1, c);
      BootsFirst(ss, ms, k - 1, c);
      if ms[k - 1].core == c {
        BootStep(ss[k - 1].cores[c], ms[k - 1].action);
      }
    }
  }

  lemma BootStep(k: Core, a: Action)
    requires CoreInv(k) && AtPoint(k, a)
    ensures CoreAfter(k, a).pc == Boot <==> k.pc == Boot && a != Start
  {
    if Waking(a) && !k.pc.User? {
      WakingKeeps(k, a);
    }
  }
}
