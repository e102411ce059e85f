/** What holds in every state of every run of the scheduler. */
module SchedRuns {
  import opened Sequences
  import opened SchedModel
  import opened SchedInv

  datatype Move = Move(core: nat, action: Action)

  ghost predicate Follows(s: State, m: Move, s': State) {
    var follows := Enabled(s, m.core, m.action) && s' == Step(s, m.core, m.action);
    follows
  }

  /** Any interleaving of the cores' steps from the initial state. */
  ghost predicate Run(ss: seq<State>, ms: seq<Move>) {
    && |ss| == |ms| + 1 && Init(ss[0])
    && forall i {:trigger ms[i]} :: 0 <= i < |ms| ==> Follows(ss[i], ms[i], ss[i + 1])
  }

  lemma {:induction false} RunInv(ss: seq<State>, ms: seq<Move>, k: nat)
    requires Run(ss, ms) && k < |ss|
    ensures Inv(ss[k])
  {
    if k == 0 {
      InitInv(ss[0]);
    } else {
      RunInv(ss, ms, k - 1);
      StepInv(ss[k - 1], ms[k - 1].core, ms[k - 1].action);
    }
  }

  // ---- threads ----

  /** No thread is current on two cores, queued twice, on two queues, or both queued and current. */
  ghost predicate Exclusive(s: State) {
    && (forall c, d, t :: 0 <= c < |s.cores| && 0 <= d < |s.cores| && c != d && s.cores[c].current == Some(t) ==>
                            s.cores[d].current != Some(t))
    && (forall c, d, t :: 0 <= c < |s.cores| && 0 <= d < |s.cores| && t in s.cores[c].queue ==>
                            s.cores[d].current != Some(t) && (c != d ==> t !in s.cores[d].queue))
    && (forall c :: 0 <= c < |s.cores| ==> NoDup(s.cores[c].queue))
  }

  lemma ThreadsExclusive(ss: seq<State>, ms: seq<Move>, k: nat)
    requires Run(ss, ms) && k < |ss|
    ensures Exclusive(ss[k])
  {
    RunInv(ss, ms, k);
    InvExclusive(ss[k]);
  }

  lemma InvExclusive(s: State)
    requires Inv(s)
    ensures Exclusive(s)
  {
    forall c, d, t | 0 <= c < |s.cores| && 0 <= d < |s.cores| && c != d && s.cores[c].current == Some(t)
      ensures s.cores[d].current != Some(t)
    {
      AtCore(s, c, t);
      AtCore(s, d, t);
    }
    forall c, d, t | 0 <= c < |s.cores| && 0 <= d < |s.cores| && t in s.cores[c].queue
      ensures s.cores[d].current != Some(t) && (c != d ==> t !in s.cores[d].queue)
    {
      AtCore(s, c, t);
      AtCore(s, d, t);
    }
    forall c | 0 <= c < |s.cores| ensures NoDup(s.cores[c].queue) { AtCore(s, c, 0); }
  }

  /** No core is in the middle of moving a thread. */
  ghost predicate Settled(s: State) {
    forall c :: 0 <= c < |s.cores| ==>
                  var k := s.cores[c];
                  && WakeThread(k.wake).None? && (k.intr.Handler? ==> WakeThread(k.intr.wake).None?)
                  && InHandOf(k.pc).None? && !k.pc.Switched? && !k.pc.Placed?
  }

  ghost predicate Queued(s: State, t: nat) { exists c :: 0 <= c < |s.cores| && t in s.cores[c].queue }
  ghost predicate Current(s: State, t: nat) { exists c :: 0 <= c < |s.cores| && s.cores[c].current == Some(t) }

  /** Between moves the status says where the thread is. */
  lemma StatusMeans(ss: seq<State>, ms: seq<Move>, k: nat, t: nat)
    requires Run(ss, ms) && k < |ss| && Settled(ss[k]) && t < |ss[k].threads|
    ensures var s := ss[k];
            && (s.threads[t].status == RUNNABLE <==> Queued(s, t))
            && (s.threads[t].status == RUNNING <==> Current(s, t))
            && (s.threads[t].status == WAITING <==> s.threads[t].place == Published)
  {
    var s := ss[k];
    RunInv(ss, ms, k);
    assert FreeOf(s, t);
    if s.threads[t].place.At? {
      var c := s.threads[t].place.core;
      AtCore(s, c, t);
      assert Holds(s.cores[c], t, s.threads[t].place.kind);
    }
    if Queued(s, t) {
      var c: nat :| c < |s.cores| && t in s.cores[c].queue;
      AtCore(s, c, t);
    }
    if Current(s, t) {
      var c: nat :| c < |s.cores| && s.cores[c].current == Some(t);
      AtCore(s, c, t);
    }
  }

  // ---- cores ----

  /** With interrupts on, preemption is enabled only in a running thread, and no request to reschedule is pending
      then. */
  lemma PreemptibleRuns(ss: seq<State>, ms: seq<Move>, k: nat, c: nat)
    requires Run(ss, ms) && k < |ss| && c < |ss[k].cores| && IrqOn(ss[k].cores[c]) && ss[k].cores[c].count == 0
    ensures var core := ss[k].cores[c];
            core.pc == User(0) && !core.want && HasStatus(ss[k], core.current, RUNNING)
  {
    var s := ss[k];
    RunInv(ss, ms, k);
    AtCore(s, c, CurrentOf(s.cores[c]));
    assert s.cores[c].current.Some? ==> Holds(s.cores[c], CurrentOf(s.cores[c]), OnCpu);
  }

  /** Whatever enters the scheduler leaves a thread that had preemption enabled, by the call it made or by a yield; the
      scheduler is never re-entered. */
  lemma EnteredFromThread(ss: seq<State>, ms: seq<Move>, k: nat)
    requires Run(ss, ms) && k < |ms|
    requires ss[k + 1].cores[ms[k].core].pc.Entered? && !ss[k].cores[ms[k].core].pc.Entered?
    ensures var core := ss[k].cores[ms[k].core];
            (core.pc.User? && core.pc.nest <= 1) || core.pc.Calling?
    ensures ss[k + 1].cores[ms[k].core].count == 1
    ensures var pc := ss[k].cores[ms[k].core].pc;
            ss[k + 1].cores[ms[k].core].pc == Entered(if pc.Calling? then pc.call else Yield)
  {
    RunInv(ss, ms, k);
    EnteringStep(ss[k], ms[k].core, ms[k].action);
  }

  lemma EnteringStep(s: State, c: nat, a: Action)
    requires Inv(s) && Enabled(s, c, a) && CoreAfter(s.cores[c], a).pc.Entered? && !s.cores[c].pc.Entered?
    ensures (s.cores[c].pc.User? && s.cores[c].pc.nest <= 1) || s.cores[c].pc.Calling?
    ensures CoreAfter(s.cores[c], a).count == 1
    ensures CoreAfter(s.cores[c], a).pc == Entered(if s.cores[c].pc.Calling? then s.cores[c].pc.call else Yield)
  {
    AtCore(s, c, 0);
    CoreInvKeep(s, c, a);
    match a
    case Switch =>
    case Enable =>
    case WakeEnable =>
    case IntrReturn =>
    case _ => assert false;
  }

  /** The scheduler gives the core to a thread with preemption enabled and no request to reschedule left over. */
  lemma ReturnsEnabled(ss: seq<State>, ms: seq<Move>, k: nat)
    requires Run(ss, ms) && k < |ms| && ms[k].action == Resume
    ensures var core := ss[k + 1].cores[ms[k].core];
            core.pc == User(0) && core.count == 0 && !core.want && HasStatus(ss[k + 1], core.current, RUNNING)
  {
    RunInv(ss, ms, k);
    RunInv(ss, ms, k + 1);
    var s, c := ss[k + 1], ms[k].core;
    AtCore(ss[k], c, 0);
    AtCore(s, c, CurrentOf(s.cores[c]));
    assert Holds(s.cores[c], CurrentOf(s.cores[c]), OnCpu);
  }

  /** No assertion of the source fails in any run. */
  lemma NoAssertFails(ss: seq<State>, ms: seq<Move>, k: nat)
    requires Run(ss, ms) && k < |ms|
    ensures Asserts(ss[k], ss[k].cores[ms[k].core], ms[k].action)
  {
    RunInv(ss, ms, k);
    AssertsHold(ss[k], ms[k].core, ms[k].action);
  }

  /** No lost wakeup: a core that sleeps on with its parked flag set has an empty queue, unless its handler is just
      between queueing a thread and clearing the flag. */
  lemma NoLostWakeup(ss: seq<State>, ms: seq<Move>, k: nat, c: nat)
    requires Run(ss, ms) && k < |ss| && c < |ss[k].cores| && ss[k].cores[c].pc == Asleep && ss[k].cores[c].queue != []
    ensures var core := ss[k].cores[c];
            if core.intr == Handler(Listed) then Enabled(ss[k], c, WakeAsk) else !core.parked
    ensures ss[k].cores[c].intr.NoIntr? ==> Enabled(ss[k], c, Awake)
  {
    RunInv(ss, ms, k);
    AtCore(ss[k], c, 0);
  }

  /** No lost preemption: while a request to reschedule is pending, preemption is disabled, and the call that enables it
      again enters the scheduler. */
  lemma NoLostPreemption(ss: seq<State>, ms: seq<Move>, k: nat, c: nat)
    requires Run(ss, ms) && k < |ss| && c < |ss[k].cores| && ss[k].cores[c].want
    ensures ss[k].cores[c].count > 0
    ensures k < |ms| && ms[k].core == c && ss[k + 1].cores[c].count == 0 ==> !ss[k + 1].cores[c].want
    ensures k < |ms| && ms[k].core == c && !ss[k + 1].cores[c].want ==> ms[k].action == ClearWant
  {
    RunInv(ss, ms, k);
    AtCore(ss[k], c, 0);
    if k < |ms| && ms[k].core == c {
      WantStep(ss[k], c, ms[k].action);
    }
  }

  lemma WantStep(s: State, c: nat, a: Action)
    requires Inv(s) && Enabled(s, c, a) && s.cores[c].want
    ensures CoreAfter(s.cores[c], a).count == 0 ==> !CoreAfter(s.cores[c], a).want
    ensures !CoreAfter(s.cores[c], a).want ==> a == ClearWant
  {
    AtCore(s, c, 0);
    CoreInvKeep(s, c, a);
  }

  /** A core is never stuck: unless it sleeps with nothing to run, its own code or its handler has a next step. */
  lemma NeverStuck(ss: seq<State>, ms: seq<Move>, k: nat, c: nat)
    requires Run(ss, ms) && k < |ss| && c < |ss[k].cores|
    ensures var core := ss[k].cores[c];
            || (core.pc == Asleep && core.parked && core.queue == [] && core.intr.NoIntr?)
            || exists a: Action :: !a.Interrupt? && Enabled(ss[k], c, a)
  {
    var s := ss[k];
    var core := s.cores[c];
    RunInv(ss, ms, k);
    AtCore(s, c, 0);
    var a := NextAction(core);
    assert Enabled(s, c, a) || (core.pc == Asleep && core.parked && core.intr.NoIntr?);
  }

  /** The step a core's code takes next. */
  function NextAction(k: Core): Action {
    match TheWake(k)
    case Claim(_) => WakeStatus
    case Hand(_) => WakeQueue
    case Listed => WakeAsk
    case Asked => WakeEnable
    case NoWake =>
      if k.intr.Handler? then IntrReturn
      else
        match k.pc
        case Boot => Start
        case User(_) => Disable
        case Calling(_) => Switch
        case Entered(_) => SwitchStatus
        case Switched(_) => Drop
        case Dropped(call, _) => if call == Yield then Requeue else if call == Park then Publish else FreeThread
        case Callback => EndCallback
        case Loop => Prepare
        case Prepared => Pop
        case Asleep => Awake
        case Popped(_) => Unpark
        case Execute(_) => MaskIrq
        case Masked(_) => ClearWant
        case Calm(_) => ZeroCount
        case Counted(_) => SetCurrent
        case Placed => Resume
  }

  // ---- the order in which threads run ----

  function QueueOf(s: State, c: nat): seq<nat> { if c < |s.cores| then s.cores[c].queue else [] }

  /** Core c takes a thread from its queue. */
  predicate Takes(s: State, m: Move, c: nat) { m == Move(c, Pop) && QueueOf(s, c) != [] }

  /** What a step does to the queue of core c, unless it wakes a thread there. */
  lemma QueueStep(s: State, m: Move, s': State, c: nat)
    requires Follows(s, m, s') && m != Move(c, WakeQueue)
    ensures Advances(QueueOf(s, c), Takes(s, m, c), QueueOf(s', c))
    ensures Takes(s, m, c) ==> c < |s'.cores| && s'.cores[c].pc == Popped(QueueOf(s, c)[0])
  {
    if m.core == c {
      OwnQueueStep(s, c, m.action);
    }
  }

  lemma OwnQueueStep(s: State, c: nat, a: Action)
    requires Enabled(s, c, a) && a != WakeQueue
    ensures var q, k := s.cores[c].queue, CoreAfter(s.cores[c], a);
            if a == Pop && q != [] then k.queue == q[1..] && k.pc == Popped(q[0]) else q <= k.queue
  {
  }

  /** The first of the queue leaves, or others may line up behind. */
  ghost predicate Advances(q: seq<nat>, taken: bool, q': seq<nat>) {
    var advances := if taken then q != [] && q' == q[1..] else q <= q';
    advances
  }

  /** A queue over time, and when its first thread was taken. */
  ghost predicate QueueRun(qs: seq<seq<nat>>, taken: seq<bool>) {
    |qs| == |taken| + 1 && forall i {:trigger taken[i]} :: 0 <= i < |taken| ==> Advances(qs[i], taken[i], qs[i + 1])
  }

  function Count(taken: seq<bool>): nat {
    if taken == [] then 0 else Count(taken[..|taken| - 1]) + if taken[|taken| - 1] then 1 else 0
  }

  /** Such a queue is first in, first out. */
  lemma {:induction false} FirstInFirstOut(qs: seq<seq<nat>>, taken: seq<bool>, p: nat)
    requires QueueRun(qs, taken) && Count(taken) <= p < |qs[0]|
    ensures var at := p - Count(taken);
            at < |qs[|taken|]| && qs[|taken|][at] == qs[0][p]
    decreases |taken|
  {
    if taken != [] {
      var n := |taken| - 1;
      var taken' := taken[..n];
      assert forall i :: 0 <= i < n ==> taken'[i] == taken[i];
      FirstInFirstOut(qs[..|qs| - 1], taken', p);
      assert Advances(qs[n], taken[n], qs[n + 1]);
    }
  }

  ghost function Queues(ss: seq<State>, c: nat): (qs: seq<seq<nat>>) {
    seq(|ss|, i requires 0 <= i < |ss| => QueueOf(ss[i], c))
  }

  ghost function Taken(ss: seq<State>, ms: seq<Move>, c: nat): (taken: seq<bool>)
    requires |ss| == |ms| + 1
  {
    seq(|ms|, i requires 0 <= i < |ms| => Takes(ss[i], ms[i], c))
  }

  /** As long as a core wakes no thread, a queued thread runs after exactly those in front of it: ss and ms are any
      stretch of a run, with p threads taken in it, followed by a pop. */
  lemma TurnComes(ss: seq<State>, ms: seq<Move>, c: nat, p: nat, next: State)
    requires QuietStretch(ss, ms, c)
    requires p < |QueueOf(ss[0], c)| && Count(Taken(ss, ms, c)) == p && Follows(ss[|ms|], Move(c, Pop), next)
    ensures c < |next.cores| && next.cores[c].pc == Popped(QueueOf(ss[0], c)[p])
  {
    StretchQueues(ss, ms, c);
    FirstInFirstOut(Queues(ss, c), Taken(ss, ms, c), p);
    QueueStep(ss[|ms|], Move(c, Pop), next, c);
  }

  lemma StretchQueues(ss: seq<State>, ms: seq<Move>, c: nat)
    requires QuietStretch(ss, ms, c)
    ensures QueueRun(Queues(ss, c), Taken(ss, ms, c))
  {
    var qs, taken := Queues(ss, c), Taken(ss, ms, c);
    forall i | 0 <= i < |taken| ensures Advances(qs[i], taken[i], qs[i + 1]) {
      QueueStep(ss[i], ms[i], ss[i + 1], c);
    }
  }

  /** A stretch of a run in which core c wakes no thread. */
  ghost predicate QuietStretch(ss: seq<State>, ms: seq<Move>, c: nat) {
    |ss| == |ms| + 1 &&
    var quiet := forall i {:trigger ms[i]} :: 0 <= i < |ms| ==>
                                                Follows(ss[i], ms[i], ss[i + 1]) && ms[i] != Move(c, WakeQueue);
    quiet
  }

  /** A woken thread goes before all others. */
  lemma WokenFirst(s: State, c: nat, ss: seq<State>, ms: seq<Move>, next: State)
    requires Enabled(s, c, WakeQueue) && QuietStretch(ss, ms, c) && ss[0] == Step(s, c, WakeQueue)
    requires Count(Taken(ss, ms, c)) == 0
    requires Follows(ss[|ms|], Move(c, Pop), next)
    ensures c < |next.cores| && next.cores[c].pc == Popped(WokenBy(TheWake(s.cores[c])))
  {
    WakeListed(s, c);
    TurnComes(ss, ms, c, 0, next);
  }

  lemma WakeListed(s: State, c: nat)
    requires Enabled(s, c, WakeQueue)
    ensures QueueOf(Step(s, c, WakeQueue), c) == [WokenBy(TheWake(s.cores[c]))] + QueueOf(s, c)
  {
  }

  // ---- creating threads ----

  /** The status in which thread_alloc hands out a thread: a recycled one has been zeroed, only a fresh one is switched
      to DEAD; None is the null pointer. */
  function AllocStatus(s: State): Option<Status> {
    if s.freeList != [] then Some(IDLE) else if s.top < |s.threads| then Some(DEAD) else None
  }

  /** The assertion of thread_create holds, as long as thread_alloc finds a thread, exactly until a thread exits: from
      then on every thread_create of the run fails it. */
  lemma {:induction false} CreateFailsAfterExit(ss: seq<State>, ms: seq<Move>, j: nat, k: nat)
    requires Run(ss, ms) && j <= k < |ss|
    ensures ss[j].freeList != [] ==> AllocStatus(ss[k]) == Some(IDLE) && forall c :: !Enabled(ss[k], c, Create)
    ensures (exists i :: 0 <= i < k && ms[i].action == FreeThread) <==> ss[k].freeList != []
    decreases k
  {
    if k > 0 {
      FreeListStep(ss[k - 1], ms[k - 1], ss[k]);
      CreateFailsAfterExit(ss, ms, if j < k then j else k - 1, k - 1);
    }
  }

  lemma FreeListStep(s: State, m: Move, s': State)
    requires Follows(s, m, s')
    ensures s'.freeList != [] <==> s.freeList != [] || m.action == FreeThread
  {
  }
}
