/** Every path through the scheduler can be taken: from any state of any run the next statements of the source are
    enabled one after the other, and lead where the source leads. */
module SchedPaths {
  import opened SchedModel
  import opened SchedInv
  import opened SchedRuns

  /** Runs go on with any step that follows. */
  lemma Extends(ss: seq<State>, ms: seq<Move>, m: Move, s: State)
    requires Run(ss, ms) && Follows(ss[|ms|], m, s)
    ensures Run(ss + [s], ms + [m])
  {
    var ss', ms' := ss + [s], ms + [m];
    forall i | 0 <= i < |ms'| ensures Follows(ss'[i], ms'[i], ss'[i + 1]) {
      assert i < |ms| ==> ms'[i] == ms[i];
    }
  }

  /** Core c is in thread code, outside any wakeup and interrupt. */
  predicate InThread(s: State, c: nat, nest: nat, t: nat) {
    && c < |s.cores| && s.cores[c].pc == User(nest) && s.cores[c].wake.NoWake? && s.cores[c].intr.NoIntr?
    && s.cores[c].current == Some(t)
  }

  predicate InScheduler(s: State, c: nat, pc: Pc) {
    c < |s.cores| && s.cores[c].pc == pc && s.cores[c].wake.NoWake? && s.cores[c].intr.NoIntr?
  }

  /** A thread can call the scheduler and leaves its core. */
  lemma LeavePath(s: State, c: nat, call: Call, t: nat) returns (s1: State, s2: State, s3: State, s4: State)
    requires Inv(s) && InThread(s, c, 0, t)
    ensures Follows(s, Move(c, Request(call)), s1) && Follows(s1, Move(c, Switch), s2)
    ensures Follows(s2, Move(c, SwitchStatus), s3) && Follows(s3, Move(c, Drop), s4)
    ensures InScheduler(s4, c, Dropped(call, t)) && s4.cores[c].queue == s.cores[c].queue && s4.freeList == s.freeList
    ensures Inv(s4) && HasStatus(s4, Some(t), if call == Yield then RUNNABLE else if call == Park then WAITING else DEAD)
  {
    s1 := Go(s, c, Request(call));
    s2 := Go(s1, c, Switch);
    s3, s4 := DropPath(s2, c, call, t);
  }

  lemma DropPath(s: State, c: nat, call: Call, t: nat) returns (s1: State, s2: State)
    requires Inv(s) && InScheduler(s, c, Entered(call)) && s.cores[c].current == Some(t)
    ensures Follows(s, Move(c, SwitchStatus), s1) && Follows(s1, Move(c, Drop), s2)
    ensures InScheduler(s2, c, Dropped(call, t)) && s2.cores[c].queue == s.cores[c].queue && s2.freeList == s.freeList
    ensures Inv(s2) && HasStatus(s2, Some(t), if call == Yield then RUNNABLE else if call == Park then WAITING else DEAD)
  {
    s1 := Go(s, c, SwitchStatus);
    s2 := Go(s1, c, Drop);
    AtCore(s2, c, t);
    assert Holds(s2.cores[c], t, InHand);
  }

  /** A step that is enabled is taken. */
  lemma Go(s: State, c: nat, a: Action) returns (s': State)
    requires Inv(s) && Enabled(s, c, a)
    ensures Follows(s, Move(c, a), s') && s' == Step(s, c, a) && Inv(s') && |s'.cores| == |s.cores|
    ensures s'.cores[c] == CoreAfter(s.cores[c], a) && CoreInv(s'.cores[c])
    ensures !a.FreeThread? ==> s'.freeList == s.freeList
    ensures !a.Create? ==> s'.top == s.top
  {
    s' := Step(s, c, a);
    StepInv(s, c, a);
    AtCore(s', c, 0);
  }

  lemma YieldPath(s: State, c: nat, t: nat) returns (s': State)
    requires Inv(s) && InScheduler(s, c, Dropped(Yield, t))
    ensures Follows(s, Move(c, Requeue), s') && Inv(s') && InScheduler(s', c, Loop)
    ensures s'.cores[c].queue == s.cores[c].queue + [t]
  {
    s' := Go(s, c, Requeue);
  }

  /** The callback may accept the park, after which others can wake the thread, or refuse it. */
  lemma ParkPath(s: State, c: nat, t: nat) returns (s1: State, s2: State, r: State)
    requires Inv(s) && InScheduler(s, c, Dropped(Park, t))
    ensures Follows(s, Move(c, Publish), s1) && Follows(s1, Move(c, EndCallback), s2) && Follows(s, Move(c, Refuse), r)
    ensures Inv(s2) && InScheduler(s2, c, Loop) && CanClaim(s1, t) && CanClaim(s2, t)
    ensures Inv(r) && InScheduler(r, c, Execute(t)) && HasStatus(r, Some(t), RUNNABLE)
  {
    AtCore(s, c, t);
    assert Holds(s.cores[c], t, InHand);
    s1 := Go(s, c, Publish);
    s2 := Go(s1, c, EndCallback);
    r := Go(s, c, Refuse);
  }

  lemma ExitPath(s: State, c: nat, t: nat) returns (s': State)
    requires Inv(s) && InScheduler(s, c, Dropped(Exit, t))
    ensures Follows(s, Move(c, FreeThread), s') && Inv(s') && InScheduler(s', c, Loop)
    ensures s'.freeList == [t] + s.freeList && s'.cores[c].queue == s.cores[c].queue
  {
    s' := Go(s, c, FreeThread);
  }

  /** With a thread queued, the scheduling loop takes the first. */
  lemma TakePath(s: State, c: nat) returns (s1: State, s2: State, s3: State)
    requires Inv(s) && InScheduler(s, c, Loop) && s.cores[c].queue != []
    ensures Follows(s, Move(c, Prepare), s1) && Follows(s1, Move(c, Pop), s2) && Follows(s2, Move(c, Unpark), s3)
    ensures Inv(s3) && InScheduler(s3, c, Execute(s.cores[c].queue[0])) && !s3.cores[c].parked
    ensures s3.cores[c].queue == s.cores[c].queue[1..]
  {
    s1 := Go(s, c, Prepare);
    s2 := Go(s1, c, Pop);
    s3 := Go(s2, c, Unpark);
  }

  /** With nothing queued, it goes to sleep. */
  lemma SleepPath(s: State, c: nat) returns (s1: State, s2: State)
    requires Inv(s) && InScheduler(s, c, Loop) && s.cores[c].queue == []
    ensures Follows(s, Move(c, Prepare), s1) && Follows(s1, Move(c, Pop), s2)
    ensures Inv(s2) && InScheduler(s2, c, Asleep) && s2.cores[c].parked && !Enabled(s2, c, Awake)
  {
    s1 := Go(s, c, Prepare);
    s2 := Go(s1, c, Pop);
  }

  /** scheduler_execute puts the thread on the core, with preemption enabled and nothing pending. */
  lemma ExecutePath(s: State, c: nat, t: nat) returns (s1: State, s2: State, s3: State, s4: State, s5: State)
    requires Inv(s) && InScheduler(s, c, Execute(t))
    ensures Follows(s, Move(c, MaskIrq), s1) && Follows(s1, Move(c, ClearWant), s2) && Follows(s2, Move(c, ZeroCount), s3)
    ensures Follows(s3, Move(c, SetCurrent), s4) && Follows(s4, Move(c, Resume), s5)
    ensures Inv(s5) && InThread(s5, c, 0, t) && s5.cores[c].count == 0 && !s5.cores[c].want
    ensures HasStatus(s5, Some(t), RUNNING) && s5.cores[c].queue == s.cores[c].queue
  {
    s1, s2, s3 := PreparePath(s, c, t);
    s4, s5 := ResumePath(s3, c, t);
  }

  lemma PreparePath(s: State, c: nat, t: nat) returns (s1: State, s2: State, s3: State)
    requires Inv(s) && InScheduler(s, c, Execute(t))
    ensures Follows(s, Move(c, MaskIrq), s1) && Follows(s1, Move(c, ClearWant), s2) && Follows(s2, Move(c, ZeroCount), s3)
    ensures Inv(s3) && InScheduler(s3, c, Counted(t)) && s3.cores[c].count == 0 && !s3.cores[c].want
    ensures s3.cores[c].queue == s.cores[c].queue
  {
    s1 := Go(s, c, MaskIrq);
    s2 := Go(s1, c, ClearWant);
    s3 := Go(s2, c, ZeroCount);
  }

  lemma ResumePath(s: State, c: nat, t: nat) returns (s1: State, s2: State)
    requires Inv(s) && InScheduler(s, c, Counted(t)) && s.cores[c].count == 0 && !s.cores[c].want
    ensures Follows(s, Move(c, SetCurrent), s1) && Follows(s1, Move(c, Resume), s2)
    ensures Inv(s2) && InThread(s2, c, 0, t) && s2.cores[c].count == 0 && !s2.cores[c].want
    ensures HasStatus(s2, Some(t), RUNNING) && s2.cores[c].queue == s.cores[c].queue
  {
    s1 := Go(s, c, SetCurrent);
    s2 := Go(s1, c, Resume);
    AtCore(s2, c, t);
    assert Holds(s2.cores[c], t, OnCpu);
  }

  /** Wherever interrupts are on, the timer can fire, and it preempts a thread that has preemption enabled. */
  lemma TickPath(s: State, c: nat) returns (s1: State, s2: State, s3: State)
    requires Inv(s) && c < |s.cores| && s.cores[c].intr.NoIntr?
    requires var pc := s.cores[c].pc; !(pc.Masked? || pc.Calm? || pc.Counted? || pc.Placed?)
    ensures Follows(s, Move(c, Interrupt), s1) && Follows(s1, Move(c, Tick), s2) && Follows(s2, Move(c, IntrReturn), s3)
    ensures |s3.cores| == |s.cores|
    ensures var k, k' := s.cores[c], s3.cores[c];
            && k'.current == k.current && k'.queue == k.queue && k'.want && !k'.parked
            && k'.pc == if k.pc == User(0) && k.wake.NoWake? then Entered(Yield) else k.pc
  {
    AtCore(s, c, 0);
    var k1, k2, k3 := TickCores(s.cores[c]);
    s1 := Take(s, c, Interrupt, k1);
    s2 := Take(s1, c, Tick, k2);
    s3 := Take(s2, c, IntrReturn, k3);
  }

  /** A step of core c alone. */
  lemma Take(s: State, c: nat, a: Action, k': Core) returns (s': State)
    requires c < |s.cores| && AtPoint(s.cores[c], a) && Allowed(s, a) && k' == CoreAfter(s.cores[c], a)
    ensures Follows(s, Move(c, a), s') && s' == Step(s, c, a) && |s'.cores| == |s.cores| && s'.cores[c] == k'
  {
    s' := Step(s, c, a);
  }

  lemma TickCores(k: Core) returns (k1: Core, k2: Core, k3: Core)
    requires CoreInv(k) && k.intr.NoIntr? && !(k.pc.Masked? || k.pc.Calm? || k.pc.Counted? || k.pc.Placed?)
    ensures AtPoint(k, Interrupt) && k1 == CoreAfter(k, Interrupt)
    ensures AtPoint(k1, Tick) && k2 == CoreAfter(k1, Tick) && AtPoint(k2, IntrReturn) && k3 == CoreAfter(k2, IntrReturn)
    ensures k3.current == k.current && k3.queue == k.queue && k3.want && !k3.parked
    ensures k3.pc == if k.pc == User(0) && k.wake.NoWake? then Entered(Yield) else k.pc
  {
    k1 := k.(count := k.count + 1, intr := Handler(NoWake));
    k2 := k1.(want := true, parked := false);
    k3 := CoreAfter(k2, IntrReturn);
  }

  /** Once it is at the entry of the scheduler, the thread goes to the end of the queue. */
  lemma PreemptPath(s: State, c: nat, t: nat) returns (s1: State, s2: State, s3: State)
    requires Inv(s) && InScheduler(s, c, Entered(Yield)) && s.cores[c].current == Some(t)
    ensures Follows(s, Move(c, SwitchStatus), s1) && Follows(s1, Move(c, Drop), s2) && Follows(s2, Move(c, Requeue), s3)
    ensures Inv(s3) && InScheduler(s3, c, Loop) && s3.cores[c].queue == s.cores[c].queue + [t]
  {
    s1, s2 := DropPath(s, c, Yield, t);
    s3 := YieldPath(s2, c, t);
  }

  /** Boot code, a thread, and a park callback can wake a thread that has been parked and published; it goes to the front
      of their queue. */
  lemma WakePath(s: State, c: nat, t: nat) returns (s1: State, s2: State, s3: State)
    requires Inv(s) && c < |s.cores| && s.cores[c].wake.NoWake? && s.cores[c].intr.NoIntr? && CanClaim(s, t)
    requires var pc := s.cores[c].pc; pc.Boot? || pc.User? || pc.Callback? || (pc.Dropped? && pc.call == Park)
    ensures Follows(s, Move(c, BeginWake(t)), s1) && Follows(s1, Move(c, WakeStatus), s2)
    ensures Follows(s2, Move(c, WakeQueue), s3) && |s3.cores| == |s.cores|
    ensures var k, k' := s.cores[c], s3.cores[c];
            k'.queue == [t] + k.queue && k'.wake == Listed && k'.intr.NoIntr? && k'.pc == k.pc && k'.count == k.count + 1
  {
    var k := s.cores[c];
    s1 := Take(s, c, BeginWake(t), k.(count := k.count + 1, wake := Claim(t)));
    s2, s3 := WokenPath(s1, c, t);
  }

  /** A handler can, too. */
  lemma HandlerWakePath(s: State, c: nat, t: nat) returns (s1: State, s2: State, s3: State)
    requires c < |s.cores| && s.cores[c].intr == Handler(NoWake) && CanClaim(s, t)
    ensures Follows(s, Move(c, IntrWake(t)), s1) && Follows(s1, Move(c, WakeStatus), s2)
    ensures Follows(s2, Move(c, WakeQueue), s3) && |s3.cores| == |s.cores|
    ensures var k, k' := s.cores[c], s3.cores[c];
            && k'.queue == [t] + k.queue && k'.intr == Handler(Listed) && k'.pc == k.pc && k'.wake == k.wake
            && k'.count == k.count + 1
  {
    var k := s.cores[c];
    s1 := Take(s, c, IntrWake(t), k.(count := k.count + 1, intr := Handler(Claim(t))));
    s2, s3 := WokenPath(s1, c, t);
  }

  lemma WokenPath(s: State, c: nat, t: nat) returns (s1: State, s2: State)
    requires c < |s.cores| && TheWake(s.cores[c]) == Claim(t)
    ensures Follows(s, Move(c, WakeStatus), s1) && Follows(s1, Move(c, WakeQueue), s2) && |s2.cores| == |s.cores|
    ensures s2.cores[c] == SetWake(s.cores[c], Listed).(queue := [t] + s.cores[c].queue)
  {
    s1 := Take(s, c, WakeStatus, SetWake(s.cores[c], Hand(t)));
    s2 := Take(s1, c, WakeQueue, SetWake(s.cores[c], Listed).(queue := [t] + s.cores[c].queue));
  }

  /** The wakeup ends with a request to reschedule, to which a thread with preemption enabled gives way at once. */
  lemma AskPath(s: State, c: nat) returns (s1: State, s2: State)
    requires Inv(s) && c < |s.cores| && s.cores[c].wake == Listed && s.cores[c].intr.NoIntr?
    ensures Follows(s, Move(c, WakeAsk), s1) && Follows(s1, Move(c, WakeEnable), s2) && |s2.cores| == |s.cores|
    ensures var k, k' := s.cores[c], s2.cores[c];
            && k'.queue == k.queue && k'.current == k.current && k'.want && !k'.parked && k'.wake.NoWake?
            && k'.pc == if k.pc == User(0) then Entered(Yield) else k.pc
  {
    AtCore(s, c, 0);
    s1 := Take(s, c, WakeAsk, s.cores[c].(wake := Asked, want := true, parked := false));
    s2 := Take(s1, c, WakeEnable, CoreAfter(s1.cores[c], WakeEnable));
  }

  /** A wakeup in the handler takes a sleeping core back to its loop. */
  lemma AwakePath(s: State, c: nat) returns (s1: State, s2: State, s3: State, s4: State)
    requires Inv(s) && c < |s.cores| && s.cores[c].intr == Handler(Listed) && s.cores[c].pc == Asleep
    ensures Follows(s, Move(c, WakeAsk), s1) && Follows(s1, Move(c, WakeEnable), s2)
    ensures Follows(s2, Move(c, IntrReturn), s3) && Follows(s3, Move(c, Awake), s4)
    ensures InScheduler(s4, c, Loop) && s4.cores[c].queue == s.cores[c].queue
  {
    AtCore(s, c, 0);
    var k := s.cores[c];
    var k1 := k.(intr := Handler(Asked), want := true, parked := false);
    s1 := Take(s, c, WakeAsk, k1);
    var k2 := k1.(intr := Handler(NoWake), count := k.count - 1);
    s2 := Take(s1, c, WakeEnable, k2);
    s3, s4 := LeaveSleep(s2, c);
  }

  lemma LeaveSleep(s: State, c: nat) returns (s1: State, s2: State)
    requires c < |s.cores| && s.cores[c].intr == Handler(NoWake) && s.cores[c].pc == Asleep && s.cores[c].wake.NoWake?
    requires s.cores[c].count != 1 && !s.cores[c].parked
    ensures Follows(s, Move(c, IntrReturn), s1) && Follows(s1, Move(c, Awake), s2)
    ensures InScheduler(s2, c, Loop) && s2.cores[c].queue == s.cores[c].queue
  {
    var k := s.cores[c];
    s1 := Take(s, c, IntrReturn, k.(intr := NoIntr, count := k.count - 1));
    s2 := Take(s1, c, Awake, s1.cores[c].(pc := Loop));
  }

  /** Boot code enters the scheduling loop. */
  lemma StartPath(s: State, c: nat) returns (s': State)
    requires Inv(s) && InScheduler(s, c, Boot)
    ensures Follows(s, Move(c, Start), s') && Inv(s') && InScheduler(s', c, Loop) && s'.cores[c].queue == s.cores[c].queue
  {
    s' := Go(s, c, Start);
  }

  /** A thread can disable preemption; enabling it again undoes that, unless a reschedule is wanted by then. */
  lemma DisablePath(s: State, c: nat, nest: nat, t: nat) returns (s1: State, s2: State)
    requires Inv(s) && InThread(s, c, nest, t)
    ensures Follows(s, Move(c, Disable), s1) && InThread(s1, c, nest + 1, t) && s1.cores[c].count == s.cores[c].count + 1
    ensures Follows(s1, Move(c, Enable), s2) && s2 == s
  {
    AtCore(s, c, t);
    s1 := Go(s, c, Disable);
    s2 := Go(s1, c, Enable);
    assert s2.cores == s.cores;
  }

  /** A thread that disabled preemption once and wants a reschedule gives way when it enables it again. */
  lemma EnablePath(s: State, c: nat, nest: nat, t: nat) returns (s': State)
    requires Inv(s) && InThread(s, c, nest, t) && nest > 0
    ensures Follows(s, Move(c, Enable), s') && s'.cores[c].current == Some(t)
    ensures s'.cores[c].pc == if nest == 1 && s.cores[c].want then Entered(Yield) else User(nest - 1)
    ensures s'.cores[c].count == if nest == 1 && s.cores[c].want then 1 else nest - 1
  {
    AtCore(s, c, t);
    s' := Go(s, c, Enable);
  }

  /** scheduler_reschedule in a thread gives way at once, or leaves a request behind. */
  lemma ReschedulePath(s: State, c: nat, nest: nat, t: nat) returns (s': State)
    requires Inv(s) && InThread(s, c, nest, t)
    ensures Follows(s, Move(c, Reschedule), s') && s'.cores[c].current == Some(t)
    ensures nest == 0 ==> s'.cores[c].pc == Calling(Yield) && s'.cores[c].count == 1
    ensures nest > 0 ==> s'.cores[c].pc == User(nest) && s'.cores[c].want && s'.cores[c].count == nest
  {
    AtCore(s, c, t);
    s' := Go(s, c, Reschedule);
  }

  /** thread_create makes the next thread of the table, waiting for its first wakeup. */
  lemma CreatePath(s: State, c: nat) returns (s': State)
    requires Inv(s) && c < |s.cores| && s.cores[c].wake.NoWake? && s.cores[c].intr.NoIntr?
    requires (s.cores[c].pc.Boot? || s.cores[c].pc.User?) && s.freeList == [] && s.top < |s.threads|
    ensures Follows(s, Move(c, Create), s') && HasStatus(s', Some(s.top), WAITING) && CanClaim(s', s.top)
    ensures s'.top == s.top + 1 && s'.cores == s.cores
    ensures forall t :: 0 <= t < |s.threads| && t != s.top ==> s'.threads[t] == s.threads[t]
  {
    s' := Go(s, c, Create);
    assert s'.cores == s.cores;
  }

  /** As long as none has exited, 65535 threads can be created in a run. */
  lemma {:induction false} CreateInRun(ss: seq<State>, ms: seq<Move>, k: nat, c: nat) returns (s': State)
    requires Run(ss, ms) && k < |ss| && c < |ss[k].cores| && Ready(ss[k].cores[c])
    requires (ss[k].cores[c].pc.Boot? || ss[k].cores[c].pc.User?) && ss[k].freeList == [] && ss[k].top < 65535
    ensures Follows(ss[k], Move(c, Create), s') && HasStatus(s', Some(ss[k].top), WAITING) && CanClaim(s', ss[k].top)
  {
    RunInv(ss, ms, k);
    TableSize(ss, ms, k);
    s' := CreatePath(ss[k], c);
  }

  lemma {:induction false} TableSize(ss: seq<State>, ms: seq<Move>, k: nat)
    requires Run(ss, ms) && k < |ss|
    ensures |ss[k].threads| == 65535
  {
    if k > 0 {
      TableSize(ss, ms, k - 1);
      assert Follows(ss[k - 1], ms[k - 1], ss[k]);
    }
  }
}
