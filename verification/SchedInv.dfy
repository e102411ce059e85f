/** What every step of the scheduler keeps. */
module SchedInv {
  import opened Sequences
  import opened SchedModel

  // ---- one core ----

  /** How often the code at a point has preemption disabled. */
  function Nest(pc: Pc): nat {
    match pc
    case User(n) => n
    case Counted(_) => 0
    case Placed => 0
    case _ => 1
  }

  function WakeNest(w: Wake): nat { if w.NoWake? then 0 else 1 }

  function IntrNest(i: Intr): nat { if i.NoIntr? then 0 else 1 + WakeNest(i.wake) }

  /** The thread a scheduler local has. */
  function InHandOf(pc: Pc): Option<nat> {
    match pc
    case Dropped(_, t) => Some(t)
    case Popped(t) => Some(t)
    case Execute(t) => Some(t)
    case Masked(t) => Some(t)
    case Calm(t) => Some(t)
    case Counted(t) => Some(t)
    case _ => None
  }

  predicate HasCurrent(pc: Pc) { pc.User? || pc.Calling? || pc.Entered? || pc.Switched? || pc.Placed? }

  function WakeThread(w: Wake): Option<nat> {
    match w
    case Claim(t) => Some(t)
    case Hand(t) => Some(t)
    case _ => None
  }

  predicate Masking(pc: Pc) { pc.Masked? || pc.Calm? || pc.Counted? || pc.Placed? }

  predicate Calmed(pc: Pc) { pc.Calm? || pc.Counted? || pc.Placed? }

  /** A wakeup has queued its thread and has not yet asked the core to look at the queue. */
  predicate Listing(k: Core) { k.intr.Handler? && k.intr.wake.Listed? }

  /** The preempt count is what the thread or scheduler, the wakeups and the handler have disabled. */
  predicate Tally(k: Core) { k.count == Nest(k.pc) + WakeNest(k.wake) + IntrNest(k.intr) }

  /** A request to reschedule is pending only while preemption is disabled. */
  predicate Pending(k: Core) { k.want ==> k.count > 0 && !Calmed(k.pc) }

  /** Which points of the code go together. */
  predicate Shape(k: Core) {
    && (k.wake.NoWake? || MayWake(k.pc))
    && (k.intr.Handler? ==> !Masking(k.pc))
    && (HasCurrent(k.pc) <==> k.current.Some?)
  }

  /** A core that sleeps with its parked flag set has nothing queued. */
  predicate Restful(k: Core) { k.pc.Asleep? && k.parked && !Listing(k) ==> k.queue == [] }

  predicate Counts(k: Core) { Tally(k) && Pending(k) && Shape(k) && Restful(k) }

  /** The wakeup of the handler and the one it interrupted have different threads. */
  predicate WakesApart(k: Core) {
    k.intr.Handler? && WakeThread(k.wake).Some? ==> WakeThread(k.wake) != WakeThread(k.intr.wake)
  }

  ghost predicate CoreInv(k: Core) {
    var inv := Counts(k) && WakesApart(k) && NoDup(k.queue);
    inv
  }

  // ---- threads and cores ----

  predicate Holds(k: Core, t: nat, kind: Kind) {
    match kind
    case OnCpu => k.current == Some(t)
    case InQueue => t in k.queue
    case InHand => InHandOf(k.pc) == Some(t)
    case Claimed => k.wake == Claim(t) || k.intr == Handler(Claim(t))
    case Handed => k.wake == Hand(t) || k.intr == Handler(Hand(t))
  }

  /** What the status of a core's own thread must be. */
  function CpuStatus(pc: Pc): Status {
    match pc
    case Switched(call) => NewStatus(call)
    case Placed => RUNNABLE
    case _ => RUNNING
  }

  function HandStatus(pc: Pc): Status { if pc.Dropped? then NewStatus(pc.call) else RUNNABLE }

  function KindStatus(k: Core, kind: Kind): Status {
    match kind
    case OnCpu => CpuStatus(k.pc)
    case InHand => HandStatus(k.pc)
    case Claimed => WAITING
    case _ => RUNNABLE
  }

  /** Core c has exactly the threads whose place says so. */
  ghost predicate Owns(threads: seq<Thread>, k: Core, c: nat) {
    forall t: nat, kind :: Holds(k, t, kind) <==> InPlace(threads, t, At(c, kind))
  }

  predicate InPlace(threads: seq<Thread>, t: nat, p: Place) { t < |threads| && threads[t].place == p }

  ghost predicate StatusOk(threads: seq<Thread>, k: Core, c: nat) {
    forall t: nat, kind :: InPlace(threads, t, At(c, kind)) ==> threads[t].status == KindStatus(k, kind)
  }

  ghost predicate CoreOk(threads: seq<Thread>, k: Core, c: nat) {
    var ok := CoreInv(k) && Owns(threads, k, c) && StatusOk(threads, k, c);
    ok
  }

  ghost predicate FreeOf(s: State, t: nat)
    requires t < |s.threads|
  {
    match s.threads[t].place
    case At(c, _) => c < |s.cores|
    case Published => s.threads[t].status == WAITING
    case _ => s.threads[t].status == IDLE
  }

  ghost predicate TableOk(s: State) {
    && s.top <= |s.threads|
    && (forall t: nat :: t < |s.threads| ==> FreeOf(s, t))
    && (forall t: nat :: t < |s.threads| ==> (t >= s.top <==> s.threads[t].place.Unborn?))
    && (forall t: nat :: t in s.freeList <==> t < |s.threads| && s.threads[t].place.Freed?)
    && NoDup(s.freeList)
  }

  ghost predicate Inv(s: State) {
    && (forall c: nat :: c < |s.cores| ==> CoreOk(s.threads, s.cores[c], c))
    && TableOk(s)
  }

  lemma InitInv(s: State)
    requires Init(s)
    ensures Inv(s)
  {
    forall c: nat | c < |s.cores| ensures CoreOk(s.threads, s.cores[c], c) {
      assert s.cores[c].queue == [];
    }
  }

  /** What the invariant says of one thread and one core. */
  lemma AtCore(s: State, c: nat, t: nat)
    requires Inv(s) && c < |s.cores|
    ensures var k := s.cores[c];
            && CoreInv(k)
            && (forall kind :: Holds(k, t, kind) <==> InPlace(s.threads, t, At(c, kind)))
            && (forall kind :: Holds(k, t, kind) ==> s.threads[t].status == KindStatus(k, kind))
            && (t < |s.threads| ==> FreeOf(s, t))
    ensures s.cores[c].current == Some(t) <==> InPlace(s.threads, t, At(c, OnCpu))
    ensures t in s.cores[c].queue <==> InPlace(s.threads, t, At(c, InQueue))
  {
    var k := s.cores[c];
    assert CoreOk(s.threads, k, c);
    assert (Holds(k, t, OnCpu) <==> InPlace(s.threads, t, At(c, OnCpu)))
        && (Holds(k, t, InQueue) <==> InPlace(s.threads, t, At(c, InQueue)));
  }

  // ---- a step concerns one core and one thread ----

  /** How the core has the thread that an action concerns, before and after. */
  function FromKind(a: Action): Option<Kind> {
    match a
    case SwitchStatus => Some(OnCpu)
    case Drop => Some(OnCpu)
    case Resume => Some(OnCpu)
    case Pop => Some(InQueue)
    case WakeStatus => Some(Claimed)
    case WakeQueue => Some(Handed)
    case BeginWake(_) => None
    case IntrWake(_) => None
    case _ => Some(InHand)
  }

  function ToKind(a: Action): Option<Kind> {
    match a
    case SwitchStatus => Some(OnCpu)
    case SetCurrent => Some(OnCpu)
    case Resume => Some(OnCpu)
    case Requeue => Some(InQueue)
    case WakeQueue => Some(InQueue)
    case WakeStatus => Some(Handed)
    case BeginWake(_) => Some(Claimed)
    case IntrWake(_) => Some(Claimed)
    case Drop => Some(InHand)
    case Refuse => Some(InHand)
    case Pop => Some(InHand)
    case _ => None
  }

  /** The steps of a wakeup and of the interrupt handler; the others run outside both. */
  predicate Waking(a: Action) {
    a.BeginWake? || a.WakeStatus? || a.WakeQueue? || a.WakeAsk? || a.WakeEnable? || a.Interrupt? || a.Tick? || a.IntrWake?
    || a.IntrReturn?
  }

  lemma TallyWaking(k: Core, a: Action)
    requires Tally(k) && Shape(k) && AtPoint(k, a) && Waking(a)
    ensures Tally(CoreAfter(k, a))
  {
  }

  lemma TallyPlain(k: Core, a: Action)
    requires Tally(k) && Shape(k) && AtPoint(k, a) && !Waking(a)
    ensures Tally(CoreAfter(k, a))
  {
  }

  lemma PendingWaking(k: Core, a: Action)
    requires Tally(k) && Pending(k) && Shape(k) && AtPoint(k, a) && Waking(a)
    ensures Pending(CoreAfter(k, a))
  {
  }

  lemma PendingPlain(k: Core, a: Action)
    requires Tally(k) && Pending(k) && Shape(k) && AtPoint(k, a) && !Waking(a)
    ensures Pending(CoreAfter(k, a))
  {
  }

  lemma ShapeWaking(k: Core, a: Action)
    requires Tally(k) && Shape(k) && AtPoint(k, a) && Waking(a)
    ensures Shape(CoreAfter(k, a))
  {
  }

  lemma ShapePlain(k: Core, a: Action)
    requires Tally(k) && Shape(k) && AtPoint(k, a) && !Waking(a)
    ensures Shape(CoreAfter(k, a))
  {
  }

  lemma RestfulWaking(k: Core, a: Action)
    requires Shape(k) && Restful(k) && AtPoint(k, a) && Waking(a)
    ensures Restful(CoreAfter(k, a))
  {
  }

  lemma RestfulPlain(k: Core, a: Action)
    requires Shape(k) && Restful(k) && AtPoint(k, a) && !Waking(a)
    ensures Restful(CoreAfter(k, a))
  {
  }

  lemma TouchedHeld(k: Core, a: Action)
    requires Tally(k) && Shape(k) && AtPoint(k, a) && Touched(k, a).Some? && FromKind(a).Some?
    ensures Holds(k, Touched(k, a).value, FromKind(a).value)
  {
  }

  /** Threads that an action does not concern stay with the core as they were. */
  lemma OtherHeld(k: Core, a: Action, t: nat, kind: Kind)
    requires Tally(k) && Shape(k) && AtPoint(k, a) && Touched(k, a) != Some(t)
    ensures Holds(CoreAfter(k, a), t, kind) <==> Holds(k, t, kind)
  {
    match kind
    case OnCpu => if Waking(a) { SameCurrent(k, a); } else { OtherCurrent(k, a, t); }
    case InQueue => OtherQueued(k, a, t);
    case InHand => if Waking(a) { SameInHand(k, a); } else { OtherInHand(k, a, t); }
    case Claimed => if Waking(a) { OtherClaimWaking(k, a, t); } else { OtherWakePlain(k, a); }
    case Handed => if Waking(a) { OtherHandWaking(k, a, t); } else { OtherWakePlain(k, a); }
  }

  lemma SameCurrent(k: Core, a: Action)
    requires AtPoint(k, a) && Waking(a)
    ensures CoreAfter(k, a).current == k.current
  {
  }

  /** A wakeup or a handler enters the scheduler only from a thread. */
  lemma SameInHand(k: Core, a: Action)
    requires Tally(k) && Shape(k) && AtPoint(k, a) && Waking(a)
    ensures InHandOf(CoreAfter(k, a).pc) == InHandOf(k.pc)
  {
  }

  lemma OtherCurrent(k: Core, a: Action, t: nat)
    requires Shape(k) && AtPoint(k, a) && !Waking(a) && Touched(k, a) != Some(t)
    ensures CoreAfter(k, a).current == Some(t) <==> k.current == Some(t)
  {
  }

  lemma OtherInHand(k: Core, a: Action, t: nat)
    requires Shape(k) && AtPoint(k, a) && !Waking(a) && Touched(k, a) != Some(t)
    ensures InHandOf(CoreAfter(k, a).pc) == Some(t) <==> InHandOf(k.pc) == Some(t)
  {
  }

  lemma OtherQueued(k: Core, a: Action, t: nat)
    requires AtPoint(k, a) && Touched(k, a) != Some(t)
    ensures t in CoreAfter(k, a).queue <==> t in k.queue
  {
  }

  lemma OtherClaimWaking(k: Core, a: Action, t: nat)
    requires Shape(k) && AtPoint(k, a) && Waking(a) && Touched(k, a) != Some(t)
    ensures var k' := CoreAfter(k, a);
            k'.wake == Claim(t) || k'.intr == Handler(Claim(t)) <==> k.wake == Claim(t) || k.intr == Handler(Claim(t))
  {
    match a
    case BeginWake(_) =>
    case WakeStatus =>
    case WakeQueue =>
    case WakeEnable =>
    case IntrWake(_) =>
    case IntrReturn =>
    case _ =>
  }

  lemma OtherHandWaking(k: Core, a: Action, t: nat)
    requires Shape(k) && AtPoint(k, a) && Waking(a) && Touched(k, a) != Some(t)
    ensures var k' := CoreAfter(k, a);
            k'.wake == Hand(t) || k'.intr == Handler(Hand(t)) <==> k.wake == Hand(t) || k.intr == Handler(Hand(t))
  {
    match a
    case BeginWake(_) =>
    case WakeStatus =>
    case WakeQueue =>
    case WakeEnable =>
    case IntrWake(_) =>
    case IntrReturn =>
    case _ =>
  }

  lemma OtherWakePlain(k: Core, a: Action)
    requires AtPoint(k, a) && !Waking(a)
    ensures CoreAfter(k, a).wake == k.wake && CoreAfter(k, a).intr == k.intr
  {
  }

  /** The thread that an action concerns ends up where the action puts it, and nowhere else. */
  lemma TouchedMovedWaking(k: Core, a: Action, t: nat, kind: Kind)
    requires CoreInv(k) && AtPoint(k, a) && Waking(a) && Touched(k, a) == Some(t)
    requires forall kd :: Holds(k, t, kd) <==> FromKind(a) == Some(kd)
    ensures Holds(CoreAfter(k, a), t, kind) <==> ToKind(a) == Some(kind)
  {
    assert !Holds(k, t, OnCpu) || FromKind(a) == Some(OnCpu);
    assert !Holds(k, t, InQueue) || FromKind(a) == Some(InQueue);
    assert !Holds(k, t, InHand) || FromKind(a) == Some(InHand);
    assert !Holds(k, t, Claimed) || FromKind(a) == Some(Claimed);
    assert !Holds(k, t, Handed) || FromKind(a) == Some(Handed);
  }

  lemma TouchedMovedPlain(k: Core, a: Action, t: nat, kind: Kind)
    requires CoreInv(k) && AtPoint(k, a) && !Waking(a) && Touched(k, a) == Some(t)
    requires forall kd :: Holds(k, t, kd) <==> FromKind(a) == Some(kd)
    ensures Holds(CoreAfter(k, a), t, kind) <==> ToKind(a) == Some(kind)
  {
    assert a.Pop? ==> k.queue[0] !in k.queue[1..];
    assert !Holds(k, t, OnCpu) || FromKind(a) == Some(OnCpu);
    assert !Holds(k, t, InQueue) || FromKind(a) == Some(InQueue);
    assert !Holds(k, t, InHand) || FromKind(a) == Some(InHand);
    assert !Holds(k, t, Claimed) || FromKind(a) == Some(Claimed);
    assert !Holds(k, t, Handed) || FromKind(a) == Some(Handed);
  }

  lemma TouchedMoved(k: Core, a: Action, t: nat, kind: Kind)
    requires CoreInv(k) && AtPoint(k, a) && Touched(k, a) == Some(t)
    requires forall kd :: Holds(k, t, kd) <==> FromKind(a) == Some(kd)
    ensures Holds(CoreAfter(k, a), t, kind) <==> ToKind(a) == Some(kind)
  {
    if Waking(a) {
      TouchedMovedWaking(k, a, t, kind);
    } else {
      TouchedMovedPlain(k, a, t, kind);
    }
  }

  lemma OtherStatusWaking(k: Core, a: Action, t: nat, kind: Kind)
    requires Tally(k) && Shape(k) && AtPoint(k, a) && Waking(a) && Touched(k, a) != Some(t) && Holds(k, t, kind)
    ensures KindStatus(CoreAfter(k, a), kind) == KindStatus(k, kind)
  {
  }

  lemma OtherStatusPlain(k: Core, a: Action, t: nat, kind: Kind)
    requires Tally(k) && Shape(k) && AtPoint(k, a) && !Waking(a) && Touched(k, a) != Some(t) && Holds(k, t, kind)
    ensures KindStatus(CoreAfter(k, a), kind) == KindStatus(k, kind)
  {
  }

  lemma TouchedStatus(k: Core, c: nat, a: Action, was: Thread)
    requires Tally(k) && Shape(k) && AtPoint(k, a) && Touched(k, a).Some? && ToKind(a).Some?
    requires was.status == if FromKind(a).Some? then KindStatus(k, FromKind(a).value) else WAITING
    ensures Becomes(k, c, a, was) == Thread(KindStatus(CoreAfter(k, a), ToKind(a).value), At(c, ToKind(a).value))
  {
  }

  // ---- the core that takes the step ----

  /** An action finds its thread with its own core, or published. */
  lemma TouchedBefore(s: State, c: nat, a: Action, t: nat)
    requires Inv(s) && Enabled(s, c, a) && Touched(s.cores[c], a) == Some(t)
    ensures t < |s.threads| && forall kind :: Holds(s.cores[c], t, kind) <==> FromKind(a) == Some(kind)
    ensures s.threads[t].place == if FromKind(a).Some? then At(c, FromKind(a).value) else Published
    ensures s.threads[t].status == if FromKind(a).Some? then KindStatus(s.cores[c], FromKind(a).value) else WAITING
  {
    AtCore(s, c, t);
    if FromKind(a).Some? {
      TouchedHeld(s.cores[c], a);
    }
  }

  lemma WakesApartKeep(s: State, c: nat, a: Action)
    requires Inv(s) && Enabled(s, c, a)
    ensures WakesApart(CoreAfter(s.cores[c], a))
  {
    var k := s.cores[c];
    AtCore(s, c, if WakeThread(k.wake).Some? then WakeThread(k.wake).value else 0);
    if a.IntrWake? && WakeThread(k.wake).Some? {
      assert Holds(k, WakeThread(k.wake).value, Claimed) || Holds(k, WakeThread(k.wake).value, Handed);
    }
    if Waking(a) {
      WakesApartWaking(k, a);
    } else {
      OtherWakePlain(k, a);
    }
  }

  lemma WakesApartWaking(k: Core, a: Action)
    requires WakesApart(k) && AtPoint(k, a) && Waking(a) && (a.IntrWake? ==> WakeThread(k.wake) != Some(a.t))
    ensures WakesApart(CoreAfter(k, a))
  {
  }

  lemma QueueKeep(s: State, c: nat, a: Action)
    requires Inv(s) && Enabled(s, c, a)
    ensures NoDup(CoreAfter(s.cores[c], a).queue)
  {
    var k := s.cores[c];
    AtCore(s, c, 0);
    if a.Requeue? || a.WakeQueue? {
      var t := Touched(k, a).value;
      TouchedBefore(s, c, a, t);
      assert !Holds(k, t, InQueue);
    }
  }

  /** The preempt count is the sum of the disables of thread, scheduler, wakeup and handler, and a pending request
      implies that it is positive. */
  lemma CoreInvKeep(s: State, c: nat, a: Action)
    requires Inv(s) && Enabled(s, c, a)
    ensures CoreInv(CoreAfter(s.cores[c], a))
  {
    var k := s.cores[c];
    AtCore(s, c, 0);
    if Waking(a) {
      TallyWaking(k, a);
      PendingWaking(k, a);
      ShapeWaking(k, a);
      RestfulWaking(k, a);
    } else {
      TallyPlain(k, a);
      PendingPlain(k, a);
      ShapePlain(k, a);
      RestfulPlain(k, a);
    }
    WakesApartKeep(s, c, a);
    QueueKeep(s, c, a);
  }

  lemma OwnsKeep(s: State, c: nat, a: Action, t: nat, kind: Kind)
    requires Inv(s) && Enabled(s, c, a)
    ensures Holds(CoreAfter(s.cores[c], a), t, kind) <==> InPlace(ThreadsAfter(s, s.cores[c], c, a), t, At(c, kind))
  {
    var k := s.cores[c];
    AtCore(s, c, t);
    if Touched(k, a) == Some(t) {
      TouchedBefore(s, c, a, t);
      TouchedMoved(k, a, t, kind);
      TouchedPlace(k, c, a, s.threads[t]);
    } else {
      OtherHeld(k, a, t, kind);
      if t < |s.threads| {
        OtherThread(s, c, a, t);
      }
    }
  }

  lemma TouchedPlace(k: Core, c: nat, a: Action, was: Thread)
    requires Touched(k, a).Some?
    ensures var place := Becomes(k, c, a, was).place;
            if ToKind(a).Some? then place == At(c, ToKind(a).value) else !place.At?
  {
  }

  lemma OtherThread(s: State, c: nat, a: Action, t: nat)
    requires Inv(s) && Enabled(s, c, a) && Touched(s.cores[c], a) != Some(t) && t < |s.threads|
    ensures ThreadsAfter(s, s.cores[c], c, a)[t] == s.threads[t] || (a.Create? && t == s.top && s.threads[t].place.Unborn?)
  {
  }

  lemma StatusKeep(s: State, c: nat, a: Action, t: nat, kind: Kind)
    requires Inv(s) && Enabled(s, c, a) && InPlace(ThreadsAfter(s, s.cores[c], c, a), t, At(c, kind))
    ensures ThreadsAfter(s, s.cores[c], c, a)[t].status == KindStatus(CoreAfter(s.cores[c], a), kind)
  {
    var k := s.cores[c];
    AtCore(s, c, t);
    OwnsKeep(s, c, a, t, kind);
    if Touched(k, a) == Some(t) {
      TouchedBefore(s, c, a, t);
      TouchedMoved(k, a, t, kind);
      TouchedStatus(k, c, a, s.threads[t]);
    } else {
      OtherHeld(k, a, t, kind);
      if Waking(a) { OtherStatusWaking(k, a, t, kind); } else { OtherStatusPlain(k, a, t, kind); }
    }
  }

  // ---- the other cores and the thread table ----

  predicate InCore(p: Place, c: nat) { p.At? && p.core == c }

  /** Core d sees nothing of a change to a thread that comes from and goes to elsewhere. */
  lemma OthersKeep(threads: seq<Thread>, threads': seq<Thread>, k: Core, d: nat, t: nat)
    requires CoreOk(threads, k, d) && t < |threads| == |threads'| && threads' == threads[t := threads'[t]]
    requires !InCore(threads[t].place, d) && !InCore(threads'[t].place, d)
    ensures CoreOk(threads', k, d)
  {
    forall u: nat, kind ensures InPlace(threads', u, At(d, kind)) <==> InPlace(threads, u, At(d, kind)) {}
  }

  /** An action changes no thread, or one that its core has or that no core has. */
  lemma OneThread(s: State, c: nat, a: Action) returns (t: nat)
    requires Inv(s) && Enabled(s, c, a)
    ensures var threads' := ThreadsAfter(s, s.cores[c], c, a);
            || threads' == s.threads
            || (t < |s.threads| && threads' == s.threads[t := threads'[t]]
                && (forall d :: d != c ==> !InCore(s.threads[t].place, d) && !InCore(threads'[t].place, d)))
  {
    var k := s.cores[c];
    t := s.top;
    if a.Create? {
      assert s.threads[t].place.Unborn?;
    } else if Touched(k, a).Some? {
      t := Touched(k, a).value;
      TouchedBefore(s, c, a, t);
    }
  }

  /** What places say of threads that no core has. */
  lemma TableKeep(s: State, c: nat, a: Action)
    requires Inv(s) && Enabled(s, c, a)
    ensures TableOk(Step(s, c, a))
  {
    var k, s' := s.cores[c], Step(s, c, a);
    if a.Create? {
      assert FreeOf(s, s.top);
    } else if Touched(k, a).Some? {
      TouchedBefore(s, c, a, Touched(k, a).value);
      assert a.FreeThread? ==> HeldBy(k.pc) !in s.freeList;
    }
    forall t: nat | t < |s.threads| ensures FreeOf(s', t) { assert FreeOf(s, t); }
  }

  /** Every step of every core keeps the invariant. */
  lemma StepInv(s: State, c: nat, a: Action)
    requires Inv(s) && Enabled(s, c, a)
    ensures Inv(Step(s, c, a))
  {
    var s' := Step(s, c, a);
    TableKeep(s, c, a);
    var t := OneThread(s, c, a);
    OwnStep(s, c, a);
    forall d: nat | d < |s'.cores| ensures CoreOk(s'.threads, s'.cores[d], d) {
      assert CoreOk(s.threads, s.cores[d], d);
      if d != c && s'.threads != s.threads {
        OthersKeep(s.threads, s'.threads, s.cores[d], d, t);
      }
    }
  }

  lemma OwnStep(s: State, c: nat, a: Action)
    requires Inv(s) && Enabled(s, c, a)
    ensures CoreOk(ThreadsAfter(s, s.cores[c], c, a), CoreAfter(s.cores[c], a), c)
  {
    var k', threads' := CoreAfter(s.cores[c], a), ThreadsAfter(s, s.cores[c], c, a);
    CoreInvKeep(s, c, a);
    forall t: nat, kind ensures Holds(k', t, kind) <==> InPlace(threads', t, At(c, kind)) { OwnsKeep(s, c, a, t, kind); }
    forall t: nat, kind | InPlace(threads', t, At(c, kind)) ensures threads'[t].status == KindStatus(k', kind) {
      StatusKeep(s, c, a, t, kind);
    }
  }

  /** In a state that satisfies the invariant, no assertion of the source fails, and no status switch has to spin. */
  lemma AssertsHold(s: State, c: nat, a: Action)
    requires Inv(s) && Enabled(s, c, a)
    ensures Asserts(s, s.cores[c], a)
  {
    var k := s.cores[c];
    AtCore(s, c, CurrentOf(k));
    assert k.current.Some? ==> Holds(k, CurrentOf(k), OnCpu);
    if a.Refuse? || a.WakeStatus? {
      TouchedBefore(s, c, a, Touched(k, a).value);
    }
  }
}
