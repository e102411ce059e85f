/** The thread and scheduler protocol of kernel/thread/scheduler.c as a state machine: any number of cores, each taking
    one statement at a time, with timer interrupts between any two statements that run with interrupts on. */
module SchedModel {
  datatype Option<T> = None | Some(value: T)

  const MAX_THREADS: nat := 65535  // UINT16_MAX

  // ---- threads ----

  datatype Status = IDLE | RUNNABLE | RUNNING | WAITING | DEAD

  /** What a core can have of a thread. */
  datatype Kind =
    | OnCpu    // it is m_core.current
    | InQueue  // it is linked into the run queue
    | InHand   // only a local variable of the scheduler has it
    | Claimed  // a wakeup has it and has not touched it yet
    | Handed   // a wakeup has made it runnable and has not queued it yet

  /** Where a thread is; kept beside the program's own state to say who may touch it next. */
  datatype Place = At(core: nat, kind: Kind) | Published | Freed | Unborn

  datatype Thread = Thread(status: Status, place: Place)

  // ---- cores ----

  datatype Call = Yield | Park | Exit

  /** Where a core's code outside interrupts stands. */
  datatype Pc =
    | Boot                             // before scheduler_start_per_core
    | User(nest: nat)                  // in a thread that has disabled preemption nest times
    | Calling(call: Call)              // preemption disabled, about to switch to the scheduler stack
    | Entered(call: Call)              // at the first assertion of the internal function
    | Switched(call: Call)             // status switched, still the current thread
    | Dropped(call: Call, t: nat)      // no longer the current thread
    | Callback                         // in the park callback, which has published the thread
    | Loop                             // at the top of the scheduling loop
    | Prepared                         // after core_prepare_park
    | Asleep                           // in core_park, the queue having been found empty
    | Popped(t: nat)                   // with a thread from the queue
    | Execute(t: nat)                  // entering scheduler_execute
    | Masked(t: nat)                   // interrupts off
    | Calm(t: nat)                     // want_reschedule cleared
    | Counted(t: nat)                  // preempt_count zeroed
    | Placed                           // current set, status not yet

  /** Where scheduler_wakeup_thread stands, after its preempt_disable. */
  datatype Wake = NoWake | Claim(t: nat) | Hand(t: nat) | Listed | Asked

  /** The timer interrupt handler, after its preempt_disable. */
  datatype Intr = NoIntr | Handler(wake: Wake)

  datatype Core = Core(pc: Pc, wake: Wake, intr: Intr, queue: seq<nat>, current: Option<nat>, count: int, want: bool,
                       parked: bool)

  datatype State = State(cores: seq<Core>, threads: seq<Thread>, top: nat, freeList: seq<nat>)

  // ---- steps ----

  datatype Action =
    | Start
    | Disable | Enable | Request(call: Call) | Reschedule | Create | BeginWake(t: nat)  // thread code
    | Switch | SwitchStatus | Drop | Requeue | Publish | Refuse | EndCallback | FreeThread
    | Prepare | Pop | Unpark | Awake
    | MaskIrq | ClearWant | ZeroCount | SetCurrent | Resume
    | WakeStatus | WakeQueue | WakeAsk | WakeEnable
    | Interrupt | Tick | IntrWake(t: nat) | IntrReturn

  /** scheduler_reschedule while preemption is disabled. */
  function Ask(k: Core): Core { k.(want := true, parked := false) }

  /** scheduler_preempt_enable: k' is the core with its caller left behind. */
  function PreemptEnable(k: Core, left: Core): Core {
    if k.count == 1 && k.want then left.(pc := Entered(Yield)) else left.(count := k.count - 1)
  }

  predicate IrqOn(k: Core) {
    k.intr.NoIntr? && !k.pc.Masked? && !k.pc.Calm? && !k.pc.Counted? && !k.pc.Placed?
  }

  /** The code outside interrupts, and outside a wakeup it calls, may go on. */
  predicate Ready(k: Core) { k.intr.NoIntr? && k.wake.NoWake? }

  /** The wakeup in progress. */
  function TheWake(k: Core): Wake { if k.intr.Handler? then k.intr.wake else k.wake }

  function SetWake(k: Core, w: Wake): Core {
    if k.intr.Handler? then k.(intr := Handler(w)) else k.(wake := w)
  }

  function NewStatus(call: Call): Status {
    match call case Yield => RUNNABLE case Park => WAITING case Exit => DEAD
  }

  /** Boot code, a callback or a thread may call scheduler_wakeup_thread. */
  predicate MayWake(pc: Pc) { pc.Boot? || pc.User? || pc.Callback? || (pc.Dropped? && pc.call == Park) }

  /** What the code at a point has at hand; a dummy where it has nothing. */
  function HeldBy(pc: Pc): nat {
    match pc
    case Dropped(_, t) => t
    case Popped(t) => t
    case Execute(t) => t
    case Masked(t) => t
    case Calm(t) => t
    case Counted(t) => t
    case _ => 0
  }

  function CallOf(pc: Pc): Call {
    match pc
    case Calling(call) => call
    case Entered(call) => call
    case Switched(call) => call
    case Dropped(call, _) => call
    case _ => Yield
  }

  function NestOf(pc: Pc): nat { if pc.User? then pc.nest else 0 }

  function WokenBy(w: Wake): nat {
    match w
    case Claim(t) => t
    case Hand(t) => t
    case _ => 0
  }

  function CurrentOf(k: Core): nat { if k.current.Some? then k.current.value else 0 }

  /** One waker per park, and only once the callback has published the thread. */
  predicate CanClaim(s: State, t: nat) { t < |s.threads| && s.threads[t].place.Published? }

  /** The action is the next one at this point of the core's code. */
  predicate AtPoint(k: Core, a: Action) {
    match a
    case Start => Ready(k) && k.pc.Boot?
    case Disable => Ready(k) && k.pc.User?
    case Enable => Ready(k) && k.pc.User? && k.pc.nest > 0
    case Request(_) => Ready(k) && k.pc == User(0)
    case Reschedule => Ready(k) && k.pc.User?
    case Create => Ready(k) && (k.pc.Boot? || k.pc.User?)
    case BeginWake(_) => Ready(k) && MayWake(k.pc)
    case Switch => Ready(k) && k.pc.Calling?
    case SwitchStatus => Ready(k) && k.pc.Entered?
    case Drop => Ready(k) && k.pc.Switched?
    case Requeue => Ready(k) && k.pc.Dropped? && k.pc.call == Yield
    case Publish => Ready(k) && k.pc.Dropped? && k.pc.call == Park
    case Refuse => Ready(k) && k.pc.Dropped? && k.pc.call == Park
    case EndCallback => Ready(k) && k.pc.Callback?
    case FreeThread => Ready(k) && k.pc.Dropped? && k.pc.call == Exit
    case Prepare => Ready(k) && k.pc.Loop?
    case Pop => Ready(k) && k.pc.Prepared?
    case Unpark => Ready(k) && k.pc.Popped?
    case Awake => Ready(k) && k.pc.Asleep? && !k.parked
    case MaskIrq => Ready(k) && k.pc.Execute?
    case ClearWant => Ready(k) && k.pc.Masked?
    case ZeroCount => Ready(k) && k.pc.Calm?
    case SetCurrent => Ready(k) && k.pc.Counted?
    case Resume => Ready(k) && k.pc.Placed?
    case WakeStatus => TheWake(k).Claim?
    case WakeQueue => TheWake(k).Hand?
    case WakeAsk => TheWake(k).Listed?
    case WakeEnable => TheWake(k).Asked?
    case Interrupt => IrqOn(k)
    case Tick => k.intr.Handler? && k.intr.wake.NoWake?
    case IntrWake(_) => k.intr.Handler? && k.intr.wake.NoWake?
    case IntrReturn => k.intr.Handler? && k.intr.wake.NoWake?
  }

  /** What the action needs beside its core: a thread left to create, a published thread to wake. */
  predicate Allowed(s: State, a: Action) {
    match a
    case Create => s.freeList == [] && s.top < |s.threads|
    case BeginWake(t) => CanClaim(s, t)
    case IntrWake(t) => CanClaim(s, t)
    case _ => true
  }

  predicate Enabled(s: State, c: nat, a: Action) { c < |s.cores| && AtPoint(s.cores[c], a) && Allowed(s, a) }

  /** What the source asserts at the action, and that a status switch finds the status it waits for. */
  predicate Asserts(s: State, k: Core, a: Action) {
    match a
    case Start => k.count == 1
    case Enable => (k.count == 1 && k.want) || k.count - 1 >= 0
    case Request(call) => k.count == 0 && HasStatus(s, k.current, RUNNING)
    case Reschedule => k.count == 0 ==> k.current.Some?
    case SwitchStatus => k.count == 1 && IrqOn(k) && HasStatus(s, k.current, RUNNING)
    case Drop => k.current.Some?
    case Refuse => HasStatus(s, Some(HeldBy(k.pc)), WAITING)
    case Resume => HasStatus(s, k.current, RUNNABLE)
    case WakeStatus => HasStatus(s, Some(WokenBy(TheWake(k))), WAITING)
    case WakeAsk => k.count != 0
    case WakeEnable => (k.count == 1 && k.want) || k.count - 1 >= 0
    case Tick => k.count != 0
    case IntrReturn => (k.count == 1 && k.want) || k.count - 1 >= 0
    case _ => true
  }

  predicate HasStatus(s: State, t: Option<nat>, status: Status) {
    t.Some? && t.value < |s.threads| && s.threads[t.value].status == status
  }

  function Next(k: Core, pc: Pc): Core { k.(pc := pc) }

  /** The core after the action. */
  function CoreAfter(k: Core, a: Action): Core {
    match a
    case Start => Next(k, Loop)
    case Disable => k.(count := k.count + 1, pc := User(NestOf(k.pc) + 1))
    case Enable => PreemptEnable(k, Next(k, User(if NestOf(k.pc) > 0 then NestOf(k.pc) - 1 else 0)))
    case Request(call) => k.(count := k.count + 1, pc := Calling(call))
    case Reschedule => if k.count != 0 then Ask(k) else k.(count := k.count + 1, pc := Calling(Yield))
    case Create => k
    case BeginWake(t) => k.(count := k.count + 1, wake := Claim(t))
    case Switch => Next(k, Entered(CallOf(k.pc)))
    case SwitchStatus => Next(k, Switched(CallOf(k.pc)))
    case Drop => k.(current := None, pc := Dropped(CallOf(k.pc), CurrentOf(k)))
    case Requeue => k.(queue := k.queue + [HeldBy(k.pc)], pc := Loop)
    case Publish => Next(k, Callback)
    case Refuse => Next(k, Execute(HeldBy(k.pc)))
    case EndCallback => Next(k, Loop)
    case FreeThread => Next(k, Loop)
    case Prepare => k.(parked := true, pc := Prepared)
    case Pop => if k.queue == [] then Next(k, Asleep) else k.(queue := k.queue[1..], pc := Popped(k.queue[0]))
    case Unpark => k.(parked := false, pc := Execute(HeldBy(k.pc)))
    case Awake => Next(k, Loop)
    case MaskIrq => Next(k, Masked(HeldBy(k.pc)))
    case ClearWant => k.(want := false, pc := Calm(HeldBy(k.pc)))
    case ZeroCount => k.(count := 0, pc := Counted(HeldBy(k.pc)))
    case SetCurrent => k.(current := Some(HeldBy(k.pc)), pc := Placed)
    case Resume => Next(k, User(0))
    case WakeStatus => SetWake(k, Hand(WokenBy(TheWake(k))))
    case WakeQueue => SetWake(k, Listed).(queue := [WokenBy(TheWake(k))] + k.queue)
    case WakeAsk => Ask(SetWake(k, Asked))
    case WakeEnable => PreemptEnable(k, SetWake(k, NoWake))
    case Interrupt => k.(count := k.count + 1, intr := Handler(NoWake))
    case Tick => Ask(k)
    case IntrWake(t) => k.(count := k.count + 1, intr := Handler(Claim(t)))
    case IntrReturn => PreemptEnable(k, k.(intr := NoIntr))
  }

  /** The thread of the core that an action concerns. */
  function Touched(k: Core, a: Action): Option<nat> {
    match a
    case BeginWake(t) => Some(t)
    case IntrWake(t) => Some(t)
    case SwitchStatus => Some(CurrentOf(k))
    case Drop => Some(CurrentOf(k))
    case Requeue => Some(HeldBy(k.pc))
    case Publish => Some(HeldBy(k.pc))
    case Refuse => Some(HeldBy(k.pc))
    case FreeThread => Some(HeldBy(k.pc))
    case Pop => if k.queue == [] then None else Some(k.queue[0])
    case SetCurrent => Some(HeldBy(k.pc))
    case Resume => Some(CurrentOf(k))
    case WakeStatus => Some(WokenBy(TheWake(k)))
    case WakeQueue => Some(WokenBy(TheWake(k)))
    case _ => None
  }

  /** What becomes of it on core c. */
  function Becomes(k: Core, c: nat, a: Action, was: Thread): Thread {
    match a
    case BeginWake(_) => Thread(was.status, At(c, Claimed))
    case IntrWake(_) => Thread(was.status, At(c, Claimed))
    case SwitchStatus => Thread(NewStatus(CallOf(k.pc)), At(c, OnCpu))
    case Drop => Thread(was.status, At(c, InHand))
    case Requeue => Thread(was.status, At(c, InQueue))
    case Publish => Thread(was.status, Published)
    case Refuse => Thread(RUNNABLE, At(c, InHand))
    case FreeThread => Thread(IDLE, Freed)
    case Pop => Thread(was.status, At(c, InHand))
    case SetCurrent => Thread(was.status, At(c, OnCpu))
    case Resume => Thread(RUNNING, At(c, OnCpu))
    case WakeStatus => Thread(RUNNABLE, At(c, Handed))
    case WakeQueue => Thread(was.status, At(c, InQueue))
    case _ => was
  }

  function Put(threads: seq<Thread>, t: nat, thread: Thread): (r: seq<Thread>)
    ensures |r| == |threads|
  {
    if t < |threads| then threads[t := thread] else threads
  }

  /** The threads after the action: at most one of them is another one. */
  function ThreadsAfter(s: State, k: Core, c: nat, a: Action): (r: seq<Thread>)
    ensures |r| == |s.threads|
  {
    if a.Create? then Put(s.threads, s.top, Thread(WAITING, Published))
    else
      match Touched(k, a)
      case None => s.threads
      case Some(t) => if t < |s.threads| then s.threads[t := Becomes(k, c, a, s.threads[t])] else s.threads
  }

  function Step(s: State, c: nat, a: Action): State
    requires c < |s.cores|
  {
    var k := s.cores[c];
    State(s.cores[c := CoreAfter(k, a)], ThreadsAfter(s, k, c, a),
          if a.Create? then s.top + 1 else s.top,
          if a.FreeThread? then [HeldBy(k.pc)] + s.freeList else s.freeList)
  }

  /** Every core after scheduler_init_per_core, which leaves the parked flag as it found it; no thread created. */
  predicate Init(s: State) {
    && s.top == 0 && s.freeList == [] && |s.threads| == MAX_THREADS
    && (forall t :: 0 <= t < |s.threads| ==> s.threads[t] == Thread(IDLE, Unborn))
    && (forall c :: 0 <= c < |s.cores| ==>
          s.cores[c] == Core(Boot, NoWake, NoIntr, [], None, 1, false, s.cores[c].parked))
  }
}
