/** The per-core timer queue of kernel/time/timer.c. */
module Timer {
  import opened Sequences
  import opened RbModel
  import opened RbCached
  import T = RbTree

  /** The comparator of the timer hardware. */
  datatype Comparator = Cleared | Armed(deadline: nat)

  /** What a timer holds besides its tree node; stamp counts the armings before its own. */
  datatype Info = Info(deadline: nat, stamp: nat, timers: RbRoot?)

  ghost function Infos(known: set<RbNode>): map<RbNode, Info>
    reads known
  {
    map n | n in known :: Info(n.deadline, n.stamp, n.timers)
  }

  ghost function Of(m: map<RbNode, Info>, n: RbNode): Info {
    if n in m then m[n] else Info(0, 0, null)
  }

  ghost function Earliest(q: seq<RbNode>, m: map<RbNode, Info>): Comparator {
    if q == [] then Cleared else Armed(Of(m, q[0]).deadline)
  }

  ghost predicate Precedes(a: Info, b: Info) {
    a.deadline < b.deadline || (a.deadline == b.deadline && a.stamp < b.stamp)
  }

  /** In deadline order, with ties in arming order. */
  ghost predicate Stable(q: seq<RbNode>, m: map<RbNode, Info>) {
    forall i, j :: 0 <= i < j < |q| ==> Precedes(Of(m, q[i]), Of(m, q[j]))
  }

  /** The queue holds exactly the timers whose timers field is set, and they were armed in the past. */
  ghost predicate Tracked(q: seq<RbNode>, m: map<RbNode, Info>, tree: RbRoot, now: nat) {
    && (forall n :: n in q ==> n in m && m[n].stamp < now)
    && (forall n :: n in m ==> m[n].timers == (if n in q then tree else null))
  }

  /** The queue, what the timers hold, and the number of armings so far. */
  datatype Abs = Abs(queue: seq<RbNode>, info: map<RbNode, Info>, now: nat)

  /** A queue in stable order that its timers know of, in which every arming has a stamp of its own. */
  ghost predicate Fit(a: Abs, tree: RbRoot) {
    var fit := Stable(a.queue, a.info) && Tracked(a.queue, a.info, tree, a.now) && Stamped(a.queue, a.info);
    fit
  }

  ghost predicate Stamped(q: seq<RbNode>, m: map<RbNode, Info>) {
    var stamped := forall n, n' :: n in q && n' in q && n != n' ==> Of(m, n).stamp != Of(m, n').stamp;
    stamped
  }

  /** A well-formed queue: a valid tree of known timers, in stable order, tracked by their timers fields. */
  ghost predicate Well(tree: RbRoot, known: set<RbNode>, now: nat)
    reads tree, known, Nodes(tree.shape)
  {
    var well := RbCached.Valid(tree) && Nodes(tree.shape) <= known && Fit(Abs(Order(tree), Infos(known), now), tree);
    well
  }

  class Core {
    const tree: RbRoot
    var comparator: Comparator
    ghost var known: set<RbNode>  // every timer that may be handed to this core
    ghost var now: nat            // how many times a timer has been armed

    constructor (ghost known: set<RbNode>)
      requires forall n :: n in known ==> n.timers == null
      ensures this.known == known && Valid() && Queue() == [] && ComparatorRight()
    {
      tree := new RbRoot();
      comparator, this.known, now := Cleared, known, 0;
      assert RedBlack(Leaf, 0);
    }

    ghost function Queue(): seq<RbNode>
      reads tree
    {
      Order(tree)
    }

    ghost function Data(): map<RbNode, Info>
      reads this, known
    {
      Infos(known)
    }

    ghost function View(): Abs
      reads this, tree, known
    {
      Abs(Queue(), Data(), now)
    }

    ghost predicate Valid()
      reads this, tree, known, Nodes(tree.shape)
    {
      Well(tree, known, now)
    }

    /** The comparator stands at the earliest deadline, or is cleared when nothing is queued. */
    ghost predicate ComparatorRight()
      reads this, tree, known
    {
      comparator == Earliest(Queue(), Data())
    }

    /** set_deadline and clear of the timer backend. */
    method Program(c: Comparator)
      requires Valid()
      modifies this`comparator
      ensures comparator == c && Valid() && Data() == old(Data())
    {
      comparator := c;
    }

    ghost method SetNow(n: nat)
      requires Well(tree, known, n)
      modifies this`now
      ensures now == n && Valid() && Data() == old(Data())
    {
      now := n;
    }

    /** timer_cancel. For a queued timer that is not first, rb_erase_cached answers null, and the comparator
        is cleared as if the queue were empty. */
    method Cancel(timer: RbNode)
      requires Valid() && timer in known
      modifies this`comparator, tree, known`left, known`right, known`parent, known`black, known`timers
      ensures Valid() && View() == Cancelled(old(View()), timer)
      ensures comparator == if old(timer.timers) == null then old(comparator)
                            else if old(tree.leftmost) == timer then Earliest(Queue(), Data()) else Cleared
      ensures old(ComparatorRight()) ==>
                (ComparatorRight() <==> old(timer.timers) == null || old(tree.leftmost) == timer)
    {
      var timers := timer.timers;
      ghost var q, m := Queue(), Data();
      if timers == null {
        CancelAbsent(View(), timer, tree);
        return;
      }
      var oldLeftmost := tree.leftmost;
      assert oldLeftmost == First(q);
      var newLeftmost, before, after := Detach(timer, tree, known, now);
      WithoutBetween(before, timer, after);
      FirstOfThree(before, timer, after);
      if oldLeftmost != newLeftmost {
        Program(if newLeftmost == null then Cleared else Armed(newLeftmost.deadline));
      }
    }

    /** timer_set. The comparator comes out right unless the timer was queued behind another one and is not
        the earliest now: the cancel inside has then cleared it, and nothing arms it again. */
    method Set(timer: RbNode, deadline: nat)
      requires Valid() && timer in known
      modifies this`comparator, this`now, tree, known
      ensures Valid() && View() == Perform(old(View()), SetAct(timer, deadline), tree)
      ensures old(ComparatorRight()) ==>
                (ComparatorRight() <==> || old(timer.timers) == null || old(tree.leftmost) == timer
                                        || DueAfter(Without(old(Queue()), timer), old(Data()), deadline))
    {
      ghost var a, queued, c0 := View(), timer.timers != null, comparator;
      assert tree.leftmost == First(a.queue);
      Cancel(timer);
      ghost var c1 := comparator;
      WithoutElems(a.queue, timer);
      Arm(timer, deadline);
      SetRight(a, timer, deadline, tree, queued, c0, c1);
    }

    /** timer_set after the cancel. */
    method Arm(timer: RbNode, deadline: nat)
      requires Valid() && timer in known && timer !in Queue()
      modifies this`comparator, this`now, tree, known
      ensures Valid() && View() == Inserted(old(View()), timer, deadline, tree)
      ensures comparator == if DueAfter(old(Queue()), old(Data()), deadline) then Armed(deadline) else old(comparator)
    {
      ghost var stamp := now;
      var r := Attach(timer, deadline, tree, known, stamp);
      SetNow(stamp + 1);
      if r != null {
        Program(Armed(deadline));
      }
    }

    /** What a callback does. */
    method Callback(acts: seq<Act>)
      requires Valid() && AllKnown(acts, known)
      modifies this`comparator, this`now, tree, known
      ensures Valid() && View() == PerformAll(old(View()), acts, tree)
    {
      for i := 0 to |acts|
        invariant Valid() && PerformAll(View(), acts[i..], tree) == PerformAll(old(View()), acts, tree)
      {
        assert acts[i..][0] == acts[i] && acts[i..][1..] == acts[i + 1..];
        match acts[i] {
          case SetAct(timer, deadline) => Set(timer, deadline);
          case CancelAct(timer) => Cancel(timer);
        }
      }
    }

    /** The body of a round of timer_dispatch: the first timer leaves the queue, and its callback runs. */
    method Round(timer: RbNode, acts: seq<Act>)
      requires Valid() && tree.leftmost == timer && AllKnown(acts, known)
      modifies this`comparator, this`now, tree, known
      ensures Valid() && old(Queue()) != [] && View() == RoundOf(old(View()), acts, tree)
    {
      Pop(timer, tree, known, now);
      Callback(acts);
    }

    /** timer_dispatch, with one clock reading per round and callbacks that set and cancel timers in any order; it has
        not finished when the readings have run out. */
    method Dispatch(clock: seq<nat>, script: seq<seq<Act>>)
      returns (fired: seq<RbNode>, finished: bool, ghost calls: seq<Call>)
      requires Valid() && ScriptKnown(script, known)
      modifies this`comparator, this`now, tree, known
      ensures Valid() && Rounds(old(View()), clock, script, [], tree) == Outcome(View(), calls, finished)
      ensures Timers(calls) == fired && (finished ==> ComparatorRight())
    {
      fired, finished, calls := Drain(clock, script);
      if finished {
        var next := tree.leftmost;
        LeftmostKnown(tree, known, now);
        Program(if next == null then Cleared else Armed(next.deadline));
      }
    }

    /** The loop of timer_dispatch; it breaks at the first timer of the queue. */
    method Drain(clock: seq<nat>, script: seq<seq<Act>>)
      returns (fired: seq<RbNode>, finished: bool, ghost calls: seq<Call>)
      requires Valid() && ScriptKnown(script, known)
      modifies this`comparator, this`now, tree, known
      ensures Valid() && Rounds(old(View()), clock, script, [], tree) == Outcome(View(), calls, finished)
      ensures Timers(calls) == fired
    {
      fired, calls := [], [];
      while true
        invariant Valid() && Onward(old(View()), View(), clock, script, fired, calls, tree)
        decreases |clock| - |fired|
      {
        var next := tree.leftmost;
        LeftmostKnown(tree, known, now);
        if next == null {
          return fired, true, calls;
        }
        if |fired| >= |clock| {
          return fired, false, calls;
        }
        if clock[|fired|] < next.deadline {
          return fired, true, calls;
        }
        OnwardStep(old(View()), View(), clock, script, fired, calls, tree);
        calls := calls + [CallOf(View())];
        Round(next, ActsAt(script, |fired|));
        fired := fired + [next];
      }
    }
  }

  // ---- the queue as a value ----

  /** What a callback may do to the queue. */
  datatype Act = SetAct(timer: RbNode, deadline: nat) | CancelAct(timer: RbNode)

  ghost predicate AllKnown(acts: seq<Act>, known: set<RbNode>) { forall i :: 0 <= i < |acts| ==> acts[i].timer in known }

  ghost predicate ScriptKnown(script: seq<seq<Act>>, known: set<RbNode>) {
    forall i :: 0 <= i < |script| ==> AllKnown(script[i], known)
  }

  /** x goes behind every timer that is due no later. */
  ghost function Insert(q: seq<RbNode>, m: map<RbNode, Info>, x: RbNode, d: nat): seq<RbNode> {
    if q == [] || d < Of(m, q[0]).deadline then [x] + q else [q[0]] + Insert(q[1..], m, x, d)
  }

  ghost function Cancelled(a: Abs, timer: RbNode): Abs {
    Abs(Without(a.queue, timer), a.info[timer := Of(a.info, timer).(timers := null)], a.now)
  }

  ghost function Inserted(a: Abs, timer: RbNode, deadline: nat, tree: RbRoot): Abs {
    var info := a.info[timer := Info(deadline, a.now, tree)];
    Abs(Insert(a.queue, info, timer, deadline), info, a.now + 1)
  }

  ghost function Perform(a: Abs, act: Act, tree: RbRoot): Abs {
    match act
    case SetAct(timer, deadline) => Inserted(Cancelled(a, timer), timer, deadline, tree)
    case CancelAct(timer) => Cancelled(a, timer)
  }

  ghost function PerformAll(a: Abs, acts: seq<Act>, tree: RbRoot): Abs
    decreases |acts|
  {
    if acts == [] then a else PerformAll(Perform(a, acts[0], tree), acts[1..], tree)
  }

  ghost function RoundOf(a: Abs, acts: seq<Act>, tree: RbRoot): Abs
    requires a.queue != []
  {
    PerformAll(Cancelled(a, a.queue[0]), acts, tree)
  }

  /** A timer as it was when its callback was called. */
  datatype Call = Call(timer: RbNode, deadline: nat, stamp: nat)

  ghost function CallOf(a: Abs): Call
    requires a.queue != []
  {
    Call(a.queue[0], Of(a.info, a.queue[0]).deadline, Of(a.info, a.queue[0]).stamp)
  }

  /** What the callback of the k-th round does. */
  function ActsAt(script: seq<seq<Act>>, k: nat): seq<Act> { if k < |script| then script[k] else [] }

  datatype Outcome = Outcome(after: Abs, calls: seq<Call>, finished: bool)

  /** The rounds of a dispatch that has called the given timers already. */
  ghost function Rounds(a: Abs, clock: seq<nat>, script: seq<seq<Act>>, calls: seq<Call>, tree: RbRoot): Outcome
    decreases |clock| - |calls|
  {
    if a.queue == [] then Outcome(a, calls, true)
    else if |calls| >= |clock| then Outcome(a, calls, false)
    else if clock[|calls|] < Of(a.info, a.queue[0]).deadline then Outcome(a, calls, true)
    else Rounds(RoundOf(a, ActsAt(script, |calls|), tree), clock, script, calls + [CallOf(a)], tree)
  }

  ghost function Timers(calls: seq<Call>): (r: seq<RbNode>)
    ensures |r| == |calls|
  {
    seq(|calls|, i requires 0 <= i < |calls| => calls[i].timer)
  }

  /** From a0 a dispatch has come to a, with the given calls behind it. */
  ghost predicate Onward(a0: Abs, a: Abs, clock: seq<nat>, script: seq<seq<Act>>, fired: seq<RbNode>, calls: seq<Call>,
                         tree: RbRoot)
  {
    var onward := Timers(calls) == fired && Rounds(a, clock, script, calls, tree) == Rounds(a0, clock, script, [], tree);
    onward
  }

  lemma OnwardStep(a0: Abs, a: Abs, clock: seq<nat>, script: seq<seq<Act>>, fired: seq<RbNode>, calls: seq<Call>,
                   tree: RbRoot)
    requires Onward(a0, a, clock, script, fired, calls, tree)
    requires a.queue != [] && |calls| < |clock| && Of(a.info, a.queue[0]).deadline <= clock[|calls|]
    ensures var a' := RoundOf(a, ActsAt(script, |fired|), tree);
            Onward(a0, a', clock, script, fired + [a.queue[0]], calls + [CallOf(a)], tree)
  {
  }

  lemma LeftmostKnown(tree: RbRoot, known: set<RbNode>, now: nat)
    requires Well(tree, known, now)
    ensures tree.leftmost == First(Order(tree))
    ensures tree.leftmost != null ==>
              tree.leftmost in known && Of(Infos(known), tree.leftmost).deadline == tree.leftmost.deadline
  {
    if tree.leftmost != null {
      FirstLinked(tree);
    }
  }

  /** The removal in a round of timer_dispatch. */
  method Pop(timer: RbNode, tree: RbRoot, ghost known: set<RbNode>, ghost now: nat)
    requires Well(tree, known, now) && tree.leftmost == timer
    modifies tree, known`left, known`right, known`parent, known`black, known`timers
    ensures Well(tree, known, now) && old(Order(tree)) != [] && old(Order(tree))[0] == timer
    ensures Abs(Order(tree), Infos(known), now) == Cancelled(old(Abs(Order(tree), Infos(known), now)), timer)
  {
    FirstLinked(tree);
    ghost var m := Infos(known);
    var _, before, after := EraseTimer(timer, tree, known);
    SetTimers(timer, null, tree, known);
    CancelledOk(before, timer, after, m, tree, now);
    WithoutBetween(before, timer, after);
  }

  /** timer_set after the cancel, up to the comparator. */
  method Attach(timer: RbNode, deadline: nat, tree: RbRoot, ghost known: set<RbNode>, ghost now: nat)
    returns (r: RbNode?)
    requires Well(tree, known, now) && timer in known && timer !in Order(tree)
    modifies tree, known
    ensures Well(tree, known, now + 1)
    ensures Abs(Order(tree), Infos(known), now + 1) ==
            Inserted(old(Abs(Order(tree), Infos(known), now)), timer, deadline, tree)
    ensures r == if DueAfter(old(Order(tree)), old(Infos(known)), deadline) then timer else null
  {
    ghost var m, q := Infos(known), Order(tree);
    InOrderNodes(tree.shape);
    assert timer !in Elems(q);
    ArmFields(timer, deadline, now, tree, known);
    StableFrame(q, m, timer, Info(deadline, now, tree));
    ghost var before, after;
    r, before, after := AddTimer(timer, tree, known);
    AddedOk(before, timer, after, m, Info(deadline, now, tree), tree, now);
    InsertBetween(before, after, Infos(known), timer, deadline);
    NoneBefore(before, after, m, timer, Info(deadline, now, tree));
  }

  /** Cancelling a timer that is not queued changes nothing. */
  lemma CancelAbsent(a: Abs, timer: RbNode, tree: RbRoot)
    requires Tracked(a.queue, a.info, tree, a.now) && timer in a.info && a.info[timer].timers == null
    ensures Cancelled(a, timer) == a
  {
    WithoutAbsent(a.queue, timer);
    assert a.info[timer := Of(a.info, timer).(timers := null)] == a.info;
  }

  lemma FirstOfThree(before: seq<RbNode>, timer: RbNode, after: seq<RbNode>)
    requires timer !in before + after
    ensures First(before + [timer] + after) == timer <==> before == []
    ensures before == [] ==> before + after == after
    ensures before != [] ==> First(before + [timer] + after) != null && before + after != []
  {
    assert before != [] ==> (before + [timer] + after)[0] == before[0] && before[0] in before + after;
  }

  /** The body of timer_cancel up to the comparator. */
  method Detach(timer: RbNode, tree: RbRoot, ghost known: set<RbNode>, ghost now: nat)
    returns (leftmost: RbNode?, ghost before: seq<RbNode>, ghost after: seq<RbNode>)
    requires Well(tree, known, now) && timer in known && timer.timers != null
    modifies tree, known`left, known`right, known`parent, known`black, known`timers
    ensures Well(tree, known, now)
    ensures Infos(known) == old(Infos(known))[timer := old(Infos(known))[timer].(timers := null)]
    ensures old(Order(tree)) == before + [timer] + after && Order(tree) == before + after && timer !in Order(tree)
    ensures leftmost == if before == [] then First(after) else null
    ensures leftmost != null ==> leftmost in known
  {
    ghost var m := Infos(known);
    QueuedLinked(Order(tree), m, timer, tree, now);
    SetTimers(timer, null, tree, known);
    leftmost, before, after := EraseTimer(timer, tree, known);
    CancelledOk(before, timer, after, m, tree, now);
    FirstKnown(before, after, Infos(known), tree, now);
  }

  lemma QueuedLinked(q: seq<RbNode>, m: map<RbNode, Info>, timer: RbNode, tree: RbRoot, now: nat)
    requires Tracked(q, m, tree, now) && q == Order(tree) && timer in m && m[timer].timers != null
    ensures timer in Nodes(tree.shape) && q != []
  {
    InOrderNodes(tree.shape);
    assert timer in Elems(q);
  }

  lemma CancelledOk(before: seq<RbNode>, timer: RbNode, after: seq<RbNode>, m: map<RbNode, Info>, tree: RbRoot, now: nat)
    requires Fit(Abs(before + [timer] + after, m, now), tree)
    ensures var m' := m[timer := m[timer].(timers := null)];
            timer !in before + after && Fit(Abs(before + after, m', now), tree)
  {
    var q := before + [timer] + after;
    assert q[|before|] == timer;
    StableApart(before, timer, after, m);
    StableRemoved(before, timer, after, m);
    StableFrame(before + after, m, timer, m[timer].(timers := null));
    assert forall n :: n in q && n != timer ==> n in before + after;
  }

  lemma FirstKnown(before: seq<RbNode>, after: seq<RbNode>, m: map<RbNode, Info>, tree: RbRoot, now: nat)
    requires Tracked(before + after, m, tree, now)
    ensures before == [] && after != [] ==> after[0] in m
  {
    assert before == [] && after != [] ==> after[0] in before + after;
  }

  lemma AddedOk(before: seq<RbNode>, timer: RbNode, after: seq<RbNode>, m: map<RbNode, Info>, info: Info, tree: RbRoot,
                now: nat)
    requires Fit(Abs(before + after, m, now), tree) && timer !in before + after
    requires info.stamp == now && info.timers == tree
    requires DueBy(before, m[timer := info], info.deadline) && DueAfter(after, m[timer := info], info.deadline)
    ensures Fit(Abs(before + [timer] + after, m[timer := info], now + 1), tree)
  {
    StableFrame(before + after, m, timer, info);
    StableAdded(before, timer, after, m[timer := info], tree, now);
    forall n ensures n in before + [timer] + after <==> n == timer || n in before + after {
      assert n in before + [timer] + after <==> n in before || n == timer || n in after;
      assert n in before + after <==> n in before || n in after;
    }
  }

  lemma FirstLinked(tree: RbRoot)
    requires RbCached.Valid(tree) && tree.leftmost != null
    ensures tree.leftmost in Nodes(tree.shape) && Order(tree) != [] && Order(tree)[0] == tree.leftmost
  {
    InOrderNodes(tree.shape);
    assert tree.leftmost in Elems(Order(tree));
  }

  lemma {:induction false} InsertBetween(before: seq<RbNode>, after: seq<RbNode>, m: map<RbNode, Info>, x: RbNode, d: nat)
    requires DueBy(before, m, d) && DueAfter(after, m, d)
    ensures Insert(before + after, m, x, d) == before + [x] + after
  {
    var q := before + after;
    if before == [] {
      assert q == after && (after != [] ==> after[0] in after);
    } else {
      assert before[0] in before && q[0] == before[0] && q[1..] == before[1..] + after;
      InsertBetween(before[1..], after, m, x, d);
      assert before + [x] + after == [before[0]] + (before[1..] + [x] + after);
    }
  }

  /** The new timer is first exactly when it is due before all others. */
  lemma NoneBefore(before: seq<RbNode>, after: seq<RbNode>, m: map<RbNode, Info>, x: RbNode, info: Info)
    requires x !in before + after
    requires DueBy(before, m[x := info], info.deadline) && DueAfter(after, m[x := info], info.deadline)
    ensures before == [] <==> DueAfter(before + after, m, info.deadline)
  {
    assert before != [] ==> before[0] in before && before[0] in before + after;
    assert forall n :: n in after ==> n in before + after;
    assert before == [] ==> before + after == after;
  }

  /** The comparator after timer_set, c1 being what its cancel has left there. */
  lemma SetRight(a: Abs, timer: RbNode, deadline: nat, tree: RbRoot, queued: bool, c0: Comparator, c1: Comparator)
    requires Stable(a.queue, a.info) && timer in a.info && (queued <==> timer in a.queue)
    requires var b := Cancelled(a, timer);
             c1 == if !queued then c0 else if First(a.queue) == timer then Earliest(b.queue, b.info) else Cleared
    ensures var b := Cancelled(a, timer); var a' := Inserted(b, timer, deadline, tree);
            && (DueAfter(b.queue, b.info, deadline) <==> DueAfter(b.queue, a.info, deadline))
            && (c0 == Earliest(a.queue, a.info) ==>
                  ((if DueAfter(b.queue, b.info, deadline) then Armed(deadline) else c1) == Earliest(a'.queue, a'.info)
                   <==> !queued || First(a.queue) == timer || DueAfter(b.queue, a.info, deadline)))
  {
    var b := Cancelled(a, timer);
    WithoutElems(a.queue, timer);
    assert !queued ==> b.queue == a.queue by {
      if !queued {
        WithoutAbsent(a.queue, timer);
      }
    }
    WithoutStable(a.queue, a.info, timer);
    EarliestInserted(b.queue, a.info, b.info, timer, Info(deadline, a.now, tree));
  }

  lemma EarliestInserted(q: seq<RbNode>, m: map<RbNode, Info>, m1: map<RbNode, Info>, x: RbNode, info: Info)
    requires Stable(q, m) && x !in q && forall n :: n in q ==> Of(m1, n) == Of(m, n)
    ensures DueAfter(q, m1, info.deadline) <==> DueAfter(q, m, info.deadline)
    ensures Earliest(Insert(q, m1[x := info], x, info.deadline), m1[x := info])
            == if DueAfter(q, m, info.deadline) then Armed(info.deadline) else Earliest(q, m)
    ensures Earliest(q, m1) == Earliest(q, m)
  {
    if q != [] {
      assert q[0] in q;
      FirstIsEarliest(q, m, info.deadline);
    }
  }

  lemma FirstIsEarliest(q: seq<RbNode>, m: map<RbNode, Info>, d: nat)
    requires Stable(q, m) && q != []
    ensures DueAfter(q, m, d) <==> d < Of(m, q[0]).deadline
  {
    forall n | n in q ensures Of(m, q[0]).deadline <= Of(m, n).deadline {
      var i :| 0 <= i < |q| && q[i] == n;
      assert i > 0 ==> Precedes(Of(m, q[0]), Of(m, q[i]));
    }
  }

  lemma WithoutStable(q: seq<RbNode>, m: map<RbNode, Info>, x: RbNode)
    requires Stable(q, m)
    ensures Stable(Without(q, x), m)
  {
    if x in q {
      var i :| 0 <= i < |q| && q[i] == x;
      var before, after := q[..i], q[i + 1..];
      assert q == before + [x] + after;
      StableApart(before, x, after, m);
      WithoutBetween(before, x, after);
      StableRemoved(before, x, after, m);
    } else {
      WithoutAbsent(q, x);
    }
  }

  lemma StableApart(before: seq<RbNode>, x: RbNode, after: seq<RbNode>, m: map<RbNode, Info>)
    requires Stable(before + [x] + after, m)
    ensures x !in before && x !in after
  {
    var q := before + [x] + after;
    assert q[|before|] == x;
    forall n | n in before ensures n != x {
      var i :| 0 <= i < |before| && before[i] == n;
      assert q[i] == n && Precedes(Of(m, q[i]), Of(m, q[|before|]));
    }
    forall n | n in after ensures n != x {
      var i :| 0 <= i < |after| && after[i] == n;
      assert q[|before| + 1 + i] == n && Precedes(Of(m, q[|before|]), Of(m, q[|before| + 1 + i]));
    }
  }

  /** Everything in q is due no later than d. */
  ghost predicate DueBy(q: seq<RbNode>, m: map<RbNode, Info>, d: nat) {
    forall n :: n in q ==> Of(m, n).deadline <= d
  }

  /** Everything in q is due later than d. */
  ghost predicate DueAfter(q: seq<RbNode>, m: map<RbNode, Info>, d: nat) {
    forall n :: n in q ==> d < Of(m, n).deadline
  }

  // ---- every dispatch, whatever the callbacks do ----

  lemma CancelFit(a: Abs, timer: RbNode, tree: RbRoot)
    requires Fit(a, tree) && timer in a.info
    ensures Fit(Cancelled(a, timer), tree) && timer !in Cancelled(a, timer).queue
  {
    WithoutElems(a.queue, timer);
    if timer in a.queue {
      var i :| 0 <= i < |a.queue| && a.queue[i] == timer;
      var before, after := a.queue[..i], a.queue[i + 1..];
      assert a.queue == before + [timer] + after;
      CancelledOk(before, timer, after, a.info, tree, a.now);
      WithoutBetween(before, timer, after);
    } else {
      CancelAbsent(a, timer, tree);
    }
  }

  /** In a stable queue there is one place behind what is due no later and in front of what is due later. */
  lemma {:induction false} Place(q: seq<RbNode>, m: map<RbNode, Info>, d: nat)
    returns (before: seq<RbNode>, after: seq<RbNode>)
    requires Stable(q, m)
    ensures q == before + after && DueBy(before, m, d) && DueAfter(after, m, d)
  {
    if q == [] {
      return [], [];
    }
    FirstIsEarliest(q, m, d);
    if d < Of(m, q[0]).deadline {
      return [], q;
    }
    before, after := Place(q[1..], m, d);
    before := [q[0]] + before;
  }

  lemma InsertFit(a: Abs, timer: RbNode, deadline: nat, tree: RbRoot)
    requires Fit(a, tree) && timer in a.info && timer !in a.queue
    ensures Fit(Inserted(a, timer, deadline, tree), tree)
    ensures forall n :: n in Inserted(a, timer, deadline, tree).queue <==> n == timer || n in a.queue
  {
    var info := Info(deadline, a.now, tree);
    StableFrame(a.queue, a.info, timer, info);
    var before, after := Place(a.queue, a.info[timer := info], deadline);
    AddedOk(before, timer, after, a.info, info, tree, a.now);
    InsertBetween(before, after, a.info[timer := info], timer, deadline);
    assert forall n :: n in before + [timer] + after <==> n == timer || n in before + after;
  }

  /** Every act keeps the queue fit; it touches its own timer only, and stamps that have gone stay gone. */
  lemma PerformFit(a: Abs, act: Act, tree: RbRoot)
    requires Fit(a, tree) && act.timer in a.info
    ensures var a' := Perform(a, act, tree);
            && Fit(a', tree) && a'.info.Keys == a.info.Keys && a.now <= a'.now
            && (forall n :: n != act.timer ==> (n in a'.queue <==> n in a.queue) && Of(a'.info, n) == Of(a.info, n))
            && (act.timer in a'.queue ==> Of(a'.info, act.timer).stamp == a.now < a'.now)
  {
    var b := Cancelled(a, act.timer);
    CancelFit(a, act.timer, tree);
    WithoutElems(a.queue, act.timer);
    if act.SetAct? {
      InsertFit(b, act.timer, act.deadline, tree);
    }
  }

  /** The stamp has been given out, and no queued timer has it. */
  ghost predicate Gone(stamp: nat, a: Abs) {
    stamp < a.now && forall n :: n in a.queue ==> Of(a.info, n).stamp != stamp
  }

  lemma {:induction false} PerformAllFit(a: Abs, acts: seq<Act>, tree: RbRoot)
    requires Fit(a, tree) && AllKnown(acts, a.info.Keys)
    ensures var a' := PerformAll(a, acts, tree);
            Fit(a', tree) && a'.info.Keys == a.info.Keys && forall s: nat :: Gone(s, a) ==> Gone(s, a')
    decreases |acts|
  {
    if acts != [] {
      var a1 := Perform(a, acts[0], tree);
      PerformFit(a, acts[0], tree);
      assert forall s: nat :: Gone(s, a) ==> Gone(s, a1);
      PerformAllFit(a1, acts[1..], tree);
    }
  }

  lemma RoundFit(a: Abs, acts: seq<Act>, tree: RbRoot)
    requires Fit(a, tree) && a.queue != [] && AllKnown(acts, a.info.Keys)
    ensures var a' := RoundOf(a, acts, tree);
            && Fit(a', tree) && a'.info.Keys == a.info.Keys && Gone(CallOf(a).stamp, a')
            && forall s: nat :: Gone(s, a) ==> Gone(s, a')
  {
    var first := a.queue[0];
    assert first in a.queue;
    var b := Cancelled(a, first);
    CancelFit(a, first, tree);
    WithoutElems(a.queue, first);
    assert Gone(CallOf(a).stamp, b) && forall s: nat :: Gone(s, a) ==> Gone(s, b);
    PerformAllFit(b, acts, tree);
  }

  /** The calls so far: each was due at its reading, and each belongs to another arming, which is over. */
  ghost predicate CallsRight(calls: seq<Call>, clock: seq<nat>, a: Abs) {
    && |calls| <= |clock|
    && (forall i :: 0 <= i < |calls| ==> calls[i].deadline <= clock[i] && Gone(calls[i].stamp, a))
    && (forall i, j :: 0 <= i < j < |calls| ==> calls[i].stamp != calls[j].stamp)
  }

  /** Whatever the callbacks set and cancel: no timer is called before it is due, no arming is called for twice, and
      when the dispatch ends nothing that was due at the last reading is left in the queue. */
  lemma {:induction false} RoundsRight(a: Abs, clock: seq<nat>, script: seq<seq<Act>>, calls: seq<Call>, tree: RbRoot)
    requires Fit(a, tree) && ScriptKnown(script, a.info.Keys) && CallsRight(calls, clock, a)
    ensures var r := Rounds(a, clock, script, calls, tree);
            && Fit(r.after, tree) && CallsRight(r.calls, clock, r.after)
            && (r.finished && r.after.queue != [] ==>
                  |r.calls| < |clock| && DueAfter(r.after.queue, r.after.info, clock[|r.calls|]))
    decreases |clock| - |calls|
  {
    if a.queue != [] && |calls| < |clock| {
      if clock[|calls|] < Of(a.info, a.queue[0]).deadline {
        FirstIsEarliest(a.queue, a.info, clock[|calls|]);
      } else {
        var acts := ActsAt(script, |calls|);
        RoundFit(a, acts, tree);
        CallsMore(a, RoundOf(a, acts, tree), calls, clock);
        RoundsRight(RoundOf(a, acts, tree), clock, script, calls + [CallOf(a)], tree);
      }
    }
  }

  lemma CallsMore(a: Abs, a': Abs, calls: seq<Call>, clock: seq<nat>)
    requires CallsRight(calls, clock, a) && a.queue != [] && |calls| < |clock| && CallOf(a).deadline <= clock[|calls|]
    requires Gone(CallOf(a).stamp, a') && forall s: nat :: Gone(s, a) ==> Gone(s, a')
    ensures CallsRight(calls + [CallOf(a)], clock, a')
  {
    assert a.queue[0] in a.queue;
  }

  /** The timer appears in no act. */
  ghost predicate Untouched(timer: RbNode, script: seq<seq<Act>>) {
    forall k :: 0 <= k < |script| ==> NotIn(timer, script[k])
  }

  ghost predicate NotIn(timer: RbNode, acts: seq<Act>) { forall i :: 0 <= i < |acts| ==> acts[i].timer != timer }

  lemma {:induction false} UntouchedStays(a: Abs, acts: seq<Act>, tree: RbRoot, timer: RbNode)
    requires Fit(a, tree) && AllKnown(acts, a.info.Keys) && NotIn(timer, acts)
    ensures var a' := PerformAll(a, acts, tree);
            (timer in a'.queue <==> timer in a.queue) && Of(a'.info, timer) == Of(a.info, timer)
    decreases |acts|
  {
    if acts != [] {
      PerformFit(a, acts[0], tree);
      UntouchedStays(Perform(a, acts[0], tree), acts[1..], tree, timer);
    }
  }

  /** A queued timer that no callback sets or cancels is called if it is due at every reading; so a dispatch that ends
      has called all the timers that were due when it began, except for those that a callback took in hand. */
  lemma {:induction false} DueIsCalled(a: Abs, clock: seq<nat>, script: seq<seq<Act>>, calls: seq<Call>, tree: RbRoot,
                                       timer: RbNode, d: nat, s: nat)
    requires Fit(a, tree) && ScriptKnown(script, a.info.Keys) && Untouched(timer, script)
    requires forall i :: 0 <= i < |clock| ==> d <= clock[i]
    requires || Call(timer, d, s) in calls
             || (timer in a.queue && Of(a.info, timer).deadline == d && Of(a.info, timer).stamp == s)
    ensures var r := Rounds(a, clock, script, calls, tree);
            r.finished ==> Call(timer, d, s) in r.calls
    decreases |clock| - |calls|
  {
    if a.queue != [] && |calls| < |clock| {
      FirstIsEarliest(a.queue, a.info, clock[|calls|]);
      if Of(a.info, a.queue[0]).deadline <= clock[|calls|] {
        var acts := ActsAt(script, |calls|);
        RoundFit(a, acts, tree);
        CalledOrQueued(a, acts, tree, timer);
        DueIsCalled(RoundOf(a, acts, tree), clock, script, calls + [CallOf(a)], tree, timer, d, s);
      }
    }
  }

  lemma CalledOrQueued(a: Abs, acts: seq<Act>, tree: RbRoot, timer: RbNode)
    requires Fit(a, tree) && a.queue != [] && AllKnown(acts, a.info.Keys) && NotIn(timer, acts)
    ensures var a' := RoundOf(a, acts, tree);
            timer in a.queue ==> || timer == a.queue[0]
                                 || (timer in a'.queue && Of(a'.info, timer) == Of(a.info, timer))
  {
    var first := a.queue[0];
    assert first in a.queue;
    CancelFit(a, first, tree);
    WithoutElems(a.queue, first);
    UntouchedStays(Cancelled(a, first), acts, tree, timer);
  }

  /** The timer is queued for the deadline. */
  ghost predicate QueuedFor(a: Abs, timer: RbNode, d: nat) { timer in a.queue && Of(a.info, timer).deadline == d }

  /** No act of callbacks from the k-th on concerns the timer. */
  ghost predicate UntouchedFrom(timer: RbNode, script: seq<seq<Act>>, k: int) {
    forall h :: k <= h < |script| && 0 <= h ==> NotIn(timer, script[h])
  }

  /** A timer that is due later than all readings is still queued when the rounds end. */
  lemma {:induction false} LateStays(a: Abs, clock: seq<nat>, script: seq<seq<Act>>, calls: seq<Call>, tree: RbRoot,
                                     timer: RbNode, d: nat)
    requires Fit(a, tree) && ScriptKnown(script, a.info.Keys) && UntouchedFrom(timer, script, |calls|)
    requires QueuedFor(a, timer, d) && forall i :: 0 <= i < |clock| ==> clock[i] < d
    ensures QueuedFor(Rounds(a, clock, script, calls, tree).after, timer, d)
    decreases |clock| - |calls|
  {
    if |calls| < |clock| && Of(a.info, a.queue[0]).deadline <= clock[|calls|] {
      var acts := ActsAt(script, |calls|);
      RoundFit(a, acts, tree);
      CalledOrQueued(a, acts, tree, timer);
      LateStays(RoundOf(a, acts, tree), clock, script, calls + [CallOf(a)], tree, timer, d);
    }
  }

  lemma {:induction false} SetQueues(a: Abs, acts: seq<Act>, tree: RbRoot, i: nat, timer: RbNode, d: nat)
    requires Fit(a, tree) && AllKnown(acts, a.info.Keys) && i < |acts| && acts[i] == SetAct(timer, d)
    requires forall h :: i < h < |acts| ==> acts[h].timer != timer
    ensures QueuedFor(PerformAll(a, acts, tree), timer, d)
    decreases |acts|
  {
    var a1 := Perform(a, acts[0], tree);
    PerformFit(a, acts[0], tree);
    if i > 0 {
      SetQueues(a1, acts[1..], tree, i - 1, timer, d);
    } else {
      SetQueued(a, timer, d, tree);
      UntouchedStays(a1, acts[1..], tree, timer);
    }
  }

  lemma SetQueued(a: Abs, timer: RbNode, d: nat, tree: RbRoot)
    requires Fit(a, tree) && timer in a.info
    ensures QueuedFor(Perform(a, SetAct(timer, d), tree), timer, d)
  {
    CancelFit(a, timer, tree);
    InsertFit(Cancelled(a, timer), timer, d, tree);
  }

  /** A timer that the callback of the k-th round arms past the last reading, and that no later act concerns, is queued
      when the dispatch ends. */
  lemma {:induction false} ArmedIsQueued(a: Abs, clock: seq<nat>, script: seq<seq<Act>>, calls: seq<Call>, tree: RbRoot,
                                         k: nat, i: nat, timer: RbNode, d: nat)
    requires Fit(a, tree) && ScriptKnown(script, a.info.Keys) && |calls| <= k < |script| && i < |script[k]|
    requires script[k][i] == SetAct(timer, d) && forall h :: i < h < |script[k]| ==> script[k][h].timer != timer
    requires UntouchedFrom(timer, script, k + 1) && forall h :: 0 <= h < |clock| ==> clock[h] < d
    requires |Rounds(a, clock, script, calls, tree).calls| > k
    ensures QueuedFor(Rounds(a, clock, script, calls, tree).after, timer, d)
    decreases |clock| - |calls|
  {
    var acts := ActsAt(script, |calls|);
    RoundFit(a, acts, tree);
    var a' := RoundOf(a, acts, tree);
    if |calls| < k {
      ArmedIsQueued(a', clock, script, calls + [CallOf(a)], tree, k, i, timer, d);
    } else {
      CancelFit(a, a.queue[0], tree);
      SetQueues(Cancelled(a, a.queue[0]), acts, tree, i, timer, d);
      LateStays(a', clock, script, calls + [CallOf(a)], tree, timer, d);
    }
  }

  // ---- a dispatch whose callbacks leave the queue alone ----

  /** What the data look like once the given timers have been taken out. */
  ghost function Released(m: map<RbNode, Info>, fired: seq<RbNode>): map<RbNode, Info> {
    map n | n in m :: if n in fired then m[n].(timers := null) else m[n]
  }

  ghost predicate DueAt(q: seq<RbNode>, m: map<RbNode, Info>, clock: seq<nat>, k: nat)
    requires k <= |q| <= |clock|
  {
    forall i :: 0 <= i < k ==> Of(m, q[i]).deadline <= clock[i]
  }

  /** The first k timers of q were due when the clock was read for them, the next one was not. */
  ghost predicate Punctual(q: seq<RbNode>, m: map<RbNode, Info>, clock: seq<nat>, k: nat) {
    && k <= |q| <= |clock|
    && DueAt(q, m, clock, k)
    && (k < |q| ==> clock[k] < Of(m, q[k]).deadline)
  }

  lemma ReleasedNone(m: map<RbNode, Info>)
    ensures Released(m, []) == m
  {
  }

  /** A dispatch that has gone on from a, reading the given clock, has called the first k timers and no callback more.
      */
  ghost predicate Prefix(a: Abs, clock: seq<nat>, calls: seq<Call>, k: nat, r: Outcome) {
    var prefix := && Punctual(a.queue, a.info, clock, k)
                  && r.finished && r.after == Abs(a.queue[k..], Released(a.info, a.queue[..k]), a.now)
                  && Timers(r.calls) == Timers(calls) + a.queue[..k];
    prefix
  }

  /** With quiet callbacks a dispatch ends, and calls a prefix of the queue. */
  lemma {:induction false} QuietRounds(a: Abs, clock: seq<nat>, script: seq<seq<Act>>, calls: seq<Call>, tree: RbRoot)
    returns (k: nat)
    requires Fit(a, tree) && |calls| + |a.queue| <= |clock| && forall i :: 0 <= i < |script| ==> script[i] == []
    ensures Prefix(a, clock[|calls|..], calls, k, Rounds(a, clock, script, calls, tree))
    decreases |a.queue|
  {
    if a.queue == [] || clock[|calls|] < Of(a.info, a.queue[0]).deadline {
      k := 0;
      QuietNone(a, clock[|calls|..], calls);
    } else {
      var b := QuietFirst(a, tree);
      k := QuietRounds(b, clock, script, calls + [CallOf(a)], tree);
      assert clock[|calls|..][1..] == clock[|calls + [CallOf(a)]|..];
      QuietMore(a, b, clock[|calls|..], calls, k, Rounds(b, clock, script, calls + [CallOf(a)], tree));
      k := k + 1;
    }
  }

  lemma QuietNone(a: Abs, clock: seq<nat>, calls: seq<Call>)
    requires |a.queue| <= |clock| && (a.queue != [] ==> clock[0] < Of(a.info, a.queue[0]).deadline)
    ensures Prefix(a, clock, calls, 0, Outcome(a, calls, true))
  {
    ReleasedNone(a.info);
  }

  lemma QuietMore(a: Abs, b: Abs, clock: seq<nat>, calls: seq<Call>, k: nat, r: Outcome)
    requires a.queue != [] && |a.queue| <= |clock| && Of(a.info, a.queue[0]).deadline <= clock[0]
    requires a.queue[0] in a.info && a.queue[0] !in a.queue[1..]
    requires b == Abs(a.queue[1..], a.info[a.queue[0] := a.info[a.queue[0]].(timers := null)], a.now)
    requires Prefix(b, clock[1..], calls + [CallOf(a)], k, r)
    ensures Prefix(a, clock, calls, k + 1, r)
  {
    PunctualMore(a.queue, a.info, clock, b.info, k);
    QuietCalls(calls, a, k);
  }

  lemma QuietFirst(a: Abs, tree: RbRoot) returns (b: Abs)
    requires Fit(a, tree) && a.queue != []
    ensures b == RoundOf(a, [], tree) && Fit(b, tree) && a.queue[0] in a.info && a.queue[0] !in a.queue[1..]
    ensures b == Abs(a.queue[1..], a.info[a.queue[0] := a.info[a.queue[0]].(timers := null)], a.now)
  {
    var first, rest := a.queue[0], a.queue[1..];
    assert first in a.queue && a.queue == [] + [first] + rest;
    b := Cancelled(a, first);
    CancelFit(a, first, tree);
    StableApart([], first, rest, a.info);
    WithoutBetween([], first, rest);
  }

  lemma QuietCalls(calls: seq<Call>, a: Abs, k: nat)
    requires a.queue != [] && k < |a.queue|
    ensures Timers(calls + [CallOf(a)]) + a.queue[1..][..k] == Timers(calls) + a.queue[..k + 1]
  {
    assert Timers(calls + [CallOf(a)]) == Timers(calls) + [a.queue[0]];
    assert a.queue[..k + 1] == [a.queue[0]] + a.queue[1..][..k];
  }

  lemma PunctualMore(q: seq<RbNode>, m: map<RbNode, Info>, clock: seq<nat>, m': map<RbNode, Info>, k: nat)
    requires q != [] && |q| <= |clock| && q[0] in m && m' == m[q[0] := m[q[0]].(timers := null)] && q[0] !in q[1..]
    requires Of(m, q[0]).deadline <= clock[0] && Punctual(q[1..], m', clock[1..], k)
    ensures Punctual(q, m, clock, k + 1) && q[1..][k..] == q[k + 1..] && q[..k + 1] == [q[0]] + q[1..][..k]
    ensures Released(m', q[1..][..k]) == Released(m, q[..k + 1])
  {
  }

  /** What a dispatch that ended punctually did, if the clock did not run backwards: every timer due at the first
      reading was called, once, none early, in deadline order with ties in arming order; the rest is due later than
      the last reading. */
  lemma DispatchExact(q: seq<RbNode>, m: map<RbNode, Info>, clock: seq<nat>, k: nat)
    requires Stable(q, m) && Punctual(q, m, clock, k)
    requires forall i, j :: 0 <= i < j < |clock| ==> clock[i] <= clock[j]
    ensures forall n :: n in q && Of(m, n).deadline <= clock[0] ==> n in q[..k]
    ensures forall i, j :: 0 <= i < j < k ==> q[i] != q[j] && Precedes(Of(m, q[i]), Of(m, q[j]))
    ensures k > 0 ==> DueBy(q[..k], m, clock[k - 1])
    ensures k < |q| ==> DueAfter(q[k..], m, clock[k])
  {
    forall i | k <= i < |q| ensures clock[k] < Of(m, q[i]).deadline {
      assert i > k ==> Precedes(Of(m, q[k]), Of(m, q[i]));
    }
    forall n | n in q && Of(m, n).deadline <= clock[0] ensures n in q[..k] {
      var i :| 0 <= i < |q| && q[i] == n;
      assert i < k;
      assert q[..k][i] == n;
    }
    forall n | n in q[..k] ensures Of(m, n).deadline <= clock[k - 1] {
      var i :| 0 <= i < k && q[i] == n;
    }
    if k < |q| {
      forall n | n in q[k..] ensures clock[k] < Of(m, n).deadline {
        var i :| 0 <= i < |q| - k && q[k..][i] == n;
        assert n == q[k + i];
      }
    }
  }

  // ---- where the code departs ----

  /** The departure in timer_cancel: whoever cancels the later of two timers leaves the other one queued with the
      comparator cleared. */
  method LostDeadline(core: Core, a: RbNode, b: RbNode, early: nat, late: nat)
    requires core.Valid() && core.Queue() == [] && core.ComparatorRight()
    requires a != b && a in core.known && b in core.known && early <= late
    modifies core, core.tree, core.known
    ensures core.Valid() && core.Queue() == [a] && core.comparator == Cleared && !core.ComparatorRight()
  {
    SetFirst(core.View(), a, early, core.tree);
    core.Set(a, early);
    SetSecond(core.View(), a, b, late, core.tree);
    core.Set(b, late);
    CancelSecond(core.View(), a, b);
    core.Cancel(b);
  }

  lemma SetFirst(v: Abs, a: RbNode, d: nat, tree: RbRoot)
    requires v.queue == []
    ensures var v' := Perform(v, SetAct(a, d), tree);
            v'.queue == [a] && Of(v'.info, a).deadline == d
  {
  }

  lemma SetSecond(v: Abs, a: RbNode, b: RbNode, d: nat, tree: RbRoot)
    requires v.queue == [a] && a != b && Of(v.info, a).deadline <= d
    ensures Perform(v, SetAct(b, d), tree).queue == [a, b]
  {
    WithoutAbsent(v.queue, b);
    var m := v.info[b := Of(v.info, b).(timers := null)][b := Info(d, v.now, tree)];
    assert [a] + [] == [a];
    InsertBetween([a], [], m, b, d);
  }

  lemma CancelSecond(v: Abs, a: RbNode, b: RbNode)
    requires v.queue == [a, b] && a != b
    ensures Cancelled(v, b).queue == [a]
  {
    WithoutBetween([a], b, []);
    assert [a] + [b] + [] == [a, b];
  }

  lemma StableRemoved(before: seq<RbNode>, x: RbNode, after: seq<RbNode>, m: map<RbNode, Info>)
    requires Stable(before + [x] + after, m)
    ensures Stable(before + after, m)
  {
    var q, q' := before + [x] + after, before + after;
    forall i, j | 0 <= i < j < |q'| ensures Precedes(Of(m, q'[i]), Of(m, q'[j])) {
      var i', j' := if i < |before| then i else i + 1, if j < |before| then j else j + 1;
      assert q'[i] == q[i'] && q'[j] == q[j'];
    }
  }

  lemma StableAdded(before: seq<RbNode>, x: RbNode, after: seq<RbNode>, m: map<RbNode, Info>, tree: RbRoot, now: nat)
    requires Stable(before + after, m) && (forall n :: n in before + after ==> n in m && m[n].stamp < now)
    requires x in m && m[x].stamp == now && DueBy(before, m, m[x].deadline) && DueAfter(after, m, m[x].deadline)
    ensures Stable(before + [x] + after, m)
  {
    var q, q' := before + after, before + [x] + after;
    forall i, j | 0 <= i < j < |q'| ensures Precedes(Of(m, q'[i]), Of(m, q'[j])) {
      assert i < |before| ==> q'[i] == before[i] && before[i] in before && q[i] == before[i] && q[i] in q;
      assert i > |before| ==> q'[i] == q[i - 1];
      assert j < |before| ==> q'[j] == q[j];
      assert j > |before| ==> q'[j] == after[j - |before| - 1] && after[j - |before| - 1] in after && q'[j] == q[j - 1];
    }
  }

  /** Writing the fields of a timer outside q does not disturb q. */
  lemma StableFrame(q: seq<RbNode>, m: map<RbNode, Info>, x: RbNode, info: Info)
    requires Stable(q, m) && x !in q
    ensures Stable(q, m[x := info])
  {
    forall i, j | 0 <= i < j < |q| ensures Precedes(Of(m[x := info], q[i]), Of(m[x := info], q[j])) {
      assert q[i] in q && q[j] in q;
    }
  }

  // ---- stores that leave the other half alone ----

  method SetTimers(timer: RbNode, x: RbRoot?, ghost tree: RbRoot, ghost known: set<RbNode>)
    requires timer in known && Valid(tree)
    modifies timer`timers
    ensures Valid(tree) && Infos(known) == old(Infos(known))[timer := old(Infos(known))[timer].(timers := x)]
  {
    ghost var s := T.St(Nodes(tree.shape), tree);
    timer.timers := x;
    assert T.St(Nodes(tree.shape), tree) == s;
  }

  method EraseTimer(timer: RbNode, tree: RbRoot, ghost known: set<RbNode>)
    returns (leftmost: RbNode?, ghost before: seq<RbNode>, ghost after: seq<RbNode>)
    requires Valid(tree) && timer in Nodes(tree.shape) && Nodes(tree.shape) <= known
    modifies tree, known`left, known`right, known`parent, known`black
    ensures Valid(tree) && Nodes(tree.shape) <= known
    ensures old(Order(tree)) == before + [timer] + after && Order(tree) == before + after
    ensures leftmost == if before == [] then First(after) else null
    ensures Infos(known) == old(Infos(known))
  {
    leftmost, before, after := EraseCached(timer, tree);
  }

  method ArmFields(timer: RbNode, deadline: nat, ghost stamp: nat, tree: RbRoot, ghost known: set<RbNode>)
    requires timer in known && Valid(tree)
    modifies timer`deadline, timer`stamp, timer`timers
    ensures Valid(tree) && Infos(known) == old(Infos(known))[timer := Info(deadline, stamp, tree)]
  {
    ghost var s := T.St(Nodes(tree.shape), tree);
    timer.deadline, timer.stamp, timer.timers := deadline, stamp, tree;
    assert T.St(Nodes(tree.shape), tree) == s;
  }

  method AddTimer(timer: RbNode, tree: RbRoot, ghost known: set<RbNode>)
    returns (r: RbNode?, ghost before: seq<RbNode>, ghost after: seq<RbNode>)
    requires Valid(tree) && timer in known - Nodes(tree.shape) && Nodes(tree.shape) <= known
    requires Stable(Order(tree), Infos(known))
    modifies tree, known`left, known`right, known`parent, known`black
    ensures Valid(tree) && Nodes(tree.shape) <= known
    ensures old(Order(tree)) == before + after && Order(tree) == before + [timer] + after
    ensures var m := Infos(known);
            DueBy(before, m, m[timer].deadline) && DueAfter(after, m, m[timer].deadline)
    ensures r == if before == [] then timer else null
    ensures Infos(known) == old(Infos(known))
  {
    StableSorted(Order(tree), known, tree);
    r, before, after := AddCached(timer, tree);
    ElemsWithin(before, timer, after, tree.shape, known);
  }

  lemma StableSorted(q: seq<RbNode>, known: set<RbNode>, tree: RbRoot)
    requires q == Order(tree) && Nodes(tree.shape) <= known && Stable(q, Infos(known))
    ensures Sorted(q)
  {
    InOrderNodes(tree.shape);
    forall i, j | 0 <= i < j < |q| ensures q[i].deadline <= q[j].deadline {
      assert q[i] in Elems(q) && q[j] in Elems(q);
      assert Precedes(Of(Infos(known), q[i]), Of(Infos(known), q[j]));
    }
  }

  lemma ElemsWithin(before: seq<RbNode>, x: RbNode, after: seq<RbNode>, shape: Tree, known: set<RbNode>)
    requires InOrder(shape) == before + [x] + after && Nodes(shape) <= known
    requires NotLater(before, x.deadline) && Later(after, x.deadline)
    ensures var m := Infos(known);
            x in m && DueBy(before, m, m[x].deadline) && DueAfter(after, m, m[x].deadline)
  {
    InOrderNodes(shape);
    assert x in Elems(before + [x] + after);
    forall n | n in before ensures n in known { assert n in Elems(before + [x] + after); }
    forall n | n in after ensures n in known { assert n in Elems(before + [x] + after); }
  }
}
