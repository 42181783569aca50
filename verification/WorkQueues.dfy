/**
 shared/work_queue.h: a queue shared by threads under a mutex, with one condition
 variable, as a state machine whose events are the threads' atomic steps.
 */
module WorkQueues {
  import opened Options

  /** Where a thread stands in push or pop. */
  datatype Pc<T> =
    | Idle
    | PushCalled(item: T)     // waits for the mutex
    | PushEntered(item: T)    // holds it
    | PushNotifying           // has emplaced the item
    | PushLeaving             // has notified, still holds the mutex
    | PopCalled               // waits for the mutex, on entry or after a wait
    | PopChecking             // holds it, about to test for emptiness
    | PopWaiting              // inside wait, not notified, without the mutex
    | PopLeaving(item: T)     // has taken the item, still holds the mutex

  /**
   `items` and `mutex` are the queue's own. The rest is history: what was
   emplaced and taken, in that order, and what callers passed in and got back.
   */
  datatype State<T> = State(
    items: seq<T>, mutex: Option<nat>, threads: seq<Pc<T>>,
    pushed: seq<T>, popped: seq<T>, given: multiset<T>, returned: multiset<T>)

  datatype Event<T> =
    | CallPush(t: nat, item: T)
    | CallPop(t: nat)
    | Advance(t: nat)         // the next atomic step of a call
    | Spurious(t: nat)        // wait returns without a notification

  function Init<T>(n: nat): State<T> {
    State([], None, seq(n, _ => Idle), [], [], multiset{}, multiset{})
  }

  /** notify_all: every waiting thread goes on to ask for the mutex. */
  function Notified<T>(threads: seq<Pc<T>>): (r: seq<Pc<T>>)
    ensures |r| == |threads|
  {
    seq(|threads|, k requires 0 <= k < |threads| => if threads[k].PopWaiting? then PopCalled else threads[k])
  }

  function WithPc<T>(s: State<T>, t: nat, pc: Pc<T>): State<T>
    requires t < |s.threads|
  {
    s.(threads := s.threads[t := pc])
  }

  /** The next step of thread `t`; nothing when it is blocked or has no call under way. */
  function Advanced<T>(s: State<T>, t: nat): Option<State<T>>
    requires t < |s.threads|
  {
    match s.threads[t]
    case Idle => None
    case PopWaiting => None
    case PushCalled(i) => if s.mutex.Some? then None else Some(WithPc(s, t, PushEntered(i)).(mutex := Some(t)))
    case PopCalled => if s.mutex.Some? then None else Some(WithPc(s, t, PopChecking).(mutex := Some(t)))
    case PushEntered(i) => Some(WithPc(s, t, PushNotifying).(items := s.items + [i], pushed := s.pushed + [i]))
    case PushNotifying => Some(s.(threads := Notified(s.threads)[t := PushLeaving]))
    case PushLeaving => Some(WithPc(s, t, Idle).(mutex := None))
    case PopChecking =>
      if s.items == [] then Some(WithPc(s, t, PopWaiting).(mutex := None))
      else Some(WithPc(s, t, PopLeaving(s.items[0])).(items := s.items[1..], popped := s.popped + [s.items[0]]))
    case PopLeaving(i) => Some(WithPc(s, t, Idle).(mutex := None, returned := s.returned + multiset{i}))
  }

  function Step<T>(s: State<T>, e: Event<T>): Option<State<T>> {
    if e.t >= |s.threads| then None
    else match e
      case CallPush(t, i) =>
        if s.threads[t].Idle? then Some(WithPc(s, t, PushCalled(i)).(given := s.given + multiset{i})) else None
      case CallPop(t) => if s.threads[t].Idle? then Some(WithPc(s, t, PopCalled)) else None
      case Advance(t) => Advanced(s, t)
      case Spurious(t) => if s.threads[t].PopWaiting? then Some(WithPc(s, t, PopCalled)) else None
  }

  /** The state after a run; nothing when one of its events is not enabled. */
  function Run<T>(s: State<T>, events: seq<Event<T>>): Option<State<T>>
    decreases events
  {
    if events == [] then Some(s)
    else match Step(s, events[0])
      case None => None
      case Some(s') => Run(s', events[1..])
  }

  // -------------------------------------------------------------- invariants

  predicate HoldsMutex<T>(pc: Pc<T>) {
    pc.PushEntered? || pc.PushNotifying? || pc.PushLeaving? || pc.PopChecking? || pc.PopLeaving?
  }

  /** Exactly the thread that holds the mutex is in a critical section. */
  ghost predicate Exclusive<T>(s: State<T>) {
    && (s.mutex.Some? ==> s.mutex.value < |s.threads|)
    && forall k :: 0 <= k < |s.threads| ==> (HoldsMutex(s.threads[k]) <==> s.mutex == Some(k))
  }

  /** Items leave in the order in which they entered; none is lost or made up. */
  ghost predicate Fifo<T>(s: State<T>) {
    s.popped + s.items == s.pushed
  }

  /** A thread waits un-notified beside a non-empty queue only while a push is about to notify it. */
  ghost predicate NoLostWakeup<T>(s: State<T>) {
    s.items != [] ==> forall k :: 0 <= k < |s.threads| && s.threads[k].PopWaiting? ==> NotifyDue(s)
  }

  ghost predicate NotifyDue<T>(s: State<T>) {
    s.mutex.Some? && s.mutex.value < |s.threads| && s.threads[s.mutex.value].PushNotifying?
  }

  /** How often `x` is the item of a push under way, not yet emplaced. */
  function Entering<T(==)>(threads: seq<Pc<T>>, x: T): nat {
    if threads == [] then 0 else EnteringOne(threads[0], x) + Entering(threads[1..], x)
  }

  function EnteringOne<T(==)>(pc: Pc<T>, x: T): nat {
    match pc
    case PushCalled(i) => if i == x then 1 else 0
    case PushEntered(i) => if i == x then 1 else 0
    case _ => 0
  }

  /** How often `x` was taken by a pop under way, not yet returned. */
  function Leaving<T(==)>(threads: seq<Pc<T>>, x: T): nat {
    if threads == [] then 0 else LeavingOne(threads[0], x) + Leaving(threads[1..], x)
  }

  function LeavingOne<T(==)>(pc: Pc<T>, x: T): nat {
    match pc
    case PopLeaving(i) => if i == x then 1 else 0
    case _ => 0
  }

  /** `x` was passed in as often as it was queued or is about to be. */
  ghost predicate InputKept<T>(s: State<T>, x: T) {
    s.given[x] == Entering(s.threads, x) + multiset(s.pushed)[x]
  }

  /** `x` was taken as often as it was returned or is about to be. */
  ghost predicate OutputKept<T>(s: State<T>, x: T) {
    multiset(s.popped)[x] == Leaving(s.threads, x) + s.returned[x]
  }

  ghost predicate Conserved<T(!new)>(s: State<T>) {
    forall x :: InputKept(s, x) && OutputKept(s, x)
  }

  ghost predicate Inv<T(!new)>(s: State<T>) {
    Exclusive(s) && Fifo(s) && NoLostWakeup(s) && Conserved(s)
  }

  lemma {:induction false} UpdateCounts<T>(threads: seq<Pc<T>>, t: nat, pc: Pc<T>, x: T)
    requires t < |threads|
    ensures Entering(threads[t := pc], x) + EnteringOne(threads[t], x) == Entering(threads, x) + EnteringOne(pc, x)
    ensures Leaving(threads[t := pc], x) + LeavingOne(threads[t], x) == Leaving(threads, x) + LeavingOne(pc, x)
  {
    var u := threads[t := pc];
    if t == 0 {
      assert u[1..] == threads[1..];
    } else {
      UpdateCounts(threads[1..], t - 1, pc, x);
      assert u[1..] == threads[1..][t - 1 := pc];
    }
  }

  lemma {:induction false} NotifyCounts<T>(threads: seq<Pc<T>>, x: T)
    ensures Entering(Notified(threads), x) == Entering(threads, x)
    ensures Leaving(Notified(threads), x) == Leaving(threads, x)
  {
    if threads != [] {
      NotifyCounts(threads[1..], x);
      assert Notified(threads)[1..] == Notified(threads[1..]);
    }
  }

  lemma {:induction false} IdleCounts<T>(threads: seq<Pc<T>>, x: T)
    requires forall k :: 0 <= k < |threads| ==> threads[k].Idle?
    ensures Entering(threads, x) == Leaving(threads, x) == 0
  {
    if threads != [] {
      IdleCounts(threads[1..], x);
    }
  }

  lemma InitHolds<T(!new)>(n: nat)
    ensures Inv(Init<T>(n))
  {
    forall x ensures InputKept(Init<T>(n), x) && OutputKept(Init<T>(n), x) {
      IdleCounts(Init<T>(n).threads, x);
    }
  }

  lemma StepKeepsMutex<T>(s: State<T>, e: Event<T>)
    requires Exclusive(s) && Step(s, e).Some?
    ensures Exclusive(Step(s, e).value)
  {
    if e.Advance? {
      AdvanceKeepsMutex(s, e.t);
    }
  }

  lemma AdvanceKeepsMutex<T>(s: State<T>, t: nat)
    requires Exclusive(s) && t < |s.threads| && Advanced(s, t).Some?
    ensures Exclusive(Advanced(s, t).value)
  {
  }

  lemma StepKeepsOrder<T>(s: State<T>, e: Event<T>)
    requires Fifo(s) && Step(s, e).Some?
    ensures Fifo(Step(s, e).value)
  {
    if s.items != [] {
      assert s.items == [s.items[0]] + s.items[1..];
      assert s.popped + [s.items[0]] + s.items[1..] == s.pushed;
    }
  }

  /** Only a push that is about to notify can leave an un-notified waiter beside its item. */
  lemma StepLosesNoWakeup<T>(s: State<T>, e: Event<T>)
    requires Exclusive(s) && NoLostWakeup(s) && Step(s, e).Some?
    ensures NoLostWakeup(Step(s, e).value)
  {
    StepKeepsMutex(s, e);
  }

  /** What the threads hold, after a step. */
  lemma StepCounts<T>(s: State<T>, e: Event<T>, x: T)
    requires Step(s, e).Some?
    ensures var s' := Step(s, e).value;
      && Entering(s'.threads, x) + EnteringOne(s.threads[e.t], x) == Entering(s.threads, x) + EnteringOne(s'.threads[e.t], x)
      && Leaving(s'.threads, x) + LeavingOne(s.threads[e.t], x) == Leaving(s.threads, x) + LeavingOne(s'.threads[e.t], x)
  {
    var t, s' := e.t, Step(s, e).value;
    if e.Advance? && s.threads[t].PushNotifying? {
      NotifyCounts(s.threads, x);
      UpdateCounts(Notified(s.threads), t, PushLeaving, x);
    } else {
      UpdateCounts(s.threads, t, s'.threads[t], x);
    }
  }

  lemma StepConserves<T>(s: State<T>, e: Event<T>, x: T)
    requires Step(s, e).Some? && InputKept(s, x) && OutputKept(s, x)
    ensures InputKept(Step(s, e).value, x) && OutputKept(Step(s, e).value, x)
  {
    StepConservesInput(s, e, x);
    StepConservesOutput(s, e, x);
  }

  ghost predicate BalancedInput<T>(s: State<T>, s': State<T>, t: nat, x: T)
    requires t < |s.threads| == |s'.threads|
  {
    s'.given[x] + EnteringOne(s.threads[t], x) + multiset(s.pushed)[x]
    == s.given[x] + EnteringOne(s'.threads[t], x) + multiset(s'.pushed)[x]
  }

  /** What the stepping thread holds of `x` is balanced by what was passed in and what was queued. */
  lemma StepBalancesInput<T>(s: State<T>, e: Event<T>, x: T)
    requires Step(s, e).Some?
    ensures BalancedInput(s, Step(s, e).value, e.t, x)
  {
    if e.Advance? {
      AdvanceBalancesInput(s, e.t, x);
    }
  }

  lemma AdvanceBalancesInput<T>(s: State<T>, t: nat, x: T)
    requires t < |s.threads| && Advanced(s, t).Some?
    ensures BalancedInput(s, Advanced(s, t).value, t, x)
  {
    hide Notified;
  }

  lemma StepConservesInput<T>(s: State<T>, e: Event<T>, x: T)
    requires Step(s, e).Some? && InputKept(s, x)
    ensures InputKept(Step(s, e).value, x)
  {
    hide Entering, EnteringOne, Leaving, LeavingOne, Step;
    StepCounts(s, e, x);
    StepBalancesInput(s, e, x);
  }

  lemma StepConservesOutput<T>(s: State<T>, e: Event<T>, x: T)
    requires Step(s, e).Some? && OutputKept(s, x)
    ensures OutputKept(Step(s, e).value, x)
  {
    hide Entering, Leaving, EnteringOne, Notified;
    StepCounts(s, e, x);
  }

  lemma StepKeepsInv<T(!new)>(s: State<T>, e: Event<T>)
    requires Inv(s) && Step(s, e).Some?
    ensures Inv(Step(s, e).value)
  {
    StepKeepsMutex(s, e);
    StepKeepsOrder(s, e);
    StepLosesNoWakeup(s, e);
    forall x ensures InputKept(Step(s, e).value, x) && OutputKept(Step(s, e).value, x) {
      assert InputKept(s, x) && OutputKept(s, x);
      StepConserves(s, e, x);
    }
  }

  /** Main result: every interleaving of pushes and pops keeps the invariants. */
  lemma {:induction false} EveryRunIsSafe<T(!new)>(s: State<T>, events: seq<Event<T>>)
    requires Inv(s) && Run(s, events).Some?
    ensures Inv(Run(s, events).value)
    decreases events
  {
    if events != [] {
      StepKeepsInv(s, events[0]);
      EveryRunIsSafe(Step(s, events[0]).value, events[1..]);
    }
  }

  lemma EveryReachableStateIsSafe<T(!new)>(n: nat, events: seq<Event<T>>)
    requires Run(Init<T>(n), events).Some?
    ensures Inv(Run(Init<T>(n), events).value)
  {
    InitHolds<T>(n);
    EveryRunIsSafe(Init<T>(n), events);
  }

  lemma HolderAdvances<T>(s: State<T>)
    requires Exclusive(s)
    ensures s.mutex.Some? ==> Advanced(s, s.mutex.value).Some?
  {
    assert s.mutex.Some? ==> HoldsMutex(s.threads[s.mutex.value]);
  }

  /** In a state where no call can go on, every open call is a pop, and the queue is empty. */
  lemma StuckOnlyWhenEmpty<T(!new)>(s: State<T>)
    requires Inv(s) && forall t :: 0 <= t < |s.threads| ==> Advanced(s, t).None?
    ensures s.mutex == None
    ensures forall t :: 0 <= t < |s.threads| ==> s.threads[t].Idle? || s.threads[t].PopWaiting?
    ensures (exists t :: 0 <= t < |s.threads| && s.threads[t].PopWaiting?) ==> s.items == []
  {
    HolderAdvances(s);
    forall t | 0 <= t < |s.threads| ensures s.threads[t].Idle? || s.threads[t].PopWaiting? {
      assert Advanced(s, t).None?;
    }
  }

  /** When all calls have returned, what was passed in is what came back and what is still queued. */
  lemma NothingLostAtRest<T(!new)>(s: State<T>)
    requires Inv(s) && forall t :: 0 <= t < |s.threads| ==> s.threads[t].Idle?
    ensures s.given == s.returned + multiset(s.items)
  {
    forall x ensures s.given[x] == s.returned[x] + multiset(s.items)[x] {
      assert InputKept(s, x) && OutputKept(s, x);
      IdleCounts(s.threads, x);
      assert multiset(s.pushed)[x] == multiset(s.popped)[x] + multiset(s.items)[x];
    }
  }
}
