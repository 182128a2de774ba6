/** `Notification` of ops/built-in/notification.h with its client `AsyncCpuKernel::Compute`
    (ops/built-in/async_cpu_kernel.cc): the owner waits and then destroys the object, while any number of
    other threads each call `Notify` once.  Every atomic action is one step; `notified_` is sequentially
    consistent. */
module Notification {
  import opened Wrappers

  /** Where the owner is.  `Sleeping` is inside `cv_.wait`, which has released the mutex. */
  datatype Owner = Checking | Locking | Testing | Sleeping | Waking | Unlocking | Returned | DtorHolding | Destroyed

  /** Where a call of `Notify` is; from `Holding` to `Leaving` it holds the mutex. */
  datatype Notifier = Idle | Holding | Stored | Leaving | Done

  datatype Thread = TheOwner | Caller(i: nat)

  datatype State = State(mu: Option<Thread>, notified: bool, owner: Owner, callers: seq<Notifier>)

  datatype Step =
    | OwnerStep              // the owner's next action
    | CallerStep(i: nat)     // the next action of a call of Notify
    | Spurious               // cv_.wait returns on its own

  function Init(callers: nat): State {
    State(None, false, Checking, seq(callers, i => Idle))
  }

  /** The owner's next action; None if it has to wait. */
  function OwnerNext(s: State): Option<State> {
    match s.owner
    case Checking => Some(s.(owner := if s.notified then Returned else Locking))
    case Locking => if s.mu.None? then Some(s.(mu := Some(TheOwner), owner := Testing)) else None
    case Testing => Some(if s.notified then s.(owner := Unlocking) else s.(mu := None, owner := Sleeping))
    case Sleeping => None
    case Waking => if s.mu.None? then Some(s.(mu := Some(TheOwner), owner := Testing)) else None
    case Unlocking => Some(s.(mu := None, owner := Returned))
    case Returned => if s.mu.None? then Some(s.(mu := Some(TheOwner), owner := DtorHolding)) else None
    case DtorHolding => Some(s.(mu := None, owner := Destroyed))
    case Destroyed => None
  }

  /** The next action of caller `i`.  None after the object is gone: such an action would be a use after
      destruction, which `UseAfterDestruction` reports. */
  function CallerNext(s: State, i: nat): Option<State> {
    if i >= |s.callers| || s.owner.Destroyed? then None else
    match s.callers[i]
    case Idle => if s.mu.None? then Some(s.(mu := Some(Caller(i)), callers := s.callers[i := Holding])) else None
    case Holding =>
      Some(if s.notified then s.(callers := s.callers[i := Leaving])
           else s.(notified := true, callers := s.callers[i := Stored]))
    case Stored =>
      Some(s.(owner := if s.owner.Sleeping? then Waking else s.owner, callers := s.callers[i := Leaving]))
    case Leaving => Some(s.(mu := None, callers := s.callers[i := Done]))
    case Done => None
  }

  function Next(s: State, step: Step): Option<State> {
    match step
    case OwnerStep => OwnerNext(s)
    case CallerStep(i) => CallerNext(s, i)
    case Spurious => if s.owner.Sleeping? then Some(s.(owner := Waking)) else None
  }

  /** The state after a run, if every step of it could be taken. */
  function Run(callers: nat, steps: seq<Step>): Option<State> {
    if steps == [] then Some(Init(callers)) else
    match Run(callers, steps[..|steps| - 1])
    case None => None
    case Some(s) => Next(s, steps[|steps| - 1])
  }

  predicate Inside(c: Notifier) { c.Holding? || c.Stored? || c.Leaving? }
  predicate OwnerHolds(o: Owner) { o.Testing? || o.Unlocking? || o.DtorHolding? }
  predicate PastWait(o: Owner) { o.Unlocking? || o.Returned? || o.DtorHolding? || o.Destroyed? }

  /** A call of `Notify` that has not finished when the object is gone. */
  predicate UseAfterDestruction(s: State) {
    s.owner.Destroyed? && exists i :: 0 <= i < |s.callers| && !s.callers[i].Done?
  }

  ghost predicate Inv(s: State) {
    && (OwnerHolds(s.owner) <==> s.mu == Some(TheOwner))
    && (forall i :: 0 <= i < |s.callers| ==> (Inside(s.callers[i]) <==> s.mu == Some(Caller(i))))
    && (s.mu.Some? && s.mu.value.Caller? ==> s.mu.value.i < |s.callers|)
    && (s.notified ==> exists i :: 0 <= i < |s.callers| && !s.callers[i].Idle? && !s.callers[i].Holding?)
    && (forall i :: 0 <= i < |s.callers| && !s.callers[i].Idle? && !s.callers[i].Holding? ==> s.notified)
    && (PastWait(s.owner) ==> s.notified)
    && (s.owner.Sleeping? && s.notified ==> s.mu.Some? && s.mu.value.Caller? && s.callers[s.mu.value.i].Stored?)
  }

  lemma InvStep(s: State, step: Step)
    requires Inv(s) && Next(s, step).Some?
    ensures Inv(Next(s, step).value) && |Next(s, step).value.callers| == |s.callers|
  {
    var t := Next(s, step).value;
    if s.notified {
      var i :| 0 <= i < |s.callers| && !s.callers[i].Idle? && !s.callers[i].Holding?;
      assert !t.callers[i].Idle? && !t.callers[i].Holding?;
    } else if t.notified {
      assert t.callers[step.i].Stored?;
    }
  }

  lemma {:induction false} RunInv(callers: nat, steps: seq<Step>)
    requires Run(callers, steps).Some?
    ensures Inv(Run(callers, steps).value) && |Run(callers, steps).value.callers| == callers
  {
    if steps != [] {
      RunInv(callers, steps[..|steps| - 1]);
      InvStep(Run(callers, steps[..|steps| - 1]).value, steps[|steps| - 1]);
    }
  }

  // ---- Safety, over every interleaving ----

  /** The wait returns only after notification, on the fast path as well, and a waiter that sleeps after
      notification is one whose notifier has yet to call `notify_all`: no wakeup is lost. */
  lemma NoLostWakeup(callers: nat, steps: seq<Step>)
    requires Run(callers, steps).Some?
    ensures var s := Run(callers, steps).value;
            && (PastWait(s.owner) ==> s.notified)
            && (s.owner.Sleeping? && s.notified ==> exists i :: 0 <= i < |s.callers| && s.callers[i].Stored?)
            && (s.owner.Sleeping? && 0 < callers ==> exists i :: 0 <= i < |s.callers| && !s.callers[i].Done?)
  {
    RunInv(callers, steps);
    var s := Run(callers, steps).value;
    if s.owner.Sleeping? && 0 < callers {
      assert s.callers[0].Done? ==> s.notified;
    }
  }

  /** Destruction never finishes while a notifier is inside `Notify`. */
  lemma {:induction false} NeverDestroyedInside(callers: nat, steps: seq<Step>)
    requires Run(callers, steps).Some?
    ensures var s := Run(callers, steps).value;
            s.owner.Destroyed? ==> forall i :: 0 <= i < |s.callers| ==> !Inside(s.callers[i])
  {
    RunInv(callers, steps);
    if steps != [] {
      var before := steps[..|steps| - 1];
      RunInv(callers, before);
      NeverDestroyedInside(callers, before);
    }
  }

  /** With a single call of `Notify` nothing touches the object after its destruction. */
  lemma OneCallSafe(callers: nat, steps: seq<Step>)
    requires callers <= 1 && Run(callers, steps).Some?
    ensures !UseAfterDestruction(Run(callers, steps).value)
  {
    RunInv(callers, steps);
    NeverDestroyedInside(callers, steps);
  }

  /** With two or more, one may still be coming: the first call notifies, and the owner takes the fast
      path and destroys the object. */
  function EarlyDestruction(): seq<Step> {
    [CallerStep(0), CallerStep(0), CallerStep(0), CallerStep(0), OwnerStep, OwnerStep, OwnerStep]
  }

  lemma RunMore(callers: nat, steps: seq<Step>, step: Step)
    requires Run(callers, steps).Some?
    ensures Run(callers, steps + [step]) == Next(Run(callers, steps).value, step)
  {
    assert (steps + [step])[..|steps|] == steps;
  }

  lemma Then(callers: nat, steps: seq<Step>, s: State, step: Step, t: State)
    requires Run(callers, steps) == Some(s) && Next(s, step) == Some(t)
    ensures Run(callers, steps + [step]) == Some(t)
  {
    RunMore(callers, steps, step);
  }

  /** A call of `Notify` that nobody disturbs. */
  lemma CallAlone(callers: nat, steps: seq<Step>, s: State)
    requires Run(callers, steps) == Some(s) && s.mu.None? && !s.notified && s.owner.Checking? && |s.callers| > 0 &&
      s.callers[0].Idle?
    ensures Run(callers, steps + [CallerStep(0)] + [CallerStep(0)] + [CallerStep(0)] + [CallerStep(0)]) ==
      Some(State(None, true, Checking, s.callers[0 := Done]))
  {
    var c, step := s.callers, CallerStep(0);
    assert c[0 := Holding][0 := Stored] == c[0 := Stored] && c[0 := Stored][0 := Leaving] == c[0 := Leaving];
    assert c[0 := Leaving][0 := Done] == c[0 := Done];
    Then(callers, steps, s, step, State(Some(Caller(0)), false, Checking, c[0 := Holding]));
    Then(callers, steps + [step], State(Some(Caller(0)), false, Checking, c[0 := Holding]), step,
      State(Some(Caller(0)), true, Checking, c[0 := Stored]));
    Then(callers, steps + [step] + [step], State(Some(Caller(0)), true, Checking, c[0 := Stored]), step,
      State(Some(Caller(0)), true, Checking, c[0 := Leaving]));
    Then(callers, steps + [step] + [step] + [step], State(Some(Caller(0)), true, Checking, c[0 := Leaving]), step,
      State(None, true, Checking, c[0 := Done]));
  }

  /** The owner's fast path: it finds the flag set, and destroys the object. */
  lemma FastPath(callers: nat, steps: seq<Step>, c: seq<Notifier>)
    requires Run(callers, steps) == Some(State(None, true, Checking, c))
    ensures Run(callers, steps + [OwnerStep] + [OwnerStep] + [OwnerStep]) == Some(State(None, true, Destroyed, c))
  {
    Then(callers, steps, State(None, true, Checking, c), OwnerStep, State(None, true, Returned, c));
    Then(callers, steps + [OwnerStep], State(None, true, Returned, c), OwnerStep,
      State(Some(TheOwner), true, DtorHolding, c));
    Then(callers, steps + [OwnerStep] + [OwnerStep], State(Some(TheOwner), true, DtorHolding, c), OwnerStep,
      State(None, true, Destroyed, c));
  }

  lemma SecondCallUnsafe(callers: nat)
    requires 2 <= callers
    ensures var end := Run(callers, EarlyDestruction()); end.Some? && UseAfterDestruction(end.value)
  {
    var c := Init(callers).callers;
    CallAlone(callers, [], Init(callers));
    assert EarlyDestruction()[..4] == [] + [CallerStep(0)] + [CallerStep(0)] + [CallerStep(0)] + [CallerStep(0)];
    FastPath(callers, EarlyDestruction()[..4], c[0 := Done]);
    assert EarlyDestruction() == EarlyDestruction()[..4] + [OwnerStep] + [OwnerStep] + [OwnerStep];
    assert !c[0 := Done][1].Done?;
  }

  ghost predicate Safe(callers: nat) {
    forall steps :: Run(callers, steps).Some? ==> !UseAfterDestruction(Run(callers, steps).value)
  }

  /** Main result: the object is never used after its destruction, in any interleaving, exactly if at most
      one call of `Notify` is made. */
  lemma SafeExactly(callers: nat)
    ensures Safe(callers) <==> callers <= 1
  {
    if callers <= 1 {
      forall steps | Run(callers, steps).Some?
        ensures !UseAfterDestruction(Run(callers, steps).value)
      {
        OneCallSafe(callers, steps);
      }
    } else {
      SecondCallUnsafe(callers);
    }
  }

  // ---- Progress ----

  /** Some thread can act, not counting spurious wakeups. */
  ghost predicate CanAct(s: State) {
    OwnerNext(s).Some? || exists i :: 0 <= i < |s.callers| && CallerNext(s, i).Some?
  }

  ghost predicate NeverStuck(callers: nat) {
    forall steps :: Run(callers, steps).Some? && !Run(callers, steps).value.owner.Destroyed? ==>
      CanAct(Run(callers, steps).value)
  }

  lemma NotStuck(s: State)
    requires Inv(s) && 0 < |s.callers| && !s.owner.Destroyed?
    ensures CanAct(s)
  {
    if s.mu.Some? && s.mu.value.Caller? {
      assert CallerNext(s, s.mu.value.i).Some?;
    } else if s.owner.Sleeping? {
      assert s.callers[0].Idle?;
      assert CallerNext(s, 0).Some?;
    }
  }

  /** With no call at all the owner goes to sleep for good. */
  lemma NoCallStuck()
    ensures !NeverStuck(0)
  {
    var start := Init(0);
    var locking := start.(owner := Locking);
    var testing := State(Some(TheOwner), false, Testing, start.callers);
    var sleeping := State(None, false, Sleeping, start.callers);
    var one, two := [] + [OwnerStep], [] + [OwnerStep] + [OwnerStep];
    Then(0, [], start, OwnerStep, locking);
    Then(0, one, locking, OwnerStep, testing);
    Then(0, two, testing, OwnerStep, sleeping);
    assert !CanAct(sleeping);
  }

  /** Main result: no reachable state is a deadlock exactly if `Notify` is called at all. */
  lemma NeverStuckExactly(callers: nat)
    ensures NeverStuck(callers) <==> 0 < callers
  {
    if 0 < callers {
      forall steps | Run(callers, steps).Some? && !Run(callers, steps).value.owner.Destroyed?
        ensures CanAct(Run(callers, steps).value)
      {
        RunInv(callers, steps);
        NotStuck(Run(callers, steps).value);
      }
    } else {
      NoCallStuck();
    }
  }

  /** What is left to do: every step but a spurious wakeup lowers it. */
  function OwnerRank(o: Owner): nat {
    match o
    case Checking => 9 case Locking => 8 case Waking => 8 case Testing => 7 case Sleeping => 6
    case Unlocking => 4 case Returned => 3 case DtorHolding => 2 case Destroyed => 1
  }

  function CallerRank(c: Notifier): nat {
    match c
    case Idle => 4 case Holding => 3 case Stored => 2 case Leaving => 1 case Done => 0
  }

  function CallersRank(cs: seq<Notifier>): nat {
    if cs == [] then 0 else CallersRank(cs[..|cs| - 1]) + CallerRank(cs[|cs| - 1])
  }

  function Rank(s: State): nat {
    OwnerRank(s.owner) + 3 * CallersRank(s.callers)
  }

  lemma {:induction false} RankUpdate(cs: seq<Notifier>, i: nat, c: Notifier)
    requires i < |cs|
    ensures CallersRank(cs[i := c]) == CallersRank(cs) - CallerRank(cs[i]) + CallerRank(c)
  {
    var n := |cs| - 1;
    if i < n {
      RankUpdate(cs[..n], i, c);
      assert cs[i := c][..n] == cs[..n][i := c];
    } else {
      assert cs[i := c][..n] == cs[..n];
    }
  }

  lemma RankStep(s: State, step: Step)
    requires Next(s, step).Some?
    ensures Rank(Next(s, step).value) <= if step.Spurious? then Rank(s) + 2 else Rank(s) - 1
  {
    if step.CallerStep? {
      RankUpdate(s.callers, step.i, Next(s, step).value.callers[step.i]);
    }
  }

  function SpuriousIn(steps: seq<Step>): nat {
    if steps == [] then 0 else SpuriousIn(steps[..|steps| - 1]) + if steps[|steps| - 1].Spurious? then 1 else 0
  }

  lemma {:induction false} InitRank(callers: nat)
    ensures CallersRank(seq(callers, i => Idle)) == 4 * callers
  {
    if 0 < callers {
      InitRank(callers - 1);
      assert (seq(callers, i => Idle))[..callers - 1] == seq(callers - 1, i => Idle);
    }
  }

  /** A run with finitely many spurious wakeups is finite. */
  lemma {:induction false} RunsEnd(callers: nat, steps: seq<Step>)
    requires Run(callers, steps).Some?
    ensures |steps| + Rank(Run(callers, steps).value) <= 9 + 12 * callers + 3 * SpuriousIn(steps)
  {
    if steps == [] {
      InitRank(callers);
    } else {
      RunsEnd(callers, steps[..|steps| - 1]);
      RankStep(Run(callers, steps[..|steps| - 1]).value, steps[|steps| - 1]);
    }
  }

  /** Nothing can happen any more but a spurious wakeup. */
  ghost predicate Over(s: State) {
    forall step: Step :: !step.Spurious? ==> Next(s, step).None?
  }

  lemma NotOver(s: State)
    requires CanAct(s)
    ensures !Over(s)
  {
    if OwnerNext(s).Some? {
      assert Next(s, OwnerStep).Some?;
    } else {
      var i :| 0 <= i < |s.callers| && CallerNext(s, i).Some?;
      assert Next(s, CallerStep(i)).Some?;
    }
  }

  /** Main result: if there is a call at all, a run that is over has ended well: the owner has returned from the
      wait and destroyed the object, and a single caller has left `Notify`; and it was no longer than this. */
  lemma EndsWell(callers: nat, steps: seq<Step>)
    requires 0 < callers && Run(callers, steps).Some? && Over(Run(callers, steps).value)
    ensures var end := Run(callers, steps).value; end.owner.Destroyed? && (callers == 1 ==> end.callers == [Done])
    ensures |steps| <= 8 + 12 * callers + 3 * SpuriousIn(steps)
  {
    var end := Run(callers, steps).value;
    RunInv(callers, steps);
    RunsEnd(callers, steps);
    if !end.owner.Destroyed? {
      NotStuck(end);
      NotOver(end);
    }
    if callers == 1 { OneCallSafe(callers, steps); }
  }

  /** And every run can be brought to such an end without spurious wakeups. */
  lemma {:induction false} CanEnd(callers: nat, steps: seq<Step>) returns (all: seq<Step>)
    requires 0 < callers && Run(callers, steps).Some?
    ensures steps <= all && Run(callers, all).Some? && Run(callers, all).value.owner.Destroyed?
    ensures SpuriousIn(all) == SpuriousIn(steps)
    decreases Rank(Run(callers, steps).value)
  {
    var s := Run(callers, steps).value;
    if s.owner.Destroyed? { return steps; }
    RunInv(callers, steps);
    NotStuck(s);
    var step := if OwnerNext(s).Some? then OwnerStep
                else var i :| 0 <= i < |s.callers| && CallerNext(s, i).Some?; CallerStep(i);
    RunMore(callers, steps, step);
    RankStep(s, step);
    assert (steps + [step])[..|steps|] == steps;
    all := CanEnd(callers, steps + [step]);
  }
}
