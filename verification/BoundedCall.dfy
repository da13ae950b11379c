/**
 `invoke_bounded` as a step system: any number of callers share one in-flight lock, each call has
 its own worker thread, deadlines strike at any moment, and steps interleave freely.
 */
module BoundedCall {
  import opened Order

  type Owner = nat

  /** `exit` marks SystemExit and KeyboardInterrupt, which are raised as they are. */
  datatype Caller =
    | Entering
    | Acquired
    | StartFailed(exit: bool)
    | Waiting
    | Refused(holder: nat)
    | Unavailable
    | TimedOut
    | Raised
    | Returned(value: int)

  datatype Worker = NotStarted | Running | Recorded | Released | Finished

  datatype Call = Call(owner: Owner, caller: Caller, worker: Worker, outputs: seq<int>, failures: seq<bool>,
                       acquires: nat, releases: nat)

  /** `broken` records a release of a lock that nobody holds. */
  datatype State = State(lock: Option<nat>, calls: seq<Call>, broken: bool)

  datatype Step =
    | Begin(owner: Owner)
    | TryAcquire(i: nat)
    | Start(i: nat, ok: bool, exit: bool)
    | AbandonStart(i: nat)
    | Produce(i: nat, value: int)
    | Fail(i: nat, exit: bool)
    | Release(i: nat)
    | Signal(i: nat)
    | GiveUp(i: nat)
    | Collect(i: nat)

  predicate Ended(c: Call) {
    c.caller.Refused? || c.caller.Unavailable? || c.caller.TimedOut? || c.caller.Raised? || c.caller.Returned?
  }

  predicate MayBegin(s: State, owner: Owner) {
    forall i | 0 <= i < |s.calls| && s.calls[i].owner == owner :: Ended(s.calls[i])
  }

  function Put(s: State, i: nat, c: Call): State
    requires i < |s.calls|
  {
    s.(calls := s.calls[i := c])
  }

  function Unlock(s: State, i: nat, c: Call): State
    requires i < |s.calls|
  {
    State(None, s.calls[i := c.(releases := c.releases + 1)], s.broken || s.lock.None?)
  }

  /** What the caller does with a finished worker. */
  function Answer(c: Call): Caller {
    if |c.failures| == 1 && c.failures[0] then Raised
    else if c.failures != [] || |c.outputs| != 1 then Unavailable
    else Returned(c.outputs[0])
  }

  /** One step; a step that is not enabled does nothing. */
  function Next(s: State, step: Step): State {
    if step.Begin? then
      if MayBegin(s, step.owner)
      then s.(calls := s.calls + [Call(step.owner, Entering, NotStarted, [], [], 0, 0)])
      else s
    else if step.i >= |s.calls| then s
    else
      var i, c := step.i, s.calls[step.i];
      match step
      case TryAcquire(_) =>
        if !c.caller.Entering? then s
        else if s.lock.None? then
          s.(lock := Some(i), calls := s.calls[i := c.(caller := Acquired, acquires := c.acquires + 1)])
        else Put(s, i, c.(caller := Refused(s.lock.value)))
      case Start(_, ok, exit) =>
        if !c.caller.Acquired? then s
        else if ok then Put(s, i, c.(caller := Waiting, worker := Running))
        else Put(s, i, c.(caller := StartFailed(exit)))
      case AbandonStart(_) =>
        if !c.caller.StartFailed? then s
        else Unlock(s, i, c.(caller := if c.caller.exit then Raised else Unavailable))
      case Produce(_, value) =>
        if !c.worker.Running? then s else Put(s, i, c.(worker := Recorded, outputs := c.outputs + [value]))
      case Fail(_, exit) =>
        if !c.worker.Running? then s else Put(s, i, c.(worker := Recorded, failures := c.failures + [exit]))
      case Release(_) => if !c.worker.Recorded? then s else Unlock(s, i, c.(worker := Released))
      case Signal(_) => if !c.worker.Released? then s else Put(s, i, c.(worker := Finished))
      case GiveUp(_) => if !c.caller.Waiting? then s else Put(s, i, c.(caller := TimedOut))
      case Collect(_) => if !c.caller.Waiting? || !c.worker.Finished? then s else Put(s, i, c.(caller := Answer(c)))
  }

  function Run(steps: seq<Step>): State {
    if steps == [] then State(None, [], false) else Next(Run(steps[..|steps| - 1]), steps[|steps| - 1])
  }

  // ---- the invariant --------------------------------------------------------------

  /** Between a call's acquire and its release: starting, or its worker has not released yet. */
  predicate InFlight(c: Call) {
    c.caller.Acquired? || c.caller.StartFailed? || c.worker.Running? || c.worker.Recorded?
  }

  predicate Started(c: Call) {
    !c.worker.NotStarted?
  }

  predicate CallOk(c: Call) {
    && c.acquires == (if c.caller.Entering? || c.caller.Refused? then 0 else 1)
    && c.releases == c.acquires - (if InFlight(c) then 1 else 0)
    && (Started(c) ==>
          c.caller.Waiting? || c.caller.TimedOut? || c.caller.Unavailable? || c.caller.Raised? || c.caller.Returned?)
    && (c.caller.Waiting? || c.caller.TimedOut? || c.caller.Returned? ==> Started(c))
    && (Started(c) && (c.caller.Unavailable? || c.caller.Raised? || c.caller.Returned?) ==> c.worker.Finished?)
    && |c.outputs| + |c.failures| == (if c.worker.NotStarted? || c.worker.Running? then 0 else 1)
    && (c.caller.Returned? ==> c.outputs == [c.caller.value])
  }

  /** A refusal names a call in flight at that moment: another owner's, or one this owner gave up on. */
  predicate RefusalOk(calls: seq<Call>, j: nat)
    requires j < |calls|
  {
    calls[j].caller.Refused? ==>
      var k := calls[j].caller.holder;
      k < |calls| && k != j && (calls[k].owner == calls[j].owner ==> calls[k].caller.TimedOut?)
  }

  predicate LockOk(s: State) {
    && (s.lock.Some? ==> s.lock.value < |s.calls|)
    && (forall i | 0 <= i < |s.calls| :: InFlight(s.calls[i]) <==> s.lock == Some(i))
  }

  /** An owner works on one call at a time. */
  predicate OneAtATime(calls: seq<Call>) {
    forall i, j | 0 <= i < j < |calls| && calls[i].owner == calls[j].owner :: Ended(calls[i])
  }

  predicate Inv(s: State) {
    && !s.broken && LockOk(s) && OneAtATime(s.calls)
    && (forall i | 0 <= i < |s.calls| :: CallOk(s.calls[i]))
    && (forall i | 0 <= i < |s.calls| :: RefusalOk(s.calls, i))
  }

  /** The step changes at most one call, and leaves it sound. */
  predicate StepOk(s: State, s': State, i: nat)
    requires i < |s.calls|
  {
    && |s'.calls| == |s.calls| && s'.calls == s.calls[i := s'.calls[i]]
    && var c, c' := s.calls[i], s'.calls[i];
       && CallOk(c') && c'.owner == c.owner && (Ended(c) ==> c'.caller == c.caller) && !s'.broken
       && (c'.caller.Refused? && !c.caller.Refused? ==>
             s.lock == Some(c'.caller.holder) && c'.caller.holder != i && !Ended(c))
       && (InFlight(c') && !InFlight(c) ==> s.lock.None?)
       && (if InFlight(c') then s'.lock == Some(i) else if InFlight(c) then s'.lock == None else s'.lock == s.lock)
  }

  lemma StepKeepsCall(s: State, step: Step)
    requires Inv(s) && !step.Begin? && step.i < |s.calls|
    ensures StepOk(s, Next(s, step), step.i)
  {
    var i, c := step.i, s.calls[step.i];
    assert CallOk(c) && (InFlight(c) <==> s.lock == Some(i));
    hide RefusalOk, OneAtATime;
  }

  lemma FromStep(s: State, s': State, i: nat)
    requires Inv(s) && i < |s.calls| && StepOk(s, s', i)
    ensures Inv(s')
  {
    var c, c' := s.calls[i], s'.calls[i];
    forall k | 0 <= k < |s'.calls| ensures CallOk(s'.calls[k]) && (InFlight(s'.calls[k]) <==> s'.lock == Some(k)) {
      assert k != i ==> s'.calls[k] == s.calls[k];
    }
    forall k | 0 <= k < |s'.calls| ensures RefusalOk(s'.calls, k) {
      assert RefusalOk(s.calls, k);
      if k == i && c'.caller.Refused? && !c.caller.Refused? {
        HolderGaveUp(s, i, c'.caller.holder);
      }
    }
    forall a, b | 0 <= a < b < |s'.calls| && s'.calls[a].owner == s'.calls[b].owner ensures Ended(s'.calls[a]) {
      assert Ended(s.calls[a]);
    }
  }

  /** The lock's holder, if it is another call of the same owner, is one that timed out. */
  lemma HolderGaveUp(s: State, i: nat, k: nat)
    requires Inv(s) && i < |s.calls| && !Ended(s.calls[i]) && s.lock == Some(k) && k != i
    ensures s.calls[k].owner == s.calls[i].owner ==> s.calls[k].caller.TimedOut?
  {
    hide RefusalOk;
    assert InFlight(s.calls[k]) && CallOk(s.calls[k]);
    if s.calls[k].owner == s.calls[i].owner {
      assert k < i ==> Ended(s.calls[k]);
    }
  }

  lemma StepKeeps(s: State, step: Step)
    requires Inv(s)
    ensures Inv(Next(s, step))
  {
    if step.Begin? {
      hide CallOk;
      BeginKeeps(s, step.owner);
    } else if step.i < |s.calls| {
      hide Inv, StepOk, Next;
      StepKeepsCall(s, step);
      FromStep(s, Next(s, step), step.i);
    }
  }

  lemma BeginKeeps(s: State, owner: Owner)
    requires Inv(s)
    ensures Inv(Next(s, Begin(owner)))
  {
    var s' := Next(s, Begin(owner));
    forall k | 0 <= k < |s'.calls| ensures RefusalOk(s'.calls, k) && CallOk(s'.calls[k]) {
      if k < |s.calls| {
        assert RefusalOk(s.calls, k) && CallOk(s.calls[k]);
      }
    }
  }

  /** Every interleaving keeps the invariant. */
  lemma {:induction false} RunKeeps(steps: seq<Step>)
    ensures Inv(Run(steps))
  {
    hide Inv, Next;
    if steps == [] {
      StartOk();
    } else {
      RunKeeps(steps[..|steps| - 1]);
      StepKeeps(Run(steps[..|steps| - 1]), steps[|steps| - 1]);
    }
  }

  lemma StartOk()
    ensures Inv(State(None, [], false))
  {
  }

  /** In every interleaving the lock is held exactly while one call is in flight, also long after
      its caller gave up; it is released once for each acquire and never when free. */
  lemma LockHeldExactly(steps: seq<Step>)
    ensures var s := Run(steps);
      && !s.broken
      && (s.lock.None? <==> forall i | 0 <= i < |s.calls| :: !InFlight(s.calls[i]))
      && (forall i, j | 0 <= i < j < |s.calls| :: !(InFlight(s.calls[i]) && InFlight(s.calls[j])))
      && (forall i | 0 <= i < |s.calls| ::
            && s.calls[i].acquires <= 1
            && s.calls[i].acquires == s.calls[i].releases + if InFlight(s.calls[i]) then 1 else 0)
  {
    RunKeeps(steps);
    var s := Run(steps);
    hide Run;
    forall i | 0 <= i < |s.calls|
      ensures s.calls[i].acquires <= 1
      ensures s.calls[i].acquires == s.calls[i].releases + if InFlight(s.calls[i]) then 1 else 0
    {
      assert CallOk(s.calls[i]);
    }
    hide RefusalOk, OneAtATime, CallOk;
    if s.lock.Some? {
      assert InFlight(s.calls[s.lock.value]);
    }
  }

  /** A result is the one value the operation produced, and its call no longer holds the lock. A
      refusal is never due to a call of the same owner that answered: only to one it gave up on. */
  lemma ResultReleased(steps: seq<Step>, i: nat)
    requires i < |Run(steps).calls|
    ensures var s := Run(steps);
      var c := s.calls[i];
      && (c.caller.Returned? ==>
            c.outputs == [c.caller.value] && c.failures == [] && c.releases == 1 && s.lock != Some(i))
      && (c.caller.Refused? ==>
            && c.caller.holder < |s.calls| && c.acquires == 0 && c.releases == 0
            && (s.calls[c.caller.holder].owner == c.owner ==> s.calls[c.caller.holder].caller.TimedOut?))
  {
    RunKeeps(steps);
    var s := Run(steps);
    hide Run;
    assert CallOk(s.calls[i]) && RefusalOk(s.calls, i) && (InFlight(s.calls[i]) <==> s.lock == Some(i));
  }
}
