/**
 `prepare_budgeted_discovery` as a step system: any number of requests share one meter, and each
 races its caller against its own embedding thread, which may still wake up after the deadline.
 */
module BudgetedDiscovery {
  import opened Order
  import opened Budget

  const MAX_ELAPSED_MS: nat := 5000

  function MaximumFor(tokens: nat): Usage {
    Usage(tokens, 1, 1, MAX_ELAPSED_MS)
  }

  /** The embedding thread; `called` says whether the provider call was made. */
  datatype Worker = Unborn | Ready | LetThrough | Calling | Ended(ok: bool, called: bool)

  datatype Caller =
    | Entering
    | Denied
    | Holding
    | Waiting
    | Judging(ok: bool)
    | Closing(actual: Option<Usage>)
    | Settling(asStarted: bool, actual: Option<Usage>)
    | Failed
    | Returned(elapsed: nat)

  /** `calls`, `commits`, `cancels` and `errors` count what happened; `errors` are settlements the
      meter would refuse. */
  datatype Request = Request(tokens: nat, handle: nat, caller: Caller, worker: Worker, allowed: bool, started: bool,
                             calls: nat, commits: nat, cancels: nat, errors: nat)

  datatype State = State(meter: Ledger, requests: seq<Request>)

  datatype Step =
    | Begin(tokens: nat)
    | Hold(i: nat)
    | Spawn(i: nat, ok: bool)
    | Mark(i: nat)
    | Call(i: nat)
    | Finish(i: nat, ok: bool)
    | GiveUp(i: nat)
    | Collect(i: nat)
    | Judge(i: nat, valid: bool, elapsed: int)
    | Close(i: nat)
    | Settle(i: nat)

  function Put(s: State, i: nat, r: Request): State
    requires i < |s.requests|
  {
    s.(requests := s.requests[i := r])
  }

  /** The `finally` block after the lock: commit the actual usage or the maximum, or cancel. */
  function SettleNow(s: State, i: nat): State
    requires i < |s.requests| && s.requests[i].caller.Settling?
  {
    var r := s.requests[i];
    var actual := if r.caller.actual.Some? then r.caller.actual.value else MaximumFor(r.tokens);
    var after := if r.caller.actual.Some? then Returned(r.caller.actual.value.elapsedMs) else Failed;
    if !IsActive(s.meter, r.handle) || !AtMost(s.meter.issued[r.handle].maximum, s.meter.reserved)
       || (r.caller.asStarted && !AtMost(actual, s.meter.issued[r.handle].maximum))
    then Put(s, i, r.(caller := Failed, errors := r.errors + 1))
    else if r.caller.asStarted
    then State(Commit(s.meter, r.handle, actual), s.requests[i := r.(caller := after, commits := r.commits + 1)])
    else State(Cancel(s.meter, r.handle), s.requests[i := r.(caller := after, cancels := r.cancels + 1)])
  }

  /** One step; a step that is not enabled does nothing. */
  function Next(s: State, step: Step): State {
    if step.Begin? then
      s.(requests := s.requests + [Request(step.tokens, 0, Entering, Unborn, true, false, 0, 0, 0, 0)])
    else if step.i >= |s.requests| then s
    else
      var i, r := step.i, s.requests[step.i];
      match step
      case Hold(_) =>
        if !r.caller.Entering? then s
        else if !CanReserve(s.meter, MaximumFor(r.tokens)) then Put(s, i, r.(caller := Denied))
        else State(Reserve(s.meter, MaximumFor(r.tokens)),
                   s.requests[i := r.(caller := Holding, handle := |s.meter.issued|)])
      case Spawn(_, ok) =>
        if !r.caller.Holding? then s
        else if ok then Put(s, i, r.(caller := Waiting, worker := Ready))
        else Put(s, i, r.(caller := Judging(false)))
      case Mark(_) =>
        if !r.worker.Ready? then s
        else if !r.allowed then Put(s, i, r.(worker := Ended(false, false)))
        else Put(s, i, r.(worker := LetThrough, started := true))
      case Call(_) => if !r.worker.LetThrough? then s else Put(s, i, r.(worker := Calling, calls := r.calls + 1))
      case Finish(_, ok) => if !r.worker.Calling? then s else Put(s, i, r.(worker := Ended(ok, true)))
      case GiveUp(_) => if !r.caller.Waiting? then s else Put(s, i, r.(caller := Judging(false)))
      case Collect(_) =>
        if !r.caller.Waiting? || !r.worker.Ended? then s else Put(s, i, r.(caller := Judging(r.worker.ok)))
      case Judge(_, valid, elapsed) =>
        if !r.caller.Judging? then s
        else if r.caller.ok && valid && 0 <= elapsed <= MAX_ELAPSED_MS
        then Put(s, i, r.(caller := Closing(Some(Usage(r.tokens, 1, 1, elapsed)))))
        else Put(s, i, r.(caller := Closing(None)))
      case Close(_) =>
        if !r.caller.Closing? then s
        else Put(s, i, r.(caller := Settling(r.started, r.caller.actual), allowed := false))
      case Settle(_) => if !r.caller.Settling? then s else SettleNow(s, i)
  }

  function Start(budget: Usage, initial: Usage): State {
    State(Ledger(budget, initial, initial, Nothing, []), [])
  }

  function Run(s: State, steps: seq<Step>): State {
    if steps == [] then s else Next(Run(s, steps[..|steps| - 1]), steps[|steps| - 1])
  }

  // ---- the invariant --------------------------------------------------------------

  predicate HasHandle(r: Request) {
    !r.caller.Entering? && !r.caller.Denied?
  }

  predicate Done(r: Request) {
    r.caller.Failed? || r.caller.Returned?
  }

  /** The two threads agree about the provider call. */
  predicate ThreadsOk(r: Request) {
    && r.calls == (if r.worker.Calling? || (r.worker.Ended? && r.worker.called) then 1 else 0)
    && r.started == (r.worker.LetThrough? || r.worker.Calling? || (r.worker.Ended? && r.worker.called))
    && (r.worker.Ended? && r.worker.ok ==> r.worker.called)
    && (r.worker.Unborn? <== !HasHandle(r) || r.caller.Holding?)
    && (r.caller.Waiting? ==> !r.worker.Unborn?)
    && (r.allowed <==> !(r.caller.Settling? || Done(r)))
    && (r.caller.Judging? && r.caller.ok ==> r.worker == Ended(true, true))
    && (r.caller.Closing? && r.caller.actual.Some? ==> r.started)
    && (r.caller.Settling? ==> r.caller.asStarted == r.started && (r.caller.actual.Some? ==> r.started))
    && (r.caller.Returned? ==> r.started)
    && r.errors == 0
    && r.commits == (if Done(r) && r.started then 1 else 0) && r.cancels == (if Done(r) && !r.started then 1 else 0)
  }

  predicate ActualOk(r: Request, actual: Option<Usage>) {
    actual.Some? ==>
      && actual.value.elapsedMs <= MAX_ELAPSED_MS
      && actual.value == Usage(r.tokens, 1, 1, actual.value.elapsedMs)
  }

  function ChargeOf(r: Request): Option<Usage> {
    if !r.started then None
    else Some(if r.caller.Returned? then Usage(r.tokens, 1, 1, r.caller.elapsed) else MaximumFor(r.tokens))
  }

  /** The reservation is open until the request settles, and then carries its charge. */
  predicate BooksOk(m: Ledger, r: Request) {
    HasHandle(r) ==>
      && r.handle < |m.issued|
      && var held := m.issued[r.handle];
         && held.maximum == MaximumFor(r.tokens)
         && held.active == !Done(r)
         && (r.caller.Closing? || r.caller.Settling? ==> ActualOk(r, r.caller.actual))
         && (Done(r) ==> held.charged == ChargeOf(r))
         && (r.caller.Returned? ==> r.caller.elapsed <= MAX_ELAPSED_MS)
  }

  predicate DistinctHandles(rs: seq<Request>) {
    forall i, j | 0 <= i < j < |rs| && HasHandle(rs[i]) && HasHandle(rs[j]) :: rs[i].handle != rs[j].handle
  }

  ghost predicate Inv(s: State) {
    && Balanced(s.meter) && DistinctHandles(s.requests)
    && (forall i | 0 <= i < |s.requests| :: ThreadsOk(s.requests[i]))
    && (forall i | 0 <= i < |s.requests| :: BooksOk(s.meter, s.requests[i]))
  }

  /** The step touches request `i` and at most its own reservation. */
  ghost predicate StepOk(s: State, s': State, i: nat)
    requires i < |s.requests|
  {
    && |s'.requests| == |s.requests| && s'.requests == s.requests[i := s'.requests[i]]
    && var r, r' := s.requests[i], s'.requests[i];
       && ThreadsOk(r') && BooksOk(s'.meter, r') && Balanced(s'.meter)
       && |s.meter.issued| <= |s'.meter.issued|
       && (HasHandle(r) ==> HasHandle(r') && r'.handle == r.handle)
       && (HasHandle(r') && !HasHandle(r) ==> r'.handle == |s.meter.issued|)
       && (forall k | 0 <= k < |s.meter.issued| && (HasHandle(r) ==> k != r.handle) ::
             s'.meter.issued[k] == s.meter.issued[k])
  }

  lemma HoldOk(s: State, i: nat)
    requires Inv(s) && i < |s.requests|
    ensures StepOk(s, Next(s, Hold(i)), i)
  {
    assert ThreadsOk(s.requests[i]) && BooksOk(s.meter, s.requests[i]);
    hide Balanced;
    if CanReserve(s.meter, MaximumFor(s.requests[i].tokens)) {
      ReserveBalanced(s.meter, MaximumFor(s.requests[i].tokens));
    }
  }

  lemma SettleOk(s: State, i: nat)
    requires Inv(s) && i < |s.requests|
    ensures StepOk(s, Next(s, Settle(i)), i)
  {
    var r := s.requests[i];
    assert ThreadsOk(r) && BooksOk(s.meter, r);
    if r.caller.Settling? {
      var actual := if r.caller.actual.Some? then r.caller.actual.value else MaximumFor(r.tokens);
      assert s.meter.issued[r.handle].charged.None?;
      SettleBalanced(s.meter, r.handle, actual);
    }
    hide Balanced;
  }

  predicate ByWorker(step: Step) {
    step.Mark? || step.Call? || step.Finish?
  }

  lemma WorkerOk(s: State, step: Step)
    requires Inv(s) && ByWorker(step) && step.i < |s.requests|
    ensures StepOk(s, Next(s, step), step.i)
  {
    hide Balanced, DistinctHandles;
    assert ThreadsOk(s.requests[step.i]) && BooksOk(s.meter, s.requests[step.i]);
  }

  predicate Awaits(step: Step) {
    step.Spawn? || step.GiveUp? || step.Collect?
  }

  lemma AwaitOk(s: State, step: Step)
    requires Inv(s) && Awaits(step) && step.i < |s.requests|
    ensures StepOk(s, Next(s, step), step.i)
  {
    hide Balanced, DistinctHandles;
    assert ThreadsOk(s.requests[step.i]) && BooksOk(s.meter, s.requests[step.i]);
  }

  lemma CloseOk(s: State, step: Step)
    requires Inv(s) && (step.Judge? || step.Close?) && step.i < |s.requests|
    ensures StepOk(s, Next(s, step), step.i)
  {
    hide Balanced, DistinctHandles;
    assert ThreadsOk(s.requests[step.i]) && BooksOk(s.meter, s.requests[step.i]);
  }

  lemma FromStep(s: State, s': State, i: nat)
    requires Inv(s) && i < |s.requests| && StepOk(s, s', i)
    ensures Inv(s')
  {
    hide Balanced, ThreadsOk;
    forall k | 0 <= k < |s'.requests| ensures ThreadsOk(s'.requests[k]) && BooksOk(s'.meter, s'.requests[k]) {
      if k != i {
        assert s'.requests[k] == s.requests[k] && ThreadsOk(s.requests[k]) && BooksOk(s.meter, s.requests[k]);
      }
    }
    forall a, b | 0 <= a < b < |s'.requests| && HasHandle(s'.requests[a]) && HasHandle(s'.requests[b])
      ensures s'.requests[a].handle != s'.requests[b].handle
    {
      assert BooksOk(s.meter, s.requests[a]) && BooksOk(s.meter, s.requests[b]);
    }
  }

  lemma BeginOk(s: State, tokens: nat)
    requires Inv(s)
    ensures Inv(Next(s, Begin(tokens)))
  {
    hide Balanced;
    var s' := Next(s, Begin(tokens));
    forall k | 0 <= k < |s'.requests| ensures ThreadsOk(s'.requests[k]) && BooksOk(s'.meter, s'.requests[k]) {
      if k < |s.requests| {
        assert ThreadsOk(s.requests[k]) && BooksOk(s.meter, s.requests[k]);
      }
    }
  }

  lemma StepKeeps(s: State, step: Step)
    requires Inv(s)
    ensures Inv(Next(s, step))
  {
    if step.Begin? {
      BeginOk(s, step.tokens);
    } else if step.i < |s.requests| {
      hide Inv, StepOk, Next;
      if step.Hold? {
        HoldOk(s, step.i);
      } else if step.Settle? {
        SettleOk(s, step.i);
      } else if ByWorker(step) {
        WorkerOk(s, step);
      } else if Awaits(step) {
        AwaitOk(s, step);
      } else {
        CloseOk(s, step);
      }
      FromStep(s, Next(s, step), step.i);
    }
  }

  lemma {:induction false} RunKeeps(budget: Usage, initial: Usage, steps: seq<Step>)
    requires AtMost(initial, budget)
    ensures Inv(Run(Start(budget, initial), steps))
    ensures Run(Start(budget, initial), steps).meter.budget == budget
    ensures Run(Start(budget, initial), steps).meter.initial == initial
  {
    if steps != [] {
      RunKeeps(budget, initial, steps[..|steps| - 1]);
      hide Inv;
      StepKeeps(Run(Start(budget, initial), steps[..|steps| - 1]), steps[|steps| - 1]);
      hide Run;
      SameBudget(Run(Start(budget, initial), steps[..|steps| - 1]), steps[|steps| - 1]);
    }
  }

  lemma SameBudget(s: State, step: Step)
    ensures Next(s, step).meter.budget == s.meter.budget && Next(s, step).meter.initial == s.meter.initial
  {
  }

  /** In every interleaving a settled request was settled exactly once and without error; it was
      committed if and only if its provider call was let through, and cancelled otherwise. A
      cancelled request has made no provider call and never will: this is said of every state of
      every run. */
  lemma SettledOnce(budget: Usage, initial: Usage, steps: seq<Step>, i: nat)
    requires AtMost(initial, budget) && i < |Run(Start(budget, initial), steps).requests|
    ensures var r := Run(Start(budget, initial), steps).requests[i];
      && r.errors == 0
      && r.commits + r.cancels == (if Done(r) then 1 else 0)
      && (Done(r) ==> (r.commits == 1 <==> r.started))
      && (r.calls <= 1 && (r.calls == 1 ==> r.started))
      && (r.started && !r.worker.LetThrough? ==> r.calls == 1)
      && (r.commits == 1 ==> (r.calls == 0 <==> r.worker.LetThrough?))
      && (r.cancels == 1 ==> r.calls == 0 && !r.worker.LetThrough?)
  {
    RunKeeps(budget, initial, steps);
    var s := Run(Start(budget, initial), steps);
    hide Run;
    assert ThreadsOk(s.requests[i]);
  }

  /** What a request is charged: the actual usage when it succeeds, the reserved maximum when it
      fails after its provider call was let through, nothing when cancelled; never more than it
      reserved, in any component. */
  lemma ChargedRight(budget: Usage, initial: Usage, steps: seq<Step>, i: nat)
    requires AtMost(initial, budget) && i < |Run(Start(budget, initial), steps).requests|
    requires Done(Run(Start(budget, initial), steps).requests[i])
    ensures var s := Run(Start(budget, initial), steps);
      var r := s.requests[i];
      && r.handle < |s.meter.issued|
      && var held := s.meter.issued[r.handle];
         && !held.active && held.maximum == MaximumFor(r.tokens)
         && (r.caller.Returned? ==> r.started && held.charged == Some(Usage(r.tokens, 1, 1, r.caller.elapsed)))
         && (r.caller.Failed? ==> held.charged == if r.started then Some(MaximumFor(r.tokens)) else None)
         && (held.charged.Some? ==> AtMost(held.charged.value, held.maximum))
  {
    RunKeeps(budget, initial, steps);
    var s := Run(Start(budget, initial), steps);
    hide Run;
    assert ThreadsOk(s.requests[i]) && BooksOk(s.meter, s.requests[i]);
  }

  /** The meter stays balanced: usage is the initial usage plus every charge, open reservations are
      held back exactly, and together they never exceed the budget. */
  lemma NeverOverspent(budget: Usage, initial: Usage, steps: seq<Step>)
    requires AtMost(initial, budget)
    ensures var m := Run(Start(budget, initial), steps).meter;
      && m.usage == Plus(initial, Charged(m.issued)) && m.reserved == Outstanding(m.issued)
      && AtMost(Plus(m.usage, m.reserved), budget)
  {
    RunKeeps(budget, initial, steps);
    hide Run;
  }

  /** The commit may come first: the thread is let through, the caller gives up and settles, and the
      provider has not been called yet. */
  lemma CommitBeforeCall(budget: Usage, tokens: nat)
    requires AtMost(MaximumFor(tokens), budget)
    ensures var s := Run(Start(budget, Nothing), [Begin(tokens), Hold(0), Spawn(0, true), Mark(0), GiveUp(0),
                                                  Judge(0, false, 0), Close(0), Settle(0)]);
      |s.requests| == 1 && s.requests[0].commits == 1 && s.requests[0].calls == 0 && s.requests[0].worker.LetThrough?
  {
    var s0, s2 := Start(budget, Nothing), Lone(budget, tokens, Holding, Unborn, true);
    var s3, s4 := Lone(budget, tokens, Waiting, Ready, true), Lone(budget, tokens, Waiting, LetThrough, true);
    var s5 := Lone(budget, tokens, Judging(false), LetThrough, true);
    var s6 := Lone(budget, tokens, Closing(None), LetThrough, true);
    var s7 := Lone(budget, tokens, Settling(true, None), LetThrough, false);
    LoneArrives(budget, tokens);
    LoneReserves(budget, tokens);
    LoneHolds(budget, tokens);
    LoneStarts(budget, tokens);
    LoneGivesUp(budget, tokens);
    LoneSettles(budget, tokens);
    assert Next(Arrived(budget, tokens), Hold(0)) == s2;
    hide Next, Run, Lone, Start, Arrived;
    RunEight(s0, Begin(tokens), Hold(0), Spawn(0, true), Mark(0), GiveUp(0), Judge(0, false, 0), Close(0), Settle(0));
  }

  /** One request that holds its reservation, and nothing else. */
  function Lone(budget: Usage, tokens: nat, caller: Caller, worker: Worker, allowed: bool): State {
    State(Ledger(budget, Nothing, Nothing, MaximumFor(tokens), [Reservation(MaximumFor(tokens), true, None)]),
          [Request(tokens, 0, caller, worker, allowed, worker.LetThrough?, 0, 0, 0, 0)])
  }

  function Arrived(budget: Usage, tokens: nat): State {
    State(Ledger(budget, Nothing, Nothing, Nothing, []),
          [Request(tokens, 0, Entering, Unborn, true, false, 0, 0, 0, 0)])
  }

  lemma LoneArrives(budget: Usage, tokens: nat)
    ensures Next(Start(budget, Nothing), Begin(tokens)) == Arrived(budget, tokens)
  {
  }

  lemma LoneReserves(budget: Usage, tokens: nat)
    requires AtMost(MaximumFor(tokens), budget)
    ensures var meter := Arrived(budget, tokens).meter;
      && CanReserve(meter, MaximumFor(tokens))
      && Reserve(meter, MaximumFor(tokens)) == Lone(budget, tokens, Holding, Unborn, true).meter
  {
  }

  lemma LoneHolds(budget: Usage, tokens: nat)
    requires CanReserve(Arrived(budget, tokens).meter, MaximumFor(tokens))
    ensures Next(Arrived(budget, tokens), Hold(0)).requests == Lone(budget, tokens, Holding, Unborn, true).requests
    ensures Next(Arrived(budget, tokens), Hold(0)).meter == Reserve(Arrived(budget, tokens).meter, MaximumFor(tokens))
  {
    hide CanReserve, Reserve;
  }

  lemma LoneStarts(budget: Usage, tokens: nat)
    ensures Next(Lone(budget, tokens, Holding, Unborn, true), Spawn(0, true)) ==
            Lone(budget, tokens, Waiting, Ready, true)
    ensures Next(Lone(budget, tokens, Waiting, Ready, true), Mark(0)) == Lone(budget, tokens, Waiting, LetThrough, true)
  {
  }

  lemma LoneGivesUp(budget: Usage, tokens: nat)
    ensures Next(Lone(budget, tokens, Waiting, LetThrough, true), GiveUp(0)) ==
            Lone(budget, tokens, Judging(false), LetThrough, true)
    ensures Next(Lone(budget, tokens, Judging(false), LetThrough, true), Judge(0, false, 0)) ==
            Lone(budget, tokens, Closing(None), LetThrough, true)
    ensures Next(Lone(budget, tokens, Closing(None), LetThrough, true), Close(0)) ==
            Lone(budget, tokens, Settling(true, None), LetThrough, false)
  {
  }

  lemma LoneSettles(budget: Usage, tokens: nat)
    ensures var s := Next(Lone(budget, tokens, Settling(true, None), LetThrough, false), Settle(0));
      s.requests == [Request(tokens, 0, Failed, LetThrough, false, true, 0, 1, 0, 0)]
  {
  }

  lemma RunEight(s: State, a: Step, b: Step, c: Step, d: Step, e: Step, f: Step, g: Step, h: Step)
    ensures Run(s, [a, b, c, d, e, f, g, h]) ==
            Next(Next(Next(Next(Next(Next(Next(Next(s, a), b), c), d), e), f), g), h)
  {
    hide Next;
    assert [a, b, c, d, e, f, g, h][..7] == [a, b, c, d, e, f, g] && [a, b, c, d, e, f, g][..6] == [a, b, c, d, e, f];
    assert [a, b, c, d, e, f][..5] == [a, b, c, d, e] && [a, b, c, d, e][..4] == [a, b, c, d];
    assert [a, b, c, d][..3] == [a, b, c] && [a, b, c][..2] == [a, b] && [a, b][..1] == [a] && [a][..0] == [];
    assert Run(s, [a, b]) == Next(Run(s, [a]), b) && Run(s, [a, b, c]) == Next(Run(s, [a, b]), c);
    assert Run(s, [a, b, c, d]) == Next(Run(s, [a, b, c]), d);
    assert Run(s, [a, b, c, d, e]) == Next(Run(s, [a, b, c, d]), e);
    assert Run(s, [a, b, c, d, e, f]) == Next(Run(s, [a, b, c, d, e]), f);
    assert Run(s, [a, b, c, d, e, f, g]) == Next(Run(s, [a, b, c, d, e, f]), g);
  }
}
