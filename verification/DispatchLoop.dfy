/**
 The dispatch loop and the ticker thread of the job in flight, interleaved freely, both feeding
 one progress reporter whose emitter may fail at any record.
 */
module DispatchLoop {
  import opened Order
  import opened References
  import opened WorkerProgress

  datatype Ending = Succeeded | Declined(reason: Reason) | Broke

  datatype Loop =
    | Polling
    | Claimed(job: string)
    | Announced(job: string)
    | Working(job: string)
    | Stopping(job: string, ending: Ending)
    | Joining(job: string, ending: Ending)
    | Checking(job: string, ending: Ending)
    | Reporting(result: CycleResult)
    | Crashed

  /** `Waking` is a ticker whose wait timed out before the stop, and that still has to observe. */
  datatype Ticker = Absent | Sleeping(job: string) | Waking(job: string) | Gone

  /** `errors` is the ticker's error list; `faults` counts the exceptions the reporter raised itself
      and `lost` the records its emitter failed on; `cycles` are the results that were reported. */
  datatype State = State(loop: Loop, ticker: Ticker, stop: bool, errors: nat, reporter: Reporter,
                         emitted: seq<Progress>, cycles: seq<CycleResult>, faults: nat, lost: nat)

  datatype Step =
    | Claim(job: Option<string>)
    | Announce(batch: string, delivered: bool)
    | StartTicker(ok: bool)
    | EndJob(ending: Ending)
    | SetStop
    | Join
    | Check
    | Observe(delivered: bool)
    | Wake
    | Tick(batch: string, delivered: bool)

  /** Job references are SHA-256 digests, and so are the random batch references. */
  predicate Proper(step: Step) {
    && (step.Claim? && step.job.Some? ==> IsDigest(step.job.value))
    && (step.Announce? || step.Tick? ==> IsDigest(step.batch))
  }

  function ResultOf(job: string, ending: Ending): CycleResult
    requires !ending.Broke?
  {
    if ending.Succeeded? then JobDispatched(job) else JobRefused(job, ending.reason)
  }

  function Heard(s: State, reply: Reply): State {
    match reply
    case Told(r, more) => s.(reporter := r, emitted := s.emitted + more)
    case Fault(r) => s.(reporter := r, faults := s.faults + 1)
    case Lost(r) => s.(reporter := r, lost := s.lost + 1)
  }

  /** One step; a step that is not enabled does nothing. */
  function Next(s: State, step: Step): State {
    match step
    case Claim(job) =>
      if !s.loop.Polling? then s
      else if job.None? then s.(loop := Reporting(NoWork))
      else s.(loop := Claimed(job.value))
    case Announce(batch, delivered) =>
      if !s.loop.Claimed? then s
      else
        var reply := ActiveSent(s.reporter, s.loop.job, batch, delivered);
        Heard(s, reply).(loop := if reply.Told? then Announced(s.loop.job) else Crashed)
    case StartTicker(ok) =>
      if !s.loop.Announced? then s
      else if !ok then s.(loop := Crashed)
      else s.(loop := Working(s.loop.job), ticker := Sleeping(s.loop.job), stop := false, errors := 0)
    case EndJob(ending) => if !s.loop.Working? then s else s.(loop := Stopping(s.loop.job, ending))
    case SetStop => if !s.loop.Stopping? then s else s.(stop := true, loop := Joining(s.loop.job, s.loop.ending))
    case Join =>
      if !s.loop.Joining? || !s.ticker.Gone? then s
      else s.(loop := Checking(s.loop.job, s.loop.ending), ticker := Absent)
    case Check =>
      if !s.loop.Checking? then s
      else if s.loop.ending.Broke? || s.errors > 0 then s.(loop := Crashed)
      else s.(loop := Reporting(ResultOf(s.loop.job, s.loop.ending)))
    case Observe(delivered) =>
      if !s.loop.Reporting? then s
      else
        var reply := CycleSent(s.reporter, s.loop.result, delivered);
        if reply.Told? then Heard(s, reply).(loop := Polling, cycles := s.cycles + [s.loop.result])
        else Heard(s, reply).(loop := Crashed)
    case Wake =>
      if !s.ticker.Sleeping? then s else if s.stop then s.(ticker := Gone) else s.(ticker := Waking(s.ticker.job))
    case Tick(batch, delivered) =>
      if !s.ticker.Waking? then s
      else
        var reply := ActiveSent(s.reporter, s.ticker.job, batch, delivered);
        Heard(s, reply).(ticker := Sleeping(s.ticker.job), stop := s.stop || !reply.Told?,
                         errors := s.errors + if reply.Told? then 0 else 1)
  }

  const Start: State := State(Polling, Absent, false, 0, Idle, [], [], 0, 0)

  function Run(steps: seq<Step>): State {
    if steps == [] then Start else Next(Run(steps[..|steps| - 1]), steps[|steps| - 1])
  }

  // ---- what the cycles seen so far add up to --------------------------------------

  datatype Sum = Sum(jobs: nat, refused: nat)

  function Count(x: Sum, result: CycleResult): Sum {
    match result
    case NoWork => x
    case JobDispatched(_) => Sum(x.jobs + 1, x.refused)
    case JobRefused(_, _) => Sum(x.jobs + 1, x.refused + 1)
  }

  /** Terminal cycles since the last idle poll. */
  function OpenBatch(cycles: seq<CycleResult>): Sum {
    if cycles == [] || cycles[|cycles| - 1].NoWork? then Sum(0, 0)
    else Count(OpenBatch(cycles[..|cycles| - 1]), cycles[|cycles| - 1])
  }

  /** The batches idle polls have closed: maximal runs of terminal cycles. */
  function ClosedBatches(cycles: seq<CycleResult>): seq<Sum> {
    if cycles == [] then []
    else
      var init := cycles[..|cycles| - 1];
      if cycles[|cycles| - 1].NoWork? && OpenBatch(init).jobs > 0
      then ClosedBatches(init) + [OpenBatch(init)]
      else ClosedBatches(init)
  }

  function All(cycles: seq<CycleResult>): Sum {
    if cycles == [] then Sum(0, 0) else Count(All(cycles[..|cycles| - 1]), cycles[|cycles| - 1])
  }

  function Total(sums: seq<Sum>): Sum {
    if sums == [] then Sum(0, 0)
    else
      var before, last := Total(sums[..|sums| - 1]), sums[|sums| - 1];
      Sum(before.jobs + last.jobs, before.refused + last.refused)
  }

  /** Closed batches and the open one account for every terminal cycle, once. */
  lemma {:induction false} BatchesPartition(cycles: seq<CycleResult>)
    ensures var closed, now := Total(ClosedBatches(cycles)), OpenBatch(cycles);
      All(cycles) == Sum(closed.jobs + now.jobs, closed.refused + now.refused)
    ensures OpenBatch(cycles).refused <= OpenBatch(cycles).jobs
  {
    if cycles != [] {
      var init := cycles[..|cycles| - 1];
      BatchesPartition(init);
      var closed := ClosedBatches(cycles);
      if cycles[|cycles| - 1].NoWork? && OpenBatch(init).jobs > 0 {
        assert closed[..|closed| - 1] == ClosedBatches(init);
      }
    }
  }

  // ---- what the emitted records say -----------------------------------------------

  /** The counters of the records that close a batch. */
  function Closings(ps: seq<Progress>): seq<(int, int, int)> {
    if ps == [] then []
    else
      var last := ps[|ps| - 1];
      Closings(ps[..|ps| - 1]) + if last.phase.Complete? then [(last.processed, last.total, last.failed)] else []
  }

  /** The terminal records, as the cycles they stand for. */
  function Terminals(ps: seq<Progress>): seq<CycleResult> {
    if ps == [] then []
    else
      var last := ps[|ps| - 1];
      Terminals(ps[..|ps| - 1]) +
      match (last.current, last.outcome, last.reason) {
        case (Some(job), Some(Dispatched), _) => [JobDispatched(job)]
        case (Some(job), Some(Refused), Some(reason)) => [JobRefused(job, reason)]
        case _ => []
      }
  }

  function Jobs(cycles: seq<CycleResult>): seq<CycleResult> {
    if cycles == [] then []
    else Jobs(cycles[..|cycles| - 1]) + if cycles[|cycles| - 1].NoWork? then [] else [cycles[|cycles| - 1]]
  }

  function Counters(sums: seq<Sum>): seq<(int, int, int)> {
    seq(|sums|, i requires 0 <= i < |sums| => (sums[i].jobs, sums[i].jobs, sums[i].refused))
  }

  ghost predicate AllValid(ps: seq<Progress>) {
    forall i | 0 <= i < |ps| :: ValidProgress(ps[i])
  }

  // ---- the invariant --------------------------------------------------------------

  /** The job the reporter must hold as current. */
  function InHand(loop: Loop): Option<string> {
    match loop
    case Announced(job) => Some(job)
    case Working(job) => Some(job)
    case Stopping(job, _) => Some(job)
    case Joining(job, _) => Some(job)
    case Checking(job, _) => Some(job)
    case Reporting(result) => if result.NoWork? then None else Some(result.job)
    case _ => None
  }

  /** The ticker lives only between its start and its join, for the same job. */
  predicate TickerOk(s: State) {
    match s.ticker
    case Absent => !InFlight(s.loop)
    case Gone => InFlight(s.loop) && s.stop
    case _ =>
      && InFlight(s.loop) && s.ticker.job == s.loop.job
      && (s.stop <==> s.loop.Joining? || s.errors > 0) && (s.ticker.Waking? ==> s.errors == 0)
  }

  predicate InFlight(loop: Loop) {
    loop.Working? || loop.Stopping? || loop.Joining?
  }

  predicate ReporterOk(r: Reporter, now: Sum) {
    && r.processed == now.jobs && r.failed == now.refused && now.refused <= now.jobs
    && r.total == now.jobs + (if r.current.Some? then 1 else 0)
    && (r.batch.Some? <==> now.jobs > 0 || r.current.Some?)
    && (r.batch.Some? ==> IsDigest(r.batch.value)) && (r.current.Some? ==> IsDigest(r.current.value))
  }

  predicate LoopOk(s: State) {
    && s.faults == 0 && s.errors <= s.lost <= 1
    && (s.lost == 1 ==> s.loop.Crashed? || (s.errors == 1 && (InFlight(s.loop) || s.loop.Checking?)))
    && (s.loop.Crashed? || s.reporter.current == InHand(s.loop))
    && (s.loop.Claimed? ==> IsDigest(s.loop.job))
  }

  ghost predicate Inv(s: State) {
    && TickerOk(s) && LoopOk(s) && AllValid(s.emitted)
    && (!s.loop.Crashed? ==> ReporterOk(s.reporter, OpenBatch(s.cycles)))
    && Closings(s.emitted) == Counters(ClosedBatches(s.cycles))
    && Terminals(s.emitted) == Jobs(s.cycles)
  }

  lemma EmitOne(ps: seq<Progress>, p: Progress)
    requires AllValid(ps) && ValidProgress(p)
    ensures AllValid(ps + [p])
    ensures Closings(ps + [p]) == Closings(ps) + if p.phase.Complete? then [(p.processed, p.total, p.failed)] else []
    ensures p.outcome.None? ==> Terminals(ps + [p]) == Terminals(ps)
    ensures p.current.Some? && p.outcome == Some(Dispatched) ==>
            Terminals(ps + [p]) == Terminals(ps) + [JobDispatched(p.current.value)]
    ensures p.current.Some? && p.outcome == Some(Refused) && p.reason.Some?
            ==> Terminals(ps + [p]) == Terminals(ps) + [JobRefused(p.current.value, p.reason.value)]
  {
    hide ValidProgress;
    assert (ps + [p])[..|ps|] == ps;
  }

  /** Announcing the current job, by the loop or by its ticker, cannot fail. */
  lemma ActiveOk(s: State, job: string, batch: string)
    requires ReporterOk(s.reporter, OpenBatch(s.cycles)) && AllValid(s.emitted) && IsDigest(job) && IsDigest(batch)
    requires s.reporter.current.None? || s.reporter.current == Some(job)
    ensures var reply := Active(s.reporter, job, batch);
      && reply.Told? && ReporterOk(reply.reporter, OpenBatch(s.cycles)) && reply.reporter.current == Some(job)
      && AllValid(s.emitted + reply.emitted) && Closings(s.emitted + reply.emitted) == Closings(s.emitted)
      && Terminals(s.emitted + reply.emitted) == Terminals(s.emitted)
  {
    hide IsDigest, OpenBatch;
    EmitOne(s.emitted, Active(s.reporter, job, batch).emitted[0]);
  }

  lemma CyclesOne(cycles: seq<CycleResult>, result: CycleResult)
    ensures var more := cycles + [result];
      && OpenBatch(more) == (if result.NoWork? then Sum(0, 0) else Count(OpenBatch(cycles), result))
      && ClosedBatches(more) == (if result.NoWork? && OpenBatch(cycles).jobs > 0
                                 then ClosedBatches(cycles) + [OpenBatch(cycles)] else ClosedBatches(cycles))
      && Jobs(more) == Jobs(cycles) + if result.NoWork? then [] else [result]
  {
    assert (cycles + [result])[..|cycles|] == cycles;
  }

  /** Reporting the loop's own result cannot fail, and keeps the books. */
  lemma CycleOk(s: State, result: CycleResult)
    requires ReporterOk(s.reporter, OpenBatch(s.cycles)) && AllValid(s.emitted)
    requires Closings(s.emitted) == Counters(ClosedBatches(s.cycles)) && Terminals(s.emitted) == Jobs(s.cycles)
    requires s.reporter.current == if result.NoWork? then None else Some(result.job)
    ensures var reply := Cycle(s.reporter, result);
      var more := s.cycles + [result];
      && reply.Told? && ReporterOk(reply.reporter, OpenBatch(more)) && reply.reporter.current.None?
      && AllValid(s.emitted + reply.emitted)
      && Closings(s.emitted + reply.emitted) == Counters(ClosedBatches(more))
      && Terminals(s.emitted + reply.emitted) == Jobs(more)
  {
    hide IsDigest, OpenBatch, ClosedBatches, Jobs, Closings, Terminals;
    var reply := Cycle(s.reporter, result);
    CyclesOne(s.cycles, result);
    if reply.emitted == [] {
      assert s.emitted + reply.emitted == s.emitted;
    } else {
      EmitOne(s.emitted, reply.emitted[0]);
      hide ValidProgress, AllValid;
      assert reply.emitted == [reply.emitted[0]];
    }
  }

  lemma StepKeeps(s: State, step: Step)
    requires Inv(s) && Proper(step)
    ensures Inv(Next(s, step))
  {
    hide IsDigest, OpenBatch, ClosedBatches, Jobs, Closings, Terminals, AllValid, ReporterOk, Counters, Active, Cycle;
    if step.Announce? && s.loop.Claimed? {
      ActiveOk(s, s.loop.job, step.batch);
    } else if step.Tick? && s.ticker.Waking? {
      CurrentIsDigest(s);
      ActiveOk(s, s.ticker.job, step.batch);
    } else if step.Observe? && s.loop.Reporting? {
      CycleOk(s, s.loop.result);
    }
  }

  lemma CurrentIsDigest(s: State)
    requires Inv(s) && s.reporter.current.Some? && !s.loop.Crashed?
    ensures IsDigest(s.reporter.current.value)
  {
    hide IsDigest;
  }

  lemma {:induction false} RunKeeps(steps: seq<Step>)
    requires forall i | 0 <= i < |steps| :: Proper(steps[i])
    ensures Inv(Run(steps))
  {
    if steps != [] {
      RunKeeps(steps[..|steps| - 1]);
      hide Inv, Next, Proper;
      StepKeeps(Run(steps[..|steps| - 1]), steps[|steps| - 1]);
    }
  }

  /** Over every run of the loop with its ticker, with an emitter that may fail: the reporter never
      raises on its own, every record is valid, the terminal records are the reported cycles in
      order, and the closing records are exactly the closed batches with processed = total = jobs and
      failed = refused. At most one record is ever lost, and then the loop has stopped or is on its
      way to stop with the job in hand. */
  lemma ProgressFaithful(steps: seq<Step>)
    requires forall i | 0 <= i < |steps| :: Proper(steps[i])
    ensures var s := Run(steps);
      && s.faults == 0 && AllValid(s.emitted)
      && Terminals(s.emitted) == Jobs(s.cycles)
      && Closings(s.emitted) == Counters(ClosedBatches(s.cycles))
      && (!s.loop.Crashed? ==>
            All(s.cycles) == Sum(Total(ClosedBatches(s.cycles)).jobs + s.reporter.processed,
                                 Total(ClosedBatches(s.cycles)).refused + s.reporter.failed))
      && s.lost <= 1
      && (s.lost == 1 ==> s.loop.Crashed? || (s.errors == 1 && (InFlight(s.loop) || s.loop.Checking?)))
  {
    RunKeeps(steps);
    BatchesPartition(Run(steps).cycles);
    hide Run, AllValid, Closings, Terminals, Counters, ClosedBatches, OpenBatch, Jobs, All, Total;
  }

  /** Once a record was lost nothing more is emitted and no further cycle reported, whatever follows. */
  lemma LossIsFinal(steps: seq<Step>, step: Step)
    requires forall i | 0 <= i < |steps| :: Proper(steps[i])
    requires Run(steps).lost == 1
    ensures var s := Run(steps);
      Next(s, step).emitted == s.emitted && Next(s, step).cycles == s.cycles && Next(s, step).lost == 1
  {
    RunKeeps(steps);
    hide Run, Next, AllValid, Closings, Terminals, Counters, ClosedBatches, OpenBatch, Jobs, ReporterOk, TickerOk,
      LoopOk;
    LostStays(Run(steps), step);
  }

  lemma LostStays(s: State, step: Step)
    requires TickerOk(s) && LoopOk(s) && s.lost == 1
    ensures Next(s, step).emitted == s.emitted && Next(s, step).cycles == s.cycles && Next(s, step).lost == 1
  {
    hide IsDigest, ActiveSent, CycleSent;
  }

  /** An idle poll emits exactly when a job was reported since the last one: repeated idle polls
      emit nothing. */
  lemma IdlePollsSilent(steps: seq<Step>)
    requires forall i | 0 <= i < |steps| :: Proper(steps[i])
    requires Run(steps).loop == Reporting(NoWork)
    ensures var s := Run(steps);
      Next(s, Observe(true)).emitted == s.emitted <==> OpenBatch(s.cycles).jobs == 0
  {
    RunKeeps(steps);
    hide Run, Next;
    IdlePoll(Run(steps));
  }

  lemma IdlePoll(s: State)
    requires Inv(s) && s.loop == Reporting(NoWork)
    ensures Next(s, Observe(true)).emitted == s.emitted <==> OpenBatch(s.cycles).jobs == 0
  {
    hide AllValid, Closings, Terminals, Counters, ClosedBatches, OpenBatch, Jobs, IsDigest, TickerOk;
    var reply := Cycle(s.reporter, NoWork);
    assert reply.Told? && (reply.emitted == [] <==> OpenBatch(s.cycles).jobs == 0);
    assert Next(s, Observe(true)).emitted == s.emitted + reply.emitted;
    hide Inv, Next, Cycle;
    assert |s.emitted + reply.emitted| == |s.emitted| + |reply.emitted|;
  }
}
