/**
 `FileBatchProgressReporter`: one lock-protected reporter fed by the dispatch loop and by the
 ticker thread of the job in flight, and the progress record it emits.
 */
module WorkerProgress {
  import opened Order
  import opened JsonValue
  import opened References

  datatype Reason = FileImportRefused | WorkerLeaseRefused
  datatype Outcome = Dispatched | Refused
  datatype Phase = Dispatching | Complete

  datatype CycleResult = NoWork | JobDispatched(job: string) | JobRefused(job: string, reason: Reason)

  datatype Progress = Progress(batch: string, phase: Phase, processed: int, total: int, failed: int,
                               current: Option<string>, outcome: Option<Outcome>, reason: Option<Reason>)

  /** `WorkerBatchProgress.__post_init__`. */
  predicate ValidProgress(p: Progress) {
    && IsDigest(p.batch) && 0 <= p.failed <= p.processed <= p.total
    && (p.phase.Complete? ==> p.processed == p.total && p.current.None? && p.outcome.None? && p.reason.None?)
    && (p.phase.Dispatching? ==>
          && p.current.Some? && IsDigest(p.current.value)
          && (p.outcome == Some(Refused) <==> p.reason.Some?))
  }

  // ---- the reporter ---------------------------------------------------------------

  datatype Reporter = Reporter(batch: Option<string>, current: Option<string>, processed: nat, total: nat, failed: nat)

  const Idle: Reporter := Reporter(None, None, 0, 0, 0)

  /** What a call does: the new state and what it emitted; or the exception it raised itself; or the
      emitter's exception, which leaves the state as it was when the record was handed over. */
  datatype Reply = Told(reporter: Reporter,
                        emitted: seq<Progress>) | Fault(reporter: Reporter) | Lost(reporter: Reporter)

  function Active(r: Reporter, job: string, batchIfNew: string): Reply {
    if !IsDigest(job) || (r.batch.None? && !IsDigest(batchIfNew)) then Fault(r)
    else
      var batch := if r.batch.None? then batchIfNew else r.batch.value;
      if r.current.Some? && r.current.value != job then Fault(r.(batch := Some(batch)))
      else
        var r' := r.(batch := Some(batch), current := Some(job), total := r.total + if r.current.None? then 1 else 0);
        Told(r', [Progress(batch, Dispatching, r'.processed, r'.total, r'.failed, Some(job), None, None)])
  }

  function Cycle(r: Reporter, result: CycleResult): Reply {
    if result.NoWork? then
      if r.batch.None? then Told(r, [])
      else if r.current.Some? then Fault(r)
      else Told(Idle, [Progress(r.batch.value, Complete, r.processed, r.total, r.failed, None, None, None)])
    else if r.batch.None? || r.current != Some(result.job) then Fault(r)
    else
      var failed := r.failed + if result.JobRefused? then 1 else 0;
      Told(r.(processed := r.processed + 1, failed := failed, current := None),
           [Progress(r.batch.value, Dispatching, r.processed + 1, r.total, failed, r.current,
                     Some(if result.JobRefused? then Refused else Dispatched),
                     if result.JobRefused? then Some(result.reason) else None)])
  }

  /** `job_active` with an emitter that may fail. */
  function ActiveSent(r: Reporter, job: string, batchIfNew: string, delivered: bool): Reply {
    var reply := Active(r, job, batchIfNew);
    if reply.Told? && !delivered then Lost(reply.reporter) else reply
  }

  /** `observe_cycle` with an emitter that may fail: the counters have moved, the job is still current
      and the batch not yet closed. */
  function CycleSent(r: Reporter, result: CycleResult, delivered: bool): Reply {
    var reply := Cycle(r, result);
    if !reply.Told? || reply.emitted == [] || delivered then reply
    else if result.NoWork? then Lost(r)
    else Lost(reply.reporter.(current := r.current))
  }

  class FileBatchProgressReporter {
    var batchRef: Option<string>
    var currentJobRef: Option<string>
    var processed: nat
    var total: nat
    var failed: nat
    var emitted: seq<Progress>

    ghost function Now(): Reporter
      reads this
    {
      Reporter(batchRef, currentJobRef, processed, total, failed)
    }

    constructor ()
      ensures Now() == Idle && emitted == []
    {
      batchRef, currentJobRef, processed, total, failed, emitted := None, None, 0, 0, 0, [];
    }

    method JobActive(job: string, batchIfNew: string, delivered: bool) returns (ok: bool)
      modifies this
      ensures var reply := ActiveSent(old(Now()), job, batchIfNew, delivered);
        && (ok <==> reply.Told?) && Now() == reply.reporter
        && emitted == old(emitted) + if ok then reply.emitted else []
    {
      if !IsDigest(job) {
        return false;
      }
      if batchRef.None? {
        if !IsDigest(batchIfNew) {
          return false;
        }
        batchRef := Some(batchIfNew);
      }
      if currentJobRef.None? {
        currentJobRef := Some(job);
        total := total + 1;
      } else if currentJobRef.value != job {
        return false;
      }
      if !delivered {
        return false;
      }
      emitted := emitted + [Progress(batchRef.value, Dispatching, processed, total, failed, Some(job), None, None)];
      ok := true;
    }

    method ObserveCycle(result: CycleResult, delivered: bool) returns (ok: bool)
      modifies this
      ensures var reply := CycleSent(old(Now()), result, delivered);
        && (ok <==> reply.Told?) && Now() == reply.reporter
        && emitted == old(emitted) + if ok then reply.emitted else []
    {
      if result.NoWork? {
        if batchRef.None? {
          return true;
        }
        if currentJobRef.Some? {
          return false;
        }
        if !delivered {
          return false;
        }
        emitted := emitted + [Progress(batchRef.value, Complete, processed, total, failed, None, None, None)];
        batchRef, currentJobRef, processed, total, failed := None, None, 0, 0, 0;
        return true;
      }
      if batchRef.None? || currentJobRef != Some(result.job) {
        return false;
      }
      processed := processed + 1;
      if result.JobRefused? {
        failed := failed + 1;
      }
      if !delivered {
        return false;
      }
      emitted := emitted + [Progress(batchRef.value, Dispatching, processed, total, failed, currentJobRef,
                                     Some(if result.JobRefused? then Refused else Dispatched),
                                     if result.JobRefused? then Some(result.reason) else None)];
      currentJobRef := None;
      ok := true;
    }
  }

  // ---- the public document --------------------------------------------------------

  const SCHEMA_VERSION := "context-engine-worker-batch-progress-v1"

  const Fields: set<string> := {"batchRef", "currentJobRef", "failed", "outcome", "phase", "processed",
                                "reasonCategory", "schemaVersion", "total"}

  function OptionalText(x: Option<string>): Json {
    if x.None? then Null else Text(x.value)
  }

  function ReasonText(r: Reason): string {
    match r case FileImportRefused => "file_import_refused" case WorkerLeaseRefused => "worker_lease_refused"
  }

  function OutcomeText(o: Outcome): string {
    match o case Dispatched => "dispatched" case Refused => "refused"
  }

  function PhaseText(p: Phase): string {
    match p case Dispatching => "dispatching" case Complete => "complete"
  }

  function Document(p: Progress): Json {
    Object(map["batchRef" := Text(p.batch),
               "currentJobRef" := OptionalText(p.current),
               "failed" := Int(p.failed),
               "outcome" := if p.outcome.None? then Null else Text(OutcomeText(p.outcome.value)),
               "phase" := Text(PhaseText(p.phase)),
               "processed" := Int(p.processed),
               "reasonCategory" := if p.reason.None? then Null else Text(ReasonText(p.reason.value)),
               "schemaVersion" := Text(SCHEMA_VERSION),
               "total" := Int(p.total)])
  }

  function ParsePhase(v: Json): Option<Phase> {
    if v == Text("dispatching") then Some(Dispatching) else if v == Text("complete") then Some(Complete) else None
  }

  /** Outer None: not one of the closed values. */
  function ParseOutcome(v: Json): Option<Option<Outcome>> {
    if v == Null then Some(None)
    else if v == Text("dispatched") then Some(Some(Dispatched))
    else if v == Text("refused") then Some(Some(Refused))
    else None
  }

  function ParseReason(v: Json): Option<Option<Reason>> {
    if v == Null then Some(None)
    else if v == Text("file_import_refused") then Some(Some(FileImportRefused))
    else if v == Text("worker_lease_refused") then Some(Some(WorkerLeaseRefused))
    else None
  }

  predicate IsOptionalText(v: Json) {
    v.Null? || v.Text?
  }

  function ParseOptionalText(v: Json): Option<string>
    requires IsOptionalText(v)
  {
    if v.Null? then None else Some(v.text)
  }

  /** The fields, each of its own type. */
  function ReadFields(d: map<string, Json>): Option<Progress>
    requires d.Keys == Fields
  {
    var phase, outcome, reason := ParsePhase(d["phase"]), ParseOutcome(d["outcome"]), ParseReason(d["reasonCategory"]);
    if d["schemaVersion"] != Text(SCHEMA_VERSION) || phase.None? || outcome.None? || reason.None? then None
    else if !d["batchRef"].Text? || !IsOptionalText(d["currentJobRef"]) then None
    else if !d["processed"].Int? || !d["total"].Int? || !d["failed"].Int? then None
    else
      Some(Progress(d["batchRef"].text, phase.value, d["processed"].number, d["total"].number, d["failed"].number,
                    ParseOptionalText(d["currentJobRef"]), outcome.value, reason.value))
  }

  /** `validate_worker_batch_progress_document`. */
  function Validate(v: Json): Option<Progress> {
    if !HasExactly(v, Fields) then None
    else
      var p := ReadFields(v.fields);
      if p.Some? && ValidProgress(p.value) && Document(p.value) == v then p else None
  }

  lemma DocumentShape(p: Progress)
    ensures HasExactly(Document(p), Fields)
  {
    assert Document(p).fields.Keys == Fields;
  }

  lemma FieldsRead(p: Progress)
    requires HasExactly(Document(p), Fields)
    ensures ReadFields(Document(p).fields) == Some(p)
  {
    TextsDiffer(p);
    hide ParsePhase, ParseOutcome, ParseReason, PhaseText, OutcomeText, ReasonText;
    NothingParses();
  }

  lemma NothingParses()
    ensures ParseOutcome(Null) == Some(None) && ParseReason(Null) == Some(None)
  {
  }

  lemma TextsDiffer(p: Progress)
    ensures ParsePhase(Text(PhaseText(p.phase))) == Some(p.phase)
    ensures p.outcome.Some? ==> ParseOutcome(Text(OutcomeText(p.outcome.value))) == Some(p.outcome)
    ensures p.reason.Some? ==> ParseReason(Text(ReasonText(p.reason.value))) == Some(p.reason)
  {
    assert |"dispatching"| != |"complete"| && |"dispatched"| != |"refused"|;
    assert |"file_import_refused"| == 19 && |"worker_lease_refused"| == 20;
  }

  /** A valid record survives its document. */
  lemma DocumentRoundTrip(p: Progress)
    ensures Validate(Document(p)) == if ValidProgress(p) then Some(p) else None
  {
    hide ValidProgress, Document, ReadFields;
    DocumentShape(p);
    FieldsRead(p);
  }

  lemma ParsedTexts(v: Json)
    ensures ParsePhase(v).Some? ==> v == Text(PhaseText(ParsePhase(v).value))
    ensures ParseOutcome(v).Some? ==>
              v == if ParseOutcome(v).value.None? then Null else Text(OutcomeText(ParseOutcome(v).value.value))
    ensures ParseReason(v).Some? ==>
              v == if ParseReason(v).value.None? then Null else Text(ReasonText(ParseReason(v).value.value))
  {
  }

  /** Whatever the fields read as, its document is the one read: the canonical-form check never
      refuses on its own. */
  lemma ReadIsCanonical(v: Json)
    requires HasExactly(v, Fields) && ReadFields(v.fields).Some?
    ensures Document(ReadFields(v.fields).value) == v
  {
    ParsedTexts(v.fields["phase"]);
    ParsedTexts(v.fields["outcome"]);
    ParsedTexts(v.fields["reasonCategory"]);
    hide ParsePhase, ParseOutcome, ParseReason, PhaseText, OutcomeText, ReasonText;
    var p := ReadFields(v.fields).value;
    DocumentShape(p);
    assert Document(p).fields == v.fields;
  }

  /** Accepted are exactly the documents whose fields read as a valid record, and these are exactly
      the documents of valid records. */
  lemma AcceptedIsDocument(v: Json)
    ensures Validate(v).Some? <==> exists p :: ValidProgress(p) && v == Document(p)
    ensures Validate(v).Some? <==>
              HasExactly(v, Fields) && ReadFields(v.fields).Some? && ValidProgress(ReadFields(v.fields).value)
    ensures Validate(v).Some? ==> v == Document(Validate(v).value)
  {
    hide ValidProgress, Document, ReadFields;
    if HasExactly(v, Fields) && ReadFields(v.fields).Some? {
      ReadIsCanonical(v);
    }
    if p :| ValidProgress(p) && v == Document(p) {
      DocumentRoundTrip(p);
    }
  }
}
