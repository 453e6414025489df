/** What holds of a project over every sequence of requests. */
module ProductionRuns {
  import opened Common
  import opened ProductionTypes
  import opened ProductionPlan
  import opened ProductionInvariants
  import opened ProductionBatches

  ghost predicate ProjectOk(p: ProjectV) {
    && p.nextJob >= 1 && |p.jobs| <= MAX_JOBS
    && MintedOnce(p.jobs, JobKey, JobId, p.nextJob)
    && forall i :: 0 <= i < |p.jobs| ==> WellFormed(p.jobs[i])
  }

  /** One request, and whether the disk accepted the rewrite it leads to. */
  datatype Request = Request(op: ProjectOp, saved: bool)

  /** A request that is refused, or whose save fails, leaves the project as it was. */
  ghost function Serve(p: ProjectV, r: Request): ProjectV {
    var done := ApplyProject(p, r.op);
    if done.Ok? && r.saved then done.value else p
  }

  ghost function Run(p: ProjectV, rs: seq<Request>): ProjectV
    decreases |rs|
  {
    if rs == [] then p else Serve(Run(p, rs[..|rs| - 1]), rs[|rs| - 1])
  }

  /** A duplicated job is well formed, shares the source's plan, ids and child
      counters, and starts without runs. */
  lemma DuplicateOk(src: JobV, num: int, author: string)
    requires WellFormed(src)
    ensures var d := Duplicate(src, num, author);
            WellFormed(d) && d.steps == src.steps && d.edges == src.edges && d.batches == [] &&
            d.nextStep == src.nextStep && d.nextChild == src.nextChild && d.head.id == Minted(JobId, num)
  {}

  lemma JobAppended(p: ProjectV, j: JobV)
    requires ProjectOk(p) && |p.jobs| < MAX_JOBS && WellFormed(j) && j.head.id == Minted(JobId, p.nextJob)
    ensures ProjectOk(p.(jobs := p.jobs + [j], nextJob := p.nextJob + 1))
  {}

  lemma JobReplaced(p: ProjectV, i: nat, j: JobV)
    requires ProjectOk(p) && i < |p.jobs| && WellFormed(j) && j.head.id == p.jobs[i].head.id
    ensures ProjectOk(p.(jobs := p.jobs[i := j]))
  {}

  lemma JobRemoved(p: ProjectV, i: nat)
    requires ProjectOk(p) && i < |p.jobs|
    ensures ProjectOk(p.(jobs := Without(p.jobs, i)))
  {}

  lemma ServeKeeps(p: ProjectV, r: Request)
    requires ProjectOk(p)
    ensures ProjectOk(Serve(p, r)) && Serve(p, r).nextJob >= p.nextJob
  {
    if Serve(p, r) != p {
      match r.op
      case CreateJob(_, _, name, desc, author) =>
        JobAppended(p, EmptyJob(p.nextJob, name, desc, author));
      case DuplicateJob(_, _, id, author) =>
        var i := Find(p.jobs, JobKey, id);
        DuplicateOk(p.jobs[i], p.nextJob, author);
        JobAppended(p, Duplicate(p.jobs[i], p.nextJob, author));
      case DeleteJob(id) => JobRemoved(p, Find(p.jobs, JobKey, id));
      case InJob(id, op) =>
        var i := Find(p.jobs, JobKey, id);
        ApplyKeeps(p.jobs[i], op);
        ApplyKeepsHeader(p.jobs[i], op);
        JobReplaced(p, i, Apply(p.jobs[i], op).value);
    }
  }

  lemma ApplyKeepsHeader(j: JobV, op: JobOp)
    requires Apply(j, op).Ok?
    ensures Apply(j, op).value.head.id == j.head.id
  {}

  /** Over every sequence of requests, with saves failing wherever they like,
      every job stays well formed: its graph acyclic among them. */
  lemma {:induction false} RunKeeps(p: ProjectV, rs: seq<Request>)
    requires ProjectOk(p)
    ensures ProjectOk(Run(p, rs)) && Run(p, rs).nextJob >= p.nextJob
    decreases |rs|
  {
    if rs != [] {
      RunKeeps(p, rs[..|rs| - 1]);
      ServeKeeps(Run(p, rs[..|rs| - 1]), rs[|rs| - 1]);
    }
  }

  // ---- frozen runs ----

  /** If job j still has batch id, it froze f; and id was issued there. */
  ghost predicate JobRemembers(j: JobV, id: Id, f: seq<FrozenV>) {
    && IsMinted(id, BatchId, j.nextBatch)
    && forall k :: 0 <= k < |j.batches| && j.batches[k].head.id == id ==> j.batches[k].steps == f
  }

  lemma ApplyRemembers(j: JobV, op: JobOp, id: Id, f: seq<FrozenV>)
    requires JobRemembers(j, id, f) && Apply(j, op).Ok?
    ensures JobRemembers(Apply(j, op).value, id, f)
  {
    hide EditStep, EditBatch, Find, FreezePlan;
    if EditsOneBatch(op) {
      var i := Find(j.batches, BatchKey, op.batchId);
      EditBatchTraces(j.batches[i], op, j.nextChild, EditBatch(j.batches[i], op, j.nextChild).value);
    } else if !op.CreateBatch? && !op.DeleteBatch? {
      BatchesUntouched(j, op);
    }
  }

  /** The run a request was about is there when it is done. */
  lemma BatchThere(j: JobV, op: JobOp)
    requires Apply(j, op).Ok? && (op.CreateBatch? || EditsOneBatch(op))
    ensures var bs := Apply(j, op).value.batches;
            && 0 <= AskedFor(bs, op) < |bs|
            && bs[AskedFor(bs, op)].head.id == if op.CreateBatch? then Minted(BatchId, j.nextBatch) else op.batchId
  {
    hide Find, EditStep, EditBatch, FreezePlan;
    if EditsOneBatch(op) {
      var i := Find(j.batches, BatchKey, op.batchId);
      EditBatchTraces(j.batches[i], op, j.nextChild, EditBatch(j.batches[i], op, j.nextChild).value);
      assert BatchKey(Apply(j, op).value.batches[i]) == op.batchId;
    }
  }

  /** Plan requests never reach a run. */
  lemma BatchesUntouched(j: JobV, op: JobOp)
    requires Apply(j, op).Ok? && !EditsOneBatch(op) && !op.CreateBatch? && !op.DeleteBatch?
    ensures Apply(j, op).value.batches == j.batches && Apply(j, op).value.nextBatch == j.nextBatch
  {}

  ghost predicate Remembers(p: ProjectV, job: Id, id: Id, f: seq<FrozenV>) {
    && IsMinted(job, JobId, p.nextJob)
    && forall i :: 0 <= i < |p.jobs| && p.jobs[i].head.id == job ==> JobRemembers(p.jobs[i], id, f)
  }

  lemma ServeRemembers(p: ProjectV, r: Request, job: Id, id: Id, f: seq<FrozenV>)
    requires ProjectOk(p) && Remembers(p, job, id, f)
    ensures Remembers(Serve(p, r), job, id, f)
  {
    hide Apply, JobRemembers, WellFormed, Find;
    if r.op.InJob? {
      var i := Find(p.jobs, JobKey, r.op.jobId);
      if i >= 0 && Apply(p.jobs[i], r.op.op).Ok? {
        ApplyKeepsHeader(p.jobs[i], r.op.op);
        if p.jobs[i].head.id == job { ApplyRemembers(p.jobs[i], r.op.op, id, f); }
      }
    }
  }

  lemma {:induction false} RunRemembers(p: ProjectV, rs: seq<Request>, job: Id, id: Id, f: seq<FrozenV>)
    requires ProjectOk(p) && Remembers(p, job, id, f)
    ensures Remembers(Run(p, rs), job, id, f)
    decreases |rs|
  {
    if rs != [] {
      var init := rs[..|rs| - 1];
      RunRemembers(p, init, job, id, f);
      RunKeeps(p, init);
      ServeRemembers(Run(p, init), rs[|rs| - 1], job, id, f);
    }
  }

  /** A run records the plan as it stood when the run began: create a batch, let
      any requests follow, and wherever that batch still exists its frozen steps,
      documents and slots are those of the plan at creation. */
  lemma FrozenForever(p: ProjectV, job: Id, create: JobOp, rs: seq<Request>, a: nat, i: nat, k: nat)
    requires ProjectOk(p) && create.CreateBatch?
    requires a < |p.jobs| && p.jobs[a].head.id == job && |p.jobs[a].batches| < MAX_BATCHES
    requires var q := Run(Serve(p, Request(InJob(job, create), true)), rs);
             && i < |q.jobs| && q.jobs[i].head.id == job
             && k < |q.jobs[i].batches| && q.jobs[i].batches[k].head.id == Minted(BatchId, p.jobs[a].nextBatch)
    ensures var frozen := Run(Serve(p, Request(InJob(job, create), true)), rs).jobs[i].batches[k].steps;
            && |frozen| == |p.jobs[a].steps|
            && forall s :: 0 <= s < |frozen| ==>
                 && frozen[s].stepId == p.jobs[a].steps[s].head.id
                 && frozen[s].num == p.jobs[a].steps[s].head.num
                 && frozen[s].title == p.jobs[a].steps[s].head.title
                 && (frozen[s].kind.Decision? <==> IsDecision(p.jobs[a].steps[s].head.kind))
                 && frozen[s].planDocs == p.jobs[a].steps[s].planDocs
                 && frozen[s].placeholders == p.jobs[a].steps[s].placeholders
  {
    var p1 := Serve(p, Request(InJob(job, create), true));
    ServeKeeps(p, Request(InJob(job, create), true));
    BatchRecorded(p, job, create, a);
    RunRemembers(p1, rs, job, Minted(BatchId, p.jobs[a].nextBatch), FreezePlan(p.jobs[a].steps));
  }

  lemma BatchRecorded(p: ProjectV, job: Id, create: JobOp, a: nat)
    requires ProjectOk(p) && create.CreateBatch?
    requires a < |p.jobs| && p.jobs[a].head.id == job && |p.jobs[a].batches| < MAX_BATCHES
    ensures Remembers(Serve(p, Request(InJob(job, create), true)), job, Minted(BatchId, p.jobs[a].nextBatch),
                      FreezePlan(p.jobs[a].steps))
  {
    assert Find(p.jobs, JobKey, job) == a;
    BatchBorn(p.jobs[a], create);
    assert Serve(p, Request(InJob(job, create), true)).jobs == p.jobs[a := CreateBatchIn(p.jobs[a], create).value];
  }

  lemma BatchBorn(j: JobV, create: JobOp)
    requires WellFormed(j) && create.CreateBatch? && |j.batches| < MAX_BATCHES
    ensures JobRemembers(CreateBatchIn(j, create).value, Minted(BatchId, j.nextBatch), FreezePlan(j.steps))
  {
    forall k | 0 <= k < |j.batches| ensures j.batches[k].head.id != Minted(BatchId, j.nextBatch) {
      assert BatchOk(j.batches[k], j.nextBatch, j.nextChild);
    }
  }

  // ---- ids are never reissued ----

  function Counter(j: JobV, kind: IdKind): int {
    match kind
    case StepId => j.nextStep
    case BatchId => j.nextBatch
    case _ => j.nextChild
  }

  predicate Issued(j: JobV, id: Id) { id.Minted? && id.num < Counter(j, id.kind) }

  ghost predicate Lacks<T>(xs: seq<T>, key: T -> Id, id: Id) {
    forall i :: 0 <= i < |xs| ==> key(xs[i]) != id
  }

  ghost predicate StepLacks(s: StepV, id: Id) {
    && s.head.id != id && Lacks(s.results, ResultKey, id)
    && Lacks(s.planDocs, PlanDocKey, id) && Lacks(s.placeholders, PlaceholderKey, id)
  }

  ghost predicate BatchLacks(b: BatchV, id: Id) {
    b.head.id != id && Lacks(b.fulfillments, FulfillmentKey, id)
  }

  /** Nothing live in the job carries the id (frozen copies keep the plan's ids by design). */
  ghost predicate Absent(j: JobV, id: Id) {
    && (forall i :: 0 <= i < |j.steps| ==> StepLacks(j.steps[i], id))
    && Lacks(j.edges, EdgeKey, id)
    && (forall i :: 0 <= i < |j.batches| ==> BatchLacks(j.batches[i], id))
  }

  lemma LacksFrom<T>(before: seq<T>, now: seq<T>, key: T -> Id, brand: Id, id: Id)
    requires From(before, now, key, brand) && Lacks(before, key, id) && id != brand
    ensures Lacks(now, key, id)
  {}

  lemma StepStillLacks(s: StepV, t: StepV, next: int, id: Id)
    requires ChildrenFrom(s, t, next) && t.head.id == s.head.id && StepLacks(s, id)
    requires id.Minted? && (id.num < next || id.kind.StepId? || id.kind.BatchId?)
    ensures StepLacks(t, id)
  {
    LacksFrom(s.results, t.results, ResultKey, Minted(ResultId, next), id);
    LacksFrom(s.planDocs, t.planDocs, PlanDocKey, Minted(PlanDocId, next), id);
    LacksFrom(s.placeholders, t.placeholders, PlaceholderKey, Minted(PlaceholderId, next), id);
  }

  lemma LacksFiltered(edges: seq<Edge>, keep: Edge -> bool, id: Id)
    requires Lacks(edges, EdgeKey, id)
    ensures Lacks(Filter(edges, keep), EdgeKey, id)
  {
    var r := Filter(edges, keep);
    forall i | 0 <= i < |r| ensures EdgeKey(r[i]) != id { assert r[i] in edges; }
  }

  lemma StepEditNoReissue(j: JobV, op: JobOp, id: Id)
    requires EditsOneStep(op) && EditStepIn(j, op).Ok? && Issued(j, id) && Absent(j, id)
    ensures Absent(EditStepIn(j, op).value, id)
  {
    var i := Find(j.steps, StepKey, op.stepId);
    var t := EditStep(j.steps[i], op, j.nextChild).value;
    EditStepTraces(j.steps[i], op, j.nextChild, t);
    StepStillLacks(j.steps[i], t, j.nextChild, id);
  }

  lemma BatchEditNoReissue(j: JobV, op: JobOp, id: Id)
    requires EditsOneBatch(op) && EditBatchIn(j, op).Ok? && Issued(j, id) && Absent(j, id)
    ensures Absent(EditBatchIn(j, op).value, id)
  {
    var i := Find(j.batches, BatchKey, op.batchId);
    var t := EditBatch(j.batches[i], op, j.nextChild).value;
    EditBatchTraces(j.batches[i], op, j.nextChild, t);
    LacksFrom(j.batches[i].fulfillments, t.fulfillments, FulfillmentKey, Minted(FulfillmentId, j.nextChild), id);
  }

  lemma RemoveResultNoReissue(j: JobV, step: Id, result: Id, id: Id)
    requires RemoveResultIn(j, step, result).Ok? && Absent(j, id)
    ensures Absent(RemoveResultIn(j, step, result).value, id)
  {
    var i := Find(j.steps, StepKey, step);
    var s := j.steps[i];
    var k := Find(s.results, ResultKey, result);
    assert StepLacks(s, id);
    assert Lacks(Without(s.results, k), ResultKey, id);
    LacksFiltered(j.edges, NotLeavingBy(step, result), id);
  }

  lemma DeleteStepNoReissue(j: JobV, step: Id, id: Id)
    requires DeleteStepIn(j, step).Ok? && Absent(j, id)
    ensures Absent(DeleteStepIn(j, step).value, id)
  {
    LacksFiltered(j.edges, NotTouching(step), id);
  }

  lemma EdgeListNoReissue(j: JobV, op: JobOp, id: Id)
    requires op.AddEdge? || op.DeleteEdge?
    requires Apply(j, op).Ok? && Issued(j, id) && Absent(j, id)
    ensures Absent(Apply(j, op).value, id)
  {}

  lemma CreateNoReissue(j: JobV, op: JobOp, id: Id)
    requires op.CreateStep? || op.CreateBatch?
    requires Apply(j, op).Ok? && Issued(j, id) && Absent(j, id)
    ensures Absent(Apply(j, op).value, id)
  {
    var k := Apply(j, op).value;
    if op.CreateStep? {
      assert StepLacks(k.steps[|j.steps|], id);
    } else {
      assert BatchLacks(k.batches[|j.batches|], id);
    }
  }

  /** No request brings back an id that was issued and is gone. */
  lemma ApplyNoReissue(j: JobV, op: JobOp, id: Id)
    requires Apply(j, op).Ok? && Issued(j, id) && Absent(j, id)
    ensures Issued(Apply(j, op).value, id) && Absent(Apply(j, op).value, id)
  {
    CountersNeverFall(j, op);
    if EditsOneStep(op) {
      StepEditNoReissue(j, op, id);
    } else if EditsOneBatch(op) {
      BatchEditNoReissue(j, op, id);
    } else if op.DeleteStep? {
      DeleteStepNoReissue(j, op.stepId, id);
    } else if op.RemoveResult? {
      RemoveResultNoReissue(j, op.stepId, op.resultId, id);
    } else if op.AddEdge? || op.DeleteEdge? {
      EdgeListNoReissue(j, op, id);
    } else if op.CreateStep? || op.CreateBatch? {
      CreateNoReissue(j, op, id);
    }
  }

  lemma CountersNeverFall(j: JobV, op: JobOp)
    requires Apply(j, op).Ok?
    ensures forall k: IdKind :: Counter(j, k) <= Counter(Apply(j, op).value, k)
  {
    hide EditStep, EditBatch, Find, Filter, Without;
  }

  /** The same, for one job of a project: it is gone, or never shows the id again. */
  ghost predicate GoneFrom(p: ProjectV, job: Id, id: Id) {
    && IsMinted(job, JobId, p.nextJob)
    && forall i :: 0 <= i < |p.jobs| && p.jobs[i].head.id == job ==> Issued(p.jobs[i], id) && Absent(p.jobs[i], id)
  }

  lemma {:induction false} NeverReissued(p: ProjectV, rs: seq<Request>, job: Id, id: Id)
    requires ProjectOk(p) && GoneFrom(p, job, id)
    ensures GoneFrom(Run(p, rs), job, id)
    decreases |rs|
  {
    if rs != [] {
      var init := rs[..|rs| - 1];
      NeverReissued(p, init, job, id);
      RunKeeps(p, init);
      ServeNoReissue(Run(p, init), rs[|rs| - 1], job, id);
    }
  }

  lemma ServeNoReissue(p: ProjectV, r: Request, job: Id, id: Id)
    requires ProjectOk(p) && GoneFrom(p, job, id)
    ensures GoneFrom(Serve(p, r), job, id)
  {
    hide Apply, Issued, Absent, WellFormed, Find;
    if r.op.InJob? {
      var i := Find(p.jobs, JobKey, r.op.jobId);
      if i >= 0 && Apply(p.jobs[i], r.op.op).Ok? {
        ApplyKeepsHeader(p.jobs[i], r.op.op);
        if p.jobs[i].head.id == job { ApplyNoReissue(p.jobs[i], r.op.op, id); }
      }
    }
  }
}
