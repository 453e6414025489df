/** What each job mutation of production/store.go does to the job, as a function
    of the job before it: the specification the imperative store is proved
    against, and the object the run-wide theorems speak about. */
module ProductionPlan {
  import opened Common
  import opened ProductionTypes
  import opened ProductionGraph

  datatype Refusal = NotFound | Invalid

  /** The job-scoped requests. A None field leaves the value unchanged. */
  datatype JobOp =
    | UpdateJob(name: Option<string>, description: Option<string>)
    | CreateStep(kind: StepKind, title: string, stepDescription: string, x: real, y: real)
    | UpdateStep(stepId: Id, newTitle: Option<string>, newDescription: Option<string>, position: Option<(real, real)>)
    | DeleteStep(stepId: Id)
    | AddEdge(from: Id, fromResult: Id, to: Id)
    | DeleteEdge(edgeId: Id)
    | AttachPlanDoc(stepId: Id, doc: DocSnapshot, addedBy: string)
    | RemovePlanDoc(stepId: Id, planDocId: Id)
    | AddResult(stepId: Id, caption: string, color: Color)
    | UpdateResult(stepId: Id, resultId: Id, newCaption: Option<string>, newColor: Option<Color>)
    | RemoveResult(stepId: Id, resultId: Id)
    | AddPlaceholder(stepId: Id, caption: string, slotKind: string, required: bool)
    | UpdatePlaceholder(stepId: Id, placeholderId: Id, newCaption: Option<string>, newSlotKind: Option<string>,
                        newRequired: Option<bool>)
    | RemovePlaceholder(stepId: Id, placeholderId: Id)
    | CreateBatch(batchName: string, batchKind: BatchKind, runAt: int, createdBy: string)
    | UpdateBatch(batchId: Id, newName: Option<string>, newKind: Option<BatchKind>, newStatus: Option<BatchStatus>,
                  newRunAt: Option<int>)
    | DeleteBatch(batchId: Id)
    | AddFulfillment(batchId: Id, stepId: Id, placeholderId: Id, doc: DocSnapshot, source: string, isAsRun: bool,
                     suppliedBy: string)
    | RemoveFulfillment(batchId: Id, fulfillmentId: Id)
    | AddBatchRef(batchId: Id, token: string)
    | RemoveBatchRef(batchId: Id, token: string)
    | SetBatchStepHidden(batchId: Id, stepId: Id, collapse: bool)

  type Outcome = Result<JobV, Refusal>

  function Or<T>(o: Option<T>, current: T): T { if o.Some? then o.value else current }

  // ---- plan requests ----

  function NewStep(j: JobV, op: JobOp): StepV
    requires op.CreateStep?
  {
    var head := StepHead(Minted(StepId, j.nextStep), NormalKind(op.kind), j.nextStep, op.title, op.stepDescription,
                         op.x, op.y);
    StepV(head, [], [], [])
  }

  function CreateStepIn(j: JobV, op: JobOp): Outcome
    requires op.CreateStep?
  {
    if |j.steps| >= MAX_STEPS then Err(Invalid)
    else Ok(j.(steps := j.steps + [NewStep(j, op)], nextStep := j.nextStep + 1))
  }

  function PatchHead(h: StepHead, op: JobOp): StepHead
    requires op.UpdateStep?
  {
    h.(title := Or(op.newTitle, h.title), description := Or(op.newDescription, h.description),
       x := if op.position.Some? then op.position.value.0 else h.x,
       y := if op.position.Some? then op.position.value.1 else h.y)
  }

  /** What survives the sweep after a step, or one result of it, is removed. */
  function NotTouching(step: Id): Edge -> bool { (e: Edge) => e.from != step && e.to != step }

  function NotLeavingBy(step: Id, result: Id): Edge -> bool { (e: Edge) => !(e.from == step && e.fromResult == result) }

  function DeleteStepIn(j: JobV, step: Id): Outcome {
    var i := Find(j.steps, StepKey, step);
    if i < 0 then Err(NotFound)
    else Ok(j.(steps := Without(j.steps, i), edges := Filter(j.edges, NotTouching(step))))
  }

  /** The refusals of AddEdge that look at labels and lists, before the search. */
  predicate EdgeRefused(j: JobV, from: Id, result: Id, to: Id) {
    var i := Find(j.steps, StepKey, from);
    || from == to
    || i < 0
    || Find(j.steps, StepKey, to) < 0
    || (IsDecision(j.steps[i].head.kind) && (result.NoId? || Find(j.steps[i].results, ResultKey, result) < 0))
    || (!IsDecision(j.steps[i].head.kind) && !result.NoId?)
    || (exists e :: e in j.edges && e.from == from && e.fromResult == result && e.to == to)
    || |j.edges| >= MAX_EDGES
  }

  ghost function AddEdgeIn(j: JobV, from: Id, result: Id, to: Id): Outcome {
    if EdgeRefused(j, from, result, to) || HasPath(j.edges, to, from) then Err(Invalid)
    else Ok(j.(edges := j.edges + [Edge(Minted(EdgeId, j.nextChild), from, result, to)], nextChild := j.nextChild + 1))
  }

  /** The requests that change one step in place. */
  predicate EditsOneStep(op: JobOp) {
    op.UpdateStep? || op.AttachPlanDoc? || op.RemovePlanDoc? || op.AddResult? || op.UpdateResult? ||
    op.AddPlaceholder? || op.UpdatePlaceholder? || op.RemovePlaceholder?
  }

  /** The step after such a request; next is the id a new child would get. */
  function EditStep(s: StepV, op: JobOp, next: int): Result<StepV, Refusal>
    requires EditsOneStep(op)
  {
    match op
    case UpdateStep(_, _, _, _) => Ok(s.(head := PatchHead(s.head, op)))
    case AttachPlanDoc(_, doc, user) =>
      if IsDecision(s.head.kind) || |s.planDocs| >= MAX_PLAN_DOCS then Err(Invalid)
      else Ok(s.(planDocs := s.planDocs + [PlanDoc(Minted(PlanDocId, next), doc, user)]))
    case RemovePlanDoc(_, id) =>
      var k := Find(s.planDocs, PlanDocKey, id);
      if k < 0 then Err(NotFound) else Ok(s.(planDocs := Without(s.planDocs, k)))
    case AddResult(_, caption, color) =>
      if !IsDecision(s.head.kind) || |s.results| >= MAX_RESULTS then Err(Invalid)
      else Ok(s.(results := s.results + [DecisionResult(Minted(ResultId, next), caption, color)]))
    case UpdateResult(_, id, caption, color) =>
      var k := Find(s.results, ResultKey, id);
      if k < 0 then Err(NotFound)
      else
        var r := s.results[k];
        Ok(s.(results := s.results[k := r.(caption := Or(caption, r.caption), color := Or(color, r.color))]))
    case AddPlaceholder(_, caption, kind, required) =>
      if IsDecision(s.head.kind) || |s.placeholders| >= MAX_PLACEHOLDERS then Err(Invalid)
      else Ok(s.(placeholders := s.placeholders + [Placeholder(Minted(PlaceholderId, next), caption, kind, required)]))
    case UpdatePlaceholder(_, id, caption, kind, required) =>
      var k := Find(s.placeholders, PlaceholderKey, id);
      if k < 0 then Err(NotFound)
      else
        var p := s.placeholders[k];
        Ok(s.(placeholders := s.placeholders[k := p.(caption := Or(caption, p.caption), kind := Or(kind, p.kind),
                                                     required := Or(required, p.required))]))
    case RemovePlaceholder(_, id) =>
      var k := Find(s.placeholders, PlaceholderKey, id);
      if k < 0 then Err(NotFound) else Ok(s.(placeholders := Without(s.placeholders, k)))
  }

  predicate MintsChild(op: JobOp) {
    op.AddEdge? || op.AttachPlanDoc? || op.AddResult? || op.AddPlaceholder? || op.AddFulfillment?
  }

  function EditStepIn(j: JobV, op: JobOp): Outcome
    requires EditsOneStep(op)
  {
    var i := Find(j.steps, StepKey, op.stepId);
    if i < 0 then Err(NotFound)
    else
      match EditStep(j.steps[i], op, j.nextChild)
      case Err(e) => Err(e)
      case Ok(s) => Ok(j.(steps := j.steps[i := s], nextChild := j.nextChild + if MintsChild(op) then 1 else 0))
  }

  function RemoveResultIn(j: JobV, step: Id, result: Id): Outcome {
    var i := Find(j.steps, StepKey, step);
    if i < 0 then Err(NotFound)
    else
      var k := Find(j.steps[i].results, ResultKey, result);
      if k < 0 then Err(NotFound)
      else Ok(j.(steps := j.steps[i := j.steps[i].(results := Without(j.steps[i].results, k))],
                 edges := Filter(j.edges, NotLeavingBy(step, result))))
  }

  // ---- run requests ----

  function Freeze(s: StepV): FrozenV {
    FrozenV(s.head.id, NormalKind(s.head.kind), s.head.num, s.head.title, s.planDocs, s.placeholders)
  }

  function FreezePlan(steps: seq<StepV>): seq<FrozenV> {
    seq(|steps|, i requires 0 <= i < |steps| => Freeze(steps[i]))
  }

  function NewRun(j: JobV, op: JobOp): BatchV
    requires op.CreateBatch?
  {
    var head := BatchHead(Minted(BatchId, j.nextBatch), j.nextBatch, op.batchName, op.batchKind, op.runAt, Planned,
                          op.createdBy);
    BatchV(head, FreezePlan(j.steps), [], [], [])
  }

  function CreateBatchIn(j: JobV, op: JobOp): Outcome
    requires op.CreateBatch?
  {
    if |j.batches| >= MAX_BATCHES then Err(Invalid)
    else Ok(j.(batches := j.batches + [NewRun(j, op)], nextBatch := j.nextBatch + 1))
  }

  /** The requests that change one batch in place. */
  predicate EditsOneBatch(op: JobOp) {
    op.UpdateBatch? || op.AddFulfillment? || op.RemoveFulfillment? || op.AddBatchRef? || op.RemoveBatchRef? ||
    op.SetBatchStepHidden?
  }

  predicate Fulfilled(fs: seq<Fulfillment>, step: Id, slot: Id) {
    exists f :: f in fs && f.stepId == step && f.placeholderId == slot
  }

  function EditBatch(b: BatchV, op: JobOp, next: int): Result<BatchV, Refusal>
    requires EditsOneBatch(op)
  {
    match op
    case UpdateBatch(_, name, kind, status, runAt) =>
      var h := b.head;
      Ok(b.(head := h.(name := Or(name, h.name), kind := Or(kind, h.kind), status := Or(status, h.status),
                       runAt := Or(runAt, h.runAt))))
    case AddFulfillment(_, step, slot, doc, source, asRun, user) =>
      var i := Find(b.steps, FrozenKey, step);
      if i < 0 then Err(NotFound)
      else if !slot.NoId? && Find(b.steps[i].placeholders, PlaceholderKey, slot) < 0 then Err(NotFound)
      else if !slot.NoId? && Fulfilled(b.fulfillments, step, slot) then Err(Invalid)
      else if |b.fulfillments| >= MAX_FULFILLMENTS then Err(Invalid)
      else Ok(b.(fulfillments := b.fulfillments +
                   [Fulfillment(Minted(FulfillmentId, next), step, slot, doc, source, asRun, user)]))
    case RemoveFulfillment(_, id) =>
      var k := Find(b.fulfillments, FulfillmentKey, id);
      if k < 0 then Err(NotFound) else Ok(b.(fulfillments := Without(b.fulfillments, k)))
    case AddBatchRef(_, token) =>
      if token in b.refs then Ok(b)
      else if |b.refs| >= MAX_REFS then Err(Invalid)
      else Ok(b.(refs := b.refs + [token]))
    case RemoveBatchRef(_, token) =>
      var k := Find(b.refs, Identity, token);
      if k < 0 then Err(NotFound) else Ok(b.(refs := Without(b.refs, k)))
    case SetBatchStepHidden(_, step, collapse) =>
      if Find(b.steps, FrozenKey, step) < 0 then Err(NotFound)
      else
        var k := Find(b.hidden, Identity, step);
        if collapse && k < 0 then Ok(b.(hidden := b.hidden + [step]))
        else if !collapse && k >= 0 then Ok(b.(hidden := Without(b.hidden, k)))
        else Ok(b)
  }

  function EditBatchIn(j: JobV, op: JobOp): Outcome
    requires EditsOneBatch(op)
  {
    if op.AddFulfillment? && op.stepId.NoId? then Err(Invalid)
    else
      var i := Find(j.batches, BatchKey, op.batchId);
      if i < 0 then Err(NotFound)
      else
        match EditBatch(j.batches[i], op, j.nextChild)
        case Err(e) => Err(e)
        case Ok(b) => Ok(j.(batches := j.batches[i := b], nextChild := j.nextChild + if MintsChild(op) then 1 else 0))
  }

  /** Which run a request about a run leaves its caller with. */
  function AskedFor(bs: seq<BatchV>, op: JobOp): int
    requires op.CreateBatch? || EditsOneBatch(op)
  {
    if op.CreateBatch? then |bs| - 1 else Find(bs, BatchKey, op.batchId)
  }

  ghost function Apply(j: JobV, op: JobOp): Outcome {
    if EditsOneStep(op) then EditStepIn(j, op)
    else if EditsOneBatch(op) then EditBatchIn(j, op)
    else
      match op
      case UpdateJob(name, desc) =>
        Ok(j.(head := j.head.(name := Or(name, j.head.name), description := Or(desc, j.head.description))))
      case CreateStep(_, _, _, _, _) => CreateStepIn(j, op)
      case DeleteStep(id) => DeleteStepIn(j, id)
      case AddEdge(from, result, to) => AddEdgeIn(j, from, result, to)
      case DeleteEdge(id) =>
        var i := Find(j.edges, EdgeKey, id);
        if i < 0 then Err(NotFound) else Ok(j.(edges := Without(j.edges, i)))
      case RemoveResult(step, result) => RemoveResultIn(j, step, result)
      case CreateBatch(_, _, _, _) => CreateBatchIn(j, op)
      case DeleteBatch(id) =>
        var i := Find(j.batches, BatchKey, id);
        if i < 0 then Err(NotFound) else Ok(j.(batches := Without(j.batches, i)))
  }

  // ---- projects ----

  datatype ProjectOp =
    | CreateJob(hubId: string, projectName: string, name: string, description: string, createdBy: string)
    | DuplicateJob(hubId: string, projectName: string, jobId: Id, createdBy: string)
    | DeleteJob(jobId: Id)
    | InJob(jobId: Id, op: JobOp)

  const COPY_SUFFIX := " (copy)"
  const MAX_NAME_RUNES := 200

  function CopyName(name: string): (r: string)
    ensures |r| == if |name| + 7 > 200 then 200 else |name| + 7
    ensures r[|r| - 7..] == " (copy)" && r[..|r| - 7] <= name
  {
    var room := MAX_NAME_RUNES - |COPY_SUFFIX|;
    (if |name| > room then name[..room] else name) + COPY_SUFFIX
  }

  function EmptyJob(num: int, name: string, description: string, user: string): JobV {
    JobV(JobHead(Minted(JobId, num), num, name, description, user), [], [], [], 1, 1, 1)
  }

  /** The copy keeps the plan, its child ids and both child counters; runs stay
      with the job they ran under. */
  function Duplicate(src: JobV, num: int, user: string): JobV {
    src.(head := JobHead(Minted(JobId, num), num, CopyName(src.head.name), src.head.description, user),
         batches := [], nextBatch := 1)
  }

  ghost function ApplyProject(p: ProjectV, op: ProjectOp): Result<ProjectV, Refusal> {
    match op
    case CreateJob(hub, pname, name, desc, user) =>
      if |p.jobs| >= MAX_JOBS then Err(Invalid)
      else Ok(ProjectV(hub, pname, p.nextJob + 1, p.jobs + [EmptyJob(p.nextJob, name, desc, user)]))
    case DuplicateJob(hub, pname, id, user) =>
      if |p.jobs| >= MAX_JOBS then Err(Invalid)
      else
        var i := Find(p.jobs, JobKey, id);
        if i < 0 then Err(NotFound)
        else Ok(ProjectV(hub, pname, p.nextJob + 1, p.jobs + [Duplicate(p.jobs[i], p.nextJob, user)]))
    case DeleteJob(id) =>
      var i := Find(p.jobs, JobKey, id);
      if i < 0 then Err(NotFound) else Ok(p.(jobs := Without(p.jobs, i)))
    case InJob(id, jop) =>
      var i := Find(p.jobs, JobKey, id);
      if i < 0 then Err(NotFound)
      else
        match Apply(p.jobs[i], jop)
        case Err(e) => Err(e)
        case Ok(j) => Ok(p.(jobs := p.jobs[i := j]))
  }
}
