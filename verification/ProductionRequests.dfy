/** What each request of production/store.go does to a well formed job, told in the
    words of the request: exactly when it is accepted, and the whole job after it. The
    limits are written out, and nothing depends on how a lookup finds what is named. */
module ProductionRequests {
  import opened Common
  import opened ProductionTypes
  import opened ProductionGraph
  import opened ProductionPlan
  import opened ProductionInvariants
  import opened ProductionBatches
  import opened ProductionRuns

  /** What a patch field leaves: its value, or what was there. */
  function Patched<T>(patch: Option<T>, was: T): T {
    match patch
    case Some(x) => x
    case None => was
  }

  ghost predicate Has<T>(s: seq<T>, key: T -> Id, id: Id) {
    exists k :: 0 <= k < |s| && key(s[k]) == id
  }

  lemma Found<T>(s: seq<T>, key: T -> Id, id: Id)
    ensures Find(s, key, id) >= 0 <==> Has(s, key, id)
    ensures Distinct(s, key) ==> forall k :: 0 <= k < |s| && key(s[k]) == id ==> Find(s, key, id) == k
  {
  }

  // ---- the plan ----

  /** Two hundred steps at most; a new one comes last, under the next number. */
  lemma StepCreated(j: JobV, op: JobOp)
    requires op.CreateStep?
    ensures Apply(j, op) ==
            if |j.steps| >= 200 then Err(Invalid)
            else
              var kind := if op.kind.Unset? then Plain else op.kind;
              var head := StepHead(Minted(StepId, j.nextStep), kind, j.nextStep, op.title, op.stepDescription,
                                   op.x, op.y);
              Ok(j.(steps := j.steps + [StepV(head, [], [], [])], nextStep := j.nextStep + 1))
  {
  }

  /** A request about a step that is not there. */
  lemma NoSuchStep(j: JobV, op: JobOp)
    requires EditsOneStep(op) || op.DeleteStep? || op.RemoveResult?
    requires !Has(j.steps, StepKey, op.stepId)
    ensures Apply(j, op) == Err(NotFound)
  {
    Found(j.steps, StepKey, op.stepId);
  }

  ghost predicate Named(j: JobV, i: nat, id: Id) {
    WellFormed(j) && i < |j.steps| && j.steps[i].head.id == id
  }

  /** The job with step i replaced, and a child id handed out or not. */
  function Put(j: JobV, i: nat, s: StepV, minted: nat): JobV
    requires i < |j.steps|
  {
    j.(steps := j.steps[i := s], nextChild := j.nextChild + minted)
  }

  lemma StepFound(j: JobV, i: nat, id: Id)
    requires Named(j, i, id)
    ensures Find(j.steps, StepKey, id) == i
    ensures var s := j.steps[i];
            && Distinct(s.results, ResultKey) && Distinct(s.planDocs, PlanDocKey)
            && Distinct(s.placeholders, PlaceholderKey)
  {
    Found(j.steps, StepKey, id);
    assert StepOk(j.steps[i], j.nextStep, j.nextChild);
  }

  /** A step's title, description and place, each as given or as before. */
  lemma StepPatched(j: JobV, op: JobOp, i: nat)
    requires op.UpdateStep? && Named(j, i, op.stepId)
    ensures var h := j.steps[i].head;
            var (x, y) := Patched(op.position, (h.x, h.y));
            var now := StepHead(h.id, h.kind, h.num, Patched(op.newTitle, h.title),
                                Patched(op.newDescription, h.description), x, y);
            Apply(j, op) == Ok(Put(j, i, j.steps[i].(head := now), 0))
  {
    hide WellFormed, Find;
    StepFound(j, i, op.stepId);
  }

  /** The step goes, and with it the edges that touch it: every other step and edge
      stays, in its order. */
  lemma StepDeleted(j: JobV, i: nat)
    requires i < |j.steps| && Named(j, i, j.steps[i].head.id)
    ensures var id := j.steps[i].head.id;
            var after := Apply(j, DeleteStep(id));
            && after.Ok? && after.value == j.(steps := j.steps[..i] + j.steps[i + 1..], edges := after.value.edges)
            && KeptOf(j.edges, after.value.edges, (e: Edge) => e.from != id && e.to != id)
  {
    hide WellFormed, Find;
    var id := j.steps[i].head.id;
    StepFound(j, i, id);
    FilterKept(j.edges, NotTouching(id), (e: Edge) => e.from != id && e.to != id);
  }

  // ---- what a step carries ----

  /** Fifty plan documents at most, on plain steps alone; a new one comes last. */
  lemma PlanDocAttached(j: JobV, op: JobOp, i: nat)
    requires op.AttachPlanDoc? && Named(j, i, op.stepId)
    ensures var s := j.steps[i];
            Apply(j, op) ==
            if s.head.kind == Decision || |s.planDocs| >= 50 then Err(Invalid)
            else
              var d := PlanDoc(Minted(PlanDocId, j.nextChild), op.doc, op.addedBy);
              Ok(Put(j, i, s.(planDocs := s.planDocs + [d]), 1))
  {
    hide WellFormed, Find;
    StepFound(j, i, op.stepId);
  }

  /** Exactly the plan document named goes. */
  lemma PlanDocRemoved(j: JobV, i: nat, id: Id)
    requires i < |j.steps| && Named(j, i, j.steps[i].head.id)
    ensures var s, op := j.steps[i], RemovePlanDoc(j.steps[i].head.id, id);
            && (!Has(s.planDocs, PlanDocKey, id) ==> Apply(j, op) == Err(NotFound))
            && forall k :: 0 <= k < |s.planDocs| && s.planDocs[k].id == id ==>
                 Apply(j, op) == Ok(Put(j, i, s.(planDocs := s.planDocs[..k] + s.planDocs[k + 1..]), 0))
  {
    hide WellFormed, Find;
    var s := j.steps[i];
    StepFound(j, i, s.head.id);
    Found(s.planDocs, PlanDocKey, id);
  }

  /** Twelve results at most, on decisions alone; a new one comes last. */
  lemma ResultAdded(j: JobV, op: JobOp, i: nat)
    requires op.AddResult? && Named(j, i, op.stepId)
    ensures var s := j.steps[i];
            Apply(j, op) ==
            if s.head.kind != Decision || |s.results| >= 12 then Err(Invalid)
            else
              var r := DecisionResult(Minted(ResultId, j.nextChild), op.caption, op.color);
              Ok(Put(j, i, s.(results := s.results + [r]), 1))
  {
    hide WellFormed, Find;
    StepFound(j, i, op.stepId);
  }

  /** The result named gets the caption and color given, and nothing else changes. */
  lemma ResultUpdated(j: JobV, op: JobOp, i: nat)
    requires op.UpdateResult? && Named(j, i, op.stepId)
    ensures var s := j.steps[i];
            && (!Has(s.results, ResultKey, op.resultId) ==> Apply(j, op) == Err(NotFound))
            && forall k :: 0 <= k < |s.results| && s.results[k].id == op.resultId ==>
                 var r := s.results[k];
                 var now := DecisionResult(r.id, Patched(op.newCaption, r.caption), Patched(op.newColor, r.color));
                 Apply(j, op) == Ok(Put(j, i, s.(results := s.results[k := now]), 0))
  {
    hide WellFormed, Find;
    StepFound(j, i, op.stepId);
    Found(j.steps[i].results, ResultKey, op.resultId);
  }

  /** Exactly the result named goes, and the edges that leave by it. */
  lemma ResultRemoved(j: JobV, i: nat, id: Id)
    requires i < |j.steps| && Named(j, i, j.steps[i].head.id)
    ensures var s, after := j.steps[i], Apply(j, RemoveResult(j.steps[i].head.id, id));
            && (!Has(s.results, ResultKey, id) ==> after == Err(NotFound))
            && forall k :: 0 <= k < |s.results| && s.results[k].id == id ==>
                 && after.Ok?
                 && after.value == Put(j, i, s.(results := s.results[..k] + s.results[k + 1..]), 0).(
                                     edges := after.value.edges)
                 && KeptOf(j.edges, after.value.edges, (e: Edge) => !(e.from == s.head.id && e.fromResult == id))
  {
    hide WellFormed, Find;
    var s := j.steps[i];
    StepFound(j, i, s.head.id);
    Found(s.results, ResultKey, id);
    FilterKept(j.edges, NotLeavingBy(s.head.id, id), (e: Edge) => !(e.from == s.head.id && e.fromResult == id));
  }

  /** Fifty slots at most, on plain steps alone; a new one comes last. */
  lemma SlotAdded(j: JobV, op: JobOp, i: nat)
    requires op.AddPlaceholder? && Named(j, i, op.stepId)
    ensures var s := j.steps[i];
            Apply(j, op) ==
            if s.head.kind == Decision || |s.placeholders| >= 50 then Err(Invalid)
            else
              var p := Placeholder(Minted(PlaceholderId, j.nextChild), op.caption, op.slotKind, op.required);
              Ok(Put(j, i, s.(placeholders := s.placeholders + [p]), 1))
  {
    hide WellFormed, Find;
    StepFound(j, i, op.stepId);
  }

  /** The slot named gets the caption, kind and need given, and nothing else changes. */
  lemma SlotUpdated(j: JobV, op: JobOp, i: nat)
    requires op.UpdatePlaceholder? && Named(j, i, op.stepId)
    ensures var s := j.steps[i];
            && (!Has(s.placeholders, PlaceholderKey, op.placeholderId) ==> Apply(j, op) == Err(NotFound))
            && forall k :: 0 <= k < |s.placeholders| && s.placeholders[k].id == op.placeholderId ==>
                 var p := s.placeholders[k];
                 var now := Placeholder(p.id, Patched(op.newCaption, p.caption), Patched(op.newSlotKind, p.kind),
                                        Patched(op.newRequired, p.required));
                 Apply(j, op) == Ok(Put(j, i, s.(placeholders := s.placeholders[k := now]), 0))
  {
    hide WellFormed, Find;
    StepFound(j, i, op.stepId);
    Found(j.steps[i].placeholders, PlaceholderKey, op.placeholderId);
  }

  /** Exactly the slot named goes. */
  lemma SlotRemoved(j: JobV, i: nat, id: Id)
    requires i < |j.steps| && Named(j, i, j.steps[i].head.id)
    ensures var s, op := j.steps[i], RemovePlaceholder(j.steps[i].head.id, id);
            && (!Has(s.placeholders, PlaceholderKey, id) ==> Apply(j, op) == Err(NotFound))
            && forall k :: 0 <= k < |s.placeholders| && s.placeholders[k].id == id ==>
                 Apply(j, op) == Ok(Put(j, i, s.(placeholders := s.placeholders[..k] + s.placeholders[k + 1..]), 0))
  {
    hide WellFormed, Find;
    var s := j.steps[i];
    StepFound(j, i, s.head.id);
    Found(s.placeholders, PlaceholderKey, id);
  }

  // ---- edges ----

  /** Which edges may be drawn, spelled out. */
  ghost predicate Drawable(j: JobV, from: Id, result: Id, to: Id) {
    && from != to
    && (exists t :: t in j.steps && t.head.id == to)
    && (exists s :: s in j.steps && s.head.id == from &&
          if s.head.kind == Decision then exists r :: r in s.results && r.id == result else result == NoId)
    && (forall e :: e in j.edges ==> !(e.from == from && e.fromResult == result && e.to == to))
    && |j.edges| < 400
    && !HasPath(j.edges, to, from)
  }

  lemma DrawableExactly(j: JobV, from: Id, result: Id, to: Id)
    requires WellFormed(j)
    ensures Drawable(j, from, result, to) <==> !EdgeRefused(j, from, result, to) && !HasPath(j.edges, to, from)
  {
    hide HasPath, WellFormed, Find;
    StepsNamed(j, from);
    StepsNamed(j, to);
    var i := Find(j.steps, StepKey, from);
    if i >= 0 { ResultNamed(j, i, result); }
  }

  /** An edge is accepted if and only if both steps are there and differ, it leaves a
      decision by one of its results and any other step by none, no edge has that
      source, result and target already, there are fewer than 400, and no path leads
      back. It comes last, under the next child number, and nothing else changes. */
  lemma EdgeAddedExactly(j: JobV, from: Id, result: Id, to: Id)
    requires WellFormed(j)
    ensures Apply(j, AddEdge(from, result, to)) ==
            if Drawable(j, from, result, to)
            then Ok(j.(edges := j.edges + [Edge(Minted(EdgeId, j.nextChild), from, result, to)],
                       nextChild := j.nextChild + 1))
            else Err(Invalid)
  {
    hide HasPath, WellFormed, EdgeRefused, Drawable;
    DrawableExactly(j, from, result, to);
  }

  lemma ResultNamed(j: JobV, i: nat, result: Id)
    requires WellFormed(j) && i < |j.steps|
    ensures var rs := j.steps[i].results;
            !result.NoId? && Find(rs, ResultKey, result) >= 0 <==> exists r :: r in rs && r.id == result
  {
    Members(j.steps[i].results, ResultKey, result);
    assert StepOk(j.steps[i], j.nextStep, j.nextChild);
  }

  lemma Members<T(!new)>(s: seq<T>, key: T -> Id, id: Id)
    ensures Find(s, key, id) >= 0 <==> exists x :: x in s && key(x) == id
  {
    if x :| x in s && key(x) == id {
      var k :| 0 <= k < |s| && s[k] == x;
    }
  }

  lemma StepsNamed(j: JobV, id: Id)
    requires WellFormed(j)
    ensures Find(j.steps, StepKey, id) >= 0 <==> exists s :: s in j.steps && s.head.id == id
    ensures forall s :: s in j.steps && s.head.id == id ==>
              Find(j.steps, StepKey, id) >= 0 && s == j.steps[Find(j.steps, StepKey, id)]
  {
    Members(j.steps, StepKey, id);
    forall s | s in j.steps && s.head.id == id
      ensures s == j.steps[Find(j.steps, StepKey, id)]
    {
      var k :| 0 <= k < |j.steps| && j.steps[k] == s;
      Found(j.steps, StepKey, id);
    }
  }

  /** Told without any of the checks: an edge is accepted if and only if the job with
      it is well formed. */
  lemma EdgeAcceptedExactly(j: JobV, from: Id, result: Id, to: Id)
    requires WellFormed(j)
    ensures Apply(j, AddEdge(from, result, to)).Ok? <==>
            WellFormed(j.(edges := j.edges + [Edge(Minted(EdgeId, j.nextChild), from, result, to)],
                          nextChild := j.nextChild + 1))
  {
    hide WellFormed, Drawable;
    var e := Edge(Minted(EdgeId, j.nextChild), from, result, to);
    var k := j.(edges := j.edges + [e], nextChild := j.nextChild + 1);
    EdgeAddedExactly(j, from, result, to);
    if Apply(j, AddEdge(from, result, to)).Ok? {
      AddEdgeKeeps(j, from, result, to);
    } else if WellFormed(k) {
      StillDrawable(j, e, k);
      assert false;
    }
  }

  lemma StillDrawable(j: JobV, e: Edge, k: JobV)
    requires WellFormed(j) && WellFormed(k) && k == j.(edges := j.edges + [e], nextChild := j.nextChild + 1)
    ensures Drawable(j, e.from, e.fromResult, e.to)
  {
    hide HasPath, Acyclic;
    assert k.edges[|j.edges|] == e && e in k.edges && EdgeOk(e, j.steps);
    NewEdgeClosesCycle(j.edges, e);
    if e.from == e.to { Stay(j.edges, e.from); }
    forall d | d in j.edges
      ensures !(d.from == e.from && d.fromResult == e.fromResult && d.to == e.to)
    {
      var i :| 0 <= i < |j.edges| && j.edges[i] == d;
      assert k.edges[i] == d && Route(k.edges[i]) != Route(k.edges[|j.edges|]);
    }
  }

  /** Exactly the edge named goes. */
  lemma EdgeDeleted(j: JobV, id: Id)
    requires WellFormed(j)
    ensures !Has(j.edges, EdgeKey, id) ==> Apply(j, DeleteEdge(id)) == Err(NotFound)
    ensures forall k :: 0 <= k < |j.edges| && j.edges[k].id == id ==>
              Apply(j, DeleteEdge(id)) == Ok(j.(edges := j.edges[..k] + j.edges[k + 1..]))
  {
    hide Find;
    Found(j.edges, EdgeKey, id);
  }

  /** A job's name and description, each as given or as before. */
  lemma JobPatched(j: JobV, op: JobOp)
    requires op.UpdateJob?
    ensures var h := j.head;
            Apply(j, op) == Ok(j.(head := JobHead(h.id, h.num, Patched(op.name, h.name),
                                                  Patched(op.description, h.description), h.createdBy)))
  {
  }

  // ---- runs ----

  /** Five hundred runs at most; a new one comes last, planned, under the next number,
      with the plan's steps, documents and slots and nothing supplied. */
  lemma RunCreated(j: JobV, op: JobOp)
    requires op.CreateBatch? && WellFormed(j)
    ensures |j.batches| >= 500 ==> Apply(j, op) == Err(Invalid)
    ensures |j.batches| < 500 ==>
              && Apply(j, op).Ok?
              && var after := Apply(j, op).value;
                 && |after.batches| == |j.batches| + 1
                 && var b := after.batches[|j.batches|];
                    && after == j.(batches := j.batches + [b], nextBatch := j.nextBatch + 1)
                    && b.head == BatchHead(Minted(BatchId, j.nextBatch), j.nextBatch, op.batchName, op.batchKind,
                                           op.runAt, Planned, op.createdBy)
                    && b.fulfillments == [] && b.refs == [] && b.hidden == []
                    && |b.steps| == |j.steps|
                    && forall i :: 0 <= i < |b.steps| ==>
                         var s := j.steps[i];
                         b.steps[i] == FrozenV(s.head.id, s.head.kind, s.head.num, s.head.title, s.planDocs,
                                               s.placeholders)
  {
    forall i | 0 <= i < |j.steps| ensures !j.steps[i].head.kind.Unset? {
      assert StepOk(j.steps[i], j.nextStep, j.nextChild);
    }
  }

  /** Exactly the run named goes. */
  lemma RunDeleted(j: JobV, id: Id)
    requires WellFormed(j)
    ensures !Has(j.batches, BatchKey, id) ==> Apply(j, DeleteBatch(id)) == Err(NotFound)
    ensures forall k :: 0 <= k < |j.batches| && j.batches[k].head.id == id ==>
              Apply(j, DeleteBatch(id)) == Ok(j.(batches := j.batches[..k] + j.batches[k + 1..]))
  {
    hide Find;
    Found(j.batches, BatchKey, id);
  }

  lemma NoSuchRun(j: JobV, op: JobOp)
    requires EditsOneBatch(op) && !Has(j.batches, BatchKey, op.batchId)
    ensures Apply(j, op) == Err(if op.AddFulfillment? && op.stepId == NoId then Invalid else NotFound)
  {
    Found(j.batches, BatchKey, op.batchId);
  }

  ghost predicate Running(j: JobV, i: nat, id: Id) {
    WellFormed(j) && i < |j.batches| && j.batches[i].head.id == id
  }

  function PutRun(j: JobV, i: nat, b: BatchV, minted: nat): JobV
    requires i < |j.batches|
  {
    j.(batches := j.batches[i := b], nextChild := j.nextChild + minted)
  }

  lemma RunFound(j: JobV, i: nat, id: Id)
    requires Running(j, i, id)
    ensures Find(j.batches, BatchKey, id) == i && BatchOk(j.batches[i], j.nextBatch, j.nextChild)
  {
    Found(j.batches, BatchKey, id);
  }

  lemma RunLists(j: JobV, i: nat)
    requires i < |j.batches| && Running(j, i, j.batches[i].head.id)
    ensures Distinct(j.batches[i].refs, Identity) && Distinct(j.batches[i].hidden, Identity)
    ensures Distinct(j.batches[i].fulfillments, FulfillmentKey)
  {
    RunFound(j, i, j.batches[i].head.id);
  }

  /** A run's name, kind, status and time, each as given or as before. */
  lemma RunPatched(j: JobV, op: JobOp, i: nat)
    requires op.UpdateBatch? && Running(j, i, op.batchId)
    ensures var h := j.batches[i].head;
            var now := BatchHead(h.id, h.num, Patched(op.newName, h.name), Patched(op.newKind, h.kind),
                                 Patched(op.newRunAt, h.runAt), Patched(op.newStatus, h.status), h.createdBy);
            Apply(j, op) == Ok(PutRun(j, i, j.batches[i].(head := now), 0))
  {
    hide WellFormed, Find;
    RunFound(j, i, op.batchId);
  }

  /** Why a document cannot be supplied to a run, in the order of the checks. */
  ghost function SupplyRefused(b: BatchV, step: Id, slot: Id): Option<Refusal> {
    if step == NoId then Some(Invalid)
    else if !exists s :: s in b.steps && s.stepId == step then Some(NotFound)
    else if slot != NoId && !exists s, p :: s in b.steps && s.stepId == step && p in s.placeholders && p.id == slot
    then Some(NotFound)
    else if slot != NoId && exists f :: f in b.fulfillments && f.stepId == step && f.placeholderId == slot
    then Some(Invalid)
    else if |b.fulfillments| >= 1000 then Some(Invalid)
    else None
  }

  /** A document is supplied to a step the run froze, and to one of its slots that has
      none yet, or to none; a thousand at most, and a new one comes last. */
  lemma DocumentSupplied(j: JobV, op: JobOp, i: nat)
    requires op.AddFulfillment? && Running(j, i, op.batchId)
    ensures var b := j.batches[i];
            Apply(j, op) ==
            match SupplyRefused(b, op.stepId, op.placeholderId)
            case Some(why) => Err(why)
            case None =>
              var f := Fulfillment(Minted(FulfillmentId, j.nextChild), op.stepId, op.placeholderId, op.doc, op.source,
                                   op.isAsRun, op.suppliedBy);
              Ok(PutRun(j, i, b.(fulfillments := b.fulfillments + [f]), 1))
  {
    hide WellFormed, Find;
    RunFound(j, i, op.batchId);
    if op.stepId != NoId { SupplyChecked(j.batches[i], op, j.nextBatch, j.nextChild); }
  }

  lemma SupplyChecked(b: BatchV, op: JobOp, nextBatch: int, next: int)
    requires op.AddFulfillment? && BatchOk(b, nextBatch, next) && op.stepId != NoId
    ensures match SupplyRefused(b, op.stepId, op.placeholderId)
            case Some(why) => EditBatch(b, op, next) == Err(why)
            case None => EditBatch(b, op, next).Ok?
  {
    hide Find;
    Members(b.steps, FrozenKey, op.stepId);
    var k := Find(b.steps, FrozenKey, op.stepId);
    if k >= 0 {
      Members(b.steps[k].placeholders, PlaceholderKey, op.placeholderId);
      Found(b.steps, FrozenKey, op.stepId);
      forall s | s in b.steps && s.stepId == op.stepId ensures s == b.steps[k] {
        var l :| 0 <= l < |b.steps| && b.steps[l] == s;
      }
    }
  }

  /** Exactly the document named is withdrawn. */
  lemma DocumentWithdrawn(j: JobV, i: nat, id: Id)
    requires i < |j.batches| && Running(j, i, j.batches[i].head.id)
    ensures var b, op := j.batches[i], RemoveFulfillment(j.batches[i].head.id, id);
            && (!Has(b.fulfillments, FulfillmentKey, id) ==> Apply(j, op) == Err(NotFound))
            && forall k :: 0 <= k < |b.fulfillments| && b.fulfillments[k].id == id ==>
                 Apply(j, op) == Ok(PutRun(j, i, b.(fulfillments := b.fulfillments[..k] + b.fulfillments[k + 1..]), 0))
  {
    hide WellFormed, Find;
    var b := j.batches[i];
    RunFound(j, i, b.head.id);
    RunLists(j, i);
    Found(b.fulfillments, FulfillmentKey, id);
  }

  /** A reference is there once however often it is added, last when it is new, fifty
      at most. */
  lemma ReferenceAdded(j: JobV, i: nat, token: string)
    requires i < |j.batches| && Running(j, i, j.batches[i].head.id)
    ensures var b := j.batches[i];
            Apply(j, AddBatchRef(b.head.id, token)) ==
            if token in b.refs then Ok(j)
            else if |b.refs| >= 50 then Err(Invalid)
            else Ok(PutRun(j, i, b.(refs := b.refs + [token]), 0))
  {
    hide WellFormed, BatchOk, Find;
    RunFound(j, i, j.batches[i].head.id);
    assert j.batches[i := j.batches[i]] == j.batches;
  }

  /** Exactly the reference named goes. */
  lemma ReferenceRemoved(j: JobV, i: nat, token: string)
    requires i < |j.batches| && Running(j, i, j.batches[i].head.id)
    ensures var b, op := j.batches[i], RemoveBatchRef(j.batches[i].head.id, token);
            && (token !in b.refs ==> Apply(j, op) == Err(NotFound))
            && forall k :: 0 <= k < |b.refs| && b.refs[k] == token ==>
                 Apply(j, op) == Ok(PutRun(j, i, b.(refs := b.refs[..k] + b.refs[k + 1..]), 0))
  {
    hide WellFormed, BatchOk, Find;
    RunFound(j, i, j.batches[i].head.id);
    RunLists(j, i);
    ListedAt(j.batches[i].refs, token);
  }

  /** A step the run froze is hidden last, or shown: the others stay as they were. */
  lemma StepHidden(j: JobV, i: nat, step: Id)
    requires i < |j.batches| && Running(j, i, j.batches[i].head.id)
    ensures var b, id := j.batches[i], j.batches[i].head.id;
            var collapse, show := SetBatchStepHidden(id, step, true), SetBatchStepHidden(id, step, false);
            if !exists s :: s in b.steps && s.stepId == step
            then Apply(j, collapse) == Err(NotFound) && Apply(j, show) == Err(NotFound)
            else
              && Apply(j, collapse) == Ok(if step in b.hidden then j
                                          else PutRun(j, i, b.(hidden := b.hidden + [step]), 0))
              && (step !in b.hidden ==> Apply(j, show) == Ok(j))
              && forall k :: 0 <= k < |b.hidden| && b.hidden[k] == step ==>
                   Apply(j, show) == Ok(PutRun(j, i, b.(hidden := b.hidden[..k] + b.hidden[k + 1..]), 0))
  {
    hide WellFormed, BatchOk, Find;
    var b := j.batches[i];
    RunFound(j, i, b.head.id);
    RunLists(j, i);
    Members(b.steps, FrozenKey, step);
    ListedAt(b.hidden, step);
    assert j.batches[i := b] == j.batches;
  }

  /** Where a list without repetition has an element. */
  lemma ListedAt<T>(s: seq<T>, x: T)
    requires Distinct(s, Identity)
    ensures Find(s, Identity, x) >= 0 <==> x in s
    ensures forall k :: 0 <= k < |s| && s[k] == x ==> Find(s, Identity, x) == k
  {
    var i := Find(s, Identity, x);
    assert i >= 0 ==> Identity(s[i]) == s[i];
    assert forall k :: 0 <= k < |s| && s[k] == x ==> Identity(s[k]) == x;
  }

  // ---- the project ----

  /** Five hundred jobs at most; a new one comes last, empty, under the next number. */
  lemma JobCreated(p: ProjectV, op: ProjectOp)
    requires op.CreateJob?
    ensures ApplyProject(p, op) ==
            if |p.jobs| >= 500 then Err(Invalid)
            else
              var head := JobHead(Minted(JobId, p.nextJob), p.nextJob, op.name, op.description, op.createdBy);
              Ok(ProjectV(op.hubId, op.projectName, p.nextJob + 1, p.jobs + [JobV(head, [], [], [], 1, 1, 1)]))
  {
  }

  /** A duplicate comes last, under the next number, with the plan, its ids and their
      counters, and no runs; its name ends in " (copy)" and is 200 long at most. */
  lemma JobDuplicated(p: ProjectV, op: ProjectOp, i: nat)
    requires op.DuplicateJob? && ProjectOk(p) && i < |p.jobs| && p.jobs[i].head.id == op.jobId
    ensures var src, done := p.jobs[i], ApplyProject(p, op);
            if |p.jobs| >= 500 then done == Err(Invalid)
            else
              && done.Ok? && |done.value.jobs| == |p.jobs| + 1
              && var dup := done.value.jobs[|p.jobs|];
                 && done.value == ProjectV(op.hubId, op.projectName, p.nextJob + 1, p.jobs + [dup])
                 && dup.head == JobHead(Minted(JobId, p.nextJob), p.nextJob, dup.head.name, src.head.description,
                                        op.createdBy)
                 && dup.head.name ==
                    (if |src.head.name| <= 193 then src.head.name else src.head.name[..193]) + " (copy)"
                 && dup == JobV(dup.head, src.steps, src.edges, [], src.nextStep, 1, src.nextChild)
  {
    hide Find, WellFormed;
    Found(p.jobs, JobKey, op.jobId);
  }

  /** Exactly the job named goes. */
  lemma JobDeleted(p: ProjectV, id: Id)
    requires ProjectOk(p)
    ensures !Has(p.jobs, JobKey, id) ==>
              && ApplyProject(p, DeleteJob(id)) == Err(NotFound)
              && forall op :: ApplyProject(p, InJob(id, op)) == Err(NotFound)
    ensures forall k :: 0 <= k < |p.jobs| && p.jobs[k].head.id == id ==>
              ApplyProject(p, DeleteJob(id)) == Ok(p.(jobs := p.jobs[..k] + p.jobs[k + 1..]))
  {
    hide Find, WellFormed;
    Found(p.jobs, JobKey, id);
  }

  /** A request inside a job changes that job, as the job's own request, and no other. */
  lemma JobServed(p: ProjectV, i: nat, op: JobOp)
    requires ProjectOk(p) && i < |p.jobs|
    ensures ApplyProject(p, InJob(p.jobs[i].head.id, op)) ==
            match Apply(p.jobs[i], op)
            case Err(why) => Err(why)
            case Ok(j) => Ok(p.(jobs := p.jobs[i := j]))
  {
    hide Find, Apply, WellFormed;
    Found(p.jobs, JobKey, p.jobs[i].head.id);
  }
}
