/** When a job is well formed, and that every request keeps it so. */
module ProductionInvariants {
  import opened Common
  import opened ProductionTypes
  import opened ProductionGraph
  import opened ProductionPlan

  predicate IsMinted(id: Id, kind: IdKind, next: int) {
    id.Minted? && id.kind == kind && 1 <= id.num < next
  }

  /** Ids of one kind, all below the counter, no two alike. */
  ghost predicate MintedOnce<T>(s: seq<T>, key: T -> Id, kind: IdKind, next: int) {
    Distinct(s, key) && forall i :: 0 <= i < |s| ==> IsMinted(key(s[i]), kind, next)
  }

  ghost predicate StepOk(s: StepV, nextStep: int, nextChild: int) {
    && IsMinted(s.head.id, StepId, nextStep) && s.head.num == s.head.id.num && !s.head.kind.Unset?
    && MintedOnce(s.results, ResultKey, ResultId, nextChild) && |s.results| <= MAX_RESULTS
    && MintedOnce(s.planDocs, PlanDocKey, PlanDocId, nextChild) && |s.planDocs| <= MAX_PLAN_DOCS
    && MintedOnce(s.placeholders, PlaceholderKey, PlaceholderId, nextChild) && |s.placeholders| <= MAX_PLACEHOLDERS
    && (if IsDecision(s.head.kind) then s.planDocs == [] && s.placeholders == [] else s.results == [])
  }

  ghost predicate Disjoint<T>(a: seq<T>, b: seq<T>, key: T -> Id) {
    forall i, k :: 0 <= i < |a| && 0 <= k < |b| ==> key(a[i]) != key(b[k])
  }

  /** No child id of one step appears on another. */
  ghost predicate Apart(s: StepV, t: StepV) {
    && Disjoint(s.results, t.results, ResultKey)
    && Disjoint(s.planDocs, t.planDocs, PlanDocKey)
    && Disjoint(s.placeholders, t.placeholders, PlaceholderKey)
  }

  ghost predicate StepsOk(steps: seq<StepV>, nextStep: int, nextChild: int) {
    && |steps| <= MAX_STEPS
    && Distinct(steps, StepKey)
    && (forall i :: 0 <= i < |steps| ==> StepOk(steps[i], nextStep, nextChild))
    && (forall i, k {:trigger Apart(steps[i], steps[k])} :: 0 <= i < k < |steps| ==> Apart(steps[i], steps[k]))
  }

  /** An edge joins live steps; it names a result of its source exactly when the
      source is a decision. */
  ghost predicate EdgeOk(e: Edge, steps: seq<StepV>) {
    && (exists t :: t in steps && t.head.id == e.to)
    && (exists s :: s in steps && s.head.id == e.from &&
          if IsDecision(s.head.kind) then exists r :: r in s.results && r.id == e.fromResult else e.fromResult.NoId?)
  }

  function Route(e: Edge): (Id, Id, Id) { (e.from, e.fromResult, e.to) }

  ghost predicate EdgesOk(edges: seq<Edge>, steps: seq<StepV>, nextChild: int) {
    && |edges| <= MAX_EDGES
    && MintedOnce(edges, EdgeKey, EdgeId, nextChild)
    && Distinct(edges, Route)
    && (forall e :: e in edges ==> EdgeOk(e, steps))
    && Acyclic(edges)
  }

  ghost predicate FrozenOk(s: FrozenV) {
    && Distinct(s.placeholders, PlaceholderKey)
    && (forall p :: p in s.placeholders ==> p.id.Minted?)
    && (s.kind.Decision? ==> s.planDocs == [] && s.placeholders == [])
  }

  /** A supplied document names a frozen step, and a slot only if that step froze it. */
  ghost predicate SlotFrozen(f: Fulfillment, steps: seq<FrozenV>) {
    exists s :: s in steps && s.stepId == f.stepId &&
                (f.placeholderId.NoId? || exists p :: p in s.placeholders && p.id == f.placeholderId)
  }

  /** At most one supplied document per slot. */
  ghost predicate SlotsOnce(fs: seq<Fulfillment>) {
    forall i, k :: 0 <= i < k < |fs| && !fs[i].placeholderId.NoId? ==>
      !(fs[i].stepId == fs[k].stepId && fs[i].placeholderId == fs[k].placeholderId)
  }

  ghost predicate BatchOk(b: BatchV, nextBatch: int, nextChild: int) {
    && IsMinted(b.head.id, BatchId, nextBatch) && b.head.num == b.head.id.num
    && Distinct(b.steps, FrozenKey)
    && (forall s :: s in b.steps ==> FrozenOk(s))
    && MintedOnce(b.fulfillments, FulfillmentKey, FulfillmentId, nextChild)
    && |b.fulfillments| <= MAX_FULFILLMENTS
    && (forall f :: f in b.fulfillments ==> SlotFrozen(f, b.steps))
    && SlotsOnce(b.fulfillments)
    && Distinct(b.refs, Identity) && |b.refs| <= MAX_REFS
    && Distinct(b.hidden, Identity)
    && (forall h :: h in b.hidden ==> exists s :: s in b.steps && s.stepId == h)
  }

  ghost predicate BatchesApart(a: BatchV, b: BatchV) {
    forall f, g :: f in a.fulfillments && g in b.fulfillments ==> f.id != g.id
  }

  ghost predicate BatchesOk(batches: seq<BatchV>, nextBatch: int, nextChild: int) {
    && |batches| <= MAX_BATCHES
    && Distinct(batches, BatchKey)
    && (forall i :: 0 <= i < |batches| ==> BatchOk(batches[i], nextBatch, nextChild))
    && (forall i, k {:trigger BatchesApart(batches[i], batches[k])} :: 0 <= i < k < |batches| ==>
         BatchesApart(batches[i], batches[k]))
  }

  ghost predicate WellFormed(j: JobV) {
    && j.nextStep >= 1 && j.nextBatch >= 1 && j.nextChild >= 1
    && StepsOk(j.steps, j.nextStep, j.nextChild)
    && EdgesOk(j.edges, j.steps, j.nextChild)
    && BatchesOk(j.batches, j.nextBatch, j.nextChild)
  }

  // ---- list lemmas ----

  lemma WithoutDistinct<T, K>(s: seq<T>, i: nat, key: T -> K)
    requires i < |s| && Distinct(s, key)
    ensures Distinct(Without(s, i), key)
    ensures forall k :: 0 <= k < |s| && k != i ==> key(s[k]) != key(s[i])
  {}

  lemma WithoutMembers<T(!new)>(s: seq<T>, i: nat)
    requires i < |s|
    ensures forall x :: x in Without(s, i) ==> x in s
    ensures forall x :: x in s && x != s[i] ==> x in Without(s, i)
  {
    forall x | x in s && x != s[i]
      ensures x in Without(s, i)
    {
      var k :| 0 <= k < |s| && s[k] == x;
      assert Without(s, i)[if k < i then k else k - 1] == x;
    }
  }

  lemma MintedAppend<T>(s: seq<T>, x: T, key: T -> Id, kind: IdKind, next: int)
    requires next >= 1 && MintedOnce(s, key, kind, next) && key(x) == Minted(kind, next)
    ensures MintedOnce(s + [x], key, kind, next + 1)
  {}

  lemma MintedWithout<T>(s: seq<T>, i: nat, key: T -> Id, kind: IdKind, next: int)
    requires i < |s| && MintedOnce(s, key, kind, next)
    ensures MintedOnce(Without(s, i), key, kind, next)
  {}

  lemma MintedFilter<T(!new)>(s: seq<T>, keep: T -> bool, key: T -> Id, kind: IdKind, next: int)
    requires MintedOnce(s, key, kind, next)
    ensures MintedOnce(Filter(s, keep), key, kind, next)
  {
    FilterDistinct(s, keep, key);
    var r := Filter(s, keep);
    forall i | 0 <= i < |r| ensures IsMinted(key(r[i]), kind, next) { assert r[i] in s; }
  }

  lemma BatchesGrow(batches: seq<BatchV>, nextBatch: int, nextChild: int, nextBatch': int, nextChild': int)
    requires BatchesOk(batches, nextBatch, nextChild) && nextBatch <= nextBatch' && nextChild <= nextChild'
    ensures BatchesOk(batches, nextBatch', nextChild')
  {}

  // ---- steps ----

  /** A counter that only grew keeps every step and batch well formed. */
  lemma CountersGrow(j: JobV, nextStep: int, nextBatch: int, nextChild: int)
    requires WellFormed(j) && j.nextStep <= nextStep && j.nextBatch <= nextBatch && j.nextChild <= nextChild
    ensures WellFormed(j.(nextStep := nextStep, nextBatch := nextBatch, nextChild := nextChild))
  {}

  /** Every id of now was there before, or is the brand new one. */
  ghost predicate From<T>(before: seq<T>, now: seq<T>, key: T -> Id, brand: Id) {
    forall k :: 0 <= k < |now| ==>
      key(now[k]) == brand || exists i :: 0 <= i < |before| && key(before[i]) == key(now[k])
  }

  /** The only new child id an edited step can carry is the one the counter names next. */
  ghost predicate ChildrenFrom(s: StepV, t: StepV, next: int) {
    && From(s.results, t.results, ResultKey, Minted(ResultId, next))
    && From(s.planDocs, t.planDocs, PlanDocKey, Minted(PlanDocId, next))
    && From(s.placeholders, t.placeholders, PlaceholderKey, Minted(PlaceholderId, next))
  }

  ghost predicate ResultsKept(s: StepV, t: StepV) {
    forall r :: r in s.results ==> exists q :: q in t.results && q.id == r.id
  }

  lemma MintedUpdate<T>(s: seq<T>, k: nat, x: T, key: T -> Id, kind: IdKind, next: int)
    requires k < |s| && MintedOnce(s, key, kind, next) && key(x) == key(s[k])
    ensures MintedOnce(s[k := x], key, kind, next)
  {
    forall i | 0 <= i < |s| ensures key(s[k := x][i]) == key(s[i]) {}
  }

  lemma FromWithout<T>(s: seq<T>, k: nat, key: T -> Id, brand: Id)
    requires k < |s|
    ensures From(s, Without(s, k), key, brand)
  {
    forall i | 0 <= i < |s| - 1 ensures Without(s, k)[i] == s[if i < k then i else i + 1] {}
  }

  lemma FromSame<T>(s: seq<T>, key: T -> Id, brand: Id)
    ensures From(s, s, key, brand)
  {}

  lemma FromAppend<T>(s: seq<T>, x: T, key: T -> Id)
    ensures From(s, s + [x], key, key(x))
  {
    forall k | 0 <= k < |s| ensures (s + [x])[k] == s[k] {}
  }

  lemma DisjointFrom<T>(before: seq<T>, now: seq<T>, other: seq<T>, key: T -> Id, brand: Id)
    requires From(before, now, key, brand)
    requires forall k :: 0 <= k < |other| ==> key(other[k]) != brand
    ensures Disjoint(before, other, key) ==> Disjoint(now, other, key)
    ensures Disjoint(other, before, key) ==> Disjoint(other, now, key)
  {}

  lemma ResultsTrace(s: StepV, op: JobOp, next: int, t: StepV)
    requires EditsOneStep(op) && EditStep(s, op, next) == Ok(t)
    ensures From(s.results, t.results, ResultKey, Minted(ResultId, next)) && ResultsKept(s, t)
  {
    if op.AddResult? {
      FromAppend(s.results, t.results[|s.results|], ResultKey);
    } else if op.UpdateResult? {
      var k := Find(s.results, ResultKey, op.resultId);
      forall i | 0 <= i < |t.results| ensures t.results[i].id == s.results[i].id && t.results[i] in t.results {}
    } else {
      FromSame(s.results, ResultKey, Minted(ResultId, next));
    }
  }

  lemma PlanDocsTrace(s: StepV, op: JobOp, next: int, t: StepV)
    requires EditsOneStep(op) && EditStep(s, op, next) == Ok(t)
    ensures From(s.planDocs, t.planDocs, PlanDocKey, Minted(PlanDocId, next))
  {
    if op.AttachPlanDoc? {
      FromAppend(s.planDocs, t.planDocs[|s.planDocs|], PlanDocKey);
    } else if op.RemovePlanDoc? {
      FromWithout(s.planDocs, Find(s.planDocs, PlanDocKey, op.planDocId), PlanDocKey, Minted(PlanDocId, next));
    } else {
      FromSame(s.planDocs, PlanDocKey, Minted(PlanDocId, next));
    }
  }

  lemma PlaceholdersTrace(s: StepV, op: JobOp, next: int, t: StepV)
    requires EditsOneStep(op) && EditStep(s, op, next) == Ok(t)
    ensures From(s.placeholders, t.placeholders, PlaceholderKey, Minted(PlaceholderId, next))
  {
    if op.AddPlaceholder? {
      FromAppend(s.placeholders, t.placeholders[|s.placeholders|], PlaceholderKey);
    } else if op.RemovePlaceholder? {
      var k := Find(s.placeholders, PlaceholderKey, op.placeholderId);
      FromWithout(s.placeholders, k, PlaceholderKey, Minted(PlaceholderId, next));
    } else if op.UpdatePlaceholder? {
      var k := Find(s.placeholders, PlaceholderKey, op.placeholderId);
      forall i | 0 <= i < |t.placeholders| ensures t.placeholders[i].id == s.placeholders[i].id {}
    } else {
      FromSame(s.placeholders, PlaceholderKey, Minted(PlaceholderId, next));
    }
  }

  /** A request that edits one step keeps who the step is, keeps its results'
      ids, and brings no child id that could sit on another step. */
  lemma EditStepTraces(s: StepV, op: JobOp, next: int, t: StepV)
    requires EditsOneStep(op) && EditStep(s, op, next) == Ok(t)
    ensures t.head.id == s.head.id && t.head.kind == s.head.kind
    ensures ChildrenFrom(s, t, next) && ResultsKept(s, t)
  {
    ResultsTrace(s, op, next, t);
    PlanDocsTrace(s, op, next, t);
    PlaceholdersTrace(s, op, next, t);
  }

  /** It also keeps the step well formed. */
  lemma EditStepOk(s: StepV, op: JobOp, nextStep: int, next: int, t: StepV)
    requires EditsOneStep(op) && next >= 1 && StepOk(s, nextStep, next) && EditStep(s, op, next) == Ok(t)
    ensures StepOk(t, nextStep, next + if MintsChild(op) then 1 else 0)
  {
    match op
    case AttachPlanDoc(_, _, _) =>
      MintedAppend(s.planDocs, t.planDocs[|s.planDocs|], PlanDocKey, PlanDocId, next);
    case AddResult(_, _, _) =>
      MintedAppend(s.results, t.results[|s.results|], ResultKey, ResultId, next);
    case AddPlaceholder(_, _, _, _) =>
      MintedAppend(s.placeholders, t.placeholders[|s.placeholders|], PlaceholderKey, PlaceholderId, next);
    case RemovePlanDoc(_, id) => MintedWithout(s.planDocs, Find(s.planDocs, PlanDocKey, id), PlanDocKey, PlanDocId,
        next);
    case RemovePlaceholder(_, id) =>
      MintedWithout(s.placeholders, Find(s.placeholders, PlaceholderKey, id), PlaceholderKey, PlaceholderId, next);
    case UpdatePlaceholder(_, id, _, _, _) =>
      var k := Find(s.placeholders, PlaceholderKey, id);
      MintedUpdate(s.placeholders, k, t.placeholders[k], PlaceholderKey, PlaceholderId, next);
    case UpdateResult(_, id, _, _) =>
      var k := Find(s.results, ResultKey, id);
      MintedUpdate(s.results, k, t.results[k], ResultKey, ResultId, next);
    case UpdateStep(_, _, _, _) =>
  }

  /** Replacing one step by its edit keeps the step list well formed. */
  lemma StepsEdited(steps: seq<StepV>, i: nat, t: StepV, nextStep: int, next: int, next': int)
    requires i < |steps| && StepsOk(steps, nextStep, next) && next <= next'
    requires StepOk(t, nextStep, next') && t.head.id == steps[i].head.id && ChildrenFrom(steps[i], t, next)
    ensures StepsOk(steps[i := t], nextStep, next')
  {
    forall k | 0 <= k < |steps| && k != i
      ensures k < i ==> Apart(steps[k], t)
      ensures k > i ==> Apart(t, steps[k])
    {
      var o := steps[k];
      assert if k < i then Apart(o, steps[i]) else Apart(steps[i], o);
      assert StepOk(o, nextStep, next);
      DisjointFrom(steps[i].results, t.results, o.results, ResultKey, Minted(ResultId, next));
      DisjointFrom(steps[i].planDocs, t.planDocs, o.planDocs, PlanDocKey, Minted(PlanDocId, next));
      DisjointFrom(steps[i].placeholders, t.placeholders, o.placeholders, PlaceholderKey, Minted(PlaceholderId, next));
    }
  }

  /** Wherever an edge names a result of s, t still has it. */
  ghost predicate StillNamed(edges: seq<Edge>, s: StepV, t: StepV) {
    forall e, r :: e in edges && e.from == s.head.id && r in s.results && r.id == e.fromResult ==>
      exists q :: q in t.results && q.id == r.id
  }

  lemma EdgeOverEdit(e: Edge, steps: seq<StepV>, i: nat, t: StepV)
    requires i < |steps| && t.head.id == steps[i].head.id && t.head.kind == steps[i].head.kind
    requires StillNamed([e], steps[i], t) && EdgeOk(e, steps)
    ensures EdgeOk(e, steps[i := t])
  {
    var now := steps[i := t];
    var a :| 0 <= a < |steps| && steps[a].head.id == e.to;
    assert now[a] in now && now[a].head.id == e.to;
    var s :| s in steps && s.head.id == e.from &&
        if IsDecision(s.head.kind) then exists r :: r in s.results && r.id == e.fromResult else e.fromResult.NoId?;
    var b :| 0 <= b < |steps| && steps[b] == s;
    assert now[b] in now && now[b].head.id == e.from;
    if b == i && IsDecision(s.head.kind) {
      var r :| r in s.results && r.id == e.fromResult;
      assert e in [e];
    }
  }

  /** Edges survive an edit that keeps a step's identity, kind and named results. */
  lemma EdgesOverEdit(edges: seq<Edge>, steps: seq<StepV>, i: nat, t: StepV, next: int, next': int)
    requires i < |steps| && t.head.id == steps[i].head.id && t.head.kind == steps[i].head.kind
    requires StillNamed(edges, steps[i], t) && EdgesOk(edges, steps, next) && next <= next'
    ensures EdgesOk(edges, steps[i := t], next')
  {
    forall e | e in edges
      ensures EdgeOk(e, steps[i := t])
    {
      EdgeOverEdit(e, steps, i, t);
    }
  }

  /** The job keeps its shape when step i is replaced by such an edit of it. */
  lemma StepReplaced(j: JobV, i: nat, t: StepV, next': int)
    requires i < |j.steps| && WellFormed(j) && j.nextChild <= next' && StepOk(t, j.nextStep, next')
    requires t.head.id == j.steps[i].head.id && t.head.kind == j.steps[i].head.kind
    requires ChildrenFrom(j.steps[i], t, j.nextChild) && StillNamed(j.edges, j.steps[i], t)
    ensures WellFormed(j.(steps := j.steps[i := t], nextChild := next'))
  {
    StepsEdited(j.steps, i, t, j.nextStep, j.nextChild, next');
    EdgesOverEdit(j.edges, j.steps, i, t, j.nextChild, next');
    BatchesGrow(j.batches, j.nextBatch, j.nextChild, j.nextBatch, next');
  }

  lemma EditStepKeeps(j: JobV, op: JobOp)
    requires WellFormed(j) && EditsOneStep(op) && EditStepIn(j, op).Ok?
    ensures WellFormed(EditStepIn(j, op).value)
  {
    hide EditStep, Find;
    var i := Find(j.steps, StepKey, op.stepId);
    var t := EditStep(j.steps[i], op, j.nextChild).value;
    EditStepTraces(j.steps[i], op, j.nextChild, t);
    EditStepOk(j.steps[i], op, j.nextStep, j.nextChild, t);
    StepReplaced(j, i, t, j.nextChild + if MintsChild(op) then 1 else 0);
  }

  lemma CreateStepKeeps(j: JobV, op: JobOp)
    requires WellFormed(j) && op.CreateStep? && CreateStepIn(j, op).Ok?
    ensures WellFormed(CreateStepIn(j, op).value)
  {
    var k := CreateStepIn(j, op).value;
    CountersGrow(j, k.nextStep, j.nextBatch, j.nextChild);
    forall e | e in j.edges
      ensures EdgeOk(e, k.steps)
    {
      assert EdgeOk(e, j.steps);
      assert forall s :: s in j.steps ==> s in k.steps;
    }
  }

  lemma StepRemoved(steps: seq<StepV>, i: nat, nextStep: int, nextChild: int)
    requires i < |steps| && StepsOk(steps, nextStep, nextChild)
    ensures StepsOk(Without(steps, i), nextStep, nextChild)
  {
    WithoutDistinct(steps, i, StepKey);
    var r := Without(steps, i);
    forall a, b | 0 <= a < b < |r| ensures Apart(r[a], r[b]) {
      assert Apart(steps[if a < i then a else a + 1], steps[if b < i then b else b + 1]);
    }
  }

  /** Edges that do not touch a step survive its removal. */
  lemma EdgesOverRemoval(edges: seq<Edge>, steps: seq<StepV>, i: nat, next: int)
    requires i < |steps| && EdgesOk(edges, steps, next)
    requires forall e :: e in edges ==> e.from != steps[i].head.id && e.to != steps[i].head.id
    ensures EdgesOk(edges, Without(steps, i), next)
  {
    WithoutMembers(steps, i);
    forall e | e in edges ensures EdgeOk(e, Without(steps, i)) { assert EdgeOk(e, steps); }
  }

  /** Deleting a step takes its incident edges along, so no edge dangles. */
  lemma DeleteStepKeeps(j: JobV, step: Id)
    requires WellFormed(j) && DeleteStepIn(j, step).Ok?
    ensures WellFormed(DeleteStepIn(j, step).value)
    ensures forall e :: e in DeleteStepIn(j, step).value.edges <==> e in j.edges && e.from != step && e.to != step
  {
    var i := Find(j.steps, StepKey, step);
    StepRemoved(j.steps, i, j.nextStep, j.nextChild);
    EdgesSwept(j, NotTouching(step));
    EdgesOverRemoval(Filter(j.edges, NotTouching(step)), j.steps, i, j.nextChild);
  }

  /** Any sweep keeps ids, routes and acyclicity. */
  lemma EdgesSwept(j: JobV, keep: Edge -> bool)
    requires EdgesOk(j.edges, j.steps, j.nextChild)
    ensures EdgesOk(Filter(j.edges, keep), j.steps, j.nextChild)
  {
    MintedFilter(j.edges, keep, EdgeKey, EdgeId, j.nextChild);
    FilterDistinct(j.edges, keep, Route);
    SubgraphAcyclic(j.edges, Filter(j.edges, keep));
  }

  /** Removing a result takes along exactly the edges that left by it. */
  lemma RemoveResultKeeps(j: JobV, step: Id, result: Id)
    requires WellFormed(j) && RemoveResultIn(j, step, result).Ok?
    ensures WellFormed(RemoveResultIn(j, step, result).value)
    ensures forall e :: e in RemoveResultIn(j, step, result).value.edges <==>
                        e in j.edges && !(e.from == step && e.fromResult == result)
  {
    var i := Find(j.steps, StepKey, step);
    var s := j.steps[i];
    var k := Find(s.results, ResultKey, result);
    var t := s.(results := Without(s.results, k));
    WithoutMembers(s.results, k);
    MintedWithout(s.results, k, ResultKey, ResultId, j.nextChild);
    FromWithout(s.results, k, ResultKey, Minted(ResultId, j.nextChild));
    FromSame(s.planDocs, PlanDocKey, Minted(PlanDocId, j.nextChild));
    FromSame(s.placeholders, PlaceholderKey, Minted(PlaceholderId, j.nextChild));
    StepsEdited(j.steps, i, t, j.nextStep, j.nextChild, j.nextChild);
    EdgesSwept(j, NotLeavingBy(step, result));
    EdgesOverEdit(Filter(j.edges, NotLeavingBy(step, result)), j.steps, i, t, j.nextChild, j.nextChild);
  }

  // ---- edges ----

  /** The checks of AddEdge are enough for the new edge to be well formed. */
  lemma NewEdgeOk(j: JobV, from: Id, result: Id, to: Id, e: Edge)
    requires !EdgeRefused(j, from, result, to) && e.from == from && e.fromResult == result && e.to == to
    ensures EdgeOk(e, j.steps) && |j.edges| < MAX_EDGES
    ensures forall i :: 0 <= i < |j.edges| ==> Route(j.edges[i]) != Route(e)
  {
    var s := j.steps[Find(j.steps, StepKey, from)];
    var t := j.steps[Find(j.steps, StepKey, to)];
    assert s in j.steps && t in j.steps && t.head.id == to;
    if IsDecision(s.head.kind) {
      assert s.results[Find(s.results, ResultKey, result)] in s.results;
    }
  }

  lemma AddEdgeKeeps(j: JobV, from: Id, result: Id, to: Id)
    requires WellFormed(j) && AddEdgeIn(j, from, result, to).Ok?
    ensures WellFormed(AddEdgeIn(j, from, result, to).value)
  {
    var e := Edge(Minted(EdgeId, j.nextChild), from, result, to);
    NewEdgeOk(j, from, result, to, e);
    EdgeAppended(j.edges, j.steps, e, j.nextChild);
    CountersGrow(j, j.nextStep, j.nextBatch, j.nextChild + 1);
  }

  lemma EdgeAppended(edges: seq<Edge>, steps: seq<StepV>, e: Edge, next: int)
    requires EdgesOk(edges, steps, next) && next >= 1 && e.id == Minted(EdgeId, next) && EdgeOk(e, steps)
    requires |edges| < MAX_EDGES && !HasPath(edges, e.to, e.from)
    requires forall i :: 0 <= i < |edges| ==> Route(edges[i]) != Route(e)
    ensures EdgesOk(edges + [e], steps, next + 1)
  {
    MintedAppend(edges, e, EdgeKey, EdgeId, next);
    NewEdgeClosesCycle(edges, e);
  }

  lemma DeleteEdgeKeeps(j: JobV, id: Id)
    requires WellFormed(j) && Apply(j, DeleteEdge(id)).Ok?
    ensures WellFormed(Apply(j, DeleteEdge(id)).value)
  {
    EdgeRemoved(j.edges, Find(j.edges, EdgeKey, id), j.steps, j.nextChild);
  }

  lemma EdgeRemoved(edges: seq<Edge>, i: nat, steps: seq<StepV>, next: int)
    requires i < |edges| && EdgesOk(edges, steps, next)
    ensures EdgesOk(Without(edges, i), steps, next)
  {
    MintedWithout(edges, i, EdgeKey, EdgeId, next);
    WithoutDistinct(edges, i, Route);
    WithoutMembers(edges, i);
    SubgraphAcyclic(edges, Without(edges, i));
  }

  /** AddEdge says no for a cycle only when the edge really closes one: on a well
      formed job whose other checks pass, it succeeds if and only if the graph
      with the edge is acyclic, and the result it leaves by never matters. */
  lemma AddEdgeRefusesExactlyCycles(j: JobV, from: Id, result: Id, to: Id)
    requires WellFormed(j) && !EdgeRefused(j, from, result, to)
    ensures AddEdgeIn(j, from, result, to).Ok? <==>
            Acyclic(j.edges + [Edge(Minted(EdgeId, j.nextChild), from, result, to)])
    ensures AddEdgeIn(j, from, result, to).Ok? <==>
            forall r :: Acyclic(j.edges + [Edge(NoId, from, r, to)])
  {
    NewEdgeClosesCycle(j.edges, Edge(Minted(EdgeId, j.nextChild), from, result, to));
    forall r ensures Acyclic(j.edges + [Edge(NoId, from, r, to)]) <==> !HasPath(j.edges, to, from) {
      NewEdgeClosesCycle(j.edges, Edge(NoId, from, r, to));
    }
    assert AddEdgeIn(j, from, result, to).Ok? <== Acyclic(j.edges + [Edge(NoId, from, result, to)]);
  }
}
