/** The live objects of a job: steps, runs and the slices they own. A slice is an
    object of its own, so that sharing one between a live job and a frozen run,
    a rollback copy or a returned copy would be visible. */
module ProductionObjects {
  import opened Common
  import opened ProductionTypes
  import opened ProductionPlan

  /** The backing store of one slice; writing through a pointer into the slice,
      or reslicing it in place, changes it for every holder. */
  class Slice<T> {
    var items: seq<T>

    constructor (items: seq<T>)
      ensures this.items == items
    {
      this.items := items;
    }
  }

  class Step {
    var head: StepHead
    const results: Slice<DecisionResult>
    const planDocs: Slice<PlanDoc>
    const placeholders: Slice<Placeholder>

    constructor (v: StepV)
      ensures fresh(Repr()) && Separate() && View() == v
    {
      head := v.head;
      results := new Slice(v.results);
      planDocs := new Slice(v.planDocs);
      placeholders := new Slice(v.placeholders);
    }

    ghost function Repr(): set<object> { {this, results, planDocs, placeholders} }

    /** No two of the step's slices are one object. */
    ghost predicate Separate() {
      var r: object, d: object, p: object := results, planDocs, placeholders;
      r != d && r != p && d != p
    }

    function View(): StepV
      reads this, results, planDocs, placeholders
    {
      StepV(head, results.items, planDocs.items, placeholders.items)
    }

    /** UpdateStep's body. */
    method Patch(op: JobOp)
      requires op.UpdateStep? && Separate()
      modifies this
      ensures View() == old(View()).(head := PatchHead(old(head), op))
    {
      if op.newTitle.Some? { head := head.(title := op.newTitle.value); }
      if op.newDescription.Some? { head := head.(description := op.newDescription.value); }
      if op.position.Some? { head := head.(x := op.position.value.0, y := op.position.value.1); }
    }

    method AttachPlanDoc(doc: DocSnapshot, addedBy: string, next: int) returns (err: Option<Refusal>)
      requires Separate()
      modifies planDocs
      ensures EditStep(old(View()), JobOp.AttachPlanDoc(head.id, doc, addedBy), next) ==
              if err.None? then Ok(View()) else Err(err.value)
    {
      if IsDecision(head.kind) || |planDocs.items| >= MAX_PLAN_DOCS { return Some(Invalid); }
      planDocs.items := planDocs.items + [PlanDoc(Minted(PlanDocId, next), doc, addedBy)];
      err := None;
    }

    method RemovePlanDoc(id: Id, ghost next: int) returns (err: Option<Refusal>)
      requires Separate()
      modifies planDocs
      ensures EditStep(old(View()), JobOp.RemovePlanDoc(head.id, id), next) ==
              if err.None? then Ok(View()) else Err(err.value)
    {
      var k := FindIndex(planDocs.items, PlanDocKey, id);
      if k < 0 { return Some(NotFound); }
      planDocs.items := planDocs.items[..k] + planDocs.items[k + 1..];
      err := None;
    }

    method AddResult(caption: string, color: Color, next: int) returns (err: Option<Refusal>)
      requires Separate()
      modifies results
      ensures EditStep(old(View()), JobOp.AddResult(head.id, caption, color), next) ==
              if err.None? then Ok(View()) else Err(err.value)
    {
      if !IsDecision(head.kind) || |results.items| >= MAX_RESULTS { return Some(Invalid); }
      results.items := results.items + [DecisionResult(Minted(ResultId, next), caption, color)];
      err := None;
    }

    /** Writes through a pointer into the results slice, field by field. */
    method UpdateResult(id: Id, caption: Option<string>, color: Option<Color>, ghost next: int)
      returns (err: Option<Refusal>)
      requires Separate()
      modifies results
      ensures EditStep(old(View()), JobOp.UpdateResult(head.id, id, caption, color), next) ==
              if err.None? then Ok(View()) else Err(err.value)
    {
      var k := FindIndex(results.items, ResultKey, id);
      if k < 0 { return Some(NotFound); }
      if caption.Some? { results.items := results.items[k := results.items[k].(caption := caption.value)]; }
      if color.Some? { results.items := results.items[k := results.items[k].(color := color.value)]; }
      ghost var r := old(results.items)[k];
      assert results.items == old(results.items)[k := r.(caption := Or(caption, r.caption), color := Or(color,
          r.color))];
      err := None;
    }

    method AddPlaceholder(caption: string, kind: string, required: bool, next: int) returns (err: Option<Refusal>)
      requires Separate()
      modifies placeholders
      ensures EditStep(old(View()), JobOp.AddPlaceholder(head.id, caption, kind, required), next) ==
              if err.None? then Ok(View()) else Err(err.value)
    {
      if IsDecision(head.kind) || |placeholders.items| >= MAX_PLACEHOLDERS { return Some(Invalid); }
      placeholders.items := placeholders.items + [Placeholder(Minted(PlaceholderId, next), caption, kind, required)];
      err := None;
    }

    /** Writes through a pointer into the placeholders slice, field by field. */
    method UpdatePlaceholder(id: Id, caption: Option<string>, kind: Option<string>, required: Option<bool>,
                             ghost next: int)
      returns (err: Option<Refusal>)
      requires Separate()
      modifies placeholders
      ensures EditStep(old(View()), JobOp.UpdatePlaceholder(head.id, id, caption, kind, required), next) ==
              if err.None? then Ok(View()) else Err(err.value)
    {
      var k := FindIndex(placeholders.items, PlaceholderKey, id);
      if k < 0 { return Some(NotFound); }
      var ps := placeholders;
      if caption.Some? { ps.items := ps.items[k := ps.items[k].(caption := caption.value)]; }
      if kind.Some? { ps.items := ps.items[k := ps.items[k].(kind := kind.value)]; }
      if required.Some? { ps.items := ps.items[k := ps.items[k].(required := required.value)]; }
      ghost var p := old(ps.items)[k];
      assert ps.items == old(ps.items)[k := p.(caption := Or(caption, p.caption), kind := Or(kind, p.kind),
                                               required := Or(required, p.required))];
      err := None;
    }

    method RemovePlaceholder(id: Id, ghost next: int) returns (err: Option<Refusal>)
      requires Separate()
      modifies placeholders
      ensures EditStep(old(View()), JobOp.RemovePlaceholder(head.id, id), next) ==
              if err.None? then Ok(View()) else Err(err.value)
    {
      var k := FindIndex(placeholders.items, PlaceholderKey, id);
      if k < 0 { return Some(NotFound); }
      placeholders.items := placeholders.items[..k] + placeholders.items[k + 1..];
      err := None;
    }

    /** Every request that edits one step, on that step. */
    method Edit(op: JobOp, next: int) returns (err: Option<Refusal>)
      requires EditsOneStep(op) && op.stepId == head.id && Separate()
      modifies Repr()
      ensures EditStep(old(View()), op, next) == if err.None? then Ok(View()) else Err(err.value)
    {
      match op {
        case UpdateStep(_, _, _, _) => Patch(op); err := None;
        case AttachPlanDoc(_, doc, user) => err := AttachPlanDoc(doc, user, next);
        case RemovePlanDoc(_, id) => err := RemovePlanDoc(id, next);
        case AddResult(_, caption, color) => err := AddResult(caption, color, next);
        case UpdateResult(_, id, caption, color) => err := UpdateResult(id, caption, color, next);
        case AddPlaceholder(_, caption, kind, required) => err := AddPlaceholder(caption, kind, required, next);
        case UpdatePlaceholder(_, id, caption, kind, required) =>
          err := UpdatePlaceholder(id, caption, kind, required, next);
        case RemovePlaceholder(_, id) => err := RemovePlaceholder(id, next);
      }
    }
  }

  /** One frozen step of a run: plain values plus two slices of its own. */
  datatype FrozenStep = FrozenStep(stepId: Id, kind: StepKind, num: int, title: string,
                                   planDocs: Slice<PlanDoc>, placeholders: Slice<Placeholder>)
  {
    ghost function Repr(): set<object> { {planDocs, placeholders} }

    function View(): FrozenV
      reads planDocs, placeholders
    {
      FrozenV(stepId, kind, num, title, planDocs.items, placeholders.items)
    }
  }

  /** The frozen steps keep all their slices inside r. */
  ghost predicate FrozenIn(steps: seq<FrozenStep>, r: set<object>) {
    forall i :: 0 <= i < |steps| ==> steps[i].Repr() <= r
  }

  function FrozenViews(steps: seq<FrozenStep>, ghost r: set<object>): (vs: seq<FrozenV>)
    requires FrozenIn(steps, r)
    reads r
    ensures |vs| == |steps| && forall i :: 0 <= i < |steps| ==> vs[i] == steps[i].View()
  {
    seq(|steps|, i requires 0 <= i < |steps| && FrozenIn(steps, r) reads r => steps[i].View())
  }

  /** A deep copy of one frozen step. */
  method FreshFrozen(v: FrozenV) returns (s: FrozenStep)
    ensures fresh(s.Repr()) && s.View() == v
  {
    var docs := new Slice(v.planDocs);
    var slots := new Slice(v.placeholders);
    s := FrozenStep(v.stepId, v.kind, v.num, v.title, docs, slots);
  }

  class Batch {
    var head: BatchHead
    const steps: seq<FrozenStep>
    ghost const frozen: set<object>
    const fulfillments: Slice<Fulfillment>
    const refs: Slice<string>
    const hidden: Slice<Id>

    constructor (head: BatchHead, steps: seq<FrozenStep>, ghost frozen: set<object>, fs: seq<Fulfillment>,
                 refs: seq<string>, hidden: seq<Id>)
      requires FrozenIn(steps, frozen)
      ensures fresh(Own()) && this.steps == steps && this.frozen == frozen && Separate()
      ensures View() == BatchV(head, old(FrozenViews(steps, frozen)), fs, refs, hidden)
    {
      this.head := head;
      this.steps := steps;
      this.frozen := frozen;
      this.fulfillments := new Slice(fs);
      this.refs := new Slice(refs);
      this.hidden := new Slice(hidden);
    }

    /** What later requests may change: everything but the frozen steps. */
    ghost function Own(): set<object> { {this, fulfillments, refs, hidden} }

    ghost function Repr(): set<object> { Own() + frozen }

    /** No two of the run's own parts are one object, nor a frozen slice. */
    ghost predicate Separate() {
      var f: object, r: object, h: object := fulfillments, refs, hidden;
      && f != r && f != h && r != h
      && this !in frozen && f !in frozen && r !in frozen && h !in frozen
      && FrozenIn(steps, frozen)
    }

    function View(): BatchV
      requires Separate()
      reads Repr()
    {
      BatchV(head, FrozenViews(steps, frozen), fulfillments.items, refs.items, hidden.items)
    }

    /** UpdateBatch's body. */
    method Patch(op: JobOp, ghost next: int)
      requires op.UpdateBatch? && Separate()
      modifies this
      ensures EditBatch(old(View()), op, next) == Ok(View())
    {
      if op.newName.Some? { head := head.(name := op.newName.value); }
      if op.newKind.Some? { head := head.(kind := op.newKind.value); }
      if op.newStatus.Some? { head := head.(status := op.newStatus.value); }
      if op.newRunAt.Some? { head := head.(runAt := op.newRunAt.value); }
    }

    /** The scan for a document already in the slot. */
    method SlotTaken(step: Id, slot: Id) returns (taken: bool)
      ensures taken <==> Fulfilled(fulfillments.items, step, slot)
    {
      var i := 0;
      while i < |fulfillments.items|
        invariant 0 <= i <= |fulfillments.items|
        invariant forall k :: 0 <= k < i ==>
          !(fulfillments.items[k].stepId == step && fulfillments.items[k].placeholderId == slot)
      {
        if fulfillments.items[i].stepId == step && fulfillments.items[i].placeholderId == slot { return true; }
        i := i + 1;
      }
      taken := false;
    }

    /** The position of a frozen step, or -1. */
    method FindFrozen(step: Id) returns (i: int)
      requires Separate()
      ensures i == Find(FrozenViews(steps, frozen), FrozenKey, step)
    {
      i := 0;
      while i < |steps|
        invariant 0 <= i <= |steps|
        invariant forall k :: 0 <= k < i ==> steps[k].stepId != step
      {
        if steps[i].stepId == step { return; }
        i := i + 1;
      }
      i := -1;
    }

    /** The checks against the frozen plan: not the live one. */
    method CheckSlot(step: Id, slot: Id) returns (err: Option<Refusal>)
      requires Separate()
      ensures var views := FrozenViews(steps, frozen);
              var i := Find(views, FrozenKey, step);
              err == if i < 0 then Some(NotFound)
                     else if slot.NoId? then None
                     else if Find(views[i].placeholders, PlaceholderKey, slot) < 0 then Some(NotFound)
                     else if Fulfilled(fulfillments.items, step, slot) then Some(Invalid)
                     else None
    {
      ghost var views := FrozenViews(steps, frozen);
      var i := FindFrozen(step);
      if i < 0 { return Some(NotFound); }
      assert views[i].placeholders == steps[i].placeholders.items;
      if !slot.NoId? {
        var k := FindIndex(steps[i].placeholders.items, PlaceholderKey, slot);
        if k < 0 { return Some(NotFound); }
        var taken := SlotTaken(step, slot);
        if taken { return Some(Invalid); }
      }
      err := None;
    }

    method AddFulfillment(op: JobOp, next: int) returns (err: Option<Refusal>)
      requires op.AddFulfillment? && Separate()
      modifies fulfillments
      ensures EditBatch(old(View()), op, next) == if err.None? then Ok(View()) else Err(err.value)
    {
      ghost var views := FrozenViews(steps, frozen);
      err := CheckSlot(op.stepId, op.placeholderId);
      if err.Some? { return; }
      if |fulfillments.items| >= MAX_FULFILLMENTS { return Some(Invalid); }
      fulfillments.items := fulfillments.items +
        [Fulfillment(Minted(FulfillmentId, next), op.stepId, op.placeholderId, op.doc, op.source, op.isAsRun,
                     op.suppliedBy)];
      assert FrozenViews(steps, frozen) == views;
    }

    method RemoveFulfillment(op: JobOp, ghost next: int) returns (err: Option<Refusal>)
      requires op.RemoveFulfillment? && Separate()
      modifies fulfillments
      ensures EditBatch(old(View()), op, next) == if err.None? then Ok(View()) else Err(err.value)
    {
      var k := FindIndex(fulfillments.items, FulfillmentKey, op.fulfillmentId);
      if k < 0 { return Some(NotFound); }
      fulfillments.items := fulfillments.items[..k] + fulfillments.items[k + 1..];
      err := None;
    }

    /** Attaching a token that is already there succeeds without change. */
    method AddRef(op: JobOp, ghost next: int) returns (err: Option<Refusal>)
      requires op.AddBatchRef? && Separate()
      modifies refs
      ensures EditBatch(old(View()), op, next) == if err.None? then Ok(View()) else Err(err.value)
    {
      var k := FindIndex(refs.items, Identity, op.token);
      if k >= 0 { return None; }
      if |refs.items| >= MAX_REFS { return Some(Invalid); }
      refs.items := refs.items + [op.token];
      err := None;
    }

    method RemoveRef(op: JobOp, ghost next: int) returns (err: Option<Refusal>)
      requires op.RemoveBatchRef? && Separate()
      modifies refs
      ensures EditBatch(old(View()), op, next) == if err.None? then Ok(View()) else Err(err.value)
    {
      var k := FindIndex(refs.items, Identity, op.token);
      if k < 0 { return Some(NotFound); }
      refs.items := refs.items[..k] + refs.items[k + 1..];
      err := None;
    }

    method SetHidden(op: JobOp, ghost next: int) returns (err: Option<Refusal>)
      requires op.SetBatchStepHidden? && Separate()
      modifies hidden
      ensures EditBatch(old(View()), op, next) == if err.None? then Ok(View()) else Err(err.value)
    {
      hide FrozenViews, Find;
      ghost var views := FrozenViews(steps, frozen);
      var i := FindFrozen(op.stepId);
      if i < 0 { return Some(NotFound); }
      var k := FindIndex(hidden.items, Identity, op.stepId);
      if op.collapse && k < 0 {
        hidden.items := hidden.items + [op.stepId];
      } else if !op.collapse && k >= 0 {
        hidden.items := hidden.items[..k] + hidden.items[k + 1..];
      }
      assert FrozenViews(steps, frozen) == views;
      err := None;
    }

    /** Every request that edits one run, on that run. */
    method Edit(op: JobOp, next: int) returns (err: Option<Refusal>)
      requires EditsOneBatch(op) && Separate()
      modifies Own()
      ensures EditBatch(old(View()), op, next) == if err.None? then Ok(View()) else Err(err.value)
    {
      match op {
        case UpdateBatch(_, _, _, _, _) => Patch(op, next); err := None;
        case AddFulfillment(_, _, _, _, _, _, _) => err := AddFulfillment(op, next);
        case RemoveFulfillment(_, _) => err := RemoveFulfillment(op, next);
        case AddBatchRef(_, _) => err := AddRef(op, next);
        case RemoveBatchRef(_, _) => err := RemoveRef(op, next);
        case SetBatchStepHidden(_, _, _) => err := SetHidden(op, next);
      }
    }
  }
}
