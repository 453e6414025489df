/** Runs of a job: the freeze at creation, and that every request keeps each
    run well formed and never touches what it froze. */
module ProductionBatches {
  import opened Common
  import opened ProductionTypes
  import opened ProductionPlan
  import opened ProductionInvariants

  /** Freezing a well formed plan gives a well formed frozen plan, step by step. */
  lemma FreezeOk(steps: seq<StepV>, nextStep: int, nextChild: int)
    requires StepsOk(steps, nextStep, nextChild)
    ensures Distinct(FreezePlan(steps), FrozenKey)
    ensures forall s :: s in FreezePlan(steps) ==> FrozenOk(s)
  {
    var fs := FreezePlan(steps);
    forall s | s in fs ensures FrozenOk(s) {
      var i :| 0 <= i < |fs| && fs[i] == s;
      assert StepOk(steps[i], nextStep, nextChild);
    }
    forall i, k | 0 <= i < k < |fs| ensures FrozenKey(fs[i]) != FrozenKey(fs[k]) {
      assert StepKey(steps[i]) != StepKey(steps[k]);
    }
  }

  lemma CreateBatchKeeps(j: JobV, op: JobOp)
    requires WellFormed(j) && op.CreateBatch? && CreateBatchIn(j, op).Ok?
    ensures WellFormed(CreateBatchIn(j, op).value)
  {
    var b := CreateBatchIn(j, op).value.batches[|j.batches|];
    FreezeOk(j.steps, j.nextStep, j.nextChild);
    BatchAppended(j.batches, b, j.nextBatch, j.nextChild);
  }

  lemma BatchAppended(batches: seq<BatchV>, b: BatchV, nextBatch: int, nextChild: int)
    requires BatchesOk(batches, nextBatch, nextChild) && |batches| < MAX_BATCHES
    requires BatchOk(b, nextBatch + 1, nextChild) && b.head.id == Minted(BatchId, nextBatch) && b.fulfillments == []
    ensures BatchesOk(batches + [b], nextBatch + 1, nextChild)
  {
    forall i, k | 0 <= i < k < |batches| + 1
      ensures BatchesApart((batches + [b])[i], (batches + [b])[k])
    {
      if k < |batches| { assert BatchesApart(batches[i], batches[k]); }
    }
  }

  lemma DeleteBatchKeeps(j: JobV, id: Id)
    requires WellFormed(j) && Apply(j, DeleteBatch(id)).Ok?
    ensures WellFormed(Apply(j, DeleteBatch(id)).value)
  {
    BatchRemoved(j.batches, Find(j.batches, BatchKey, id), j.nextBatch, j.nextChild);
  }

  lemma BatchRemoved(batches: seq<BatchV>, i: nat, nextBatch: int, nextChild: int)
    requires i < |batches| && BatchesOk(batches, nextBatch, nextChild)
    ensures BatchesOk(Without(batches, i), nextBatch, nextChild)
  {
    WithoutDistinct(batches, i, BatchKey);
    var r := Without(batches, i);
    forall a, b | 0 <= a < b < |r| ensures BatchesApart(r[a], r[b]) {
      assert BatchesApart(batches[if a < i then a else a + 1], batches[if b < i then b else b + 1]);
    }
  }

  /** What AddFulfillment checks is what keeps one document per frozen slot. */
  lemma FulfillmentAdded(b: BatchV, op: JobOp, nextBatch: int, next: int, t: BatchV)
    requires op.AddFulfillment? && next >= 1 && BatchOk(b, nextBatch, next) && EditBatch(b, op, next) == Ok(t)
    ensures BatchOk(t, nextBatch, next + 1)
  {
    var f := t.fulfillments[|b.fulfillments|];
    MintedAppend(b.fulfillments, f, FulfillmentKey, FulfillmentId, next);
    var s := b.steps[Find(b.steps, FrozenKey, op.stepId)];
    assert s in b.steps;
    if !op.placeholderId.NoId? {
      assert s.placeholders[Find(s.placeholders, PlaceholderKey, op.placeholderId)] in s.placeholders;
    }
    assert SlotFrozen(f, b.steps);
    assert t.fulfillments == b.fulfillments + [f];
    forall i, k | 0 <= i < k < |t.fulfillments| && !t.fulfillments[i].placeholderId.NoId?
      ensures !(t.fulfillments[i].stepId == t.fulfillments[k].stepId &&
                t.fulfillments[i].placeholderId == t.fulfillments[k].placeholderId)
    {
      assert t.fulfillments[i] in b.fulfillments;
    }
  }

  lemma FulfillmentRemoved(b: BatchV, k: nat, nextBatch: int, next: int)
    requires k < |b.fulfillments| && BatchOk(b, nextBatch, next)
    ensures BatchOk(b.(fulfillments := Without(b.fulfillments, k)), nextBatch, next)
  {
    MintedWithout(b.fulfillments, k, FulfillmentKey, FulfillmentId, next);
    WithoutMembers(b.fulfillments, k);
  }

  lemma HiddenChanged(b: BatchV, op: JobOp, nextBatch: int, next: int, t: BatchV)
    requires op.SetBatchStepHidden? && BatchOk(b, nextBatch, next) && EditBatch(b, op, next) == Ok(t)
    ensures BatchOk(t, nextBatch, next)
  {
    var k := Find(b.hidden, Identity, op.stepId);
    assert b.steps[Find(b.steps, FrozenKey, op.stepId)] in b.steps;
    if k >= 0 {
      WithoutDistinct(b.hidden, k, Identity);
      WithoutMembers(b.hidden, k);
    }
  }

  lemma RefsChanged(b: BatchV, op: JobOp, nextBatch: int, next: int, t: BatchV)
    requires op.AddBatchRef? || op.RemoveBatchRef?
    requires BatchOk(b, nextBatch, next) && EditBatch(b, op, next) == Ok(t)
    ensures BatchOk(t, nextBatch, next)
  {
    if op.RemoveBatchRef? { WithoutDistinct(b.refs, Find(b.refs, Identity, op.token), Identity); }
  }

  lemma EditBatchOk(b: BatchV, op: JobOp, nextBatch: int, next: int, t: BatchV)
    requires EditsOneBatch(op) && next >= 1 && BatchOk(b, nextBatch, next) && EditBatch(b, op, next) == Ok(t)
    ensures BatchOk(t, nextBatch, next + if MintsChild(op) then 1 else 0)
  {
    if op.AddFulfillment? {
      FulfillmentAdded(b, op, nextBatch, next, t);
    } else if op.RemoveFulfillment? {
      FulfillmentRemoved(b, Find(b.fulfillments, FulfillmentKey, op.fulfillmentId), nextBatch, next);
    } else if op.SetBatchStepHidden? {
      HiddenChanged(b, op, nextBatch, next, t);
    } else if !op.UpdateBatch? {
      RefsChanged(b, op, nextBatch, next, t);
    }
  }

  /** Whatever is asked of a run, its identity and frozen plan stay. */
  lemma EditBatchTraces(b: BatchV, op: JobOp, next: int, t: BatchV)
    requires EditsOneBatch(op) && EditBatch(b, op, next) == Ok(t)
    ensures t.head.id == b.head.id && t.head.num == b.head.num && t.steps == b.steps
    ensures From(b.fulfillments, t.fulfillments, FulfillmentKey, Minted(FulfillmentId, next))
  {
    if op.AddFulfillment? {
      FromAppend(b.fulfillments, t.fulfillments[|b.fulfillments|], FulfillmentKey);
    } else if op.RemoveFulfillment? {
      FromWithout(b.fulfillments, Find(b.fulfillments, FulfillmentKey, op.fulfillmentId), FulfillmentKey,
                  Minted(FulfillmentId, next));
    } else {
      FromSame(b.fulfillments, FulfillmentKey, Minted(FulfillmentId, next));
    }
  }

  lemma BatchReplaced(batches: seq<BatchV>, i: nat, t: BatchV, nextBatch: int, next: int, next': int)
    requires i < |batches| && BatchesOk(batches, nextBatch, next) && next <= next'
    requires BatchOk(t, nextBatch, next') && t.head.id == batches[i].head.id
    requires From(batches[i].fulfillments, t.fulfillments, FulfillmentKey, Minted(FulfillmentId, next))
    ensures BatchesOk(batches[i := t], nextBatch, next')
  {
    forall k | 0 <= k < |batches| && k != i
      ensures k < i ==> BatchesApart(batches[k], t)
      ensures k > i ==> BatchesApart(t, batches[k])
    {
      assert if k < i then BatchesApart(batches[k], batches[i]) else BatchesApart(batches[i], batches[k]);
      assert BatchOk(batches[k], nextBatch, next);
    }
  }

  lemma EditBatchKeeps(j: JobV, op: JobOp)
    requires WellFormed(j) && EditsOneBatch(op) && EditBatchIn(j, op).Ok?
    ensures WellFormed(EditBatchIn(j, op).value)
  {
    var i := Find(j.batches, BatchKey, op.batchId);
    var t := EditBatch(j.batches[i], op, j.nextChild).value;
    var next' := j.nextChild + if MintsChild(op) then 1 else 0;
    EditBatchTraces(j.batches[i], op, j.nextChild, t);
    EditBatchOk(j.batches[i], op, j.nextBatch, j.nextChild, t);
    BatchReplaced(j.batches, i, t, j.nextBatch, j.nextChild, next');
    CountersGrow(j, j.nextStep, j.nextBatch, next');
  }

  /** Every job request, whatever its arguments, keeps a well formed job so. */
  lemma ApplyKeeps(j: JobV, op: JobOp)
    requires WellFormed(j) && Apply(j, op).Ok?
    ensures WellFormed(Apply(j, op).value)
  {
    if EditsOneStep(op) {
      EditStepKeeps(j, op);
    } else if EditsOneBatch(op) {
      EditBatchKeeps(j, op);
    } else {
      match op
      case UpdateJob(_, _) =>
      case CreateStep(_, _, _, _, _) => CreateStepKeeps(j, op);
      case DeleteStep(id) => DeleteStepKeeps(j, id);
      case AddEdge(from, result, to) => AddEdgeKeeps(j, from, result, to);
      case DeleteEdge(id) => DeleteEdgeKeeps(j, id);
      case RemoveResult(step, result) => RemoveResultKeeps(j, step, result);
      case CreateBatch(_, _, _, _) => CreateBatchKeeps(j, op);
      case DeleteBatch(id) => DeleteBatchKeeps(j, id);
    }
  }
}
