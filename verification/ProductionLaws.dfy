/** How requests of one job relate: what one undoes, and what repeating one does. */
module ProductionLaws {
  import opened Common
  import opened ProductionTypes
  import opened ProductionGraph
  import opened ProductionPlan
  import opened ProductionInvariants

  lemma FindAppended<T>(s: seq<T>, x: T, key: T -> Id, kind: IdKind, next: int)
    requires MintedOnce(s, key, kind, next) && key(x) == Minted(kind, next)
    ensures Find(s + [x], key, key(x)) == |s| && Without(s + [x], |s|) == s
  {
    forall k | 0 <= k < |s| ensures key(s[k]) != key(x) { assert IsMinted(key(s[k]), kind, next); }
    assert (s + [x])[|s|] == x && forall k :: 0 <= k < |s| ==> (s + [x])[k] == s[k];
  }

  /** Deleting the edge just added gives back the job, the child counter aside. */
  lemma DeleteEdgeUndoesAddEdge(j: JobV, from: Id, result: Id, to: Id)
    requires WellFormed(j) && Apply(j, AddEdge(from, result, to)).Ok?
    ensures Apply(Apply(j, AddEdge(from, result, to)).value, DeleteEdge(Minted(EdgeId, j.nextChild))) ==
            Ok(j.(nextChild := j.nextChild + 1))
  {
    hide EdgeRefused, HasPath, Acyclic, StepsOk, BatchesOk;
    FindAppended(j.edges, Edge(Minted(EdgeId, j.nextChild), from, result, to), EdgeKey, EdgeId, j.nextChild);
  }

  /** Deleting the run just created gives back the job, the run counter aside. */
  lemma DeleteBatchUndoesCreateBatch(j: JobV, create: JobOp)
    requires WellFormed(j) && create.CreateBatch? && Apply(j, create).Ok?
    ensures Apply(Apply(j, create).value, DeleteBatch(Minted(BatchId, j.nextBatch))) ==
            Ok(j.(nextBatch := j.nextBatch + 1))
  {
    hide WellFormed, StepsOk, EdgesOk, FreezePlan;
    BatchIdsMinted(j);
    FindAppended(j.batches, Apply(j, create).value.batches[|j.batches|], BatchKey, BatchId, j.nextBatch);
  }

  lemma BatchIdsMinted(j: JobV)
    requires WellFormed(j)
    ensures MintedOnce(j.batches, BatchKey, BatchId, j.nextBatch)
  {
    forall i | 0 <= i < |j.batches| ensures IsMinted(j.batches[i].head.id, BatchId, j.nextBatch) {
      assert BatchOk(j.batches[i], j.nextBatch, j.nextChild);
    }
  }

  /** A step created and deleted leaves no trace but the step counter: nothing
      could have linked to it, whatever the plan looked like. */
  lemma DeleteStepUndoesCreateStep(j: JobV, create: JobOp)
    requires WellFormed(j) && create.CreateStep? && CreateStepIn(j, create).Ok?
    ensures DeleteStepIn(CreateStepIn(j, create).value, Minted(StepId, j.nextStep)) ==
            Ok(j.(nextStep := j.nextStep + 1))
  {
    hide WellFormed, StepsOk, EdgesOk, BatchesOk;
    StepIdsMinted(j);
    FindAppended(j.steps, CreateStepIn(j, create).value.steps[|j.steps|], StepKey, StepId, j.nextStep);
    KeepsAll(j.edges, NotTouching(Minted(StepId, j.nextStep)));
  }

  lemma StepIdsMinted(j: JobV)
    requires WellFormed(j)
    ensures MintedOnce(j.steps, StepKey, StepId, j.nextStep)
    ensures forall e :: e in j.edges ==> NotTouching(Minted(StepId, j.nextStep))(e)
  {
    forall i | 0 <= i < |j.steps| ensures IsMinted(j.steps[i].head.id, StepId, j.nextStep) {
      assert StepOk(j.steps[i], j.nextStep, j.nextChild);
    }
    forall e | e in j.edges ensures NotTouching(Minted(StepId, j.nextStep))(e) {
      assert EdgeOk(e, j.steps);
    }
  }

  /** Removing the document just supplied frees its slot again. */
  lemma RemoveUndoesFulfillment(b: BatchV, supply: JobOp, nextBatch: int, next: int, after: BatchV)
    requires supply.AddFulfillment? && BatchOk(b, nextBatch, next) && EditBatch(b, supply, next) == Ok(after)
    ensures EditBatch(after, RemoveFulfillment(supply.batchId, Minted(FulfillmentId, next)), next + 1) == Ok(b)
    ensures !supply.placeholderId.NoId? ==> EditBatch(after, supply, next + 1) == Err(Invalid)
  {
    FindAppended(b.fulfillments, after.fulfillments[|b.fulfillments|], FulfillmentKey, FulfillmentId, next);
    assert after.fulfillments[|b.fulfillments|] in after.fulfillments;
  }

  /** Hiding a step twice is hiding it once, and showing it again brings back
      the list as it was; the frozen record is never involved. */
  lemma HideShow(b: BatchV, id: Id, step: Id, next: int)
    requires Find(b.steps, FrozenKey, step) >= 0 && step !in b.hidden
    ensures var h := EditBatch(b, SetBatchStepHidden(id, step, true), next);
            && h.Ok? && h.value.hidden == b.hidden + [step]
            && EditBatch(h.value, SetBatchStepHidden(id, step, true), next) == h
            && EditBatch(h.value, SetBatchStepHidden(id, step, false), next) == Ok(b)
  {
    var hidden := b.hidden + [step];
    assert Find(b.hidden, Identity, step) < 0;
    assert hidden[|b.hidden|] == step && forall k :: 0 <= k < |b.hidden| ==> hidden[k] == b.hidden[k];
    assert Without(hidden, |b.hidden|) == b.hidden;
  }
}
