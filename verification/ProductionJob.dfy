/** A live job: the request bodies of production/store.go, each proved to do what
    its specification says, and the deep copies that guard them. */
module ProductionJob {
  import opened Common
  import opened ProductionTypes
  import opened ProductionGraph
  import opened ProductionPlan
  import opened ProductionObjects

  /** Steps that live inside r and share no storage with each other. */
  ghost predicate StepsIn(ss: seq<Step>, r: set<object>) {
    && (forall i :: 0 <= i < |ss| ==> ss[i].Separate() && ss[i].Repr() <= r)
    && (forall i, k :: 0 <= i < k < |ss| ==> ss[i].Repr() !! ss[k].Repr())
  }

  function StepViews(ss: seq<Step>, ghost r: set<object>): (vs: seq<StepV>)
    requires StepsIn(ss, r)
    reads r
    ensures |vs| == |ss| && forall i :: 0 <= i < |ss| ==> vs[i] == ss[i].View()
  {
    seq(|ss|, i requires 0 <= i < |ss| && StepsIn(ss, r) reads r => ss[i].View())
  }

  /** Runs that live inside r and share no storage with each other. */
  ghost predicate BatchesIn(bs: seq<Batch>, r: set<object>) {
    && (forall i :: 0 <= i < |bs| ==> bs[i].Separate() && bs[i].Repr() <= r)
    && (forall i, k :: 0 <= i < k < |bs| ==> bs[i].Repr() !! bs[k].Repr())
  }

  function BatchViews(bs: seq<Batch>, ghost r: set<object>): (vs: seq<BatchV>)
    requires BatchesIn(bs, r)
    reads r
    ensures |vs| == |bs| && forall i :: 0 <= i < |bs| ==> vs[i] == bs[i].View()
  {
    seq(|bs|, i requires 0 <= i < |bs| && BatchesIn(bs, r) reads r => bs[i].View())
  }

  lemma StepViewsWithout(ss: seq<Step>, r: set<object>, i: nat)
    requires i < |ss| && StepsIn(ss, r)
    ensures StepsIn(Without(ss, i), r) && StepViews(Without(ss, i), r) == Without(StepViews(ss, r), i)
  {}

  lemma BatchViewsWithout(bs: seq<Batch>, r: set<object>, i: nat)
    requires i < |bs| && BatchesIn(bs, r)
    ensures BatchesIn(Without(bs, i), r) && BatchViews(Without(bs, i), r) == Without(BatchViews(bs, r), i)
  {}

  lemma StepViewsAppend(ss: seq<Step>, r: set<object>, s: Step)
    requires StepsIn(ss, r) && s.Separate() && s.Repr() !! r
    ensures StepsIn(ss + [s], r + s.Repr()) && StepViews(ss + [s], r + s.Repr()) == StepViews(ss, r) + [s.View()]
  {}

  lemma BatchViewsAppend(bs: seq<Batch>, r: set<object>, b: Batch)
    requires BatchesIn(bs, r) && b.Separate() && b.Repr() !! r
    ensures BatchesIn(bs + [b], r + b.Repr()) && BatchViews(bs + [b], r + b.Repr()) == BatchViews(bs, r) + [b.View()]
  {}

  lemma OneStepChanged(ss: seq<Step>, r: set<object>, i: nat, before: seq<StepV>)
    requires i < |ss| && StepsIn(ss, r) && |before| == |ss|
    requires forall k :: 0 <= k < |ss| && k != i ==> ss[k].View() == before[k]
    ensures StepViews(ss, r) == before[i := ss[i].View()]
  {}

  lemma OneBatchChanged(bs: seq<Batch>, r: set<object>, i: nat, before: seq<BatchV>)
    requires i < |bs| && BatchesIn(bs, r) && |before| == |bs|
    requires forall k :: 0 <= k < |bs| && k != i ==> bs[k].View() == before[k]
    ensures BatchViews(bs, r) == before[i := bs[i].View()]
  {}

  method CopyStep(st: Step) returns (c: Step)
    ensures fresh(c.Repr()) && c.Separate() && c.View() == st.View()
  {
    c := new Step(StepV(st.head, st.results.items, st.planDocs.items, st.placeholders.items));
  }

  method CopySteps(ss: seq<Step>, ghost r: set<object>) returns (out: seq<Step>, ghost own: set<object>)
    requires StepsIn(ss, r)
    ensures fresh(own) && StepsIn(out, own) && StepViews(out, own) == StepViews(ss, r)
  {
    ghost var views := StepViews(ss, r);
    out, own := [], {};
    var i := 0;
    while i < |ss|
      invariant 0 <= i <= |ss| && fresh(own) && StepsIn(out, own) && StepViews(ss, r) == views
      invariant StepViews(out, own) == views[..i]
    {
      ghost var done := StepViews(out, own);
      var c := CopyStep(ss[i]);
      assert StepViews(out, own) == done;
      out, own := out + [c], own + c.Repr();
      i := i + 1;
    }
  }

  /** Every frozen slice is copied, so the copy shares none with the run. */
  method CopyFrozen(steps: seq<FrozenStep>, ghost r: set<object>) returns (out: seq<FrozenStep>, ghost own: set<object>)
    requires FrozenIn(steps, r)
    ensures fresh(own) && FrozenIn(out, own) && FrozenViews(out, own) == FrozenViews(steps, r)
  {
    ghost var views := FrozenViews(steps, r);
    out, own := [], {};
    var i := 0;
    while i < |steps|
      invariant 0 <= i <= |steps| && fresh(own) && FrozenIn(out, own) && FrozenViews(steps, r) == views
      invariant FrozenViews(out, own) == views[..i]
    {
      ghost var done := FrozenViews(out, own);
      var c := FreshFrozen(FrozenV(steps[i].stepId, steps[i].kind, steps[i].num, steps[i].title,
                                   steps[i].planDocs.items, steps[i].placeholders.items));
      assert FrozenViews(out, own) == done;
      out, own := out + [c], own + c.Repr();
      i := i + 1;
    }
  }

  method CopyBatch(b: Batch) returns (c: Batch)
    requires b.Separate()
    ensures fresh(c.Repr()) && c.Separate() && c.View() == b.View()
  {
    var steps, own := CopyFrozen(b.steps, b.frozen);
    c := new Batch(b.head, steps, own, b.fulfillments.items, b.refs.items, b.hidden.items);
  }

  method CopyBatches(bs: seq<Batch>, ghost r: set<object>) returns (out: seq<Batch>, ghost own: set<object>)
    requires BatchesIn(bs, r)
    ensures fresh(own) && BatchesIn(out, own) && BatchViews(out, own) == BatchViews(bs, r)
  {
    ghost var views := BatchViews(bs, r);
    out, own := [], {};
    var i := 0;
    while i < |bs|
      invariant 0 <= i <= |bs| && fresh(own) && BatchesIn(out, own) && BatchViews(bs, r) == views
      invariant BatchViews(out, own) == views[..i]
    {
      ghost var done := BatchViews(out, own);
      var c := CopyBatch(bs[i]);
      assert BatchViews(out, own) == done;
      out, own := out + [c], own + c.Repr();
      i := i + 1;
    }
  }

  /** The freeze: every step's identity, documents and slots, in slices of their own. */
  method FreezeSteps(ss: seq<Step>, ghost r: set<object>) returns (frozen: seq<FrozenStep>, ghost own: set<object>)
    requires StepsIn(ss, r)
    ensures fresh(own) && FrozenIn(frozen, own) && FrozenViews(frozen, own) == FreezePlan(StepViews(ss, r))
  {
    ghost var views := StepViews(ss, r);
    frozen, own := [], {};
    var i := 0;
    while i < |ss|
      invariant 0 <= i <= |ss| && fresh(own) && FrozenIn(frozen, own) && StepViews(ss, r) == views
      invariant FrozenViews(frozen, own) == FreezePlan(views)[..i]
    {
      ghost var done := FrozenViews(frozen, own);
      var st := ss[i];
      assert st.View() == views[i];
      var c := FreshFrozen(FrozenV(st.head.id, NormalKind(st.head.kind), st.head.num, st.head.title,
                                   st.planDocs.items, st.placeholders.items));
      assert FrozenViews(frozen, own) == done;
      frozen, own := frozen + [c], own + c.Repr();
      i := i + 1;
    }
  }

  class Job {
    var head: JobHead
    var steps: seq<Step>
    const edges: Slice<Edge>
    var batches: seq<Batch>
    var nextStep: int
    var nextBatch: int
    var nextChild: int
    ghost var stepRepr: set<object>
    ghost var batchRepr: set<object>

    constructor (head: JobHead, steps: seq<Step>, ghost sr: set<object>, es: seq<Edge>, batches: seq<Batch>,
                 ghost br: set<object>, nextStep: int, nextBatch: int, nextChild: int)
      requires StepsIn(steps, sr) && BatchesIn(batches, br) && sr !! br
      ensures Valid() && fresh({this, edges}) && stepRepr == sr && batchRepr == br
      ensures View() == JobV(head, old(StepViews(steps, sr)), es, old(BatchViews(batches, br)),
                             nextStep, nextBatch, nextChild)
    {
      this.head := head;
      this.steps := steps;
      this.edges := new Slice(es);
      this.batches := batches;
      this.nextStep := nextStep;
      this.nextBatch := nextBatch;
      this.nextChild := nextChild;
      this.stepRepr := sr;
      this.batchRepr := br;
    }

    ghost function Repr(): set<object>
      reads this
    {
      {this, edges} + stepRepr + batchRepr
    }

    /** No two parts of the job share storage. */
    ghost predicate Valid()
      reads this
    {
      && StepsIn(steps, stepRepr) && BatchesIn(batches, batchRepr) && stepRepr !! batchRepr
      && this !in stepRepr && this !in batchRepr && edges !in stepRepr && edges !in batchRepr
    }

    function View(): JobV
      requires Valid()
      reads this, Repr()
    {
      JobV(head, StepViews(steps, stepRepr), edges.items, BatchViews(batches, batchRepr),
           nextStep, nextBatch, nextChild)
    }

    /** The deep copy behind every rollback snapshot and every returned job. */
    method Copy() returns (c: Job)
      requires Valid()
      ensures fresh(c.Repr()) && c.Valid() && c.View() == View()
    {
      ghost var v := View();
      var ss, sr := CopySteps(steps, stepRepr);
      var bs, br := CopyBatches(batches, batchRepr);
      c := new Job(head, ss, sr, edges.items, bs, br, nextStep, nextBatch, nextChild);
    }

    /** The copy of a run that its requests answer with. */
    method CopyOfBatch(k: nat) returns (c: Batch)
      requires Valid() && k < |batches|
      ensures fresh(c.Repr()) && c.Separate() && c.View() == View().batches[k]
    {
      c := CopyBatch(batches[k]);
    }

    /** A copy of the run a request asked about: the one just made, or the one named. */
    method PickBatch(op: JobOp, ghost i: nat) returns (c: Batch)
      requires Valid() && (op.CreateBatch? || EditsOneBatch(op))
      requires i < |batches| && i == AskedFor(View().batches, op)
      ensures fresh(c.Repr()) && c.Separate() && c.View() == View().batches[i]
    {
      hide BatchesIn, StepsIn, StepViews, Batch.View, Batch.Separate, Batch.Repr, Find;
      var k := |batches| - 1;
      if !op.CreateBatch? { k := FindBatch(op.batchId); }
      c := CopyOfBatch(k);
    }

    /** What DuplicateJob sets on its copy: a new identity, and no runs. */
    method Rename(h: JobHead)
      requires Valid()
      modifies this
      ensures Valid() && Repr() == old(Repr())
      ensures View() == old(View()).(head := h, batches := [], nextBatch := 1)
    {
      head := h;
      batches := [];
      nextBatch := 1;
    }

    method FindStep(id: Id) returns (i: int)
      requires StepsIn(steps, stepRepr)
      ensures i == Find(StepViews(steps, stepRepr), StepKey, id)
    {
      i := 0;
      while i < |steps|
        invariant 0 <= i <= |steps|
        invariant forall k :: 0 <= k < i ==> steps[k].head.id != id
      {
        if steps[i].head.id == id { return; }
        i := i + 1;
      }
      i := -1;
    }

    method FindBatch(id: Id) returns (i: int)
      requires BatchesIn(batches, batchRepr)
      ensures i == Find(BatchViews(batches, batchRepr), BatchKey, id)
    {
      i := 0;
      while i < |batches|
        invariant 0 <= i <= |batches|
        invariant forall k :: 0 <= k < i ==> batches[k].head.id != id
      {
        if batches[i].head.id == id { return; }
        i := i + 1;
      }
      i := -1;
    }

    /** UpdateJob's body. */
    method Patch(op: JobOp)
      requires op.UpdateJob? && Valid()
      modifies this`head
      ensures Valid() && Apply(old(View()), op) == Ok(View())
    {
      if op.name.Some? { head := head.(name := op.name.value); }
      if op.description.Some? { head := head.(description := op.description.value); }
    }

    method CreateStep(op: JobOp) returns (err: Option<Refusal>)
      requires op.CreateStep? && Valid()
      modifies this
      ensures Valid() && fresh(Repr() - old(Repr()))
      ensures CreateStepIn(old(View()), op) == if err.None? then Ok(View()) else Err(err.value)
    {
      hide StepsIn, BatchesIn, StepViews, BatchViews, Step.View, Step.Repr, Step.Separate;
      if |steps| >= MAX_STEPS { return Some(Invalid); }
      ghost var v := View();
      var st := new Step(StepV(StepHead(Minted(StepId, nextStep), NormalKind(op.kind), nextStep, op.title,
                                        op.stepDescription, op.x, op.y), [], [], []));
      assert View() == v;
      AppendStep(st);
      err := None;
    }

    method AppendStep(st: Step)
      requires Valid() && st.Separate() && st.Repr() !! Repr()
      modifies this
      ensures Valid() && Repr() == old(Repr()) + st.Repr()
      ensures View() == old(View()).(steps := old(View()).steps + [old(st.View())], nextStep := old(nextStep) + 1)
    {
      hide StepsIn, BatchesIn, StepViews, BatchViews, Step.View, Step.Repr, Step.Separate;
      StepViewsAppend(steps, stepRepr, st);
      nextStep := nextStep + 1;
      steps, stepRepr := steps + [st], stepRepr + st.Repr();
    }

    /** Removes the step, then sweeps its incident edges out of the edge slice. */
    method DeleteStep(id: Id) returns (err: Option<Refusal>)
      requires Valid()
      modifies this`steps, edges
      ensures Valid()
      ensures DeleteStepIn(old(View()), id) == if err.None? then Ok(View()) else Err(err.value)
    {
      hide StepsIn, BatchesIn, StepViews, BatchViews, Find, Filter;
      var i := FindStep(id);
      if i < 0 { return Some(NotFound); }
      RemoveStepAt(i);
      SweepEdges(NotTouching(id));
      err := None;
    }

    method RemoveStepAt(i: nat)
      requires Valid() && i < |steps|
      modifies this`steps
      ensures Valid() && View() == old(View()).(steps := Without(old(View()).steps, i))
    {
      hide StepsIn, BatchesIn, StepViews, BatchViews;
      StepViewsWithout(steps, stepRepr, i);
      steps := Without(steps, i);
    }

    method EdgeExists(from: Id, result: Id, to: Id) returns (found: bool)
      ensures found <==> exists e :: e in edges.items && e.from == from && e.fromResult == result && e.to == to
    {
      var i := 0;
      while i < |edges.items|
        invariant 0 <= i <= |edges.items|
        invariant forall k :: 0 <= k < i ==>
          !(edges.items[k].from == from && edges.items[k].fromResult == result && edges.items[k].to == to)
      {
        var e := edges.items[i];
        if e.from == from && e.fromResult == result && e.to == to { return true; }
        i := i + 1;
      }
      found := false;
    }

    /** Whether a step may send out an edge under that result name. */
    method CheckResult(st: Step, result: Id) returns (refused: bool)
      ensures var s := st.View();
              refused <==> if IsDecision(s.head.kind)
                           then result.NoId? || Find(s.results, ResultKey, result) < 0
                           else !result.NoId?
    {
      if IsDecision(st.head.kind) {
        if result.NoId? { return true; }
        var k := FindIndex(st.results.items, ResultKey, result);
        refused := k < 0;
      } else {
        refused := !result.NoId?;
      }
    }

    /** The checks of AddEdge, in the source's order, ending with the search. */
    method CheckEdge(ghost v: JobV, from: Id, result: Id, to: Id) returns (refused: bool)
      requires StepsIn(steps, stepRepr) && v.steps == StepViews(steps, stepRepr) && v.edges == edges.items
      ensures refused <==> EdgeRefused(v, from, result, to) || HasPath(v.edges, to, from)
    {
      hide Find, HasPath;
      if from == to { return true; }
      var i := FindStep(from);
      var k := FindStep(to);
      if i < 0 || k < 0 { return true; }
      var unbound := CheckResult(steps[i], result);
      if unbound { return true; }
      var duplicate := EdgeExists(from, result, to);
      if duplicate || |edges.items| >= MAX_EDGES { return true; }
      refused := Reaches(edges.items, to, from);
    }

    method AddEdge(from: Id, result: Id, to: Id) returns (err: Option<Refusal>)
      requires Valid()
      modifies this`nextChild, edges
      ensures Valid()
      ensures AddEdgeIn(old(View()), from, result, to) == if err.None? then Ok(View()) else Err(err.value)
      ensures err.Some? ==> View() == old(View())
    {
      hide EdgeRefused, StepsIn, BatchesIn;
      var refused := CheckEdge(View(), from, result, to);
      if refused { return Some(Invalid); }
      edges.items := edges.items + [Edge(Minted(EdgeId, nextChild), from, result, to)];
      nextChild := nextChild + 1;
      err := None;
    }

    method DeleteEdge(id: Id) returns (err: Option<Refusal>)
      requires Valid()
      modifies edges
      ensures Valid()
      ensures Apply(old(View()), JobOp.DeleteEdge(id)) == if err.None? then Ok(View()) else Err(err.value)
    {
      hide StepsIn, BatchesIn, StepViews, BatchViews, Find, EditStepIn, EditBatchIn, CreateStepIn, DeleteStepIn,
        AddEdgeIn, RemoveResultIn, CreateBatchIn;
      var i := FindIndex(edges.items, EdgeKey, id);
      if i < 0 { return Some(NotFound); }
      edges.items := edges.items[..i] + edges.items[i + 1..];
      err := None;
    }

    /** Every child id handed out moves the shared counter on. */
    method TakeChildId()
      requires Valid()
      modifies this`nextChild
      ensures Valid() && View() == old(View()).(nextChild := old(nextChild) + 1)
    {
      nextChild := nextChild + 1;
    }

    /** Edits the step found: its own storage changes, and nothing else does. */
    method ChangeStepAt(i: nat, op: JobOp) returns (err: Option<Refusal>)
      requires EditsOneStep(op) && Valid() && i < |steps| && steps[i].head.id == op.stepId
      modifies stepRepr
      ensures Valid() && View() == old(View()).(steps := old(View()).steps[i := View().steps[i]])
      ensures EditStep(old(View()).steps[i], op, nextChild) ==
              if err.None? then Ok(View().steps[i]) else Err(err.value)
    {
      ghost var sv, bv := StepViews(steps, stepRepr), BatchViews(batches, batchRepr);
      err := steps[i].Edit(op, nextChild);
      OneStepChanged(steps, stepRepr, i, sv);
      assert BatchViews(batches, batchRepr) == bv;
    }

    method ChangeStep(op: JobOp) returns (err: Option<Refusal>)
      requires EditsOneStep(op) && Valid()
      modifies this`nextChild, stepRepr
      ensures Valid()
      ensures EditStepIn(old(View()), op) == if err.None? then Ok(View()) else Err(err.value)
    {
      hide EditStep, Find, StepsIn, BatchesIn, StepViews, BatchViews;
      var i := FindStep(op.stepId);
      if i < 0 { return Some(NotFound); }
      err := ChangeStepAt(i, op);
      if err.None? && MintsChild(op) { TakeChildId(); }
    }

    method FindResult(i: nat, result: Id) returns (k: int)
      requires Valid() && i < |steps|
      ensures k == Find(View().steps[i].results, ResultKey, result) && k < |steps[i].results.items|
    {
      k := FindIndex(steps[i].results.items, ResultKey, result);
    }

    /** Removes the result, then sweeps the edges that left by it. */
    method RemoveResult(step: Id, result: Id) returns (err: Option<Refusal>)
      requires Valid()
      modifies stepRepr, edges
      ensures Valid()
      ensures RemoveResultIn(old(View()), step, result) == if err.None? then Ok(View()) else Err(err.value)
    {
      hide StepsIn, BatchesIn, StepViews, BatchViews, Find, Filter;
      var i := FindStep(step);
      if i < 0 { return Some(NotFound); }
      var k := FindResult(i, result);
      if k < 0 { return Some(NotFound); }
      RemoveResultAt(i, k);
      SweepEdges(NotLeavingBy(step, result));
      err := None;
    }

    /** The "kept := j.Edges[:0]" sweep. */
    method SweepEdges(keep: Edge -> bool)
      requires Valid()
      modifies edges
      ensures Valid() && View() == old(View()).(edges := Filter(old(View()).edges, keep))
    {
      hide StepsIn, BatchesIn, StepViews, BatchViews, Filter;
      var kept := Sweep(edges.items, keep);
      edges.items := kept;
    }

    method RemoveResultAt(i: nat, k: nat)
      requires Valid() && i < |steps| && k < |steps[i].results.items|
      modifies stepRepr
      ensures Valid() && View() == old(View()).(steps := old(View()).steps[i :=
                          old(View()).steps[i].(results := Without(old(View()).steps[i].results, k))])
    {
      ghost var sv, bv := StepViews(steps, stepRepr), BatchViews(batches, batchRepr);
      var rs := steps[i].results;
      rs.items := rs.items[..k] + rs.items[k + 1..];
      OneStepChanged(steps, stepRepr, i, sv);
      assert BatchViews(batches, batchRepr) == bv;
    }

    method CreateBatch(op: JobOp) returns (err: Option<Refusal>)
      requires op.CreateBatch? && Valid()
      modifies this
      ensures Valid() && fresh(Repr() - old(Repr()))
      ensures CreateBatchIn(old(View()), op) == if err.None? then Ok(View()) else Err(err.value)
    {
      hide StepsIn, BatchesIn, StepViews, BatchViews, Batch.View, Batch.Repr, Batch.Separate, NewRun;
      if |batches| >= MAX_BATCHES { return Some(Invalid); }
      ghost var v := View();
      var b := NewBatch(op);
      assert View() == v;
      AppendBatch(b);
      err := None;
    }

    /** A run with a frozen copy of the plan as it is now. */
    method NewBatch(op: JobOp) returns (b: Batch)
      requires op.CreateBatch? && Valid()
      ensures b.Separate() && fresh(b) && fresh(b.Repr())
      ensures b.View() == NewRun(View(), op)
    {
      var frozen, own := FreezeSteps(steps, stepRepr);
      b := new Batch(BatchHead(Minted(BatchId, nextBatch), nextBatch, op.batchName, op.batchKind, op.runAt, Planned,
                               op.createdBy), frozen, own, [], [], []);
    }

    method AppendBatch(b: Batch)
      requires Valid() && b.Separate() && b.Repr() !! Repr()
      modifies this
      ensures Valid() && Repr() == old(Repr()) + b.Repr()
      ensures View() == old(View()).(batches := old(View()).batches + [old(b.View())], nextBatch := old(nextBatch) + 1)
    {
      hide StepsIn, BatchesIn, StepViews, BatchViews, Batch.View, Batch.Repr, Batch.Separate;
      BatchViewsAppend(batches, batchRepr, b);
      nextBatch := nextBatch + 1;
      batches, batchRepr := batches + [b], batchRepr + b.Repr();
    }

    method DeleteBatch(id: Id) returns (err: Option<Refusal>)
      requires Valid()
      modifies this`batches
      ensures Valid()
      ensures Apply(old(View()), JobOp.DeleteBatch(id)) == if err.None? then Ok(View()) else Err(err.value)
    {
      hide StepsIn, BatchesIn, StepViews, BatchViews, Find, EditStepIn, EditBatchIn, CreateStepIn, DeleteStepIn,
        AddEdgeIn, RemoveResultIn, CreateBatchIn;
      var i := FindBatch(id);
      if i < 0 { return Some(NotFound); }
      RemoveBatchAt(i);
      err := None;
    }

    method RemoveBatchAt(i: nat)
      requires Valid() && i < |batches|
      modifies this`batches
      ensures Valid() && View() == old(View()).(batches := Without(old(View()).batches, i))
    {
      hide StepsIn, BatchesIn, StepViews, BatchViews;
      BatchViewsWithout(batches, batchRepr, i);
      batches := Without(batches, i);
    }

    method ChangeBatchAt(i: nat, op: JobOp) returns (err: Option<Refusal>)
      requires EditsOneBatch(op) && Valid() && i < |batches|
      modifies batchRepr
      ensures Valid() && View() == old(View()).(batches := old(View()).batches[i := View().batches[i]])
      ensures EditBatch(old(View()).batches[i], op, nextChild) ==
              if err.None? then Ok(View().batches[i]) else Err(err.value)
    {
      ghost var sv, bv := StepViews(steps, stepRepr), BatchViews(batches, batchRepr);
      err := batches[i].Edit(op, nextChild);
      OneBatchChanged(batches, batchRepr, i, bv);
      assert StepViews(steps, stepRepr) == sv;
    }

    method ChangeBatch(op: JobOp) returns (err: Option<Refusal>)
      requires EditsOneBatch(op) && Valid()
      modifies this`nextChild, batchRepr
      ensures Valid()
      ensures EditBatchIn(old(View()), op) == if err.None? then Ok(View()) else Err(err.value)
    {
      hide ProductionPlan.EditBatch, Find, StepsIn, BatchesIn, StepViews, BatchViews, Batch.View, Batch.Separate, Repr;
      if op.AddFulfillment? && op.stepId.NoId? { return Some(Invalid); }
      var i := FindBatch(op.batchId);
      if i < 0 { return Some(NotFound); }
      err := ChangeBatchAt(i, op);
      if err.None? && MintsChild(op) { TakeChildId(); }
    }

    /** The body of any job request. When it refuses, nothing is promised about
        what it left behind: undoing that is the rollback guard's task. */
    method Perform(op: JobOp) returns (err: Option<Refusal>)
      requires Valid()
      modifies Repr()
      ensures err.None? ==> Valid() && fresh(Repr() - old(Repr())) && Apply(old(View()), op) == Ok(View())
      ensures err.Some? ==> Apply(old(View()), op) == Err(err.value)
    {
      hide StepsIn, BatchesIn, StepViews, BatchViews, EditStepIn, EditBatchIn, CreateStepIn, DeleteStepIn, AddEdgeIn,
        RemoveResultIn, CreateBatchIn;
      if EditsOneStep(op) {
        err := ChangeStep(op);
      } else if EditsOneBatch(op) {
        err := ChangeBatch(op);
      } else {
        match op {
          case UpdateJob(_, _) => Patch(op); err := None;
          case CreateStep(_, _, _, _, _) => err := CreateStep(op);
          case DeleteStep(id) => err := DeleteStep(id);
          case AddEdge(from, result, to) => err := AddEdge(from, result, to);
          case DeleteEdge(id) => err := DeleteEdge(id);
          case RemoveResult(step, result) => err := RemoveResult(step, result);
          case CreateBatch(_, _, _, _) => err := CreateBatch(op);
          case DeleteBatch(id) => err := DeleteBatch(id);
        }
      }
    }
  }
}
