/** One project's live file and its disk image: the clone and rollback guard that
    every mutation of production/store.go runs under. */
module ProductionStore {
  import opened Common
  import opened ProductionTypes
  import opened ProductionPlan
  import opened ProductionRuns
  import opened ProductionObjects
  import opened ProductionJob

  datatype Failure = Refused(why: Refusal) | SaveFailed

  /** Valid jobs that live inside r and share no storage with each other. */
  ghost predicate JobsIn(js: seq<Job>, r: set<object>)
    reads js
  {
    && (forall i :: 0 <= i < |js| ==> js[i].Valid() && js[i].Repr() <= r)
    && (forall i, k :: 0 <= i < k < |js| ==> js[i].Repr() !! js[k].Repr())
  }

  function JobViews(js: seq<Job>, ghost r: set<object>): (vs: seq<JobV>)
    requires JobsIn(js, r)
    reads js, r
    ensures |vs| == |js| && forall i :: 0 <= i < |js| ==> vs[i] == js[i].View()
  {
    seq(|js|, i requires 0 <= i < |js| && JobsIn(js, r) reads js, r => js[i].View())
  }

  /** Every job but the i-th is valid, separate and shows what it showed before. */
  ghost predicate OthersIntact(js: seq<Job>, r: set<object>, i: nat, before: seq<JobV>)
    reads js, r
  {
    && |before| == |js|
    && (forall k :: 0 <= k < |js| && k != i ==> js[k].Valid() && js[k].Repr() <= r && js[k].View() == before[k])
    && (forall k, m :: 0 <= k < m < |js| && k != i && m != i ==> js[k].Repr() !! js[m].Repr())
  }

  /** Every job but the i-th is clear of s. */
  ghost predicate OthersClear(js: seq<Job>, i: nat, s: set<object>)
    reads js
  {
    forall k :: 0 <= k < |js| && k != i ==> js[k].Repr() !! s
  }

  lemma ClearOfNew(js: seq<Job>, r: set<object>, i: nat, before: seq<JobV>, s: set<object>)
    requires OthersIntact(js, r, i, before) && s !! r
    ensures OthersClear(js, i, s)
  {}

  lemma JobReplacedIn(js: seq<Job>, r: set<object>, i: nat, j: Job, before: seq<JobV>)
    requires i < |js| && OthersIntact(js, r, i, before) && j.Valid()
    requires OthersClear(js, i, j.Repr())
    ensures JobsIn(js[i := j], r + j.Repr()) && JobViews(js[i := j], r + j.Repr()) == before[i := j.View()]
  {}

  lemma JobsInAppend(js: seq<Job>, r: set<object>, j: Job)
    requires JobsIn(js, r) && j.Valid() && j.Repr() !! r
    ensures JobsIn(js + [j], r + j.Repr()) && JobViews(js + [j], r + j.Repr()) == JobViews(js, r) + [j.View()]
  {}

  lemma JobsInWithout(js: seq<Job>, r: set<object>, i: nat)
    requires i < |js| && JobsIn(js, r)
    ensures JobsIn(Without(js, i), r) && JobViews(Without(js, i), r) == Without(JobViews(js, r), i)
  {}

  lemma NoJobs()
    ensures JobsIn([], {}) && JobViews([], {}) == []
  {}

  lemma JobAt(js: seq<Job>, r: set<object>, i: nat)
    requires i < |js| && JobsIn(js, r)
    ensures js[i].Valid() && JobViews(js, r)[i] == js[i].View()
  {}

  method CopyJobs(js: seq<Job>, ghost r: set<object>) returns (out: seq<Job>, ghost own: set<object>)
    requires JobsIn(js, r)
    ensures fresh(own) && JobsIn(out, own) && JobViews(out, own) == JobViews(js, r)
  {
    hide Job.View, Job.Valid, JobsIn, JobViews;
    NoJobs();
    ghost var views := JobViews(js, r);
    out, own := [], {};
    var i := 0;
    while i < |js|
      invariant 0 <= i <= |js| && fresh(own) && fresh(out) && JobsIn(out, own) && JobsIn(js, r) &&
                JobViews(js, r) == views
      invariant JobViews(out, own) == views[..i]
    {
      ghost var done := JobViews(out, own);
      JobAt(js, r, i);
      var c := js[i].Copy();
      assert JobViews(out, own) == done;
      JobsInAppend(out, own, c);
      out, own := out + [c], own + c.Repr();
      i := i + 1;
    }
  }

  method NewJob(num: int, name: string, description: string, user: string) returns (j: Job)
    ensures j.Valid() && fresh(j) && fresh(j.Repr()) && j.View() == EmptyJob(num, name, description, user)
  {
    j := new Job(JobHead(Minted(JobId, num), num, name, description, user), [], {}, [], [], {}, 1, 1, 1);
  }

  /** What a guarded body leaves: its result when it and the save succeed, the
      project as it was otherwise. */
  ghost function Guarded(v: ProjectV, i: nat, op: JobOp, saved: bool): (ProjectV, Option<Failure>)
    requires i < |v.jobs|
  {
    match Apply(v.jobs[i], op)
    case Err(e) => (v, Some(Refused(e)))
    case Ok(j) => if saved then (v.(jobs := v.jobs[i := j]), None) else (v, Some(SaveFailed))
  }

  /** The in-memory copy of one production.json. */
  class ProjectFile {
    var hubId: string
    var name: string
    var nextJob: int
    var jobs: seq<Job>
    ghost var jobRepr: set<object>

    constructor (hubId: string, name: string, nextJob: int, jobs: seq<Job>, ghost r: set<object>)
      requires JobsIn(jobs, r)
      ensures Valid() && fresh(this) && this.jobs == jobs && jobRepr == r
      ensures View() == ProjectV(hubId, name, nextJob, old(JobViews(jobs, r)))
    {
      this.hubId := hubId;
      this.name := name;
      this.nextJob := nextJob;
      this.jobs := jobs;
      this.jobRepr := r;
    }

    ghost predicate Valid()
      reads this, jobs
    {
      JobsIn(jobs, jobRepr) && this !in jobRepr
    }

    function View(): ProjectV
      requires Valid()
      reads this, jobs, jobRepr
    {
      ProjectV(hubId, name, nextJob, JobViews(jobs, jobRepr))
    }

    /** cloneFile: the rollback copy of a whole file. */
    method Clone() returns (c: ProjectFile)
      requires Valid()
      ensures fresh(c) && fresh(c.jobRepr) && fresh(c.jobs) && c.Valid() && c.View() == View()
    {
      var js, own := CopyJobs(jobs, jobRepr);
      c := new ProjectFile(hubId, name, nextJob, js, own);
    }

    method FindJob(id: Id) returns (i: int)
      requires Valid()
      ensures i == Find(View().jobs, JobKey, id) && i < |jobs|
    {
      i := 0;
      while i < |jobs|
        invariant 0 <= i <= |jobs|
        invariant forall k :: 0 <= k < i ==> jobs[k].head.id != id
      {
        if jobs[i].head.id == id { return; }
        i := i + 1;
      }
      i := -1;
    }

    /** Puts a job in slot i, whatever became of the one that was there: the
        rollback assignment, and the bookkeeping after a body that grew its job. */
    method PutJob(i: nat, j: Job, ghost before: seq<JobV>)
      requires i < |jobs| && OthersIntact(jobs, jobRepr, i, before) && this !in jobRepr
      requires j.Valid() && this !in j.Repr() && OthersClear(jobs, i, j.Repr())
      modifies this
      ensures Valid() && jobRepr == old(jobRepr) + old(j.Repr()) && |jobs| == |old(jobs)| && hubId == old(hubId) &&
              name == old(name)
      ensures View() == ProjectV(hubId, name, old(nextJob), before[i := old(j.View())])
    {
      JobReplacedIn(jobs, jobRepr, i, j, before);
      jobs, jobRepr := jobs[i := j], jobRepr + j.Repr();
    }

    method AppendJob(hub: string, pname: string, j: Job)
      requires Valid() && j.Valid() && j.Repr() !! jobRepr && this !in j.Repr()
      modifies this
      ensures Valid() && jobRepr == old(jobRepr) + old(j.Repr())
      ensures View() == ProjectV(hub, pname, old(nextJob) + 1, old(View()).jobs + [old(j.View())])
    {
      hide Job.Valid, Job.View, JobsIn, JobViews;
      JobsInAppend(jobs, jobRepr, j);
      nextJob := nextJob + 1;
      hubId, name := hub, pname;
      jobs, jobRepr := jobs + [j], jobRepr + j.Repr();
    }

    method CreateJob(op: ProjectOp) returns (err: Option<Refusal>)
      requires op.CreateJob? && Valid()
      modifies this
      ensures err.None? ==> Valid() && fresh(jobRepr - old(jobRepr)) && ApplyProject(old(View()), op) == Ok(View())
      ensures err.Some? ==> ApplyProject(old(View()), op) == Err(err.value)
    {
      hide Apply, Job.Valid, Job.View, Job.Repr, JobsIn, JobViews, EmptyJob;
      if |jobs| >= MAX_JOBS { return Some(Invalid); }
      ghost var v := View();
      var j := NewJob(nextJob, op.name, op.description, op.createdBy);
      assert View() == v;
      AppendJob(op.hubId, op.projectName, j);
      err := None;
    }

    /** copyJob, then a new identity and no runs: ids and child counters are kept. */
    method CopyOf(i: nat) returns (c: Job)
      requires Valid() && i < |jobs|
      ensures c.Valid() && fresh(c) && fresh(c.Repr()) && c.View() == View().jobs[i]
    {
      c := jobs[i].Copy();
    }

    method CopyAs(i: nat, num: int, user: string) returns (dup: Job)
      requires Valid() && i < |jobs|
      ensures dup.Valid() && fresh(dup.Repr()) && dup.View() == Duplicate(View().jobs[i], num, user)
    {
      dup := jobs[i].Copy();
      dup.Rename(JobHead(Minted(JobId, num), num, CopyName(jobs[i].head.name), jobs[i].head.description, user));
    }

    method DuplicateJob(op: ProjectOp) returns (err: Option<Refusal>)
      requires op.DuplicateJob? && Valid()
      modifies this
      ensures err.None? ==> Valid() && fresh(jobRepr - old(jobRepr)) && ApplyProject(old(View()), op) == Ok(View())
      ensures err.Some? ==> ApplyProject(old(View()), op) == Err(err.value)
    {
      hide Apply, Duplicate, Find, JobsIn, Job.Valid, Job.View;
      if |jobs| >= MAX_JOBS { return Some(Invalid); }
      var i := FindJob(op.jobId);
      if i < 0 { return Some(NotFound); }
      var dup := CopyAs(i, nextJob, op.createdBy);
      AppendJob(op.hubId, op.projectName, dup);
      err := None;
    }

    method DeleteJob(op: ProjectOp) returns (err: Option<Refusal>)
      requires op.DeleteJob? && Valid()
      modifies this
      ensures err.None? ==> Valid() && jobRepr == old(jobRepr) && ApplyProject(old(View()), op) == Ok(View())
      ensures err.Some? ==> ApplyProject(old(View()), op) == Err(err.value)
    {
      hide Apply, Find;
      var i := FindJob(op.jobId);
      if i < 0 { return Some(NotFound); }
      JobsInWithout(jobs, jobRepr, i);
      jobs := Without(jobs, i);
      err := None;
    }

    /** The body of any request that restructures the file. As for jobs, a
        refusal promises nothing about what it leaves behind. */
    method Perform(op: ProjectOp) returns (err: Option<Refusal>)
      requires !op.InJob? && Valid()
      modifies this, jobRepr
      ensures err.None? ==> Valid() && fresh(jobRepr - old(jobRepr)) && ApplyProject(old(View()), op) == Ok(View())
      ensures err.Some? ==> ApplyProject(old(View()), op) == Err(err.value)
    {
      match op {
        case CreateJob(_, _, _, _, _) => err := CreateJob(op);
        case DuplicateJob(_, _, _, _) => err := DuplicateJob(op);
        case DeleteJob(_) => err := DeleteJob(op);
      }
    }

    /** Runs a body on job i. Only that job's own storage, or new storage, changes. */
    method PerformInJob(i: nat, op: JobOp) returns (err: Option<Refusal>)
      requires Valid() && i < |jobs|
      modifies jobRepr
      ensures jobs == old(jobs) && OthersIntact(jobs, jobRepr, i, old(View()).jobs)
      ensures err.None? ==> jobs[i].Valid() && OthersClear(jobs, i, jobs[i].Repr())
      ensures err.None? ==> this !in jobs[i].Repr() && fresh(jobs[i].Repr() - jobRepr)
      ensures err.None? ==> Apply(old(View()).jobs[i], op) == Ok(jobs[i].View())
      ensures err.Some? ==> Apply(old(View()).jobs[i], op) == Err(err.value)
    {
      hide Apply;
      assert jobs[i].Repr() <= jobRepr;
      assert OthersIntact(jobs, jobRepr, i, View().jobs);
      err := jobs[i].Perform(op);
    }

    lemma Opened(i: nat)
      requires Valid() && i < |jobs|
      ensures this !in jobRepr && |View().jobs| == |jobs| && View() == ProjectV(hubId, name, nextJob, View().jobs)
      ensures View().jobs[i := View().jobs[i]] == View().jobs
    {}

    /** mutateJob's guard: snapshot the job, run the body, and put the snapshot
        back if the body refuses or the save fails. */
    method GuardJob(i: nat, op: JobOp, saved: bool) returns (err: Option<Failure>)
      requires Valid() && i < |jobs|
      modifies this, jobRepr
      ensures Valid() && i < |jobs| && fresh(jobRepr - old(jobRepr))
      ensures (View(), err) == Guarded(old(View()), i, op, saved)
    {
      hide Apply, OthersIntact, OthersClear, JobsIn, JobViews, Job.Valid, Job.View, Valid, View;
      ghost var v := View();
      Opened(i);
      var prev := CopyOf(i);
      var why := PerformInJob(i, op);
      ClearOfNew(jobs, jobRepr, i, v.jobs, prev.Repr());
      var settled := prev;
      ghost var own := prev.Repr();
      if why.None? && saved {
        settled, own := jobs[i], jobs[i].Repr();
      }
      ghost var r := jobRepr;
      assert fresh(own - r);
      PutJob(i, settled, v.jobs);
      assert jobRepr == r + own;
      err := if why.Some? then Some(Refused(why.value)) else if saved then None else Some(SaveFailed);
    }
  }

  /** A project in memory beside what production.json holds. saved stands for
      whether the atomic rewrite succeeded. */
  class ProjectState {
    var file: ProjectFile
    var disk: ProjectV

    constructor (file: ProjectFile)
      requires file.Valid()
      ensures this.file == file && disk == file.View() && Valid()
    {
      this.file := file;
      this.disk := file.View();
    }

    /** Memory equals disk, and nothing in memory is shared. */
    ghost predicate Valid()
      reads this, file, file.jobs, file.jobRepr
    {
      file.Valid() && this !in file.jobRepr && disk == file.View()
    }

    /** What the outcome of a request must be, from the specification alone. */
    static ghost function Answer(v: ProjectV, op: ProjectOp, saved: bool): Option<Failure> {
      match ApplyProject(v, op)
      case Err(e) => Some(Refused(e))
      case Ok(_) => if saved then None else Some(SaveFailed)
    }

    /** mutate: requests that restructure the file, under a whole-file guard. */
    method Mutate(op: ProjectOp, saved: bool) returns (err: Option<Failure>)
      requires !op.InJob? && Valid()
      modifies this, file, file.jobRepr
      ensures Valid() && fresh({file} - {old(file)}) && fresh(file.jobRepr - old(file.jobRepr))
      ensures disk == Serve(old(disk), Request(op, saved)) && err == Answer(old(disk), op, saved)
      ensures err.None? <==> saved && ApplyProject(old(disk), op) == Ok(disk)
      ensures err.Some? ==> disk == old(disk)
    {
      hide ApplyProject, JobsIn, JobViews, ProjectFile.Valid, ProjectFile.View;
      var prev := file.Clone();
      var why := file.Perform(op);
      if why.Some? || !saved {
        file := prev;
        return Some(if why.Some? then Refused(why.value) else SaveFailed);
      }
      disk := file.View();
      err := None;
    }

    /** mutateJob: requests inside one job, under a guard scoped to that job.
        The job returned is a copy nobody else holds. */
    method MutateJob(id: Id, op: JobOp, saved: bool) returns (snapshot: Job?, err: Option<Failure>)
      requires Valid()
      modifies this, file, file.jobRepr
      ensures Valid() && file == old(file) && fresh(file.jobRepr - old(file.jobRepr))
      ensures disk == Serve(old(disk), Request(InJob(id, op), saved)) && err == Answer(old(disk), InJob(id, op), saved)
      ensures err.None? <==> saved && ApplyProject(old(disk), InJob(id, op)) == Ok(disk)
      ensures err.Some? ==> disk == old(disk)
      ensures err.None? ==> snapshot != null && fresh(snapshot.Repr()) && snapshot.Repr() !! file.jobRepr &&
                            snapshot.Valid() && var i := Find(old(disk).jobs, JobKey, id);
                            0 <= i < |disk.jobs| && snapshot.View() == disk.jobs[i]
    {
      hide Apply, Find, JobsIn, JobViews, Job.Valid, Job.View, ProjectFile.Valid, ProjectFile.View;
      var i := file.FindJob(id);
      if i < 0 { return null, Some(Refused(NotFound)); }
      err := file.GuardJob(i, op, saved);
      snapshot := null;
      if err.None? {
        snapshot := file.CopyOf(i);
        disk := file.View();
      }
    }

    /** A request about a run, answered with a copy of that run nobody else holds. */
    method BatchRequest(id: Id, op: JobOp, saved: bool) returns (copy: Batch?, err: Option<Failure>)
      requires Valid() && (op.CreateBatch? || EditsOneBatch(op))
      modifies this, file, file.jobRepr
      ensures Valid() && file == old(file) && fresh(file.jobRepr - old(file.jobRepr))
      ensures disk == Serve(old(disk), Request(InJob(id, op), saved)) && err == Answer(old(disk), InJob(id, op), saved)
      ensures err.None? ==> copy != null && fresh(copy.Repr()) && copy.Repr() !! file.jobRepr &&
                            copy.Separate() && var i := Find(old(disk).jobs, JobKey, id);
                            0 <= i < |disk.jobs| && var bs := disk.jobs[i].batches;
                            0 <= AskedFor(bs, op) < |bs| && copy.View() == bs[AskedFor(bs, op)] &&
                            copy.View().head.id ==
                            if op.CreateBatch? then Minted(BatchId, old(disk).jobs[i].nextBatch) else op.batchId
      ensures err.Some? || !saved ==> disk == old(disk)
    {
      hide Apply, Find, AskedFor, JobsIn, JobViews, ProjectFile.Valid, ProjectFile.View, Batch.View, Batch.Separate;
      ghost var before := disk;
      var snapshot, e := MutateJob(id, op, saved);
      copy, err := null, e;
      if e.None? {
        BatchThere(before.jobs[Find(before.jobs, JobKey, id)], op);
        copy := snapshot.PickBatch(op, AskedFor(snapshot.View().batches, op));
      }
    }

    method ServeOne(r: Request) returns (err: Option<Failure>)
      requires Valid()
      modifies this, file, file.jobRepr
      ensures Valid() && fresh({file} - {old(file)}) && fresh(file.jobRepr - old(file.jobRepr))
      ensures disk == Serve(old(disk), r) && err == Answer(old(disk), r.op, r.saved)
      ensures err.None? <==> r.saved && ApplyProject(old(disk), r.op) == Ok(disk)
      ensures err.Some? ==> disk == old(disk)
    {
      hide ProjectFile.Valid, ProjectFile.View, Serve, Answer;
      match r.op {
        case InJob(id, op) => var _, e := MutateJob(id, op, r.saved); err := e;
        case _ => err := Mutate(r.op, r.saved);
      }
    }

    /** Any sequence of requests, saves failing wherever they like: memory ends
        equal to disk, disk is what the specification says, every job is still
        well formed, and copies of a job and of a run handed out before are untouched
        by all of it. */
    method ServeAll(rs: seq<Request>, held: Job, run: Batch)
      requires Valid() && ProjectOk(disk)
      requires held.Valid() && held.Repr() !! file.jobRepr && this !in held.Repr() && file !in held.Repr()
      requires run.Separate() && run.Repr() !! file.jobRepr && this !in run.Repr() && file !in run.Repr()
      modifies this, file, file.jobRepr
      ensures Valid() && disk == file.View() && disk == Run(old(disk), rs) && ProjectOk(disk)
      ensures held.Valid() && held.View() == old(held.View())
      ensures run.Separate() && run.View() == old(run.View())
    {
      hide ProjectFile.Valid, ProjectFile.View, Serve, Job.Valid, Job.View, ProjectOk, Batch.Separate, Batch.View;
      ghost var start, footprint, own := disk, held.Repr(), run.Repr();
      var i := 0;
      while i < |rs|
        invariant 0 <= i <= |rs| && Valid() && disk == Run(start, rs[..i])
        invariant fresh({file} - {old(file)}) && fresh(file.jobRepr - old(file.jobRepr))
        invariant held.Repr() == footprint && footprint !! file.jobRepr && this !in footprint && file !in footprint
        invariant own !! file.jobRepr && this !in own && file !in own
        invariant held.Valid() && held.View() == old(held.View())
        invariant run.View() == old(run.View())
      {
        var _ := ServeOne(rs[i]);
        assert rs[..i + 1][..i] == rs[..i];
        i := i + 1;
      }
      assert rs[..|rs|] == rs;
      RunKeeps(start, rs);
    }
  }
}
