/** server/archives.go: every interleaving of the goroutines around archive jobs. A
    step is what one goroutine does between two points where another may come in: a
    section under the job's lock, a channel operation, or a call of a cancel function
    already in hand. */
module ArchiveRuns {
  import opened Common
  import opened ArchiveJobs

  /** What archiveJobRun came back with. */
  datatype Outcome = Success(url: string) | Failure(errMsg: string, noFormat: bool)

  /** Where runArchive stands. */
  datatype Place =
    | Fresh                            // the goroutine has not started
    | Installed(seen: bool)            // setCancel has unlocked; seen: it saw a canceled job
    | Waiting                          // for a slot or for the context
    | Admitted                         // slot taken, status not yet set
    | Working                          // inside archiveJobRun
    | Returned(outcome: Outcome)
    | Stopping                         // an error, and the context was done
    | Failing(errMsg: string, code: string)
    | Announcing(ok: bool)
    | Closing(held: bool)              // deferred: release the slot
    | Ending                           // deferred: cancel the context
    | Gone

  /** One job with everything that touches it. calls: cancel calls that have left the
      lock with the cancel function in hand. notes: notifications sent. result: what
      archiveJobRun came back with, once it has. */
  datatype Task = Task(job: JobV, place: Place, ctxDone: bool, calls: nat, notes: seq<bool>, announces: bool,
                       result: Option<Outcome>)

  datatype World = World(tasks: seq<Task>, slots: nat)

  datatype Move =
    | Submit(announces: bool)
    | Start(i: nat)
    | Relay(i: nat)
    | Admit(i: nat)
    | GiveUp(i: nat, now: int)
    | Prepare(i: nat)
    | Return(i: nat, outcome: Outcome)
    | Check(i: nat)
    | Settle(i: nat, now: int)
    | Announce(i: nat)
    | Release(i: nat)
    | End(i: nat)
    | CancelLocked(i: nat, now: int)   // cancel, under the lock
    | CancelCall(i: nat)               // cancel, calling what it took from under the lock
    | Timeout(i: nat)

  /** The slot a place holds. */
  predicate Holding(p: Place) {
    p.Admitted? || p.Working? || p.Returned? || p.Stopping? || p.Failing? || p.Announcing? || (p.Closing? && p.held)
  }

  /** The token the client localizes a failure by. */
  function CodeOf(noFormat: bool): string {
    if noFormat then "archive_format_unavailable" else "upstream_failed"
  }

  /** A move of one task, if it can be made now. free: a slot is free. */
  function Moved(t: Task, m: Move, free: bool): Option<Task> {
    match m
    case Submit(_) => None
    case Start(_) =>
      if t.place.Fresh? then
        Some(t.(job := t.job.(hears := true), place := Installed(t.job.status == Canceled)))
      else None
    case Relay(_) =>
      if t.place.Installed? then Some(t.(place := Waiting, ctxDone := t.ctxDone || t.place.seen)) else None
    case Admit(_) =>
      if t.place.Waiting? && free then Some(t.(place := Admitted)) else None
    case GiveUp(_, now) =>
      if t.place.Waiting? && t.ctxDone then
        Some(t.(job := FinishV(t.job, Canceled, "", "", "", now), place := Closing(false)))
      else None
    case Prepare(_) =>
      if t.place.Admitted? then Some(t.(job := SetStatusV(t.job, Preparing), place := Working)) else None
    case Return(_, outcome) =>
      if t.place.Working? then Some(t.(place := Returned(outcome), result := Some(outcome))) else None
    case Check(_) =>
      if t.place.Returned? && t.place.outcome.Failure? then
        var o := t.place.outcome;
        Some(t.(place := if t.ctxDone then Stopping else Failing(o.errMsg, CodeOf(o.noFormat))))
      else None
    case Settle(_, now) =>
      var first := !t.job.status.Terminal();
      if t.place.Stopping? then
        Some(t.(job := FinishV(t.job, Canceled, "", "", "", now), place := Closing(true)))
      else if t.place.Failing? then
        Some(t.(job := FinishV(t.job, Failed, t.place.errMsg, t.place.code, "", now),
                place := if first then Announcing(false) else Closing(true)))
      else if t.place.Returned? && t.place.outcome.Success? then
        Some(t.(job := FinishV(t.job, Ready, "", "", t.place.outcome.url, now),
                place := if first then Announcing(true) else Closing(true)))
      else None
    case Announce(_) =>
      if t.place.Announcing? then
        Some(t.(notes := if t.announces then t.notes + [t.place.ok] else t.notes, place := Closing(true)))
      else None
    case Release(_) =>
      if t.place.Closing? then Some(t.(place := Ending)) else None
    case End(_) =>
      if t.place.Ending? then Some(t.(place := Gone, ctxDone := true)) else None
    case CancelLocked(_, now) =>
      Some(t.(job := CancelV(t.job, now), calls := if t.job.hears then t.calls + 1 else t.calls))
    case CancelCall(_) =>
      if t.calls > 0 then Some(t.(calls := t.calls - 1, ctxDone := true)) else None
    case Timeout(_) =>
      if t.place.Fresh? then None else Some(t.(ctxDone := true))
  }

  /** When each move can be made; a cancel always can, and a free slot may be taken though
      the context is done. */
  lemma MovableExactly(t: Task, m: Move, free: bool)
    ensures Moved(t, m, free).Some? <==>
            match m
            case Submit(_) => false
            case Start(_) => t.place.Fresh?
            case Relay(_) => t.place.Installed?
            case Admit(_) => t.place.Waiting? && free
            case GiveUp(_, _) => t.place.Waiting? && t.ctxDone
            case Prepare(_) => t.place.Admitted?
            case Return(_, _) => t.place.Working?
            case Check(_) => t.place.Returned? && t.place.outcome.Failure?
            case Settle(_, _) =>
              t.place.Stopping? || t.place.Failing? || (t.place.Returned? && t.place.outcome.Success?)
            case Announce(_) => t.place.Announcing?
            case Release(_) => t.place.Closing?
            case End(_) => t.place.Ending?
            case CancelLocked(_, _) => true
            case CancelCall(_) => t.calls > 0
            case Timeout(_) => !t.place.Fresh?
  {
  }

  /** One move of the world; a move that cannot be made changes nothing. */
  function Step(w: World, m: Move, capacity: nat): World {
    if m.Submit? then w.(tasks := w.tasks + [Task(QUEUED, Fresh, false, 0, [], m.announces, None)])
    else if m.i >= |w.tasks| then w
    else
      match Moved(w.tasks[m.i], m, w.slots < capacity)
      case None => w
      case Some(t) =>
        World(w.tasks[m.i := t],
              if m.Admit? then w.slots + 1
              else if m.Release? && w.tasks[m.i].place.held && w.slots > 0 then w.slots - 1
              else w.slots)
  }

  function Run(w: World, moves: seq<Move>, capacity: nat): World {
    if moves == [] then w
    else Step(Run(w, moves[..|moves| - 1], capacity), moves[|moves| - 1], capacity)
  }

  const START := World([], 0)

  // ---- what always holds of one task ----

  /** The status fits the place: only a waiting job is queued, only one that holds a
      slot is preparing, only one past its settling is done. */
  predicate StatusFits(t: Task) {
    && (t.job.status.Queued? ==> t.place.Fresh? || t.place.Installed? || t.place.Waiting? || t.place.Admitted?)
    && (t.job.status.Preparing? ==> t.place.Working? || t.place.Returned? || t.place.Stopping? || t.place.Failing?)
    && (t.job.status.Ready? || t.job.status.Failed? ==>
         t.place.Announcing? || t.place.Closing? || t.place.Ending? || t.place.Gone?)
    && (t.place.Announcing? ==> t.job.status == if t.place.ok then Ready else Failed)
  }

  /** The notifications fit the status, and none is owed once the runner has left. */
  predicate NotesFit(t: Task) {
    && (t.notes != [] ==> t.notes == [t.job.status.Ready?] && (t.job.status.Ready? || t.job.status.Failed?))
    && (t.place.Announcing? ==> t.notes == [])
    && ((t.job.status.Ready? || t.job.status.Failed?) && t.announces && !t.place.Announcing? ==> t.notes != [])
  }

  /** A canceled job's context is done, or someone is on the way to end it. */
  predicate CancelHeard(t: Task) {
    && (t.place.Fresh? <==> !t.job.hears)
    && (t.place.Fresh? ==> t.calls == 0)
    && (t.place.Installed? && t.place.seen ==> t.job.status.Canceled?)
    && (t.place.Stopping? ==> t.ctxDone)
    && (t.job.status.Canceled? ==>
          t.ctxDone || t.calls > 0 || t.place.Fresh? || (t.place.Installed? && t.place.seen))
  }

  /** What the job says is what its run came back with: an address only from a success,
      a message and its code only from a failure, and neither from a cancel. */
  predicate OutcomeFits(t: Task) {
    && (t.place.Returned? ==> t.result == Some(t.place.outcome))
    && (t.place.Failing? ==>
          t.result.Some? && t.result.value.Failure? && t.place.errMsg == t.result.value.errMsg
          && t.place.code == CodeOf(t.result.value.noFormat))
    && match t.job.status
       case Ready => t.result == Some(Success(t.job.url)) && t.job.errMsg == "" && t.job.errCode == ""
       case Failed =>
         t.result.Some? && t.result.value.Failure? && t.job.errMsg == t.result.value.errMsg
         && t.job.errCode == CodeOf(t.result.value.noFormat) && t.job.url == ""
       case _ => t.job.url == "" && t.job.errMsg == "" && t.job.errCode == ""
  }

  predicate TaskOk(t: Task) { StatusFits(t) && NotesFit(t) && CancelHeard(t) && OutcomeFits(t) }

  lemma MoveKeepsOutcome(t: Task, m: Move, free: bool)
    requires TaskOk(t) && Moved(t, m, free).Some?
    ensures OutcomeFits(Moved(t, m, free).value)
  {
    hide CodeOf;
  }

  lemma MoveKeepsStatus(t: Task, m: Move, free: bool)
    requires TaskOk(t) && Moved(t, m, free).Some?
    ensures StatusFits(Moved(t, m, free).value)
  {
  }

  lemma MoveKeepsNotes(t: Task, m: Move, free: bool)
    requires TaskOk(t) && Moved(t, m, free).Some?
    ensures NotesFit(Moved(t, m, free).value)
  {
  }

  lemma MoveKeepsHeard(t: Task, m: Move, free: bool)
    requires TaskOk(t) && Moved(t, m, free).Some?
    ensures CancelHeard(Moved(t, m, free).value)
  {
  }

  lemma MoveKeepsOk(t: Task, m: Move, free: bool)
    requires TaskOk(t) && Moved(t, m, free).Some?
    ensures TaskOk(Moved(t, m, free).value)
  {
    hide Moved, StatusFits, NotesFit, CancelHeard, OutcomeFits;
    MoveKeepsStatus(t, m, free);
    MoveKeepsNotes(t, m, free);
    MoveKeepsHeard(t, m, free);
    MoveKeepsOutcome(t, m, free);
  }

  /** A settled job keeps its status, message, address and time whatever anyone does;
      only its cancel function may still be installed. */
  lemma MoveKeepsSettled(t: Task, m: Move, free: bool)
    requires t.job.status.Terminal() && Moved(t, m, free).Some?
    ensures Moved(t, m, free).value.job.(hears := true) == t.job.(hears := true)
  {
  }

  // ---- what always holds of the world ----

  function Holders(tasks: seq<Task>): set<nat> {
    set i: nat | i < |tasks| && Holding(tasks[i].place)
  }

  ghost predicate Inv(w: World, capacity: nat) {
    && (forall i :: 0 <= i < |w.tasks| ==> TaskOk(w.tasks[i]))
    && w.slots == |Holders(w.tasks)| <= capacity
  }

  /** Only admission takes a slot, only the release of a held one gives it back. */
  lemma MoveHolds(t: Task, m: Move, free: bool)
    requires Moved(t, m, free).Some?
    ensures Holding(Moved(t, m, free).value.place) <==> m.Admit? || (Holding(t.place) && !m.Release?)
    ensures m.Admit? ==> !Holding(t.place) && free
    ensures m.Release? ==> t.place.Closing? && Holding(t.place) == t.place.held
  {
  }

  /** Replacing one task moves the number of holders by what that task does. */
  lemma HoldersMoved(tasks: seq<Task>, i: nat, t: Task)
    requires i < |tasks|
    ensures |Holders(tasks[i := t])| - |Holders(tasks)|
            == (if Holding(t.place) then 1 else 0) - (if Holding(tasks[i].place) then 1 else 0)
    ensures Holding(tasks[i].place) ==> |Holders(tasks)| > 0
  {
    hide Holding;
    var a, b := Holders(tasks), Holders(tasks[i := t]);
    assert b == if Holding(t.place) then a + {i} else a - {i};
    assert i in a <==> Holding(tasks[i].place);
    if i in a { assert a == (a - {i}) + {i}; }
  }

  lemma StepKeepsSlots(w: World, m: Move, capacity: nat)
    requires w.slots == |Holders(w.tasks)| <= capacity
    ensures var w' := Step(w, m, capacity); w'.slots == |Holders(w'.tasks)| <= capacity
  {
    hide Moved, Holding, Holders;
    if m.Submit? {
      HoldersSubmitted(w.tasks, m.announces);
    } else if m.i < |w.tasks| {
      var moved := Moved(w.tasks[m.i], m, w.slots < capacity);
      if moved.Some? {
        MoveHolds(w.tasks[m.i], m, w.slots < capacity);
        HoldersMoved(w.tasks, m.i, moved.value);
      }
    }
  }

  lemma HoldersSubmitted(tasks: seq<Task>, announces: bool)
    ensures Holders(tasks + [Task(QUEUED, Fresh, false, 0, [], announces, None)]) == Holders(tasks)
  {
  }

  lemma StepKeepsInv(w: World, m: Move, capacity: nat)
    requires Inv(w, capacity)
    ensures Inv(Step(w, m, capacity), capacity)
  {
    hide Moved, Holders, Holding, TaskOk;
    StepKeepsSlots(w, m, capacity);
    if m.Submit? {
      FreshOk(m.announces);
    } else if m.i < |w.tasks| {
      var t, free := w.tasks[m.i], w.slots < capacity;
      if Moved(t, m, free).Some? {
        MoveKeepsOk(t, m, free);
      }
    }
  }

  lemma FreshOk(announces: bool)
    ensures TaskOk(Task(QUEUED, Fresh, false, 0, [], announces, None))
  {
  }

  /** The invariant holds after any moves, in any order. */
  lemma {:induction false} RunKeepsInv(moves: seq<Move>, capacity: nat)
    ensures Inv(Run(START, moves, capacity), capacity)
  {
    hide Step, TaskOk;
    if moves == [] {
      assert Holders([]) == {};
    } else {
      RunKeepsInv(moves[..|moves| - 1], capacity);
      StepKeepsInv(Run(START, moves[..|moves| - 1], capacity), moves[|moves| - 1], capacity);
    }
  }

  /** However the goroutines interleave, no more jobs are preparing than there are
      slots. */
  lemma PreparingBounded(moves: seq<Move>, capacity: nat)
    ensures var tasks := Run(START, moves, capacity).tasks;
            |set i: nat | i < |tasks| && tasks[i].job.status.Preparing?| <= capacity
  {
    RunKeepsInv(moves, capacity);
    hide Run;
    var w := Run(START, moves, capacity);
    var preparing := set i: nat | i < |w.tasks| && w.tasks[i].job.status.Preparing?;
    assert preparing <= Holders(w.tasks);
    SubsetCount(preparing, Holders(w.tasks));
  }

  lemma {:induction false} SubsetCount(a: set<nat>, b: set<nat>)
    requires a <= b
    ensures |a| <= |b|
  {
    if x :| x in a {
      SubsetCount(a - {x}, b - {x});
    }
  }

  /** Every job is announced at most once, with what it ended as, and a job whose
      runner has left was announced exactly when it ended ready or failed and has
      someone to tell. */
  lemma AnnouncedOnce(moves: seq<Move>, capacity: nat, i: nat)
    requires i < |Run(START, moves, capacity).tasks|
    ensures var t := Run(START, moves, capacity).tasks[i];
            && |t.notes| <= 1
            && (t.notes == [true] ==> t.job.status == Ready)
            && (t.notes == [false] ==> t.job.status == Failed)
            && (t.place.Gone? && t.announces ==> (t.notes != [] <==> t.job.status == Ready || t.job.status == Failed))
            && (t.place.Gone? ==> t.job.status.Terminal())
  {
    RunKeepsInv(moves, capacity);
    hide Run;
  }

  /** What a job shows is what its run came back with: an address exactly for a ready
      job, and then the run's; a message and code exactly for a failed one. */
  lemma OutcomeTold(moves: seq<Move>, capacity: nat, i: nat)
    requires i < |Run(START, moves, capacity).tasks|
    ensures var t := Run(START, moves, capacity).tasks[i];
            && (t.job.status == Ready ==> t.result == Some(Success(t.job.url)))
            && (t.job.status == Failed ==>
                  t.result.Some? && t.result.value.Failure? && t.job.errMsg == t.result.value.errMsg
                  && t.job.errCode ==
                     if t.result.value.noFormat then "archive_format_unavailable" else "upstream_failed")
            && (t.job.status != Ready ==> t.job.url == "")
            && (t.job.status != Failed ==> t.job.errMsg == "" && t.job.errCode == "")
  {
    RunKeepsInv(moves, capacity);
    hide Run, StatusFits, NotesFit, CancelHeard;
  }

  // ---- what one run keeps for ever ----

  lemma {:induction false} RunAppend(w: World, a: seq<Move>, b: seq<Move>, capacity: nat)
    ensures Run(w, a + b, capacity) == Run(Run(w, a, capacity), b, capacity)
  {
    hide Step;
    if b == [] {
      assert a + b == a;
    } else {
      var init := b[..|b| - 1];
      assert (a + b)[..|a + b| - 1] == a + init;
      RunAppend(w, a, init, capacity);
    }
  }

  /** Once settled, never anything else: over any moves the job's outcome stays. */
  lemma {:induction false} SettledForever(w: World, moves: seq<Move>, capacity: nat, i: nat)
    requires i < |w.tasks| && w.tasks[i].job.status.Terminal()
    ensures i < |Run(w, moves, capacity).tasks|
    ensures Run(w, moves, capacity).tasks[i].job.(hears := true) == w.tasks[i].job.(hears := true)
  {
    hide Moved;
    if moves != [] {
      var init, m := moves[..|moves| - 1], moves[|moves| - 1];
      SettledForever(w, init, capacity, i);
      var v := Run(w, init, capacity);
      assert v.tasks[i].job.status == w.tasks[i].job.status;
      if !m.Submit? && m.i == i && Moved(v.tasks[i], m, v.slots < capacity).Some? {
        MoveKeepsSettled(v.tasks[i], m, v.slots < capacity);
      }
    }
  }

  /** The move that settles a job stamps it with its own time, and is one of three: the
      runner gives up waiting, the runner settles, or someone cancels. */
  lemma StampedWhenSettled(w: World, m: Move, capacity: nat, i: nat)
    requires i < |w.tasks| && !w.tasks[i].job.status.Terminal()
    requires Step(w, m, capacity).tasks[i].job.status.Terminal()
    ensures !m.Submit? && m.i == i && (m.GiveUp? || m.Settle? || m.CancelLocked?)
    ensures Step(w, m, capacity).tasks[i].job.finishedAt == m.now
    ensures m.CancelLocked? || m.GiveUp? ==> Step(w, m, capacity).tasks[i].job.status == Canceled
  {
  }

  /** A cancel that finds a job live is never lost: from then on, whatever happens,
      the job is canceled and never announced, and its runner, wherever it waits, has
      a context that is done or about to be. */
  lemma CancelNeverLost(before: seq<Move>, i: nat, now: int, rest: seq<Move>, capacity: nat)
    requires i < |Run(START, before, capacity).tasks|
    requires !Run(START, before, capacity).tasks[i].job.status.Terminal()
    ensures var w := Run(START, before + [CancelLocked(i, now)] + rest, capacity);
            && i < |w.tasks|
            && var t := w.tasks[i];
               && t.job.status == Canceled && t.job.finishedAt == now && t.notes == []
               && (t.calls == 0 && !t.place.Fresh? && !t.place.Installed? ==> t.ctxDone)
               && (t.place.Waiting? && t.calls == 0 ==> Moved(t, GiveUp(i, now), false).Some?)
  {
    var cancel := CancelLocked(i, now);
    var w := Run(START, before, capacity);
    var v := Step(w, cancel, capacity);
    assert (before + [cancel])[..|before|] == before;
    assert Run(START, before + [cancel], capacity) == v;
    RunAppend(START, before + [cancel], rest, capacity);
    SettledForever(v, rest, capacity, i);
    RunKeepsInv(before + [cancel] + rest, capacity);
    hide Run;
  }

  /** The context is done, and the runner has not gone on to fail the job. */
  predicate Doomed(t: Task) { t.ctxDone && !t.place.Failing? && !t.job.status.Failed? }

  lemma MoveKeepsDoomed(t: Task, m: Move, free: bool)
    requires TaskOk(t) && Doomed(t) && Moved(t, m, free).Some?
    ensures Doomed(Moved(t, m, free).value)
  {
    hide NotesFit, OutcomeFits, CodeOf;
  }

  lemma {:induction false} DoomedForever(w: World, moves: seq<Move>, capacity: nat, i: nat)
    requires Inv(w, capacity) && i < |w.tasks| && Doomed(w.tasks[i])
    ensures Inv(Run(w, moves, capacity), capacity)
    ensures i < |Run(w, moves, capacity).tasks| && Doomed(Run(w, moves, capacity).tasks[i])
  {
    hide Moved, Doomed, TaskOk;
    if moves != [] {
      var init, m := moves[..|moves| - 1], moves[|moves| - 1];
      DoomedForever(w, init, capacity, i);
      var v := Run(w, init, capacity);
      StepKeepsInv(v, m, capacity);
      if !m.Submit? && m.i == i && Moved(v.tasks[i], m, v.slots < capacity).Some? {
        MoveKeepsDoomed(v.tasks[i], m, v.slots < capacity);
      }
    }
  }

  /** Once its context is done, by a cancel or by the deadline, a job whose runner has not
      already taken an error for a failure never fails, whatever happens next: when the
      runner has left, an error from the run has ended it canceled. */
  lemma ErrorAfterDoneCancels(before: seq<Move>, rest: seq<Move>, capacity: nat, i: nat)
    requires var w := Run(START, before, capacity);
             i < |w.tasks| && w.tasks[i].ctxDone && !w.tasks[i].place.Failing? && w.tasks[i].job.status != Failed
    ensures var w := Run(START, before + rest, capacity);
            && i < |w.tasks|
            && var t := w.tasks[i];
               && t.job.status != Failed
               && (t.place.Gone? && (t.result.None? || t.result.value.Failure?) ==> t.job.status == Canceled)
  {
    RunKeepsInv(before, capacity);
    RunAppend(START, before, rest, capacity);
    DoomedForever(Run(START, before, capacity), rest, capacity, i);
    hide Run;
  }

  // ---- no runner is stuck ----

  /** The move a runner makes next; what it works on ends sooner or later, here with an
      error. */
  function Own(i: nat, p: Place, now: int): Move {
    match p
    case Fresh => Start(i)
    case Installed(_) => Relay(i)
    case Waiting => GiveUp(i, now)
    case Admitted => Prepare(i)
    case Working => Return(i, Failure("", false))
    case Returned(o) => if o.Success? then Settle(i, now) else Check(i)
    case Stopping => Settle(i, now)
    case Failing(_, _) => Settle(i, now)
    case Announcing(_) => Announce(i)
    case Closing(_) => Release(i)
    case Ending => End(i)
    case Gone => End(i)
  }

  /** A runner that has not left can move, unless it waits: then its context is live
      and every slot is held by a job further along. */
  lemma NeverStuck(moves: seq<Move>, capacity: nat, i: nat, now: int)
    requires i < |Run(START, moves, capacity).tasks|
    ensures var w := Run(START, moves, capacity);
            var t := w.tasks[i];
            || t.place.Gone?
            || Moved(t, Own(i, t.place, now), w.slots < capacity).Some?
            || Moved(t, Admit(i), w.slots < capacity).Some?
            || (t.place.Waiting? && !t.ctxDone && |Holders(w.tasks)| == capacity && i !in Holders(w.tasks))
  {
    RunKeepsInv(moves, capacity);
    hide Run;
  }
}
