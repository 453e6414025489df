/** server/archives.go: the registry of archive jobs. The order of submission lives
    in a slice that listing and dismissing compact in place. */
module ArchiveRegistry {
  import opened Common
  import opened ArchiveJobs

  const RETENTION := 7_200_000_000_000  // two hours

  /** What the registry reads of a job. */
  datatype Entry = Entry(session: string, item: string, version: string, status: Status, finishedAt: int)

  /** The ids in submission order, and what each names. */
  datatype Book = Book(order: seq<JobId>, jobs: map<JobId, Entry>)

  /** What a sweep takes out. */
  datatype Sweep = Stale(now: int) | Dismiss(id: JobId, session: string) {
    predicate Drops(id: JobId, e: Entry) {
      match this
      case Stale(now) => e.status.Terminal() && now - e.finishedAt > RETENTION
      case Dismiss(wanted, session) =>
        e.session == session && e.status.Terminal() && (wanted == JobId("") || id == wanted)
    }
  }

  function Kept(order: seq<JobId>, jobs: map<JobId, Entry>, sweep: Sweep): seq<JobId> {
    if order == [] then []
    else
      var id := order[|order| - 1];
      Kept(order[..|order| - 1], jobs, sweep) + if id in jobs && sweep.Drops(id, jobs[id]) then [] else [id]
  }

  function Swept(b: Book, sweep: Sweep): Book {
    Book(Kept(b.order, b.jobs, sweep), map id | id in b.jobs && !sweep.Drops(id, b.jobs[id]) :: b.jobs[id])
  }

  /** One session's share of the ids, in order. */
  function Mine(order: seq<JobId>, jobs: map<JobId, Entry>, session: string): seq<JobId> {
    if order == [] then []
    else
      var id := order[|order| - 1];
      Mine(order[..|order| - 1], jobs, session) + if id in jobs && jobs[id].session == session then [id] else []
  }

  /** The ids are distinct and are those of the map. */
  ghost predicate Consistent(order: seq<JobId>, keys: set<JobId>) {
    && (forall i, j :: 0 <= i < j < |order| ==> order[i] != order[j])
    && (forall id :: id in order <==> id in keys)
  }

  /** A map after the deletes of a sweep over some ids. */
  ghost function Pruned<T>(m: map<JobId, T>, ids: seq<JobId>, jobs: map<JobId, Entry>, sweep: Sweep): map<JobId, T> {
    if ids == [] then m
    else
      var id := ids[|ids| - 1];
      var r := Pruned(m, ids[..|ids| - 1], jobs, sweep);
      if id in jobs && sweep.Drops(id, jobs[id]) then r - {id} else r
  }

  lemma {:induction false} PrunedHolds<T>(m: map<JobId, T>, ids: seq<JobId>, jobs: map<JobId, Entry>, sweep: Sweep)
    ensures forall id :: id in Pruned(m, ids, jobs, sweep) <==>
              id in m && !(id in ids && id in jobs && sweep.Drops(id, jobs[id]))
    ensures forall id :: id in Pruned(m, ids, jobs, sweep) ==> Pruned(m, ids, jobs, sweep)[id] == m[id]
  {
    if ids != [] {
      var init, last := ids[..|ids| - 1], ids[|ids| - 1];
      PrunedHolds(m, init, jobs, sweep);
      assert forall id :: id in ids <==> id in init || id == last;
    }
  }

  lemma {:induction false} KeptHolds(order: seq<JobId>, jobs: map<JobId, Entry>, sweep: Sweep)
    ensures forall id :: id in Kept(order, jobs, sweep) <==>
              id in order && !(id in jobs && sweep.Drops(id, jobs[id]))
    ensures (forall i, j :: 0 <= i < j < |order| ==> order[i] != order[j]) ==>
              forall i, j :: 0 <= i < j < |Kept(order, jobs, sweep)| ==>
                Kept(order, jobs, sweep)[i] != Kept(order, jobs, sweep)[j]
  {
    if order != [] {
      var init, last := order[..|order| - 1], order[|order| - 1];
      KeptHolds(init, jobs, sweep);
      assert forall id :: id in order <==> id in init || id == last;
      var kept := Kept(init, jobs, sweep);
      assert forall i :: 0 <= i < |kept| ==> kept[i] in init;
    }
  }

  /** A sweep of a consistent book leaves a consistent book, and deletes from the map
      exactly what it drops from the order. */
  lemma SweptConsistent<T>(m: map<JobId, T>, b: Book, sweep: Sweep)
    requires Consistent(b.order, m.Keys) && m.Keys == b.jobs.Keys
    ensures Consistent(Swept(b, sweep).order, Swept(b, sweep).jobs.Keys)
    ensures Pruned(m, b.order, b.jobs, sweep).Keys == Swept(b, sweep).jobs.Keys
    ensures forall id :: id in Swept(b, sweep).jobs ==> id in m && Pruned(m, b.order, b.jobs, sweep)[id] == m[id]
  {
    KeptHolds(b.order, b.jobs, sweep);
    PrunedHolds(m, b.order, b.jobs, sweep);
    hide Pruned, Kept;
    var keys := Swept(b, sweep).jobs.Keys;
    assert forall id :: id in keys <==> id in b.jobs && !sweep.Drops(id, b.jobs[id]);
    assert forall id :: id in Pruned(m, b.order, b.jobs, sweep) <==> id in keys;
  }

  /** The loop finds each id's job still there. */
  lemma NextPresent<T>(m: map<JobId, T>, b: Book, sweep: Sweep, i: nat)
    requires i < |b.order| && Consistent(b.order, m.Keys)
    ensures var p := Pruned(m, b.order[..i], b.jobs, sweep);
            b.order[i] in m && b.order[i] in p && p[b.order[i]] == m[b.order[i]]
    ensures var p := Pruned(m, b.order[..i], b.jobs, sweep);
            Pruned(m, b.order[..i + 1], b.jobs, sweep)
            == if b.order[i] in b.jobs && sweep.Drops(b.order[i], b.jobs[b.order[i]]) then p - {b.order[i]} else p
  {
    assert b.order[..i + 1][..i] == b.order[..i];
    PrunedHolds(m, b.order[..i], b.jobs, sweep);
    hide Pruned;
    assert b.order[i] in b.order;
    assert b.order[i] !in b.order[..i];
  }

  // ---- the world around the registry ----

  /** The world the registry serves: every job ever submitted, in order, as it is now,
      and the book. */
  datatype Desk = Desk(submitted: seq<JobId>, all: map<JobId, Entry>, order: seq<JobId>)

  /** Submit brings a fresh id. Change is what a job's own goroutines do to it. */
  datatype Event = Submit(id: JobId, e: Entry) | Change(id: JobId, e: Entry) | Clean(sweep: Sweep)

  predicate Allowed(d: Desk, ev: Event) {
    match ev
    case Submit(id, _) => id !in d.all
    case Change(id, e) => id in d.all && !d.all[id].status.Terminal() && e.session == d.all[id].session
    case Clean(_) => true
  }

  function Next(d: Desk, ev: Event): Desk {
    match ev
    case Submit(id, e) => Desk(d.submitted + [id], d.all[id := e], d.order + [id])
    case Change(id, e) => d.(all := d.all[id := e])
    case Clean(sweep) => d.(order := Kept(d.order, d.all, sweep))
  }

  /** The book is what the desk has in order, and shows those jobs as they are. */
  ghost predicate BookOf(b: Book, d: Desk) {
    && b.order == d.order
    && forall id :: id in b.jobs ==> id in d.all && b.jobs[id] == d.all[id]
  }

  lemma {:induction false} KeptAgree(order: seq<JobId>, jobs: map<JobId, Entry>, all: map<JobId, Entry>, sweep: Sweep)
    requires forall id :: id in order ==> id in jobs && id in all && jobs[id] == all[id]
    ensures Kept(order, jobs, sweep) == Kept(order, all, sweep)
  {
    if order != [] {
      assert order[|order| - 1] in order;
      KeptAgree(order[..|order| - 1], jobs, all, sweep);
    }
  }

  /** A sweep of the book is a sweep of the desk. */
  lemma SweepKeepsBook(b: Book, d: Desk, sweep: Sweep)
    requires BookOf(b, d) && Consistent(b.order, b.jobs.Keys)
    ensures BookOf(Swept(b, sweep), Next(d, Clean(sweep)))
  {
    KeptAgree(b.order, b.jobs, d.all, sweep);
  }

  lemma SweepKeepsBooks(b: Book, sweep: Sweep)
    requires Consistent(b.order, b.jobs.Keys)
    ensures forall d :: BookOf(b, d) ==> BookOf(Swept(b, sweep), Next(d, Clean(sweep)))
  {
    hide Kept, Consistent, Swept, Next, BookOf;
    forall d | BookOf(b, d)
      ensures BookOf(Swept(b, sweep), Next(d, Clean(sweep)))
    {
      SweepKeepsBook(b, d, sweep);
    }
  }

  lemma SubmitKeepsBooks(b: Book, id: JobId, e: Entry)
    ensures forall d :: BookOf(b, d) ==> BookOf(Book(b.order + [id], b.jobs[id := e]), Next(d, Submit(id, e)))
  {
  }

  /** A job's own change shows in the book if the job is still there. */
  lemma ChangeKeepsBook(b: Book, d: Desk, id: JobId, e: Entry)
    requires BookOf(b, d) && Allowed(d, Change(id, e))
    ensures BookOf(if id in b.jobs then b.(jobs := b.jobs[id := e]) else b, Next(d, Change(id, e)))
  {
  }

  // ---- the live registry ----

  class Manager {
    var jobs: map<JobId, ArchiveJob>
    var order: array<JobId>
    var n: nat

    constructor ()
      ensures Valid() && fresh(order) && View() == Book([], map[])
    {
      jobs, order, n := map[], new JobId[0], 0;
    }

    ghost predicate Valid()
      reads this, order
    {
      && n <= order.Length
      && Consistent(order[..n], jobs.Keys)
      && (forall id :: id in jobs ==> jobs[id].id == id)
    }

    static function EntryOf(j: ArchiveJob): Entry
      reads j
    {
      Entry(j.session, j.item, j.version, j.status, j.finishedAt)
    }

    ghost function View(): Book
      reads this, order, jobs.Values
      requires n <= order.Length
    {
      Book(order[..n], Entries())
    }

    ghost function Entries(): map<JobId, Entry>
      reads this`jobs, jobs.Values
    {
      map id | id in jobs :: EntryOf(jobs[id])
    }

    /** append: in place while there is room, else in a larger copy. */
    method Append(id: JobId)
      requires n <= order.Length
      modifies this`order, this`n, order
      ensures n <= order.Length && (order == old(order) || fresh(order))
      ensures order[..n] == old(order[..n]) + [id]
    {
      var a := order;
      if n == order.Length {
        a := new JobId[2 * n + 1];
        var i := 0;
        while i < n
          invariant 0 <= i <= n == old(n) && order == old(order) && order[..n] == old(order[..n])
          invariant fresh(a) && a.Length > n && a[..i] == order[..i]
        {
          a[i] := order[i];
          i := i + 1;
        }
      }
      a[n] := id;
      order, n := a, n + 1;
    }

    method Add(j: ArchiveJob)
      requires Valid() && j.id !in jobs
      modifies this, order
      ensures Valid() && (order == old(order) || fresh(order))
      ensures order[..n] == old(order[..n]) + [j.id] && jobs == old(jobs)[j.id := j]
      ensures forall d :: BookOf(old(View()), d) ==> BookOf(View(), Next(d, Submit(j.id, EntryOf(j))))
    {
      hide Consistent, EntryOf, Entries, BookOf, Next;
      ConsistentAdd(order[..n], jobs.Keys, j.id);
      SubmitKeepsBooks(View(), j.id, EntryOf(j));
      Register(j);
      Append(j.id);
    }

    method Register(j: ArchiveJob)
      modifies this`jobs
      ensures jobs == old(jobs)[j.id := j] && jobs.Keys == old(jobs).Keys + {j.id}
      ensures Entries() == old(Entries())[j.id := EntryOf(j)]
    {
      hide EntryOf;
      jobs := jobs[j.id := j];
    }

    /** activeFor: the map is ranged over in whatever order it comes. */
    method ActiveFor(session: string, item: string, version: string) returns (active: bool)
      ensures active <==> exists id :: id in jobs && jobs[id].session == session && jobs[id].item == item
                                       && jobs[id].version == version && !jobs[id].status.Terminal()
    {
      var todo := jobs.Keys;
      while todo != {}
        invariant todo <= jobs.Keys
        invariant forall id :: id in jobs && id !in todo ==>
                    !(jobs[id].session == session && jobs[id].item == item
                      && jobs[id].version == version && !jobs[id].status.Terminal())
        decreases |todo|
      {
        var id :| id in todo;
        var j := jobs[id];
        if j.session == session && j.item == item && j.version == version && !j.status.Terminal() { return true; }
        todo := todo - {id};
      }
      active := false;
    }

    /** Writes an id still to be read over the next place of the front. */
    method WriteBack(kept: nat, i: nat)
      requires kept <= i < n <= order.Length
      modifies order
      ensures order[..kept + 1] == old(order[..kept]) + [old(order[i])]
      ensures order[i + 1..n] == old(order[i + 1..n])
    {
      order[kept] := order[i];
    }

    /** The loop of listFor and of dismiss: the kept ids are written over the front of
        the slice that is still being read, and out collects one session's jobs. */
    method Compact(sweep: Sweep, session: string) returns (out: seq<JobId>)
      requires Valid()
      modifies this, order
      ensures Valid() && order == old(order)
      ensures var b := Swept(old(View()), sweep); order[..n] == b.order && jobs.Keys == b.jobs.Keys
      ensures forall id :: id in jobs ==> id in old(jobs) && jobs[id] == old(jobs)[id]
      ensures forall id :: id in jobs ==> id in old(View()).jobs && EntryOf(jobs[id]) == old(View()).jobs[id]
      ensures out == Mine(order[..n], old(View()).jobs, session)
    {
      hide EntryOf, Kept, Mine, Pruned, Consistent;
      ghost var b, all := View(), jobs;
      assert all.Keys == b.jobs.Keys;
      var kept, i := 0, 0;
      out := [];
      SweepStart(all, b.jobs, sweep, session);
      while i < n
        invariant order == old(order) && 0 <= kept <= i <= n == |b.order| && n <= order.Length
        invariant order[i..n] == b.order[i..]
        invariant order[..kept] == Kept(b.order[..i], b.jobs, sweep)
        invariant out == Mine(order[..kept], b.jobs, session)
        invariant jobs == Pruned(all, b.order[..i], b.jobs, sweep)
        invariant forall id :: id in all ==> EntryOf(all[id]) == b.jobs[id]
      {
        var id := order[i];
        assert id == order[i..n][0] == b.order[i];
        NextPresent(all, b, sweep, i);
        KeptStep(b.order, b.jobs, sweep, i);
        var j := jobs[id];
        assert id in b.jobs && EntryOf(j) == b.jobs[id];
        assert order[i + 1..n] == order[i..n][1..];
        if sweep.Drops(id, EntryOf(j)) {
          jobs := jobs - {id};
        } else {
          MineStep(order[..kept], b.jobs, session, id);
          WriteBack(kept, i);
          kept := kept + 1;
          if EntryOf(j).session == session { out := out + [id]; }
        }
        i := i + 1;
      }
      n := kept;
      assert b.order[..i] == b.order;
      SweptConsistent(all, b, sweep);
    }

    /** listFor. */
    method ListFor(session: string, now: int) returns (out: seq<JobId>)
      requires Valid()
      modifies this, order
      ensures Valid() && order == old(order)
      ensures var b := Swept(old(View()), Stale(now)); order[..n] == b.order && jobs.Keys == b.jobs.Keys
      ensures forall id :: id in jobs ==> id in old(jobs) && jobs[id] == old(jobs)[id]
      ensures forall d :: BookOf(old(View()), d) ==> BookOf(View(), Next(d, Clean(Stale(now))))
      ensures out == Mine(order[..n], old(View()).jobs, session)
      ensures forall id :: id in old(jobs) ==>
                (id in jobs <==> !(old(jobs[id].status) in {Ready, Failed, Canceled} &&
                                   now - old(jobs[id].finishedAt) > 7_200_000_000_000))
      ensures var v := old(View()).jobs;
              KeptOf(order[..n], out, (id: JobId) => id in v && v[id].session == session)
    {
      hide Kept, Mine, Consistent;
      ghost var b := View();
      assert b.jobs.Keys == jobs.Keys;
      SweepKeepsBooks(b, Stale(now));
      out := Compact(Stale(now), session);
      MineKept(order[..n], b.jobs, session);
    }

    /** dismiss. */
    method DismissFor(id: JobId, session: string)
      requires Valid()
      modifies this, order
      ensures Valid() && order == old(order)
      ensures var b := Swept(old(View()), Dismiss(id, session)); order[..n] == b.order && jobs.Keys == b.jobs.Keys
      ensures forall id :: id in jobs ==> id in old(jobs) && jobs[id] == old(jobs)[id]
      ensures forall d :: BookOf(old(View()), d) ==> BookOf(View(), Next(d, Clean(Dismiss(id, session))))
      ensures forall x :: x in old(jobs) ==>
                (x in jobs <==> !(old(jobs)[x].session == session && (id == JobId("") || id == x) &&
                                  old(jobs[x].status) in {Ready, Failed, Canceled}))
    {
      hide Kept, Mine, Consistent;
      ghost var b := View();
      assert b.jobs.Keys == jobs.Keys;
      SweepKeepsBooks(b, Dismiss(id, session));
      var _ := Compact(Dismiss(id, session), session);
    }
  }

  // ---- what a job's own goroutines do to a registered job ----

  method SetStatusOf(m: Manager, id: JobId, st: Status)
    requires m.Valid() && id in m.jobs
    modifies m.jobs[id]
    ensures m.Valid() && m.jobs[id].View() == SetStatusV(old(m.jobs[id].View()), st)
    ensures forall d :: BookOf(old(m.View()), d) ==> BookOf(m.View(), Next(d, Change(id, Manager.EntryOf(m.jobs[id]))))
  {
    m.jobs[id].SetStatus(st);
  }

  method FinishOf(m: Manager, id: JobId, st: Status, errMsg: string, errCode: string, url: string, now: int)
    returns (settled: bool)
    requires m.Valid() && id in m.jobs
    modifies m.jobs[id]
    ensures m.Valid() && m.jobs[id].View() == FinishV(old(m.jobs[id].View()), st, errMsg, errCode, url, now)
    ensures settled == !old(m.jobs[id].status).Terminal()
    ensures forall d :: BookOf(old(m.View()), d) ==> BookOf(m.View(), Next(d, Change(id, Manager.EntryOf(m.jobs[id]))))
  {
    settled := m.jobs[id].Finish(st, errMsg, errCode, url, now);
  }

  method CancelOf(m: Manager, id: JobId, now: int)
    requires m.Valid() && id in m.jobs
    modifies m.jobs[id], match m.jobs[id].cancelFn case Some(ctx) => {ctx} case None => {}
    ensures m.Valid() && m.jobs[id].View() == CancelV(old(m.jobs[id].View()), now)
    ensures forall d :: BookOf(old(m.View()), d) ==> BookOf(m.View(), Next(d, Change(id, Manager.EntryOf(m.jobs[id]))))
  {
    hide Consistent;
    m.jobs[id].Cancel(now);
  }

  lemma SweepStart<T>(m: map<JobId, T>, jobs: map<JobId, Entry>, sweep: Sweep, session: string)
    ensures Kept([], jobs, sweep) == [] && Mine([], jobs, session) == [] && Pruned(m, [], jobs, sweep) == m
  {
  }

  lemma ConsistentAdd(order: seq<JobId>, keys: set<JobId>, id: JobId)
    requires Consistent(order, keys) && id !in keys
    ensures Consistent(order + [id], keys + {id})
  {
    assert forall i :: 0 <= i < |order| ==> order[i] in order;
  }

  lemma KeptStep(order: seq<JobId>, jobs: map<JobId, Entry>, sweep: Sweep, i: nat)
    requires i < |order|
    ensures Kept(order[..i + 1], jobs, sweep)
            == Kept(order[..i], jobs, sweep)
               + if order[i] in jobs && sweep.Drops(order[i], jobs[order[i]]) then [] else [order[i]]
    ensures order[..i + 1] == order[..i] + [order[i]]
  {
    assert order[..i + 1][..i] == order[..i];
  }

  lemma MineStep(order: seq<JobId>, jobs: map<JobId, Entry>, session: string, id: JobId)
    ensures Mine(order + [id], jobs, session)
            == Mine(order, jobs, session) + if id in jobs && jobs[id].session == session then [id] else []
  {
    assert (order + [id])[..|order|] == order;
  }

  function Stays(jobs: map<JobId, Entry>, session: string): JobId -> bool {
    (id: JobId) => id in jobs && jobs[id].session == session
  }

  lemma {:induction false} MineFilters(order: seq<JobId>, jobs: map<JobId, Entry>, session: string)
    ensures Mine(order, jobs, session) == Filter(order, Stays(jobs, session))
  {
    if order != [] { MineFilters(order[..|order| - 1], jobs, session); }
  }

  lemma MineKept(order: seq<JobId>, jobs: map<JobId, Entry>, session: string)
    ensures KeptOf(order, Mine(order, jobs, session), (id: JobId) => id in jobs && jobs[id].session == session)
  {
    MineFilters(order, jobs, session);
    FilterKept(order, Stays(jobs, session), (id: JobId) => id in jobs && jobs[id].session == session);
  }

  // ---- whole runs ----

  ghost predicate Legal(events: seq<Event>) {
    forall i :: 0 <= i < |events| ==> Allowed(After(events[..i]), events[i])
  }

  function After(events: seq<Event>): Desk {
    if events == [] then Desk([], map[], [])
    else Next(After(events[..|events| - 1]), events[|events| - 1])
  }

  /** The ids of s that are in t, in the order of s. */
  function Only(s: seq<JobId>, t: seq<JobId>): seq<JobId> {
    if s == [] then []
    else Only(s[..|s| - 1], t) + if s[|s| - 1] in t then [s[|s| - 1]] else []
  }

  ghost predicate DeskOk(d: Desk) {
    && Consistent(d.submitted, d.all.Keys)
    && d.order == Only(d.submitted, d.order)
    && (forall id :: id in d.all && !d.all[id].status.Terminal() ==> id in d.order)
  }

  lemma {:induction false} OnlyHolds(s: seq<JobId>, t: seq<JobId>)
    ensures forall id :: id in Only(s, t) <==> id in s && id in t
  {
    if s != [] { OnlyHolds(s[..|s| - 1], t); }
  }

  lemma {:induction false} OnlySame(s: seq<JobId>, t: seq<JobId>, u: seq<JobId>)
    requires forall id :: id in s ==> (id in t <==> id in u)
    ensures Only(s, t) == Only(s, u)
  {
    if s != [] {
      OnlySame(s[..|s| - 1], t, u);
      assert s[|s| - 1] in s;
    }
  }

  /** Sweeping what is left of s leaves what of s the sweep keeps. */
  lemma {:induction false} OnlyKept(s: seq<JobId>, t: seq<JobId>, jobs: map<JobId, Entry>, sweep: Sweep)
    ensures Kept(Only(s, t), jobs, sweep) == Only(s, Kept(t, jobs, sweep))
  {
    KeptHolds(t, jobs, sweep);
    if s != [] {
      var init, last := s[..|s| - 1], s[|s| - 1];
      OnlyKept(init, t, jobs, sweep);
      var o, k := Only(init, t), Kept(t, jobs, sweep);
      assert (o + [last])[..|o|] == o && o + [] == o;
      assert Only(init, k) + [] == Only(init, k);
      assert Kept(o, jobs, sweep) + [] == Kept(o, jobs, sweep);
    }
  }

  lemma NextKeeps(d: Desk, ev: Event)
    requires DeskOk(d) && Allowed(d, ev)
    ensures DeskOk(Next(d, ev))
  {
    hide Consistent, Kept, Only;
    match ev {
      case Submit(id, e) => SubmitKeeps(d, id, e);
      case Change(id, e) =>
        assert d.all[id := e].Keys == d.all.Keys;
      case Clean(sweep) =>
        OnlyKept(d.submitted, d.order, d.all, sweep);
        KeptHolds(d.order, d.all, sweep);
    }
  }

  lemma SubmitKeeps(d: Desk, id: JobId, e: Entry)
    requires DeskOk(d) && id !in d.all
    ensures DeskOk(Next(d, Submit(id, e)))
  {
    ConsistentAdd(d.submitted, d.all.Keys, id);
    assert d.all[id := e].Keys == d.all.Keys + {id};
    var order := d.order + [id];
    OnlyHolds(d.submitted, d.order);
    assert (d.submitted + [id])[..|d.submitted|] == d.submitted;
    assert id in order;
    OnlySame(d.submitted, d.order, order);
  }

  lemma LegalInit(events: seq<Event>)
    requires Legal(events) && events != []
    ensures Legal(events[..|events| - 1]) && Allowed(After(events[..|events| - 1]), events[|events| - 1])
  {
    hide Allowed, After;
    var n := |events| - 1;
    assert forall k :: 0 <= k < n ==> events[..n][k] == events[k] && events[..n][..k] == events[..k];
  }

  /** Over any run of submissions, changes, listings and dismissals, from any
      sessions: the registry stands in the order of submission, and a job that is
      still live is still in it. */
  lemma {:induction false} RegistryRuns(events: seq<Event>)
    requires Legal(events)
    ensures var d := After(events);
            && d.order == Only(d.submitted, d.order)
            && Consistent(d.submitted, d.all.Keys)
            && forall id :: id in d.all && !d.all[id].status.Terminal() ==> id in d.order
  {
    hide Next, Allowed, Consistent, Only, Legal;
    if events == [] {
      EmptyDesk();
    } else {
      var init := events[..|events| - 1];
      LegalInit(events);
      RegistryRuns(init);
      NextKeeps(After(init), events[|events| - 1]);
    }
  }

  lemma EmptyDesk()
    ensures DeskOk(Desk([], map[], []))
  {
  }

  /** The event takes the job from the registry: it has settled, and a listing comes more
      than two hours after it finished, or its own session dismisses it, or all. */
  predicate TakenBy(d: Desk, ev: Event, id: JobId) {
    && id in d.all && d.all[id].status in {Ready, Failed, Canceled} && ev.Clean?
    && match ev.sweep
       case Stale(now) => now - d.all[id].finishedAt > 7_200_000_000_000
       case Dismiss(wanted, session) => d.all[id].session == session && (wanted == JobId("") || wanted == id)
  }

  lemma NextTakes(d: Desk, ev: Event, id: JobId)
    requires Allowed(d, ev) && id in Next(d, ev).all
    ensures id in Next(d, ev).order <==>
            if id in d.all then id in d.order && !TakenBy(d, ev, id) else true
    ensures id !in d.all ==> ev == Submit(id, Next(d, ev).all[id])
  {
    hide Kept;
    if ev.Clean? { KeptHolds(d.order, d.all, ev.sweep); }
  }

  /** Some event of the run took the job. */
  ghost predicate Taken(events: seq<Event>, id: JobId) {
    exists k :: 0 <= k < |events| && TakenBy(After(events[..k]), events[k], id)
  }

  lemma TakenLast(events: seq<Event>, id: JobId)
    requires events != []
    ensures var n := |events| - 1;
            Taken(events, id) <==> Taken(events[..n], id) || TakenBy(After(events[..n]), events[n], id)
  {
    hide TakenBy, After;
    var n := |events| - 1;
    assert forall k :: 0 <= k < n ==> events[..n][k] == events[k] && events[..n][..k] == events[..k];
    if k :| 0 <= k < n && TakenBy(After(events[..k]), events[k], id) {
      assert TakenBy(After(events[..n][..k]), events[..n][k], id);
    }
    if k :| 0 <= k < n && TakenBy(After(events[..n][..k]), events[..n][k], id) {
      assert TakenBy(After(events[..k]), events[k], id);
    }
  }

  /** Over any run a job that was submitted has left the registry if and only if some
      event took it: a settled job stays for two hours unless its session dismisses it. */
  lemma {:induction false} GoneExactly(events: seq<Event>, id: JobId)
    requires Legal(events) && id in After(events).all
    ensures id !in After(events).order <==> Taken(events, id)
  {
    hide Next, Allowed, TakenBy, Taken, Legal;
    if events != [] {
      var init, ev := events[..|events| - 1], events[|events| - 1];
      LegalInit(events);
      TakenLast(events, id);
      NextTakes(After(init), ev, id);
      if id in After(init).all {
        GoneExactly(init, id);
      } else {
        NotYetTaken(init, id);
        TakenKnown(After(init), ev, id);
      }
    }
  }

  lemma TakenKnown(d: Desk, ev: Event, id: JobId)
    ensures TakenBy(d, ev, id) ==> id in d.all && id in Next(d, ev).all
  {
  }

  lemma KnownStays(d: Desk, ev: Event, id: JobId)
    ensures id in d.all ==> id in Next(d, ev).all
  {
  }

  lemma {:induction false} NotYetTaken(events: seq<Event>, id: JobId)
    requires id !in After(events).all
    ensures !Taken(events, id)
  {
    hide Next, TakenBy, Taken;
    if events == [] {
      NoneTaken(id);
    } else {
      var init, ev := events[..|events| - 1], events[|events| - 1];
      TakenLast(events, id);
      KnownStays(After(init), ev, id);
      TakenKnown(After(init), ev, id);
      NotYetTaken(init, id);
    }
  }

  lemma NoneTaken(id: JobId)
    ensures !Taken([], id)
  {
  }

  /** A sweep by another session's dismissal takes nothing of this session's. */
  lemma {:induction false} DismissKeepsOthers(order: seq<JobId>, jobs: map<JobId, Entry>, id: JobId, other: string,
                                              session: string)
    requires other != session
    ensures Mine(Kept(order, jobs, Dismiss(id, other)), jobs, session) == Mine(order, jobs, session)
  {
    if order != [] {
      var init, last := order[..|order| - 1], order[|order| - 1];
      DismissKeepsOthers(init, jobs, id, other, session);
      var k := Kept(init, jobs, Dismiss(id, other));
      MineStep(k, jobs, session, last);
      assert k + [] == k;
      assert Mine(init, jobs, session) + [] == Mine(init, jobs, session);
    }
  }
}
