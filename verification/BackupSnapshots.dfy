/** backup/engine.go and verify.go: writing a snapshot with its manifest, and checking
    one against it. A directory is the map of its files. */
module BackupSnapshots {
  import opened Common
  import opened BackupPaths

  const MANIFEST: Path := ["manifest.json"]
  const MANIFEST_VERSION := 2

  type Files = map<Path, string>

  datatype Kind = Daily | Manual | PreRestore

  datatype Entry = Entry(path: Raw, store: string, sha: string, size: int, schema: int)

  datatype Manifest = Manifest(version: int, app: string, hub: string, slug: string, kind: Kind, entries: seq<Entry>)

  /** What reading a text into a map of fields finds. null is read without complaint
      and leaves no map; arrays, numbers and what is no JSON are refused. */
  datatype Json = Object(value: map<string, string>) | Null | Unfit

  /** How null is written. */
  const NULL := "null"

  /** The encodings the engine relies on: the hash, the manifest's JSON, the syntax
      check by file name, and the fields of a JSON object. */
  datatype Codec = Codec(
    hash: string -> string,
    manifestText: Manifest -> string,
    readManifest: string -> Option<Manifest>,
    parses: (Raw, string) -> bool,
    fields: string -> Json,
    render: map<string, string> -> string)
  {
    ghost predicate Sane() {
      && (forall x, y :: hash(x) == hash(y) ==> x == y)
      && (forall m :: readManifest(manifestText(m)) == Some(m))
      && (forall f :: fields(render(f)) == Object(f))
      && fields(NULL) == Null
    }
  }

  /** What one hub's engine stamps on a manifest. */
  datatype Ident = Ident(app: string, hub: string, slug: string)

  /** A file handed over by a source. */
  datatype Visit = Visit(raw: Raw, data: string, schema: int)

  /** What a source does: the files it hands over, and whether it then fails. */
  datatype Source = Source(name: string, visits: seq<Visit>, fails: bool)

  // ---- running, on values ----

  /** A file stands where a directory is wanted, or a directory where a file is. */
  ghost predicate Clash(files: Files, p: Path) {
    exists q :: q in files && q != p && (q <= p || p <= q)
  }

  datatype Progress = Progress(files: Files, entries: seq<Entry>)

  datatype Item = Visited(store: string, visit: Visit) | Broke

  function Items(s: Source): seq<Item> {
    VisitedItems(s.name, s.visits) + if s.fails then [Broke] else []
  }

  function VisitedItems(name: string, visits: seq<Visit>): seq<Item> {
    seq(|visits|, i requires 0 <= i < |visits| => Visited(name, visits[i]))
  }

  /** A source hands over its files in order, under its name, and then breaks or not. */
  lemma ItemsTell(s: Source)
    ensures |Items(s)| == |s.visits| + if s.fails then 1 else 0
    ensures forall j :: 0 <= j < |s.visits| ==> Items(s)[j] == Visited(s.name, s.visits[j])
    ensures s.fails ==> Items(s)[|s.visits|] == Broke
  {
  }

  /** Everything the sources do, in order. */
  function Stream(sources: seq<Source>): seq<Item> {
    if sources == [] then [] else Stream(sources[..|sources| - 1]) + Items(sources[|sources| - 1])
  }

  function EntryOf(c: Codec, store: string, v: Visit, path: Path): Entry {
    Entry(Raw(false, path), store, c.hash(v.data), |v.data|, v.schema)
  }

  /** One step; none when the run is over. room: how many writes the disk will take. */
  ghost function Take(c: Codec, p: Progress, item: Item, room: nat): Option<Progress> {
    if item.Broke? || SafeRel(item.visit.raw).None? then None
    else
      var path := SafeRel(item.visit.raw).value;
      if Clash(p.files, path) || |p.entries| >= room then None
      else Some(Progress(p.files[path := item.visit.data],
                         p.entries + [EntryOf(c, item.store, item.visit, path)]))
  }

  ghost function TakeAll(c: Codec, items: seq<Item>, room: nat): Option<Progress> {
    if items == [] then Some(Progress(map[], []))
    else
      var p := TakeAll(c, items[..|items| - 1], room);
      if p.None? then None else Take(c, p.value, items[|items| - 1], room)
  }

  function ManifestOf(id: Ident, kind: Kind, entries: seq<Entry>): Manifest {
    Manifest(MANIFEST_VERSION, id.app, id.hub, id.slug, kind, entries)
  }

  ghost function Snapshot(c: Codec, id: Ident, kind: Kind, sources: seq<Source>, room: nat): Option<Files> {
    var p := TakeAll(c, Stream(sources), room);
    if p.None? || Clash(p.value.files, MANIFEST) || |p.value.entries| >= room then None
    else Some(p.value.files[MANIFEST := c.manifestText(ManifestOf(id, kind, p.value.entries))])
  }

  // ---- what a run records ----

  lemma TakeLast(c: Codec, items: seq<Item>, item: Item, room: nat)
    ensures TakeAll(c, items + [item], room)
            == var p := TakeAll(c, items, room); if p.None? then None else Take(c, p.value, item, room)
  {
    assert (items + [item])[..|items|] == items;
  }

  /** No run goes on after an item that ended it. */
  lemma {:induction false} TakeStopped(c: Codec, items: seq<Item>, more: seq<Item>, room: nat)
    requires TakeAll(c, items, room).None?
    ensures TakeAll(c, items + more, room).None?
  {
    if more == [] {
      assert items + more == items;
    } else {
      TakeStopped(c, items, more[..|more| - 1], room);
      assert items + more == (items + more[..|more| - 1]) + [more[|more| - 1]];
      TakeLast(c, items + more[..|more| - 1], more[|more| - 1], room);
    }
  }

  /** The items a run took, each at a path of its own. */
  ghost predicate Recorded(c: Codec, items: seq<Item>, p: Progress) {
    && |p.entries| == |items|
    && (forall i :: 0 <= i < |items| ==> items[i].Visited? && SafeRel(items[i].visit.raw).Some?)
    && (forall i :: 0 <= i < |items| ==>
          p.entries[i] == EntryOf(c, items[i].store, items[i].visit, SafeRel(items[i].visit.raw).value))
  }

  ghost predicate OncePerFile(items: seq<Item>) {
    forall i, j :: 0 <= i < j < |items| && items[i].Visited? && items[j].Visited? ==>
      SafeRel(items[i].visit.raw) != SafeRel(items[j].visit.raw)
  }

  lemma {:induction false} RunRecords(c: Codec, items: seq<Item>, room: nat)
    requires TakeAll(c, items, room).Some?
    ensures Recorded(c, items, TakeAll(c, items, room).value)
  {
    hide SafeRel, EntryOf, Clash;
    if items != [] { RunRecords(c, items[..|items| - 1], room); }
  }

  function At(files: Files, path: Option<Path>): Option<string> {
    if path.Some? && path.value in files then Some(files[path.value]) else None
  }

  /** The directory holds each file as it was handed over, and nothing else. */
  ghost predicate Holds(items: seq<Item>, files: Files) {
    && (forall i :: 0 <= i < |items| ==>
          items[i].Visited? && At(files, SafeRel(items[i].visit.raw)) == Some(items[i].visit.data))
    && (forall q :: q in files ==>
          exists i :: 0 <= i < |items| && items[i].Visited? && SafeRel(items[i].visit.raw) == Some(q))
  }

  lemma HoldsMore(items: seq<Item>, item: Item, files: Files)
    requires Holds(items, files) && item.Visited? && SafeRel(item.visit.raw).Some?
    requires forall i :: 0 <= i < |items| ==>
               items[i].Visited? && SafeRel(items[i].visit.raw) != SafeRel(item.visit.raw)
    ensures Holds(items + [item], files[SafeRel(item.visit.raw).value := item.visit.data])
  {
    hide SafeRel;
    var all, after := items + [item], files[SafeRel(item.visit.raw).value := item.visit.data];
    assert all[|items|] == item;
    forall q | q in after
      ensures exists i :: 0 <= i < |all| && all[i].Visited? && SafeRel(all[i].visit.raw) == Some(q)
    {
      if q in files {
        var i :| 0 <= i < |items| && items[i].Visited? && SafeRel(items[i].visit.raw) == Some(q);
        assert all[i] == items[i];
      }
    }
  }

  /** When no file is handed over twice, a run leaves exactly what was handed over. */
  lemma {:induction false} RunHolds(c: Codec, items: seq<Item>, room: nat)
    requires TakeAll(c, items, room).Some? && OncePerFile(items)
    ensures Holds(items, TakeAll(c, items, room).value.files)
  {
    hide SafeRel, EntryOf, Clash, Holds;
    if items == [] {
      HoldsNothing();
    } else {
      var init, item := items[..|items| - 1], items[|items| - 1];
      assert items == init + [item];
      RunHolds(c, init, room);
      RunRecords(c, items, room);
      assert forall i :: 0 <= i < |init| ==> init[i] == items[i];
      HoldsMore(init, item, TakeAll(c, init, room).value.files);
    }
  }

  lemma HoldsNothing()
    ensures Holds([], map[])
  {
  }

  // ---- which runs succeed ----

  /** One path is a directory of the other. */
  predicate Within(p: Path, q: Path) { p != q && (p <= q || q <= p) }

  ghost predicate Writable(items: seq<Item>) {
    && (forall i :: 0 <= i < |items| ==> items[i].Visited? && SafeRel(items[i].visit.raw).Some?)
    && (forall i, j :: 0 <= i < j < |items| ==>
          !Within(SafeRel(items[i].visit.raw).value, SafeRel(items[j].visit.raw).value))
  }

  /** The directory holds the paths written, and no others. */
  ghost predicate PathsOf(items: seq<Item>, files: Files) {
    && (forall i :: 0 <= i < |items| ==>
          items[i].Visited? && SafeRel(items[i].visit.raw).Some? && SafeRel(items[i].visit.raw).value in files)
    && (forall q :: q in files ==>
          exists i :: 0 <= i < |items| && items[i].Visited? && SafeRel(items[i].visit.raw) == Some(q))
  }

  lemma ClashOf(items: seq<Item>, files: Files, p: Path)
    requires PathsOf(items, files)
    ensures Clash(files, p) <==> exists i :: 0 <= i < |items| && Within(SafeRel(items[i].visit.raw).value, p)
  {
    hide SafeRel;
    if q :| q in files && q != p && (q <= p || p <= q) {
      var i :| 0 <= i < |items| && items[i].Visited? && SafeRel(items[i].visit.raw) == Some(q);
      assert Within(SafeRel(items[i].visit.raw).value, p);
    }
  }

  lemma WritableLast(items: seq<Item>)
    requires items != []
    ensures var n := |items| - 1;
            Writable(items) <==>
            && Writable(items[..n]) && items[n].Visited? && SafeRel(items[n].visit.raw).Some?
            && forall i :: 0 <= i < n ==> !Within(SafeRel(items[i].visit.raw).value, SafeRel(items[n].visit.raw).value)
  {
    hide SafeRel;
    var n := |items| - 1;
    assert forall i :: 0 <= i < n ==> items[..n][i] == items[i];
  }

  lemma PathsMore(items: seq<Item>, item: Item, files: Files)
    requires PathsOf(items, files) && item.Visited? && SafeRel(item.visit.raw).Some?
    ensures PathsOf(items + [item], files[SafeRel(item.visit.raw).value := item.visit.data])
  {
    hide SafeRel;
    var all, after := items + [item], files[SafeRel(item.visit.raw).value := item.visit.data];
    assert all[|items|] == item;
    forall q | q in after
      ensures exists i :: 0 <= i < |all| && all[i].Visited? && SafeRel(all[i].visit.raw) == Some(q)
    {
      if q in files {
        var i :| 0 <= i < |items| && items[i].Visited? && SafeRel(items[i].visit.raw) == Some(q);
        assert all[i] == items[i];
      }
    }
  }

  lemma {:induction false} TakenExactly(c: Codec, items: seq<Item>, room: nat)
    ensures TakeAll(c, items, room).Some? <==> Writable(items) && |items| <= room
    ensures TakeAll(c, items, room).Some? ==>
              PathsOf(items, TakeAll(c, items, room).value.files) && |TakeAll(c, items, room).value.entries| == |items|
  {
    hide SafeRel, EntryOf, Clash, PathsOf, Writable, Within;
    if items == [] {
      NonePaths();
    } else {
      var n := |items| - 1;
      TakenExactly(c, items[..n], room);
      WritableLast(items);
      assert items == items[..n] + [items[n]];
      if TakeAll(c, items[..n], room).Some? {
        var p := TakeAll(c, items[..n], room).value;
        if items[n].Visited? && SafeRel(items[n].visit.raw).Some? {
          ClashOf(items[..n], p.files, SafeRel(items[n].visit.raw).value);
          PathsMore(items[..n], items[n], p.files);
        }
        assert forall i :: 0 <= i < n ==> items[..n][i] == items[i];
      }
    }
  }

  lemma NonePaths()
    ensures PathsOf([], map[]) && Writable([])
  {
  }

  /** A run succeeds if and only if no source fails, every path handed over is safe, none
      of them is a directory of another or of the manifest, and the disk takes one write
      for each and one for the manifest. */
  lemma RunSucceedsExactly(c: Codec, id: Ident, kind: Kind, sources: seq<Source>, room: nat)
    ensures var items := Stream(sources);
            Snapshot(c, id, kind, sources, room).Some? <==>
            && (forall s :: s in sources ==> !s.fails)
            && (forall i :: 0 <= i < |items| && items[i].Visited? ==> SafeRel(items[i].visit.raw).Some?)
            && (forall i, j :: 0 <= i < j < |items| && items[i].Visited? && items[j].Visited? ==>
                  !Within(SafeRel(items[i].visit.raw).value, SafeRel(items[j].visit.raw).value))
            && (forall i :: 0 <= i < |items| && items[i].Visited? ==>
                  !Within(SafeRel(items[i].visit.raw).value, ["manifest.json"]))
            && |items| < room
  {
    hide SafeRel, EntryOf, Clash, Take, TakeAll, PathsOf, Within, Items;
    var items := Stream(sources);
    BrokeExactly(sources);
    TakenExactly(c, items, room);
    if TakeAll(c, items, room).Some? { ClashOf(items, TakeAll(c, items, room).value.files, MANIFEST); }
  }

  lemma {:induction false} BrokeExactly(sources: seq<Source>)
    ensures (forall s :: s in sources ==> !s.fails) <==>
            forall i :: 0 <= i < |Stream(sources)| ==> Stream(sources)[i].Visited?
  {
    if sources != [] {
      var n := |sources| - 1;
      var front, back := Stream(sources[..n]), Items(sources[n]);
      BrokeExactly(sources[..n]);
      assert forall s :: s in sources <==> s in sources[..n] || s == sources[n];
      assert forall i :: 0 <= i < |front| ==> Stream(sources)[i] == front[i];
      assert forall i :: 0 <= i < |back| ==> Stream(sources)[|front| + i] == back[i];
      if sources[n].fails { assert back[|sources[n].visits|] == Broke; }
    }
  }

  /** What the manifest of a run that succeeds tells: the engine's own stamp, and of each
      file handed over, in order, its clean path, its source, its hash, size and schema. */
  lemma ManifestTells(c: Codec, id: Ident, kind: Kind, sources: seq<Source>, room: nat)
    requires c.Sane() && Snapshot(c, id, kind, sources, room).Some?
    ensures var files, items := Snapshot(c, id, kind, sources, room).value, Stream(sources);
            && ["manifest.json"] in files
            && var m := c.readManifest(files[["manifest.json"]]);
               && m.Some? && m.value.version == 2 && m.value.app == id.app && m.value.hub == id.hub
               && m.value.slug == id.slug && m.value.kind == kind && |m.value.entries| == |items|
               && forall i :: 0 <= i < |items| ==>
                    && items[i].Visited? && SafeRel(items[i].visit.raw).Some?
                    && var v := items[i].visit;
                       m.value.entries[i] == Entry(Raw(false, SafeRel(v.raw).value), items[i].store, c.hash(v.data),
                                                   |v.data|, v.schema)
  {
    hide SafeRel, TakeAll, Stream, Clash;
    RunRecords(c, Stream(sources), room);
  }

  // ---- verifying, on values ----

  /** The schema version this build writes for a file, if it has a say in it. */
  type Expected = (string, Raw) -> Option<int>

  datatype FileResult = FileResult(path: Raw, hashOK: bool, parseOK: bool, versionOK: bool, missing: bool,
                                   detail: bool) {
    predicate Ok() { !missing && hashOK && parseOK && versionOK && !detail }
  }

  predicate NewerSchema(e: Entry, expected: Expected) {
    expected(e.store, e.path).Some? && e.schema > expected(e.store, e.path).value
  }

  /** verifyFile. */
  function VerifyFile(c: Codec, files: Files, e: Entry, expected: Expected): (r: FileResult)
    ensures r.Ok() <==> EntryClean(c, files, e, expected)
    ensures r.Ok() <==>
            && SafeRel(e.path).Some? && SafeRel(e.path).value in files
            && c.hash(files[SafeRel(e.path).value]) == e.sha && c.parses(e.path, files[SafeRel(e.path).value])
            && (expected(e.store, e.path).Some? ==> e.schema <= expected(e.store, e.path).value)
    ensures r.path == e.path && (r.missing <==> SafeRel(e.path).Some? && SafeRel(e.path).value !in files)
  {
    match SafeRel(e.path)
    case None => FileResult(e.path, false, false, false, false, true)
    case Some(rel) =>
      if rel !in files then FileResult(e.path, false, false, false, true, false)
      else
        var newer := NewerSchema(e, expected);
        FileResult(e.path, c.hash(files[rel]) == e.sha, c.parses(e.path, files[rel]), !newer, false, newer)
  }

  /** What a clean entry comes to. */
  predicate EntryClean(c: Codec, files: Files, e: Entry, expected: Expected) {
    && At(files, SafeRel(e.path)).Some?
    && c.hash(At(files, SafeRel(e.path)).value) == e.sha
    && c.parses(e.path, At(files, SafeRel(e.path)).value)
    && !NewerSchema(e, expected)
  }

  function Listed(entries: seq<Entry>): set<Raw> {
    set e | e in entries :: e.path
  }

  /** The finding for a file the manifest does not list. */
  function Finding(p: Path): (r: FileResult)
    ensures !r.Ok()
  {
    FileResult(Raw(false, p), false, false, false, false, true)
  }

  predicate Extra(files: Files, entries: seq<Entry>, p: Path) {
    p in files && p != MANIFEST && Raw(false, p) !in Listed(entries)
  }

  /** A snapshot with nothing wrong in it: every entry clean, no file unlisted. */
  ghost predicate CleanSnapshot(c: Codec, files: Files, entries: seq<Entry>, expected: Expected) {
    && (forall e :: e in entries ==> EntryClean(c, files, e, expected))
    && (forall p :: !Extra(files, entries, p))
  }

  /** A clean snapshot, spelled out. */
  lemma CleanExactly(c: Codec, files: Files, entries: seq<Entry>, expected: Expected)
    ensures CleanSnapshot(c, files, entries, expected) <==>
            && (forall e :: e in entries ==>
                  && SafeRel(e.path).Some? && SafeRel(e.path).value in files
                  && c.hash(files[SafeRel(e.path).value]) == e.sha && c.parses(e.path, files[SafeRel(e.path).value])
                  && (expected(e.store, e.path).Some? ==> e.schema <= expected(e.store, e.path).value))
            && (forall p :: p in files && p != ["manifest.json"] ==>
                  exists e :: e in entries && e.path == Raw(false, p))
  {
    hide SafeRel;
    forall p
      ensures Extra(files, entries, p) <==>
              p in files && p != ["manifest.json"] && !exists e :: e in entries && e.path == Raw(false, p)
    {
    }
  }

  /** ReadManifest. */
  function ManifestIn(c: Codec, files: Files): Option<Manifest> {
    if MANIFEST !in files then None
    else
      match c.readManifest(files[MANIFEST])
      case None => None
      case Some(m) => if m.version > MANIFEST_VERSION then None else Some(m)
  }

  predicate OtherHub(id: Ident, m: Manifest) {
    m.slug != id.slug || (m.hub != "" && id.hub != "" && m.hub != id.hub)
  }

  datatype Warning = NoWarning | PreHubWarning | OtherHubWarning

  datatype Report = Report(files: seq<FileResult>, ok: bool, warning: Warning)

  // ---- the engine ----

  datatype Dir = Dir(kind: Kind, at: int, suffix: nat)

  class Engine {
    const c: Codec
    const id: Ident
    const root: string
    var snaps: map<Dir, Files>

    constructor (c: Codec, id: Ident, root: string)
      ensures this.c == c && this.id == id && this.root == root && snaps == map[]
    {
      this.c, this.id, this.root, snaps := c, id, root, map[];
    }

    /** newSnapshotDir: the plain name, else the first suffix from 2 on not in use. */
    method NewSnapshotDir(kind: Kind, at: int) returns (d: Dir)
      ensures d !in snaps && d.kind == kind && d.at == at
      ensures Dir(kind, at, 0) !in snaps ==> d.suffix == 0
      ensures Dir(kind, at, 0) in snaps ==>
                d.suffix >= 2 && forall n: nat :: 2 <= n < d.suffix ==> Dir(kind, at, n) in snaps
    {
      d := Dir(kind, at, 0);
      var i := 2;
      ghost var left := snaps.Keys;
      while d in snaps
        invariant d.kind == kind && d.at == at && i >= 2 && d.suffix == (if i == 2 then 0 else i - 1)
        invariant left <= snaps.Keys
        invariant i > 2 ==> Dir(kind, at, 0) in snaps && forall n: nat :: 2 <= n < d.suffix ==>
                  Dir(kind, at, n) in snaps
        invariant forall n: nat :: n >= d.suffix && Dir(kind, at, n) in snaps ==> Dir(kind, at, n) in left
        decreases |left|
      {
        left := left - {d};
        d := Dir(kind, at, i);
        i := i + 1;
      }
    }

    /** runAt, up to the promotion of daily snapshots. A run that fails anywhere leaves
        no directory; one that succeeds leaves one more, whole. */
    method Run(kind: Kind, at: int, sources: seq<Source>, room: nat) returns (d: Option<Dir>)
      modifies this
      ensures root == "" || Snapshot(c, id, kind, sources, room).None? ==> d.None? && snaps == old(snaps)
      ensures root != "" && Snapshot(c, id, kind, sources, room).Some? ==>
                && d.Some? && d.value !in old(snaps)
                && snaps == old(snaps)[d.value := Snapshot(c, id, kind, sources, room).value]
    {
      hide SafeRel, EntryOf, Clash, Take, TakeAll, Stream;
      if root == "" { return None; }
      var dir := NewSnapshotDir(kind, at);
      snaps := snaps[dir := map[]];
      var entries, ok := WriteSources(dir, sources, room);
      if ok {
        var clash := HasClash(snaps[dir], MANIFEST);
        ok := !clash && |entries| < room;
      }
      if !ok {
        snaps := snaps - {dir};
        return None;
      }
      snaps := snaps[dir := snaps[dir][MANIFEST := c.manifestText(ManifestOf(id, kind, entries))]];
      d := Some(dir);
    }

    /** The loop over the sources, into a directory just made. */
    method WriteSources(dir: Dir, sources: seq<Source>, room: nat) returns (entries: seq<Entry>, ok: bool)
      requires dir in snaps && snaps[dir] == map[]
      modifies this
      ensures dir in snaps && snaps == old(snaps)[dir := snaps[dir]]
      ensures ok ==> TakeAll(c, Stream(sources), room) == Some(Progress(snaps[dir], entries))
      ensures !ok ==> TakeAll(c, Stream(sources), room).None?
    {
      hide SafeRel, EntryOf, Clash, Take, TakeAll, Stream, Items;
      NothingTaken(c, room);
      entries := [];
      ghost var before := snaps;
      var i := 0;
      while i < |sources|
        invariant 0 <= i <= |sources| && dir in snaps && snaps == before[dir := snaps[dir]]
        invariant TakeAll(c, Stream(sources[..i]), room) == Some(Progress(snaps[dir], entries))
      {
        entries, ok := TakeSource(dir, sources[i], Stream(sources[..i]), entries, room);
        StreamNext(sources, i);
        if !ok {
          StreamStopped(c, sources, i + 1, room);
          return;
        }
        i := i + 1;
      }
      assert sources[..i] == sources;
      ok := true;
    }

    /** One source's Snapshot call with the visit function that writes and records. */
    method TakeSource(dir: Dir, s: Source, ghost done: seq<Item>, entries0: seq<Entry>, room: nat)
      returns (entries: seq<Entry>, ok: bool)
      requires dir in snaps && TakeAll(c, done, room) == Some(Progress(snaps[dir], entries0))
      modifies this
      ensures dir in snaps && snaps == old(snaps)[dir := snaps[dir]]
      ensures ok ==> TakeAll(c, done + Items(s), room) == Some(Progress(snaps[dir], entries))
      ensures !ok ==> TakeAll(c, done + Items(s), room).None?
    {
      hide SafeRel, Clash, TakeAll;
      entries := entries0;
      ghost var before := snaps;
      ghost var items := VisitedItems(s.name, s.visits);
      var j := 0;
      assert done + items[..0] == done;
      while j < |s.visits|
        invariant 0 <= j <= |s.visits| && dir in snaps && snaps == before[dir := snaps[dir]]
        invariant TakeAll(c, done + items[..j], room) == Some(Progress(snaps[dir], entries))
      {
        var v := s.visits[j];
        assert done + items[..j + 1] == (done + items[..j]) + [items[j]];
        TakeLast(c, done + items[..j], items[j], room);
        var rel := SafeRel(v.raw);
        var bad := rel.None? || |entries| >= room;
        if !bad { bad := HasClash(snaps[dir], rel.value); }
        if bad {
          assert done + Items(s) == (done + items[..j + 1]) + Items(s)[j + 1..];
          TakeStopped(c, done + items[..j + 1], Items(s)[j + 1..], room);
          return entries, false;
        }
        snaps := snaps[dir := snaps[dir][rel.value := v.data]];
        entries := entries + [EntryOf(c, s.name, v, rel.value)];
        j := j + 1;
      }
      assert items[..j] == items;
      if s.fails {
        assert done + Items(s) == (done + items) + [Broke];
        TakeLast(c, done + items, Broke, room);
      } else {
        assert Items(s) == items;
      }
      ok := !s.fails;
    }

    static method HasClash(files: Files, p: Path) returns (clash: bool)
      ensures clash == Clash(files, p)
    {
      var todo := files.Keys;
      while todo != {}
        invariant todo <= files.Keys
        invariant forall q :: q in files && q !in todo ==> !(q != p && (q <= p || p <= q))
        decreases |todo|
      {
        var q :| q in todo;
        if q != p && (q <= p || p <= q) { return true; }
        todo := todo - {q};
      }
      clash := false;
    }

    /** Verify: none when the manifest cannot be read. */
    method Verify(files: Files, expected: Expected) returns (rep: Option<Report>)
      ensures rep.None? <==> ManifestIn(c, files).None?
      ensures rep.Some? ==>
                var m := ManifestIn(c, files).value;
                && (rep.value.ok <==> CleanSnapshot(c, files, m.entries, expected))
                && |rep.value.files| >= |m.entries|
                && (forall k :: 0 <= k < |m.entries| ==>
                     rep.value.files[k] == VerifyFile(c, files, m.entries[k], expected))
                && rep.value.warning ==
                   if m.version < 2 then PreHubWarning
                   else if m.slug != id.slug || (m.hub != "" && id.hub != "" && m.hub != id.hub) then OtherHubWarning
                   else NoWarning
    {
      hide EntryClean;
      var mm := ManifestIn(c, files);
      if mm.None? { return None; }
      var m := mm.value;
      var results: seq<FileResult> := [];
      var ok := true;
      var i := 0;
      while i < |m.entries|
        invariant 0 <= i <= |m.entries|
        invariant |results| == i && forall k :: 0 <= k < i ==>
                  results[k] == VerifyFile(c, files, m.entries[k], expected)
        invariant ok <==> forall k :: 0 <= k < i ==> EntryClean(c, files, m.entries[k], expected)
      {
        var r := VerifyFile(c, files, m.entries[i], expected);
        results := results + [r];
        ok := ok && r.Ok();
        i := i + 1;
      }
      var extras := ExtraFiles(files, m.entries);
      assert extras != [] ==> extras[0].path == Raw(false, extras[0].path.segs);
      rep := Some(Report(results + extras, ok && extras == [],
                         if m.version < 2 then PreHubWarning
                         else if OtherHub(id, m) then OtherHubWarning else NoWarning));
    }

    /** extraFiles, in whatever order the walk meets them: one failing finding for each
        file the manifest does not list. */
    static method ExtraFiles(files: Files, entries: seq<Entry>) returns (out: seq<FileResult>)
      ensures forall i, j :: 0 <= i < j < |out| ==> out[i].path != out[j].path
      ensures forall p :: Extra(files, entries, p) <==> exists i :: 0 <= i < |out| && out[i].path == Raw(false, p)
      ensures forall i :: 0 <= i < |out| ==> out[i] == Finding(out[i].path.segs) && !out[i].path.absolute
    {
      hide Listed;
      var listed := Listed(entries);
      out := [];
      var todo := files.Keys;
      while todo != {}
        invariant todo <= files.Keys
        invariant forall i, j :: 0 <= i < j < |out| ==> out[i].path != out[j].path
        invariant forall p :: Extra(files, entries, p) && p !in todo <==>
                  exists i :: 0 <= i < |out| && out[i].path == Raw(false, p)
        invariant forall i :: 0 <= i < |out| ==> out[i] == Finding(out[i].path.segs) && !out[i].path.absolute
        decreases |todo|
      {
        var p :| p in todo;
        todo := todo - {p};
        if p != MANIFEST && Raw(false, p) !in listed {
          assert Extra(files, entries, p);
          ghost var before := out;
          out := out + [Finding(p)];
          assert out[|before|].path == Raw(false, p) && forall i :: 0 <= i < |before| ==> out[i] == before[i];
        }
      }
    }
  }

  lemma NothingTaken(c: Codec, room: nat)
    ensures Stream([]) == [] && TakeAll(c, [], room) == Some(Progress(map[], []))
  {
  }

  lemma StreamNext(sources: seq<Source>, i: nat)
    requires i < |sources|
    ensures Stream(sources[..i + 1]) == Stream(sources[..i]) + Items(sources[i])
  {
    hide Items;
    assert sources[..i + 1][..i] == sources[..i];
  }

  lemma {:induction false} StreamStopped(c: Codec, sources: seq<Source>, n: nat, room: nat)
    requires n <= |sources| && TakeAll(c, Stream(sources[..n]), room).None?
    ensures TakeAll(c, Stream(sources), room).None?
    decreases |sources|
  {
    hide TakeAll;
    if n == |sources| {
      assert sources[..n] == sources;
    } else {
      var init := sources[..|sources| - 1];
      assert init[..n] == sources[..n];
      StreamStopped(c, init, n, room);
      TakeStopped(c, Stream(init), Items(sources[|sources| - 1]), room);
    }
  }
}
