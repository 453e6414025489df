/** backup/restore.go: the checks that come before a restore's first write, and the
    writes. The live data and the configuration stand in one tree of absolute paths. */
module BackupRestore {
  import opened Common
  import opened BackupPaths
  import opened BackupSnapshots
  import V = BackupVersions

  const CONFIG: Path := ["config.json"]
  const SERVER: Path := ["server.json"]
  const SECRET := "client_secret"

  datatype Roots = Roots(hub: Path, config: Path) {
    /** Clean absolute directories, neither global file inside the hub's own. */
    ghost predicate Sane() {
      Normal(hub) && Normal(config) && !(hub <= config + CONFIG) && !(hub <= config + SERVER)
    }
  }

  /** Why a restore did not finish. Panicked is no error return: the merge assigned
      into a map that is not there, and the goroutine went down with it. */
  datatype Refusal = BadManifest | PreHub | WrongHub | NewerApp | SchemaTooNew | BadPath | Unreadable | BadHash
                   | BadConfig | Panicked | SafetyFailed | WriteFailed

  datatype Pending = Pending(dest: Path, data: string)

  // ---- the checks, on values ----

  /** CheckRestorable. */
  function CheckRestorable(id: Ident, m: Manifest): Option<Refusal> {
    if m.version < 2 then Some(PreHub) else if OtherHub(id, m) then Some(WrongHub) else None
  }

  /** The secret of the live config.json, if it is an object that holds one. */
  function LiveSecret(c: Codec, live: Files, roots: Roots): Option<string> {
    var kept := At(live, Some(roots.config + CONFIG));
    if kept.Some? && c.fields(kept.value).Object? && SECRET in c.fields(kept.value).value
    then Some(c.fields(kept.value).value[SECRET]) else None
  }

  /** mergeConfigSecret. A backup that holds null gives no map to write the secret to. */
  function MergeSecret(c: Codec, data: string, live: Files, roots: Roots): Result<string, Refusal> {
    var secret := LiveSecret(c, live, roots);
    match c.fields(data)
    case Unfit => Err(BadConfig)
    case Null => if secret.Some? then Err(Panicked) else Ok(NULL)
    case Object(raw) => Ok(c.render(if secret.Some? then raw[SECRET := secret.value] else raw))
  }

  /** What is to be written for one manifest entry: nothing for server.json. */
  function Read(c: Codec, files: Files, live: Files, roots: Roots, e: Entry): Result<Option<Pending>, Refusal> {
    var safe := SafeRel(e.path);
    if safe.None? then Err(BadPath)
    else if safe.value == SERVER then Ok(None)
    else
      var rel := safe.value;
      var dest := ContainedJoin(if rel == CONFIG then roots.config else roots.hub, rel);
      if dest.None? then Err(BadPath)
      else if rel !in files then Err(Unreadable)
      else if c.hash(files[rel]) != e.sha then Err(BadHash)
      else if rel != CONFIG then Ok(Some(Pending(dest.value, files[rel])))
      else
        match MergeSecret(c, files[rel], live, roots)
        case Err(why) => Err(why)
        case Ok(data) => Ok(Some(Pending(dest.value, data)))
  }

  function Gather(c: Codec, files: Files, live: Files, roots: Roots, entries: seq<Entry>): Result<seq<Pending>,
                  Refusal> {
    if entries == [] then Ok([])
    else
      var front := Gather(c, files, live, roots, entries[..|entries| - 1]);
      if front.Err? then front
      else
        match Read(c, files, live, roots, entries[|entries| - 1])
        case Err(why) => Err(why)
        case Ok(None) => front
        case Ok(Some(p)) => Ok(front.value + [p])
  }

  /** Everything Restore looks at before it writes or takes its safety snapshot. */
  ghost function Checks(c: Codec, id: Ident, files: Files, live: Files, roots: Roots, expected: Expected)
    : Result<seq<Pending>, Refusal>
  {
    var mm := ManifestIn(c, files);
    if mm.None? then Err(BadManifest)
    else
      var m := mm.value;
      if CheckRestorable(id, m).Some? then Err(CheckRestorable(id, m).value)
      else if V.NewerText(m.app, id.app) then Err(NewerApp)
      else if exists e :: e in m.entries && NewerSchema(e, expected) then Err(SchemaTooNew)
      else Gather(c, files, live, roots, m.entries)
  }

  /** The writes, as far as the disk takes them. */
  ghost function Written(live: Files, pend: seq<Pending>): Option<Files> {
    if pend == [] then Some(live)
    else
      var front := Written(live, pend[..|pend| - 1]);
      var p := pend[|pend| - 1];
      if front.None? || Clash(front.value, p.dest) then None else Some(front.value[p.dest := p.data])
  }

  /** The tree after some of the writes, not all. */
  ghost predicate Partly(live: Files, pend: seq<Pending>, now: Files) {
    exists n :: 0 <= n < |pend| && Written(live, pend[..n]) == Some(now)
  }

  // ---- which snapshots are restored, spelled out ----

  /** The live config.json is an object that holds a secret. */
  predicate HoldsSecret(c: Codec, live: Files, roots: Roots) {
    var file := roots.config + ["config.json"];
    file in live && c.fields(live[file]).Object? && "client_secret" in c.fields(live[file]).value
  }

  /** An entry is fine when its path is safe and it is server.json, or the file is there
      under the recorded hash and, if it is config.json, can be merged. */
  predicate EntryFine(c: Codec, files: Files, live: Files, roots: Roots, e: Entry) {
    && SafeRel(e.path).Some?
    && var rel := SafeRel(e.path).value;
       rel == ["server.json"] ||
       (rel in files && c.hash(files[rel]) == e.sha &&
        (rel == ["config.json"] ==>
           c.fields(files[rel]).Object? || (c.fields(files[rel]).Null? && !HoldsSecret(c, live, roots))))
  }

  /** The manifest is there, of version 2 and of this hub, no version or schema is newer
      than this build's, and every entry is fine. */
  ghost predicate Restorable(c: Codec, id: Ident, files: Files, live: Files, roots: Roots, expected: Expected) {
    && ["manifest.json"] in files && c.readManifest(files[["manifest.json"]]).Some?
    && var m := c.readManifest(files[["manifest.json"]]).value;
       && m.version == 2 && m.slug == id.slug && (m.hub == "" || id.hub == "" || m.hub == id.hub)
       && !V.NewerText(m.app, id.app)
       && (forall e :: e in m.entries && expected(e.store, e.path).Some? ==>
             e.schema <= expected(e.store, e.path).value)
       && (forall e :: e in m.entries ==> EntryFine(c, files, live, roots, e))
  }

  lemma SecretHeld(c: Codec, live: Files, roots: Roots)
    ensures LiveSecret(c, live, roots).Some? <==> HoldsSecret(c, live, roots)
  {
  }

  /** What is wrong with an entry that is not fine. */
  function Blame(c: Codec, files: Files, e: Entry): Refusal {
    if SafeRel(e.path).None? then BadPath
    else if SafeRel(e.path).value !in files then Unreadable
    else if c.hash(files[SafeRel(e.path).value]) != e.sha then BadHash
    else if c.fields(files[SafeRel(e.path).value]).Unfit? then BadConfig
    else Panicked
  }

  /** What Read refuses, and why. */
  lemma ReadTells(c: Codec, files: Files, live: Files, roots: Roots, e: Entry)
    ensures Read(c, files, live, roots, e).Ok? ==> EntryFine(c, files, live, roots, e)
    ensures roots.Sane() ==> (Read(c, files, live, roots, e).Ok? <==> EntryFine(c, files, live, roots, e))
    ensures roots.Sane() && Read(c, files, live, roots, e).Err? ==>
              Read(c, files, live, roots, e).error == Blame(c, files, e)
  {
    hide SafeRel, ContainedJoin, LiveSecret, HoldsSecret;
    SecretHeld(c, live, roots);
    if SafeRel(e.path).Some? {
      SafeRelNormal(e.path);
      var rel := SafeRel(e.path).value;
      ContainedExactly(if rel == CONFIG then roots.config else roots.hub, rel);
    }
  }

  lemma {:induction false} GatherTells(c: Codec, files: Files, live: Files, roots: Roots, entries: seq<Entry>)
    ensures var g := Gather(c, files, live, roots, entries);
            && (g.Ok? ==> forall e :: e in entries ==> EntryFine(c, files, live, roots, e))
            && (roots.Sane() && g.Err? ==>
                  exists k :: 0 <= k < |entries| && FirstBad(c, files, live, roots, entries, k) &&
                              Read(c, files, live, roots, entries[k]) == Err(g.error))
  {
    hide Read, EntryFine;
    if entries != [] {
      var n := |entries| - 1;
      GatherTells(c, files, live, roots, entries[..n]);
      ReadTells(c, files, live, roots, entries[n]);
      assert forall e :: e in entries <==> e in entries[..n] || e == entries[n];
      assert forall i :: 0 <= i < n ==> entries[..n][i] == entries[i];
      var g := Gather(c, files, live, roots, entries);
      if roots.Sane() && g.Err? {
        if Gather(c, files, live, roots, entries[..n]).Err? {
          var k :| 0 <= k < n && FirstBad(c, files, live, roots, entries[..n], k) &&
                   Read(c, files, live, roots, entries[k]) == Err(g.error);
          assert FirstBad(c, files, live, roots, entries, k);
        } else {
          assert FirstBad(c, files, live, roots, entries, n);
        }
      }
    }
  }

  ghost predicate FirstBad(c: Codec, files: Files, live: Files, roots: Roots, entries: seq<Entry>, k: int)
    requires 0 <= k < |entries|
  {
    && !EntryFine(c, files, live, roots, entries[k])
    && forall i :: 0 <= i < k ==> EntryFine(c, files, live, roots, entries[i])
  }

  /** Nothing but a restorable snapshot passes the checks; and of one that has a sane
      place to go to, every one does. */
  lemma ChecksExactly(c: Codec, id: Ident, files: Files, live: Files, roots: Roots, expected: Expected)
    ensures Checks(c, id, files, live, roots, expected).Ok? ==> Restorable(c, id, files, live, roots, expected)
    ensures roots.Sane() && Restorable(c, id, files, live, roots, expected) ==>
              Checks(c, id, files, live, roots, expected).Ok?
  {
    hide Gather, Read, EntryFine, V.NewerText;
    if ManifestIn(c, files).Some? { GatherTells(c, files, live, roots, ManifestIn(c, files).value.entries); }
  }

  /** The refusal names the first thing wrong: the manifest, its version, its hub, the
      application's version, a schema, or else the first bad entry. */
  lemma ChecksRefuse(c: Codec, id: Ident, files: Files, live: Files, roots: Roots, expected: Expected)
    requires roots.Sane() && Checks(c, id, files, live, roots, expected).Err?
    ensures var why, text := Checks(c, id, files, live, roots, expected).error, At(files, Some(["manifest.json"]));
            if text.None? || c.readManifest(text.value).None? || c.readManifest(text.value).value.version > 2
            then why == BadManifest
            else
              var m := c.readManifest(text.value).value;
              if m.version < 2 then why == PreHub
              else if m.slug != id.slug || (m.hub != "" && id.hub != "" && m.hub != id.hub) then why == WrongHub
              else if V.NewerText(m.app, id.app) then why == NewerApp
              else if exists e :: e in m.entries && expected(e.store, e.path).Some? &&
                                  e.schema > expected(e.store, e.path).value
              then why == SchemaTooNew
              else exists k :: 0 <= k < |m.entries| && FirstBad(c, files, live, roots, m.entries, k) &&
                               why == Blame(c, files, m.entries[k])
  {
    hide Gather, Read, EntryFine, V.NewerText, SafeRel, FirstBad, Blame;
    if ManifestIn(c, files).Some? {
      var m := ManifestIn(c, files).value;
      GatherTells(c, files, live, roots, m.entries);
      if g :| g == Gather(c, files, live, roots, m.entries) && g.Err? {
        var k :| 0 <= k < |m.entries| && FirstBad(c, files, live, roots, m.entries, k) &&
                 Read(c, files, live, roots, m.entries[k]) == Err(g.error);
        ReadTells(c, files, live, roots, m.entries[k]);
      }
    }
  }

  // ---- Restore ----

  class Live {
    var files: Files

    constructor (files: Files)
      ensures this.files == files
    {
      this.files := files;
    }

    /** Restore. sources is what the stores hold at the time; room and budget say how
        many writes the backup disk and the live one take. Any refusal before the
        writes leaves the live tree as it was. */
    method Restore(eng: Engine, files: Files, roots: Roots, expected: Expected, at: int,
                   sources: seq<Source>, room: nat, budget: nat) returns (r: Option<Refusal>)
      modifies this, eng
      ensures var k := Checks(eng.c, eng.id, files, old(this.files), roots, expected);
              var safety := Snapshot(eng.c, eng.id, PreRestore, sources, room);
              && (k.Err? ==> r == Some(k.error) && this.files == old(this.files) && eng.snaps == old(eng.snaps))
              && (k.Ok? && (eng.root == "" || safety.None?) ==>
                    r == Some(SafetyFailed) && this.files == old(this.files) && eng.snaps == old(eng.snaps))
              && (k.Ok? && eng.root != "" && safety.Some? ==>
                    && (r.None? <==> |k.value| <= budget && Written(old(this.files), k.value).Some?)
                    && (r.None? ==> this.files == Written(old(this.files), k.value).value)
                    && (r.Some? ==> r.value == WriteFailed && Partly(old(this.files), k.value, this.files))
                    && exists d :: d !in old(eng.snaps) && eng.snaps == old(eng.snaps)[d := safety.value])
      ensures !Restorable(eng.c, eng.id, files, old(this.files), roots, expected) ==>
                r.Some? && this.files == old(this.files) && eng.snaps == old(eng.snaps)
    {
      hide SafeRel, Clash, Gather, Read, Snapshot, ManifestIn, V.NewerText, NewerSchema, Restorable;
      ChecksExactly(eng.c, eng.id, files, this.files, roots, expected);
      var why, pend := Check(eng, files, roots, expected);
      if why.Some? { return why; }
      var d := eng.Run(PreRestore, at, sources, room);
      if d.None? { return Some(SafetyFailed); }
      r := Write(pend, budget);
    }

    /** The loop over the pending writes. */
    method Write(pend: seq<Pending>, budget: nat) returns (r: Option<Refusal>)
      modifies this
      ensures r.None? <==> |pend| <= budget && Written(old(files), pend).Some?
      ensures r.None? ==> files == Written(old(files), pend).value
      ensures r.Some? ==> r.value == WriteFailed && Partly(old(files), pend, files)
    {
      hide Clash;
      var i := 0;
      while i < |pend|
        invariant 0 <= i <= |pend| && i <= budget
        invariant Written(old(files), pend[..i]) == Some(files)
      {
        assert pend[..i + 1][..i] == pend[..i];
        var clash := Engine.HasClash(files, pend[i].dest);
        if clash || i >= budget {
          if clash { WrittenStopped(old(files), pend, i + 1); }
          return Some(WriteFailed);
        }
        files := files[pend[i].dest := pend[i].data];
        i := i + 1;
      }
      assert pend[..i] == pend;
      r := None;
    }

    /** The checks, in the order the source makes them. */
    method Check(eng: Engine, files: Files, roots: Roots, expected: Expected)
      returns (why: Option<Refusal>, pend: seq<Pending>)
      ensures Checks(eng.c, eng.id, files, this.files, roots, expected)
              == if why.Some? then Err(why.value) else Ok(pend)
    {
      hide SafeRel, Read, NewerSchema, CheckRestorable, V.NewerText;
      pend := [];
      var mm := ManifestIn(eng.c, files);
      if mm.None? { return Some(BadManifest), []; }
      var m := mm.value;
      why := CheckRestorable(eng.id, m);
      if why.Some? { return; }
      var newer := V.SnapshotNewerThanApp(m.app, eng.id.app);
      if newer { return Some(NewerApp), []; }
      var i := 0;
      while i < |m.entries|
        invariant 0 <= i <= |m.entries|
        invariant forall k :: 0 <= k < i ==> !NewerSchema(m.entries[k], expected)
      {
        if NewerSchema(m.entries[i], expected) {
          assert m.entries[i] in m.entries;
          return Some(SchemaTooNew), [];
        }
        i := i + 1;
      }
      why, pend := ReadAll(eng.c, files, roots, m.entries);
    }

    method ReadAll(c: Codec, files: Files, roots: Roots, entries: seq<Entry>)
      returns (why: Option<Refusal>, pend: seq<Pending>)
      ensures Gather(c, files, this.files, roots, entries) == if why.Some? then Err(why.value) else Ok(pend)
    {
      hide SafeRel, Read;
      pend := [];
      var i := 0;
      while i < |entries|
        invariant 0 <= i <= |entries|
        invariant Gather(c, files, this.files, roots, entries[..i]) == Ok(pend)
      {
        assert entries[..i + 1][..i] == entries[..i];
        match Read(c, files, this.files, roots, entries[i]) {
          case Err(e) =>
            GatherStopped(c, files, this.files, roots, entries, i + 1);
            return Some(e), [];
          case Ok(None) =>
          case Ok(Some(p)) => pend := pend + [p];
        }
        i := i + 1;
      }
      assert entries[..i] == entries;
      why := None;
    }
  }

  /** No destination is a directory of a file there is or of another destination, nor the
      other way round. */
  ghost predicate Fits(live: Files, pend: seq<Pending>) {
    && (forall i, q :: 0 <= i < |pend| && q in live ==> !Within(q, pend[i].dest))
    && (forall i, j :: 0 <= i < j < |pend| ==> !Within(pend[i].dest, pend[j].dest))
  }

  ghost predicate Holders(live: Files, pend: seq<Pending>, now: Files) {
    forall q :: q in now <==> q in live || exists i :: 0 <= i < |pend| && pend[i].dest == q
  }

  /** What a destination clashes with, told from what was there and what was written. */
  lemma ClashTold(live: Files, pend: seq<Pending>, now: Files, p: Path)
    requires Holders(live, pend, now)
    ensures Clash(now, p) <==>
            (exists q :: q in live && Within(q, p)) || exists i :: 0 <= i < |pend| && Within(pend[i].dest, p)
  {
    if i :| 0 <= i < |pend| && Within(pend[i].dest, p) { assert pend[i].dest in now; }
    if q :| q in now && q != p && (q <= p || p <= q) { assert Within(q, p); }
  }

  lemma FitsLast(live: Files, pend: seq<Pending>)
    requires pend != []
    ensures var n := |pend| - 1;
            Fits(live, pend) <==>
            && Fits(live, pend[..n]) && (forall q :: q in live ==> !Within(q, pend[n].dest))
            && forall i :: 0 <= i < n ==> !Within(pend[..n][i].dest, pend[n].dest)
  {
    hide Within;
    var n := |pend| - 1;
    assert forall i :: 0 <= i < n ==> pend[..n][i] == pend[i];
  }

  lemma HoldersMore(live: Files, pend: seq<Pending>, now: Files)
    requires pend != [] && Holders(live, pend[..|pend| - 1], now)
    ensures var p := pend[|pend| - 1]; Holders(live, pend, now[p.dest := p.data])
  {
    var n := |pend| - 1;
    assert forall i :: 0 <= i < n ==> pend[..n][i] == pend[i];
  }

  /** The writes go through if and only if their destinations fit. */
  lemma {:induction false} WrittenExactly(live: Files, pend: seq<Pending>)
    ensures Written(live, pend).Some? <==> Fits(live, pend)
    ensures Written(live, pend).Some? ==> Holders(live, pend, Written(live, pend).value)
  {
    hide Clash, Fits, Holders;
    if pend == [] {
      FitsNone(live);
    } else {
      var n := |pend| - 1;
      WrittenExactly(live, pend[..n]);
      FitsLast(live, pend);
      if Written(live, pend[..n]).Some? {
        var now := Written(live, pend[..n]).value;
        ClashTold(live, pend[..n], now, pend[n].dest);
        HoldersMore(live, pend, now);
      }
    }
  }

  lemma FitsNone(live: Files)
    ensures Fits(live, []) && Holders(live, [], live)
  {
  }

  lemma {:induction false} WrittenStopped(live: Files, pend: seq<Pending>, n: nat)
    requires n <= |pend| && Written(live, pend[..n]).None?
    ensures Written(live, pend).None?
  {
    if n == |pend| {
      assert pend[..n] == pend;
    } else {
      assert pend[..|pend| - 1][..n] == pend[..n];
      WrittenStopped(live, pend[..|pend| - 1], n);
    }
  }

  lemma {:induction false} GatherStopped(c: Codec, files: Files, live: Files, roots: Roots, entries: seq<Entry>, n: nat)
    requires n <= |entries| && Gather(c, files, live, roots, entries[..n]).Err?
    ensures Gather(c, files, live, roots, entries) == Gather(c, files, live, roots, entries[..n])
  {
    hide Read;
    if n == |entries| {
      assert entries[..n] == entries;
    } else {
      assert entries[..|entries| - 1][..n] == entries[..n];
      GatherStopped(c, files, live, roots, entries[..|entries| - 1], n);
    }
  }

  // ---- where a restore can write ----

  /** Whatever the manifest says, every pending write is inside the hub's directory or
      is config.json itself. */
  lemma {:induction false} PendingContained(c: Codec, files: Files, live: Files, roots: Roots, entries: seq<Entry>)
    requires roots.Sane() && Gather(c, files, live, roots, entries).Ok?
    ensures forall p :: p in Gather(c, files, live, roots, entries).value ==>
              roots.hub <= p.dest || p.dest == roots.config + CONFIG
  {
    hide Read;
    if entries != [] {
      var last := entries[|entries| - 1];
      PendingContained(c, files, live, roots, entries[..|entries| - 1]);
      var r := Read(c, files, live, roots, last);
      if r.Ok? && r.value.Some? { ReadContained(c, files, live, roots, last); }
    }
  }

  lemma ReadContained(c: Codec, files: Files, live: Files, roots: Roots, e: Entry)
    requires roots.Sane() && Read(c, files, live, roots, e).Ok? && Read(c, files, live, roots, e).value.Some?
    ensures var p := Read(c, files, live, roots, e).value.value; roots.hub <= p.dest || p.dest == roots.config + CONFIG
  {
    hide SafeRel, ContainedJoin, MergeSecret;
    SafeRelNormal(e.path);
    var rel := SafeRel(e.path).value;
    ContainedExactly(if rel == CONFIG then roots.config else roots.hub, rel);
  }

  /** The writes change what they name and nothing else; files named once, or named
      twice alike, are as named. */
  lemma {:induction false} WritesHold(live: Files, pend: seq<Pending>)
    requires Written(live, pend).Some?
    ensures forall q :: (forall p :: p in pend ==> p.dest != q) ==>
            At(Written(live, pend).value, Some(q)) == At(live, Some(q))
    ensures (forall a, b :: a in pend && b in pend && a.dest == b.dest ==> a.data == b.data) ==>
              forall p :: p in pend ==> At(Written(live, pend).value, Some(p.dest)) == Some(p.data)
  {
    hide Clash;
    if pend != [] {
      var init, last := pend[..|pend| - 1], pend[|pend| - 1];
      WritesHold(live, init);
      assert forall p :: p in pend <==> p in init || p == last;
    }
  }

  /** A restore from any snapshot at all, crafted or not, leaves every file outside
      the hub's directory alone but config.json, server.json among them. */
  lemma RestoreContained(c: Codec, id: Ident, files: Files, live: Files, roots: Roots, expected: Expected, n: nat,
                         q: Path)
    requires roots.Sane() && Checks(c, id, files, live, roots, expected).Ok?
    requires var pend := Checks(c, id, files, live, roots, expected).value;
             n <= |pend| && Written(live, pend[..n]).Some?
    requires !(roots.hub <= q) && q != roots.config + CONFIG
    ensures var pend := Checks(c, id, files, live, roots, expected).value;
            At(Written(live, pend[..n]).value, Some(q)) == At(live, Some(q))
  {
    hide Gather, Written, V.NewerText, NewerSchema, CheckRestorable;
    var pend := Checks(c, id, files, live, roots, expected).value;
    PendingContained(c, files, live, roots, ManifestIn(c, files).value.entries);
    WritesHold(live, pend[..n]);
  }

  // ---- what Verify promises Restore ----

  /** The entry names a file that the directory holds as recorded. */
  predicate EntryIntact(c: Codec, files: Files, e: Entry) {
    At(files, SafeRel(e.path)).Some? && e.sha == c.hash(At(files, SafeRel(e.path)).value)
  }

  ghost predicate Intact(c: Codec, files: Files, entries: seq<Entry>) {
    forall e :: e in entries ==> EntryIntact(c, files, e)
  }

  predicate NamesConfig(e: Entry) { SafeRel(e.path) == Some(CONFIG) }

  /** How merging the snapshot's config.json fails, if it is there and does. */
  function ConfigTrouble(c: Codec, files: Files, live: Files, roots: Roots): Option<Refusal> {
    if CONFIG !in files then None
    else
      match MergeSecret(c, files[CONFIG], live, roots)
      case Ok(_) => None
      case Err(why) => Some(why)
  }

  /** An intact entry is turned down only over config.json. */
  lemma IntactEntryReads(c: Codec, files: Files, live: Files, roots: Roots, e: Entry)
    requires roots.Sane() && EntryIntact(c, files, e)
    ensures var r, trouble := Read(c, files, live, roots, e), ConfigTrouble(c, files, live, roots);
            if NamesConfig(e) && trouble.Some? then r == Err(trouble.value) else r.Ok?
  {
    hide SafeRel, ContainedJoin, MergeSecret;
    SafeRelNormal(e.path);
    var rel := SafeRel(e.path).value;
    ContainedExactly(if rel == CONFIG then roots.config else roots.hub, rel);
  }

  lemma {:induction false} IntactGathers(c: Codec, files: Files, live: Files, roots: Roots, entries: seq<Entry>)
    requires roots.Sane() && Intact(c, files, entries)
    ensures var g, trouble := Gather(c, files, live, roots, entries), ConfigTrouble(c, files, live, roots);
            if trouble.Some? && exists e :: e in entries && NamesConfig(e) then g == Err(trouble.value) else g.Ok?
  {
    hide Read, NamesConfig, ConfigTrouble, EntryIntact;
    if entries != [] {
      var init, last := entries[..|entries| - 1], entries[|entries| - 1];
      assert forall e :: e in entries <==> e in init || e == last;
      IntactGathers(c, files, live, roots, init);
      IntactEntryReads(c, files, live, roots, last);
    }
  }

  /** A snapshot that verifies clean, with no warning, passes every path, hash, schema
      and hub check of a restore. What can still stop it, exactly: an application version
      newer than this one; a config.json that is neither a JSON object nor null; and one
      that is null while the live config.json holds a secret, at which the restore
      panics. */
  lemma CleanVerifyMeansRestorable(c: Codec, id: Ident, files: Files, live: Files, roots: Roots, expected: Expected)
    requires roots.Sane() && ManifestIn(c, files).Some?
    requires var m := ManifestIn(c, files).value;
             m.version >= 2 && !OtherHub(id, m) && CleanSnapshot(c, files, m.entries, expected)
    ensures var m := ManifestIn(c, files).value;
            var k := Checks(c, id, files, live, roots, expected);
            if V.NewerText(m.app, id.app) then k == Err(NewerApp)
            else if exists e :: e in m.entries && NamesConfig(e) then
              CONFIG in files && (match c.fields(files[CONFIG])
                                  case Unfit => k == Err(BadConfig)
                                  case Null => if LiveSecret(c, live, roots).Some? then k == Err(Panicked) else k.Ok?
                                  case Object(_) => k.Ok?)
            else k.Ok?
  {
    hide ManifestIn, V.NewerText, Gather, NewerSchema, OtherHub, CleanSnapshot, LiveSecret, SafeRel;
    var m := ManifestIn(c, files).value;
    CleanMeansIntact(c, files, m.entries, expected);
    IntactGathers(c, files, live, roots, m.entries);
    CleanSchemas(c, files, m.entries, expected);
  }

  lemma CleanMeansIntact(c: Codec, files: Files, entries: seq<Entry>, expected: Expected)
    requires CleanSnapshot(c, files, entries, expected)
    ensures Intact(c, files, entries)
  {
    hide SafeRel, NewerSchema;
    forall e | e in entries
      ensures EntryIntact(c, files, e)
    {
      assert EntryClean(c, files, e, expected);
    }
  }

  lemma CleanSchemas(c: Codec, files: Files, entries: seq<Entry>, expected: Expected)
    requires CleanSnapshot(c, files, entries, expected)
    ensures !exists e :: e in entries && NewerSchema(e, expected)
  {
    hide NewerSchema, SafeRel;
  }

  // ---- snapshot, then restore ----

  lemma {:induction false} GatherAll(c: Codec, files: Files, live: Files, roots: Roots, entries: seq<Entry>)
    requires forall e :: e in entries ==> Read(c, files, live, roots, e).Ok?
    ensures Gather(c, files, live, roots, entries).Ok?
    ensures forall p :: p in Gather(c, files, live, roots, entries).value <==>
              exists e :: e in entries && Read(c, files, live, roots, e) == Ok(Some(p))
  {
    hide Read;
    if entries != [] {
      var init, last := entries[..|entries| - 1], entries[|entries| - 1];
      assert forall e :: e in entries <==> e in init || e == last;
      GatherAll(c, files, live, roots, init);
    }
  }

  function Merged(c: Codec, data: string, live: Files, roots: Roots): Option<string> {
    match MergeSecret(c, data, live, roots)
    case Ok(text) => Some(text)
    case Err(_) => None
  }

  /** What a restore leaves at the place of one file of the snapshot. */
  function Restored(c: Codec, files: Files, live: Files, roots: Roots, rel: Path): (Path, Option<string>) {
    if rel == CONFIG then
      (roots.config + CONFIG, if rel in files then Merged(c, files[rel], live, roots) else None)
    else (roots.hub + rel, At(files, Some(rel)))
  }

  /** An entry for a file the snapshot holds as recorded reads back as that file. */
  lemma GoodEntryReads(c: Codec, files: Files, live: Files, roots: Roots, e: Entry, rel: Path)
    requires roots.Sane() && SafeRel(e.path) == Some(rel) && rel in files && e.sha == c.hash(files[rel])
    requires rel == CONFIG ==> Merged(c, files[rel], live, roots).Some?
    ensures var r := Read(c, files, live, roots, e);
            if rel == SERVER then r == Ok(None)
            else
              var (dest, data) := Restored(c, files, live, roots, rel);
              data.Some? && r == Ok(Some(Pending(dest, data.value)))
  {
    hide SafeRel, ContainedJoin;
    SafeRelNormal(e.path);
    ContainedExactly(if rel == CONFIG then roots.config else roots.hub, rel);
  }

  /** Different files of a snapshot are restored to different places. */
  lemma PlacesApart(c: Codec, files: Files, live: Files, roots: Roots, a: Path, b: Path)
    requires roots.Sane() && Restored(c, files, live, roots, a).0 == Restored(c, files, live, roots, b).0
    ensures a == b
  {
    hide MergeSecret;
    var x, y := Restored(c, files, live, roots, a).0, Restored(c, files, live, roots, b).0;
    assert a != CONFIG ==> roots.hub <= x && x[|roots.hub|..] == a;
    assert b != CONFIG ==> roots.hub <= y && y[|roots.hub|..] == b;
  }

  /** When every entry reads, the writes bring each to its place, except server.json,
      and touch nothing else. */
  lemma ReadsRestore(c: Codec, files: Files, live: Files, roots: Roots, entries: seq<Entry>)
    requires roots.Sane() && forall e :: e in entries ==> SafeRel(e.path).Some? && Reads(c, files, live, roots, e)
    ensures Gather(c, files, live, roots, entries).Ok?
    ensures Written(live, Gather(c, files, live, roots, entries).value).Some? ==>
              var after := Written(live, Gather(c, files, live, roots, entries).value).value;
              && (forall e :: e in entries && SafeRel(e.path) != Some(SERVER) ==>
                    var (dest, data) := Restored(c, files, live, roots, SafeRel(e.path).value);
                    At(after, Some(dest)) == data)
              && (forall q :: (forall e :: e in entries && SafeRel(e.path) != Some(SERVER) ==>
                                 Restored(c, files, live, roots, SafeRel(e.path).value).0 != q) ==>
                    At(after, Some(q)) == At(live, Some(q)))
  {
    hide SafeRel, Read, Restored, Gather, Written, At;
    GatherAll(c, files, live, roots, entries);
    var pend := Gather(c, files, live, roots, entries).value;
    PendingAgree(c, files, live, roots, entries, pend);
    if Written(live, pend).Some? {
      WritesHold(live, pend);
      forall e | e in entries && SafeRel(e.path) != Some(SERVER)
        ensures var (dest, data) := Restored(c, files, live, roots, SafeRel(e.path).value);
                At(Written(live, pend).value, Some(dest)) == data
      {
        assert Reads(c, files, live, roots, e);
        var (dest, data) := Restored(c, files, live, roots, SafeRel(e.path).value);
        assert Pending(dest, data.value) in pend;
      }
    }
  }

  /** From an intact snapshot every file comes back to its place, except server.json,
      and nothing else is touched. */
  lemma IntactRestores(c: Codec, files: Files, live: Files, roots: Roots, entries: seq<Entry>)
    requires roots.Sane() && Intact(c, files, entries)
    requires (exists e :: e in entries && NamesConfig(e)) ==> ConfigTrouble(c, files, live, roots).None?
    ensures Gather(c, files, live, roots, entries).Ok?
    ensures Written(live, Gather(c, files, live, roots, entries).value).Some? ==>
              var after := Written(live, Gather(c, files, live, roots, entries).value).value;
              && (forall e :: e in entries && SafeRel(e.path) != Some(SERVER) ==>
                    var (dest, data) := Restored(c, files, live, roots, SafeRel(e.path).value);
                    At(after, Some(dest)) == data)
              && (forall q :: (forall e :: e in entries && SafeRel(e.path) != Some(SERVER) ==>
                                 Restored(c, files, live, roots, SafeRel(e.path).value).0 != q) ==>
                    At(after, Some(q)) == At(live, Some(q)))
  {
    hide SafeRel, Read, Restored, Gather, Written, At, ConfigTrouble, EntryIntact;
    forall e | e in entries
      ensures Reads(c, files, live, roots, e) && SafeRel(e.path).Some?
    {
      IntactReads(c, files, live, roots, e);
    }
    ReadsRestore(c, files, live, roots, entries);
  }

  /** How an intact entry reads. */
  ghost predicate Reads(c: Codec, files: Files, live: Files, roots: Roots, e: Entry) {
    && SafeRel(e.path).Some?
    && var (dest, data) := Restored(c, files, live, roots, SafeRel(e.path).value);
       Read(c, files, live, roots, e)
       == (if SafeRel(e.path).value == SERVER then Ok(None)
           else if data.Some? then Ok(Some(Pending(dest, data.value))) else Err(Unreadable))
       && (SafeRel(e.path).value != SERVER ==> data.Some?)
  }

  lemma FineReads(c: Codec, files: Files, live: Files, roots: Roots, e: Entry)
    requires roots.Sane() && EntryFine(c, files, live, roots, e)
    ensures Reads(c, files, live, roots, e)
  {
    hide SafeRel, ContainedJoin;
    SafeRelNormal(e.path);
    SecretHeld(c, live, roots);
    var rel := SafeRel(e.path).value;
    ContainedExactly(if rel == CONFIG then roots.config else roots.hub, rel);
  }

  /** What a restore that was accepted leaves: of every file the manifest lists but
      server.json, the very text of the snapshot under the hub's directory, of
      config.json what merging gives beside it, and everything else as it was. */
  lemma AcceptedRestores(c: Codec, id: Ident, files: Files, live: Files, roots: Roots, expected: Expected)
    requires roots.Sane() && Checks(c, id, files, live, roots, expected).Ok?
    requires Written(live, Checks(c, id, files, live, roots, expected).value).Some?
    ensures ManifestIn(c, files).Some?
    ensures var entries := ManifestIn(c, files).value.entries;
            var after := Written(live, Checks(c, id, files, live, roots, expected).value).value;
            && (forall e :: e in entries && SafeRel(e.path) != Some(["server.json"]) ==>
                  && SafeRel(e.path).Some? && SafeRel(e.path).value in files
                  && var rel := SafeRel(e.path).value;
                     if rel == ["config.json"]
                     then At(after, Some(roots.config + rel)) == Merged(c, files[rel], live, roots)
                     else At(after, Some(roots.hub + rel)) == Some(files[rel]))
            && (forall q :: (forall e :: e in entries && SafeRel(e.path) != Some(["server.json"]) ==>
                               !Takes(roots, e, q)) ==> At(after, Some(q)) == At(live, Some(q)))
  {
    hide SafeRel, Gather, Written, Reads, EntryFine, V.NewerText, NewerSchema, CheckRestorable, Merged;
    var entries := ManifestIn(c, files).value.entries;
    GatherTells(c, files, live, roots, entries);
    forall e | e in entries
      ensures Reads(c, files, live, roots, e) && SafeRel(e.path).Some?
      ensures SafeRel(e.path) != Some(SERVER) ==> SafeRel(e.path).value in files
    {
      FineReads(c, files, live, roots, e);
      FineThere(c, files, live, roots, e);
    }
    ReadsRestore(c, files, live, roots, entries);
  }

  /** The entry's file comes to rest at q. */
  predicate Takes(roots: Roots, e: Entry, q: Path) {
    SafeRel(e.path).Some? && q == (if SafeRel(e.path).value == ["config.json"] then roots.config else roots.hub) +
                                  SafeRel(e.path).value
  }

  lemma FineThere(c: Codec, files: Files, live: Files, roots: Roots, e: Entry)
    requires EntryFine(c, files, live, roots, e)
    ensures SafeRel(e.path).Some? && (SafeRel(e.path).value != SERVER ==> SafeRel(e.path).value in files)
  {
    hide SafeRel;
  }

  lemma IntactReads(c: Codec, files: Files, live: Files, roots: Roots, e: Entry)
    requires roots.Sane() && EntryIntact(c, files, e)
    requires NamesConfig(e) ==> ConfigTrouble(c, files, live, roots).None?
    ensures Reads(c, files, live, roots, e) && Read(c, files, live, roots, e).Ok?
  {
    hide SafeRel, Read, Restored;
    GoodEntryReads(c, files, live, roots, e, SafeRel(e.path).value);
  }

  lemma PendingAgree(c: Codec, files: Files, live: Files, roots: Roots, entries: seq<Entry>, pend: seq<Pending>)
    requires roots.Sane() && forall e :: e in entries ==> Reads(c, files, live, roots, e)
    requires forall p :: p in pend <==> exists e :: e in entries && Read(c, files, live, roots, e) == Ok(Some(p))
    ensures forall a, b :: a in pend && b in pend && a.dest == b.dest ==> a.data == b.data
  {
    hide SafeRel, Read, Restored;
    forall a, b | a in pend && b in pend && a.dest == b.dest
      ensures a.data == b.data
    {
      var d :| d in entries && Read(c, files, live, roots, d) == Ok(Some(a));
      var e :| e in entries && Read(c, files, live, roots, e) == Ok(Some(b));
      assert Reads(c, files, live, roots, d) && Reads(c, files, live, roots, e);
      PlacesApart(c, files, live, roots, SafeRel(d.path).value, SafeRel(e.path).value);
    }
  }

  /** What the sources must do for their snapshot to be restorable: hand each file over
      once, none of it under the manifest's name, config.json as the text of a map (an
      object, or null), and no schema this build would not know. */
  ghost predicate Orderly(c: Codec, items: seq<Item>, expected: Expected) {
    && OncePerFile(items)
    && forall i :: 0 <= i < |items| && items[i].Visited? ==> ItemOrderly(c, items[i], expected)
  }

  predicate ItemOrderly(c: Codec, item: Item, expected: Expected)
    requires item.Visited?
  {
    && SafeRel(item.visit.raw) != Some(MANIFEST)
    && (SafeRel(item.visit.raw) == Some(CONFIG) ==> !c.fields(item.visit.data).Unfit?)
    && (SafeRel(item.visit.raw).Some? ==>
          !NewerSchema(EntryOf(c, item.store, item.visit, SafeRel(item.visit.raw).value), expected))
  }

  lemma EntryKept(c: Codec, item: Item, expected: Expected, files: Files)
    requires item.Visited? && ItemOrderly(c, item, expected)
    requires At(files, SafeRel(item.visit.raw)) == Some(item.visit.data)
    ensures var e := EntryOf(c, item.store, item.visit, SafeRel(item.visit.raw).value);
            EntryIntact(c, files, e) && SafeRel(e.path) == SafeRel(item.visit.raw) && !NewerSchema(e, expected)
            && e.path == Raw(false, SafeRel(item.visit.raw).value)
  {
    hide SafeRel, NewerSchema;
    SafeRelNormal(item.visit.raw);
  }

  /** What a finished run wrote, as Restore will read it. */
  lemma SnapshotRecords(c: Codec, id: Ident, kind: Kind, sources: seq<Source>, room: nat, expected: Expected)
    requires c.Sane() && Snapshot(c, id, kind, sources, room).Some? && Orderly(c, Stream(sources), expected)
    ensures var files, items := Snapshot(c, id, kind, sources, room).value, Stream(sources);
            && ManifestIn(c, files).Some?
            && var m := ManifestIn(c, files).value;
               && m == ManifestOf(id, kind, m.entries) && |m.entries| == |items|
               && (forall i :: 0 <= i < |items| ==>
                     && items[i].Visited? && At(files, SafeRel(items[i].visit.raw)) == Some(items[i].visit.data)
                     && m.entries[i] == EntryOf(c, items[i].store, items[i].visit, SafeRel(items[i].visit.raw).value))
               && (forall q :: q in files && q != MANIFEST ==>
                     exists i :: 0 <= i < |items| && SafeRel(items[i].visit.raw) == Some(q))
  {
    hide SafeRel, TakeAll, EntryOf, Clash, Stream;
    var items := Stream(sources);
    var p := TakeAll(c, items, room).value;
    RunRecords(c, items, room);
    RunHolds(c, items, room);
    var files := Snapshot(c, id, kind, sources, room).value;
    assert c.readManifest(files[MANIFEST]) == Some(ManifestOf(id, kind, p.entries));
    forall i | 0 <= i < |items|
      ensures At(files, SafeRel(items[i].visit.raw)) == Some(items[i].visit.data)
    {
      assert ItemOrderly(c, items[i], expected);
    }
  }

  lemma SnapshotIntact(c: Codec, id: Ident, kind: Kind, sources: seq<Source>, room: nat, expected: Expected)
    requires c.Sane() && Snapshot(c, id, kind, sources, room).Some? && Orderly(c, Stream(sources), expected)
    ensures var files := Snapshot(c, id, kind, sources, room).value;
            && ManifestIn(c, files).Some?
            && var m := ManifestIn(c, files).value;
               Intact(c, files, m.entries) && !exists e :: e in m.entries && NewerSchema(e, expected)
  {
    hide Snapshot, SafeRel, Stream, EntryOf, NewerSchema, EntryIntact, ManifestIn, ItemOrderly;
    SnapshotRecords(c, id, kind, sources, room, expected);
    var files, items := Snapshot(c, id, kind, sources, room).value, Stream(sources);
    var m := ManifestIn(c, files).value;
    forall e | e in m.entries
      ensures EntryIntact(c, files, e) && !NewerSchema(e, expected)
    {
      var i :| 0 <= i < |m.entries| && m.entries[i] == e;
      EntryKept(c, items[i], expected, files);
    }
  }

  /** The sources handed over a config.json that holds null. */
  ghost predicate NullConfig(c: Codec, items: seq<Item>) {
    exists i :: 0 <= i < |items| && items[i].Visited? && SafeRel(items[i].visit.raw) == Some(CONFIG)
                && c.fields(items[i].visit.data).Null?
  }

  /** A snapshot restored into the hub it came from. But for the disk, one thing alone
      can stop it, whatever the live data has become meanwhile: its config.json holds
      null and the live one a secret. Otherwise every file the sources handed over is
      back as it was, config.json with the live secret merged in, server.json left
      alone; and no other file changes. */
  lemma SnapshotRestores(c: Codec, id: Ident, kind: Kind, sources: seq<Source>, room: nat,
                         live: Files, roots: Roots, expected: Expected)
    requires c.Sane() && roots.Sane()
    requires Snapshot(c, id, kind, sources, room).Some? && Orderly(c, Stream(sources), expected)
    ensures var files, items := Snapshot(c, id, kind, sources, room).value, Stream(sources);
            var k := Checks(c, id, files, live, roots, expected);
            if NullConfig(c, items) && LiveSecret(c, live, roots).Some? then k == Err(Panicked)
            else
              && k.Ok?
              && (Written(live, k.value).Some? ==> Brings(c, items, live, Written(live, k.value).value, roots))
  {
    hide Snapshot, Stream, EntryOf, ManifestIn, Gather, Written, Checks, Orderly, Intact, NewerSchema, Brings,
      NullConfig, LiveSecret, ConfigTrouble, SafeRel;
    SnapshotRecords(c, id, kind, sources, room, expected);
    SnapshotIntact(c, id, kind, sources, room, expected);
    var files, items := Snapshot(c, id, kind, sources, room).value, Stream(sources);
    var entries := ManifestIn(c, files).value.entries;
    SnapshotPasses(c, id, kind, files, live, roots, expected);
    TroubleExactly(c, items, files, live, roots, entries, expected);
    IntactGathers(c, files, live, roots, entries);
    var k := Gather(c, files, live, roots, entries);
    if k.Ok? && Written(live, k.value).Some? {
      IntactBrings(c, items, files, live, roots, entries);
    }
  }

  /** Every file handed over is back, and nothing else changed. */
  ghost predicate Brings(c: Codec, items: seq<Item>, live: Files, after: Files, roots: Roots) {
    && (forall i :: 0 <= i < |items| ==> items[i].Visited? && BackAsItWas(c, items[i], live, after, roots))
    && (forall q :: (forall i :: 0 <= i < |items| ==> !Lands(items[i], roots, q)) ==>
          At(after, Some(q)) == At(live, Some(q)))
  }

  /** The items stand in the directory and, in order, in the manifest. */
  ghost predicate Kept(c: Codec, items: seq<Item>, files: Files, entries: seq<Entry>) {
    && |entries| == |items|
    && (forall i :: 0 <= i < |items| ==>
          && items[i].Visited? && At(files, SafeRel(items[i].visit.raw)) == Some(items[i].visit.data)
          && entries[i] == EntryOf(c, items[i].store, items[i].visit, SafeRel(items[i].visit.raw).value))
  }

  lemma IntactBrings(c: Codec, items: seq<Item>, files: Files, live: Files, roots: Roots, entries: seq<Entry>)
    requires roots.Sane() && Intact(c, files, entries) && Kept(c, items, files, entries)
    requires (exists e :: e in entries && NamesConfig(e)) ==> ConfigTrouble(c, files, live, roots).None?
    ensures var k := Gather(c, files, live, roots, entries);
            k.Ok? && (Written(live, k.value).Some? ==> Brings(c, items, live, Written(live, k.value).value, roots))
  {
    hide SafeRel, EntryOf, Gather, Written, Intact, ConfigTrouble, Restored, BackAsItWas, Lands, EntryIntact;
    IntactRestores(c, files, live, roots, entries);
    var k := Gather(c, files, live, roots, entries);
    if Written(live, k.value).Some? {
      var after := Written(live, k.value).value;
      forall i | 0 <= i < |items|
        ensures BackAsItWas(c, items[i], live, after, roots)
      {
        assert entries[i] in entries;
        IntactOne(c, files, entries, i);
        ItemBack(c, items[i], files, live, after, roots, entries[i]);
      }
      forall q | forall i :: 0 <= i < |items| ==> !Lands(items[i], roots, q)
        ensures At(after, Some(q)) == At(live, Some(q))
      {
        NoneLands(c, items, files, live, roots, entries, q);
      }
    }
  }

  /** Merging fails exactly for a null config.json with a live secret. */
  lemma TroubleExactly(c: Codec, items: seq<Item>, files: Files, live: Files, roots: Roots, entries: seq<Entry>,
                       expected: Expected)
    requires Kept(c, items, files, entries) && Orderly(c, items, expected)
    ensures var trouble := ConfigTrouble(c, files, live, roots);
            if NullConfig(c, items) && LiveSecret(c, live, roots).Some?
            then trouble == Some(Panicked) && exists e :: e in entries && NamesConfig(e)
            else (exists e :: e in entries && NamesConfig(e)) ==> trouble.None?
  {
    hide SafeRel, EntryOf, LiveSecret, NewerSchema;
    forall i | 0 <= i < |items|
      ensures NamesConfig(entries[i]) <==> SafeRel(items[i].visit.raw) == Some(CONFIG)
    {
      EntryPath(c, items[i], entries[i]);
    }
    if e :| e in entries && NamesConfig(e) {
      var i :| 0 <= i < |entries| && entries[i] == e;
      assert ItemOrderly(c, items[i], expected) && files[CONFIG] == items[i].visit.data;
    }
    if i :| 0 <= i < |items| && SafeRel(items[i].visit.raw) == Some(CONFIG) && c.fields(items[i].visit.data).Null? {
      assert entries[i] in entries;
    }
  }

  /** A snapshot of this very engine meets none of the refusals that come before its
      files are read. */
  lemma SnapshotPasses(c: Codec, id: Ident, kind: Kind, files: Files, live: Files, roots: Roots, expected: Expected)
    requires ManifestIn(c, files).Some?
    requires var m := ManifestIn(c, files).value;
             m == ManifestOf(id, kind, m.entries) && !exists e :: e in m.entries && NewerSchema(e, expected)
    ensures Checks(c, id, files, live, roots, expected) ==
            Gather(c, files, live, roots, ManifestIn(c, files).value.entries)
  {
    hide ManifestIn, Gather, NewerSchema, V.NewerText;
    V.OwnVersionPasses(id.app);
  }

  lemma IntactOne(c: Codec, files: Files, entries: seq<Entry>, i: nat)
    requires Intact(c, files, entries) && i < |entries|
    ensures EntryIntact(c, files, entries[i])
  {
    assert entries[i] in entries;
  }

  lemma NoneLands(c: Codec, items: seq<Item>, files: Files, live: Files, roots: Roots, entries: seq<Entry>, q: Path)
    requires |entries| == |items|
    requires forall i :: 0 <= i < |items| ==>
               && items[i].Visited? && SafeRel(items[i].visit.raw).Some?
               && entries[i] == EntryOf(c, items[i].store, items[i].visit, SafeRel(items[i].visit.raw).value)
    requires forall i :: 0 <= i < |items| ==> !Lands(items[i], roots, q)
    ensures forall e :: e in entries && SafeRel(e.path) != Some(SERVER) ==>
              SafeRel(e.path).Some? && Restored(c, files, live, roots, SafeRel(e.path).value).0 != q
  {
    hide SafeRel, EntryOf, Restored, Lands;
    forall e | e in entries && SafeRel(e.path) != Some(SERVER)
      ensures SafeRel(e.path).Some? && Restored(c, files, live, roots, SafeRel(e.path).value).0 != q
    {
      var i :| 0 <= i < |entries| && entries[i] == e;
      EntryPath(c, items[i], e);
      ItemLands(c, items[i], files, live, roots, e);
    }
  }

  /** The item's file comes to rest at q. */
  predicate Lands(item: Item, roots: Roots, q: Path) {
    && item.Visited? && SafeRel(item.visit.raw).Some? && SafeRel(item.visit.raw) != Some(SERVER)
    && q == if SafeRel(item.visit.raw) == Some(CONFIG) then roots.config + CONFIG
            else roots.hub + SafeRel(item.visit.raw).value
  }

  predicate BackAsItWas(c: Codec, item: Item, live: Files, after: Files, roots: Roots)
    requires item.Visited?
  {
    && SafeRel(item.visit.raw).Some?
    && var rel := SafeRel(item.visit.raw).value;
       if rel == SERVER then true
       else if rel == CONFIG then
         At(after, Some(roots.config + CONFIG)) == Merged(c, item.visit.data, live, roots)
         && At(after, Some(roots.config + CONFIG)).Some?
       else At(after, Some(roots.hub + rel)) == Some(item.visit.data)
  }

  lemma EntryPath(c: Codec, item: Item, e: Entry)
    requires item.Visited? && SafeRel(item.visit.raw).Some?
    requires e == EntryOf(c, item.store, item.visit, SafeRel(item.visit.raw).value)
    ensures SafeRel(e.path) == SafeRel(item.visit.raw)
  {
    hide SafeRel;
    SafeRelNormal(item.visit.raw);
  }

  lemma ItemBack(c: Codec, item: Item, files: Files, live: Files, after: Files, roots: Roots, e: Entry)
    requires item.Visited? && At(files, SafeRel(item.visit.raw)) == Some(item.visit.data)
    requires e == EntryOf(c, item.store, item.visit, SafeRel(item.visit.raw).value)
    requires EntryIntact(c, files, e) && (NamesConfig(e) ==> ConfigTrouble(c, files, live, roots).None?)
    requires SafeRel(e.path).Some? && SafeRel(e.path) != Some(SERVER) ==>
               var (dest, data) := Restored(c, files, live, roots, SafeRel(e.path).value); At(after, Some(dest)) == data
    ensures BackAsItWas(c, item, live, after, roots)
  {
    hide SafeRel;
    EntryPath(c, item, e);
  }

  lemma ItemLands(c: Codec, item: Item, files: Files, live: Files, roots: Roots, e: Entry)
    requires item.Visited? && SafeRel(item.visit.raw).Some? && SafeRel(item.visit.raw) != Some(SERVER)
    requires e == EntryOf(c, item.store, item.visit, SafeRel(item.visit.raw).value)
    ensures SafeRel(e.path) == SafeRel(item.visit.raw)
    ensures Lands(item, roots, Restored(c, files, live, roots, SafeRel(e.path).value).0)
  {
    hide SafeRel, MergeSecret;
    EntryPath(c, item, e);
  }

  /** What merging does to an object: every field is the backup's but the secret, which
      is the live file's when that holds one. */
  lemma MergeKeepsLiveSecret(c: Codec, data: string, live: Files, roots: Roots)
    requires c.Sane() && c.fields(data).Object?
    ensures var out, secret := MergeSecret(c, data, live, roots), LiveSecret(c, live, roots);
            && out.Ok? && c.fields(out.value).Object?
            && var now, was := c.fields(out.value).value, c.fields(data).value;
               SameButSecret(now, was)
               && (if secret.Some? then SECRET in now && now[SECRET] == secret.value else now == was)
               && (if HoldsSecret(c, live, roots)
                   then "client_secret" in now && now["client_secret"] ==
                                                  c.fields(live[roots.config + ["config.json"]]).value["client_secret"]
                   else now == was)
  {
  }

  /** A config.json that is no map: null is kept as it is, unless there is a secret to
      write into it, and anything else is refused. */
  lemma MergeNoMap(c: Codec, data: string, live: Files, roots: Roots)
    requires !c.fields(data).Object?
    ensures MergeSecret(c, data, live, roots) ==
            if c.fields(data).Unfit? then Err(BadConfig)
            else if HoldsSecret(c, live, roots) then Err(Panicked) else Ok("null")
  {
    SecretHeld(c, live, roots);
  }

  ghost predicate SameButSecret(a: map<string, string>, b: map<string, string>) {
    forall f :: f != "client_secret" ==> (f in a <==> f in b) && (f in a ==> a[f] == b[f])
  }

  /** What a source handed over is the file as it stood: config.json but for the secret,
      which is blanked, anything else to the byte. */
  ghost predicate AsItStood(c: Codec, item: Item, before: Files, roots: Roots, q: Path)
    requires item.Visited?
  {
    if q == roots.config + CONFIG then
      && At(before, Some(q)).Some? && c.fields(At(before, Some(q)).value).Object? && c.fields(item.visit.data).Object?
      && SameButSecret(c.fields(item.visit.data).value, c.fields(At(before, Some(q)).value).value)
    else At(before, Some(q)) == Some(item.visit.data)
  }

  /** The safety snapshot undoes the restore it was taken before: when the stores had
      handed over the live files as they stood, restoring it brings each of them back,
      whatever happened in between; of config.json every field but the secret, which
      stays as it is now. */
  lemma SafetyUndoes(c: Codec, id: Ident, sources: seq<Source>, room: nat, before: Files, live: Files, roots: Roots,
                     expected: Expected, i: nat, q: Path)
    requires c.Sane() && roots.Sane()
    requires Snapshot(c, id, PreRestore, sources, room).Some? && Orderly(c, Stream(sources), expected)
    requires i < |Stream(sources)| && Lands(Stream(sources)[i], roots, q) &&
             AsItStood(c, Stream(sources)[i], before, roots, q)
    ensures var k := Checks(c, id, Snapshot(c, id, PreRestore, sources, room).value, live, roots, expected);
            if NullConfig(c, Stream(sources)) && LiveSecret(c, live, roots).Some? then k == Err(Panicked)
            else
              && k.Ok?
              && (Written(live, k.value).Some? ==>
                    var after := Written(live, k.value).value;
                    if q == roots.config + CONFIG then
                      && At(after, Some(q)).Some? && c.fields(At(after, Some(q)).value).Object?
                      && var now := c.fields(At(after, Some(q)).value).value;
                         SameButSecret(now, c.fields(At(before, Some(q)).value).value)
                         && (LiveSecret(c, live, roots).Some? ==>
                               SECRET in now && now[SECRET] == LiveSecret(c, live, roots).value)
                    else At(after, Some(q)) == At(before, Some(q)))
  {
    hide Snapshot, Checks, Stream, Orderly, SafeRel, Written, MergeSecret, NullConfig, LiveSecret;
    SnapshotRestores(c, id, PreRestore, sources, room, live, roots, expected);
    var item := Stream(sources)[i];
    if SafeRel(item.visit.raw) == Some(CONFIG) {
      MergeKeepsLiveSecret(c, item.visit.data, live, roots);
    }
    assert SafeRel(item.visit.raw) != Some(CONFIG) ==> roots.hub <= q;
  }

  /** A hub whose config.json holds null is backed up without complaint, and the
      snapshot verifies clean; once the live file holds a secret, restoring it panics. */
  lemma NullConfigPanics(c: Codec, id: Ident, roots: Roots, expected: Expected)
    returns (sources: seq<Source>, files: Files, live: Files)
    requires c.Sane() && roots.Sane() && c.parses(Raw(false, CONFIG), NULL)
    requires expected("config", Raw(false, CONFIG)).None?
    ensures Snapshot(c, id, Manual, sources, 2) == Some(files) && ManifestIn(c, files).Some?
    ensures CleanSnapshot(c, files, ManifestIn(c, files).value.entries, expected) &&
            !OtherHub(id, ManifestIn(c, files).value)
    ensures Checks(c, id, files, live, roots, expected) == Err(Panicked)
  {
    hide Clash, ContainedJoin, CleanSnapshot, Checks, ManifestIn;
    var visit := Visit(Raw(false, CONFIG), NULL, 0);
    sources := [Source("config", [visit], false)];
    live := map[roots.config + CONFIG := c.render(map[SECRET := "s"])];
    OneItem(sources, visit);
    CleanNormal(false, CONFIG);
    OneFile(c, id, sources, visit);
    files := Snapshot(c, id, Manual, sources, 2).value;
    assert Stream(sources)[0].visit == visit;
    SnapshotVerifies(c, id, Manual, sources, 2, expected);
    SnapshotRestores(c, id, Manual, sources, 2, live, roots, expected);
  }

  lemma OneItem(sources: seq<Source>, visit: Visit)
    requires sources == [Source("config", [visit], false)]
    ensures Stream(sources) == [Visited("config", visit)]
  {
    assert sources[..0] == [];
    assert VisitedItems("config", [visit]) == [Visited("config", visit)];
  }

  lemma OneFile(c: Codec, id: Ident, sources: seq<Source>, visit: Visit)
    requires Stream(sources) == [Visited("config", visit)] && SafeRel(visit.raw) == Some(CONFIG)
    ensures Snapshot(c, id, Manual, sources, 2).Some?
  {
    hide SafeRel;
    assert Stream(sources)[..0] == [];
    assert TakeAll(c, [], 2) == Some(Progress(map[], []));
    assert !(CONFIG <= MANIFEST) && !(MANIFEST <= CONFIG) by { assert CONFIG[0] != MANIFEST[0]; }
  }

  /** A snapshot just written verifies clean, given that what was handed over parses. */
  lemma SnapshotVerifies(c: Codec, id: Ident, kind: Kind, sources: seq<Source>, room: nat, expected: Expected)
    requires c.Sane() && Snapshot(c, id, kind, sources, room).Some? && Orderly(c, Stream(sources), expected)
    requires forall i :: 0 <= i < |Stream(sources)| && Stream(sources)[i].Visited? ==> ItemParses(c, Stream(sources)[i])
    ensures var files := Snapshot(c, id, kind, sources, room).value;
            && ManifestIn(c, files).Some?
            && var m := ManifestIn(c, files).value;
               m.version >= 2 && !OtherHub(id, m) && CleanSnapshot(c, files, m.entries, expected)
  {
    hide Snapshot, SafeRel, Stream, EntryOf, ManifestIn, NewerSchema, ItemOrderly, EntryIntact, EntryClean, Listed,
        ItemParses;
    SnapshotRecords(c, id, kind, sources, room, expected);
    var files, items := Snapshot(c, id, kind, sources, room).value, Stream(sources);
    var m := ManifestIn(c, files).value;
    forall e | e in m.entries
      ensures EntryClean(c, files, e, expected)
    {
      var i :| 0 <= i < |m.entries| && m.entries[i] == e;
      EntryKept(c, items[i], expected, files);
      KeptClean(c, items[i], files, e, expected);
    }
    forall p | p in files && p != MANIFEST
      ensures Raw(false, p) in Listed(m.entries)
    {
      var i :| 0 <= i < |items| && SafeRel(items[i].visit.raw) == Some(p);
      EntryKept(c, items[i], expected, files);
      ListedHas(m.entries, i);
    }
  }

  predicate ItemParses(c: Codec, item: Item)
    requires item.Visited?
  {
    SafeRel(item.visit.raw).Some? ==> c.parses(Raw(false, SafeRel(item.visit.raw).value), item.visit.data)
  }

  lemma KeptClean(c: Codec, item: Item, files: Files, e: Entry, expected: Expected)
    requires item.Visited? && ItemParses(c, item) && At(files, SafeRel(item.visit.raw)) == Some(item.visit.data)
    requires EntryIntact(c, files, e) && SafeRel(e.path) == SafeRel(item.visit.raw) && !NewerSchema(e, expected)
    requires e.path == Raw(false, SafeRel(item.visit.raw).value)
    ensures EntryClean(c, files, e, expected)
  {
    hide SafeRel, NewerSchema;
  }

  lemma ListedHas(entries: seq<Entry>, i: nat)
    requires i < |entries|
    ensures entries[i].path in Listed(entries)
  {
    assert entries[i] in entries;
  }
}
