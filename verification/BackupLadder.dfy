/** backup/gfs.go and the daily part of backup/engine.go: snapshots promoted from
    daily to weekly and monthly tiers, each tier pruned to its newest few. A
    snapshot directory is named by its creation second. */
module BackupLadder {
  import opened Common
  import opened BackupSnapshots

  const KEEP_DAILY := 7
  const KEEP_WEEKLY := 4
  const KEEP_MONTHLY := 12

  /** A snapshot directory's name: its creation second, written so that the order of
      the names is the order of the times. */
  datatype Stamp = Stamp(sec: int)

  type Tier = map<Stamp, Files>

  datatype TreeV = TreeV(daily: Tier, weekly: Tier, monthly: Tier, manual: Tier, preRestore: Tier)

  /** One call of Run. No content: a source failed, and the partial directory went. */
  datatype RunV = RunV(kind: Kind, at: Stamp, content: Option<Files>)

  /** ISO weeks and calendar months, as numbers that grow with time. */
  datatype Calendar = Calendar(week: int -> int, month: int -> int) {
    ghost predicate Sane() { Monotone(week) && Monotone(month) }
  }

  ghost predicate Monotone(period: int -> int) {
    forall a, b :: a <= b ==> period(a) <= period(b)
  }

  // ---- one run, on values ----

  /** How many snapshots of the tier are newer than k. */
  function Rank(t: Tier, k: Stamp): nat {
    |set j | j in t && j.sec > k.sec|
  }

  function Newest(t: Tier, keep: nat): Tier {
    map k | k in t && Rank(t, k) < keep :: t[k]
  }

  ghost predicate Has(t: Tier, period: int -> int, p: int) {
    exists k :: k in t && period(k.sec) == p
  }

  /** The tier once the newest daily has been copied in, unless now's period
      already has an entry. */
  ghost function Promoted(t: Tier, daily: Tier, period: int -> int, now: Stamp): Tier {
    if Has(t, period, period(now.sec)) then t else t + Newest(daily, 1)
  }

  ghost function Step(cal: Calendar, v: TreeV, run: RunV): TreeV {
    match run.content
    case None => v
    case Some(content) =>
      match run.kind
      case Manual => v.(manual := v.manual[run.at := content])
      case PreRestore => v.(preRestore := v.preRestore[run.at := content])
      case Daily =>
        var daily := v.daily[run.at := content];
        v.(daily := Newest(daily, KEEP_DAILY),
           weekly := Newest(Promoted(v.weekly, daily, cal.week, run.at), KEEP_WEEKLY),
           monthly := Newest(Promoted(v.monthly, daily, cal.month, run.at), KEEP_MONTHLY))
  }

  // ---- the live tree ----

  /** A tier's names, newest first. */
  ghost predicate Listing(t: Tier, names: seq<Stamp>) {
    && (forall i, j :: 0 <= i < j < |names| ==> names[i].sec > names[j].sec)
    && (forall k :: k in names <==> k in t)
  }

  lemma {:induction false} DistinctCount(s: seq<Stamp>)
    requires forall i, j :: 0 <= i < j < |s| ==> s[i] != s[j]
    ensures |set k | k in s| == |s|
  {
    if s != [] {
      var init, last := s[..|s| - 1], s[|s| - 1];
      DistinctCount(init);
      assert (set k | k in s) == (set k | k in init) + {last};
    }
  }

  lemma ListingRank(t: Tier, names: seq<Stamp>, i: nat)
    requires Listing(t, names) && i < |names|
    ensures Rank(t, names[i]) == i
  {
    DistinctCount(names[..i]);
    assert (set j | j in t && j.sec > names[i].sec) == (set k | k in names[..i]);
  }

  function Names(s: seq<Stamp>): set<Stamp> { set k | k in s }

  lemma NamesLast(s: seq<Stamp>, x: Stamp)
    ensures Names(s + [x]) == Names(s) + {x} && Names([]) == {}
  {
  }

  lemma MinusOne(t: Tier, gone: set<Stamp>, x: Stamp)
    ensures t - gone - {x} == t - (gone + {x})
  {
  }

  /** The names past keep are those that Newest drops. */
  lemma NewestPrefix(t: Tier, names: seq<Stamp>, keep: nat)
    requires Listing(t, names)
    ensures |names| <= keep ==> Newest(t, keep) == t
    ensures |names| > keep ==> forall k :: k in Newest(t, keep) <==> k in t && k !in names[keep..]
    ensures |names| > keep ==> Newest(t, keep) == t - Names(names[keep..])
  {
    hide Rank;
    forall k | k in t
      ensures Rank(t, k) < keep <==> !(|names| > keep && k in names[keep..])
    {
      var i :| 0 <= i < |names| && names[i] == k;
      ListingRank(t, names, i);
      if i >= keep { assert names[keep..][i - keep] == k; }
    }
  }

  class Tree {
    const cal: Calendar
    var daily: Tier
    var weekly: Tier
    var monthly: Tier
    var manual: Tier
    var preRestore: Tier

    constructor (cal: Calendar)
      ensures this.cal == cal && View() == TreeV(map[], map[], map[], map[], map[])
    {
      this.cal := cal;
      daily, weekly, monthly, manual, preRestore := map[], map[], map[], map[], map[];
    }

    function View(): TreeV
      reads this
    {
      TreeV(daily, weekly, monthly, manual, preRestore)
    }

    /** tierSnapshots. */
    static method TierSnapshots(t: Tier) returns (names: seq<Stamp>)
      ensures Listing(t, names)
    {
      names := [];
      var todo := t.Keys;
      while todo != {}
        invariant todo <= t.Keys
        invariant forall i, j :: 0 <= i < j < |names| ==> names[i].sec > names[j].sec
        invariant forall k :: k in names <==> k in t && k !in todo
        decreases |todo|
      {
        var k :| k in todo;
        todo := todo - {k};
        var i := 0;
        while i < |names| && names[i].sec > k.sec
          invariant 0 <= i <= |names|
          invariant forall j :: 0 <= j < i ==> names[j].sec > k.sec
        {
          i := i + 1;
        }
        assert i < |names| ==> names[i] in names;
        names := names[..i] + [k] + names[i..];
      }
    }

    static method TierHas(t: Tier, period: int -> int, now: Stamp) returns (has: bool)
      ensures has <==> Has(t, period, period(now.sec))
    {
      var names := TierSnapshots(t);
      var i := 0;
      while i < |names|
        invariant 0 <= i <= |names|
        invariant forall j :: 0 <= j < i ==> period(names[j].sec) != period(now.sec)
      {
        if period(names[i].sec) == period(now.sec) {
          assert names[i] in t;
          return true;
        }
        i := i + 1;
      }
      has := false;
    }

    /** Copies the newest daily into one tier, unless now's period has an entry. */
    static method PromoteInto(t: Tier, daily: Tier, newest: Stamp, period: int -> int, now: Stamp) returns (r: Tier)
      requires newest in daily && Newest(daily, 1) == map[newest := daily[newest]]
      ensures r == Promoted(t, daily, period, now)
    {
      hide Newest, Has;
      var has := TierHas(t, period, now);
      r := if has then t else t[newest := daily[newest]];
    }

    method Promote(now: Stamp)
      modifies this
      ensures View() == old(View()).(weekly := Promoted(old(weekly), daily, cal.week, now),
                                     monthly := Promoted(old(monthly), daily, cal.month, now))
    {
      hide Newest, Listing, Has;
      var names := TierSnapshots(daily);
      NewestOne(daily, names);
      if |names| == 0 {
        assert weekly + map[] == weekly && monthly + map[] == monthly;
        return;
      }
      weekly := PromoteInto(weekly, daily, names[0], cal.week, now);
      monthly := PromoteInto(monthly, daily, names[0], cal.month, now);
    }

    method Prune()
      modifies this
      ensures View() == old(View()).(daily := Newest(old(daily), KEEP_DAILY),
                                     weekly := Newest(old(weekly), KEEP_WEEKLY),
                                     monthly := Newest(old(monthly), KEEP_MONTHLY))
    {
      daily := PruneTier(daily, KEEP_DAILY);
      weekly := PruneTier(weekly, KEEP_WEEKLY);
      monthly := PruneTier(monthly, KEEP_MONTHLY);
    }

    /** Prune's loop body for one tier: everything past keep goes, one by one. */
    static method PruneTier(t: Tier, keep: nat) returns (r: Tier)
      ensures r == Newest(t, keep)
    {
      hide Rank, Listing, Newest, Names;
      r := t;
      var names := TierSnapshots(t);
      NewestPrefix(t, names, keep);
      if |names| <= keep { return; }
      assert names[keep..keep] == [];
      NamesLast([], names[keep]);
      var i := keep;
      while i < |names|
        invariant keep <= i <= |names|
        invariant r == t - Names(names[keep..i])
      {
        assert names[keep..i + 1] == names[keep..i] + [names[i]];
        NamesLast(names[keep..i], names[i]);
        MinusOne(t, Names(names[keep..i]), names[i]);
        r := r - {names[i]};
        i := i + 1;
      }
      assert names[keep..i] == names[keep..];
    }

    /** runAt, once the sources have been read. */
    method Run(run: RunV)
      modifies this
      ensures View() == Step(cal, old(View()), run)
    {
      if run.content.None? { return; }
      match run.kind {
        case Manual => manual := manual[run.at := run.content.value];
        case PreRestore => preRestore := preRestore[run.at := run.content.value];
        case Daily =>
          daily := daily[run.at := run.content.value];
          Promote(run.at);
          Prune();
      }
    }
  }

  /** What one call of Run comes to, from the engine and what its sources hand over. */
  ghost function RunOf(eng: Engine, kind: Kind, at: Stamp, sources: seq<Source>, room: nat): RunV {
    RunV(kind, at, if eng.root == "" then None else Snapshot(eng.c, eng.id, kind, sources, room))
  }

  /** runAt, whole: the snapshot is written, and a daily one promoted and pruned. */
  method RunAt(eng: Engine, tree: Tree, kind: Kind, at: Stamp, sources: seq<Source>, room: nat)
    modifies eng, tree
    ensures tree.View() == Step(tree.cal, old(tree.View()), RunOf(eng, kind, at, sources, room))
  {
    hide Snapshot, Step;
    var d := eng.Run(kind, at.sec, sources, room);
    tree.Run(RunV(kind, at, if d.None? then None else Some(eng.snaps[d.value])));
  }

  lemma NewestOne(t: Tier, names: seq<Stamp>)
    requires Listing(t, names)
    ensures names == [] ==> Newest(t, 1) == map[]
    ensures names != [] ==> names[0] in t && Newest(t, 1) == map[names[0] := t[names[0]]]
  {
    hide Rank;
    if names == [] { return; }
    assert names[0] in names;
    NewestPrefix(t, names, 1);
    forall k | k in t
      ensures k in names[1..] <==> k != names[0]
    {
      var i :| 0 <= i < |names| && names[i] == k;
      if i > 0 { assert names[1..][i - 1] == k; }
    }
  }

  // ---- whole histories ----

  ghost function After(cal: Calendar, history: seq<RunV>): TreeV {
    if history == [] then TreeV(map[], map[], map[], map[], map[])
    else Step(cal, After(cal, history[..|history| - 1]), history[|history| - 1])
  }

  datatype Snap = Snap(at: Stamp, content: Files)

  /** The snapshots of one kind that a history made, in order. */
  function Made(history: seq<RunV>, kind: Kind): seq<Snap> {
    if history == [] then []
    else
      var run := history[|history| - 1];
      Made(history[..|history| - 1], kind)
      + if run.kind == kind && run.content.Some? then [Snap(run.at, run.content.value)] else []
  }

  ghost predicate Ascending(s: seq<Snap>) {
    forall i, j :: 0 <= i < j < |s| ==> s[i].at.sec < s[j].at.sec
  }

  ghost predicate Covers(s: seq<Snap>, period: int -> int, p: int) {
    exists i :: 0 <= i < |s| && period(s[i].at.sec) == p
  }

  /** The first snapshot of each period that had one. */
  ghost function Firsts(s: seq<Snap>, period: int -> int): seq<Snap> {
    if s == [] then []
    else
      var init, x := s[..|s| - 1], s[|s| - 1];
      Firsts(init, period) + if Covers(init, period, period(x.at.sec)) then [] else [x]
  }

  function AsTier(s: seq<Snap>): Tier {
    if s == [] then map[] else AsTier(s[..|s| - 1])[s[|s| - 1].at := s[|s| - 1].content]
  }

  lemma AsTierLast(s: seq<Snap>, x: Snap)
    ensures AsTier(s + [x]) == AsTier(s)[x.at := x.content]
  {
    assert (s + [x])[..|s|] == s;
  }

  /** A newer snapshot pushes every other one place down. */
  lemma RankAdd(t: Tier, x: Snap, k: Stamp)
    requires forall j :: j in t ==> j.sec < x.at.sec
    ensures Rank(t[x.at := x.content], x.at) == 0
    ensures k in t ==> Rank(t[x.at := x.content], k) == Rank(t, k) + 1
  {
    var u := t[x.at := x.content];
    assert (set j | j in u && j.sec > x.at.sec) == {};
    if k in t {
      assert (set j | j in u && j.sec > k.sec) == (set j | j in t && j.sec > k.sec) + {x.at};
    }
  }

  lemma NewestAdd(t: Tier, x: Snap, keep: nat)
    requires forall k :: k in t ==> k.sec < x.at.sec
    ensures Newest(t[x.at := x.content], keep + 1) == Newest(t, keep)[x.at := x.content]
  {
    hide Rank;
    RankAdd(t, x, x.at);
    forall k | k in t
      ensures Rank(t[x.at := x.content], k) == Rank(t, k) + 1
    {
      RankAdd(t, x, k);
    }
  }

  lemma {:induction false} AsTierBelow(s: seq<Snap>, x: Snap)
    requires Ascending(s + [x])
    ensures forall k :: k in AsTier(s) ==> k.sec < x.at.sec
  {
    if s != [] {
      var init, y := s[..|s| - 1], s[|s| - 1];
      assert forall i :: 0 <= i < |s| ==> s[i] == (s + [x])[i];
      assert (s + [x])[|s|] == x;
      assert init + [x] == (s + [x])[..|init|] + [x];
      assert Ascending(init + [x]);
      AsTierBelow(init, x);
    }
  }

  lemma LastOfLonger(s: seq<Snap>, x: Snap, keep: nat)
    ensures Last(s + [x], keep + 1) == Last(s, keep) + [x]
    ensures Last(Last(s, keep + 1) + [x], keep + 1) == Last(s + [x], keep + 1)
  {
    if |s| > keep { assert (s + [x])[|s| - keep..] == s[|s| - keep..] + [x]; }
  }

  /** Pruning a tier to keep leaves its last keep snapshots. */
  lemma {:induction false} PruneKeepsLast(s: seq<Snap>, keep: nat)
    requires Ascending(s)
    ensures Newest(AsTier(s), keep) == AsTier(Last(s, keep))
  {
    hide Newest, Last, AsTier, Ascending;
    if s == [] || keep == 0 {
      PruneNothing(s, keep);
    } else {
      var init, x := s[..|s| - 1], s[|s| - 1];
      assert s == init + [x];
      AscendingInit(init, x);
      AsTierBelow(init, x);
      PruneKeepsLast(init, keep - 1);
      NewestAdd(AsTier(init), x, keep - 1);
      LastOfLonger(init, x, keep - 1);
      AsTierLast(init, x);
      AsTierLast(Last(init, keep - 1), x);
    }
  }

  lemma PruneNothing(s: seq<Snap>, keep: nat)
    requires s == [] || keep == 0
    ensures Newest(AsTier(s), keep) == AsTier(Last(s, keep))
  {
    assert Last(s, keep) == [];
  }

  lemma AscendingInit(s: seq<Snap>, x: Snap)
    requires Ascending(s + [x])
    ensures Ascending(s) && (s != [] ==> s[|s| - 1].at.sec < x.at.sec)
  {
    var all := s + [x];
    assert forall i :: 0 <= i < |s| ==> s[i] == all[i];
    assert all[|s|] == x;
  }

  lemma AscendingLast(s: seq<Snap>, keep: nat)
    requires Ascending(s)
    ensures Ascending(Last(s, keep))
  {
    var l := Last(s, keep);
    var d := |s| - |l|;
    forall i, j | 0 <= i < j < |l|
      ensures l[i].at.sec < l[j].at.sec
    {
      assert l[i] == s[d + i] && l[j] == s[d + j];
    }
  }

  lemma AscendingAdd(s: seq<Snap>, x: Snap)
    requires Ascending(s) && (s != [] ==> s[|s| - 1].at.sec < x.at.sec)
    ensures Ascending(s + [x])
  {
  }

  /** One more snapshot, then the prune. */
  lemma AddThenPrune(s: seq<Snap>, x: Snap, keep: nat)
    requires Ascending(s + [x]) && keep > 0
    ensures Newest(AsTier(Last(s, keep))[x.at := x.content], keep) == AsTier(Last(s + [x], keep))
  {
    hide Newest, AsTier, Ascending;
    AscendingInit(s, x);
    AscendingLast(s, keep);
    AscendingAdd(Last(s, keep), x);
    AsTierLast(Last(s, keep), x);
    PruneKeepsLast(Last(s, keep) + [x], keep);
    LastOfLonger(s, x, keep - 1);
  }

  // ---- the first of each period ----

  lemma CoversLast(s: seq<Snap>, x: Snap, period: int -> int, p: int)
    ensures Covers(s + [x], period, p) <==> Covers(s, period, p) || period(x.at.sec) == p
  {
    var all := s + [x];
    assert all[|s|] == x;
    if i :| 0 <= i < |s| && period(s[i].at.sec) == p { assert all[i] == s[i]; }
  }

  lemma FirstsLast(s: seq<Snap>, x: Snap, period: int -> int)
    ensures Firsts(s + [x], period)
            == Firsts(s, period) + if Covers(s, period, period(x.at.sec)) then [] else [x]
  {
    hide Covers;
    assert (s + [x])[..|s|] == s;
  }

  lemma {:induction false} FirstsAscend(s: seq<Snap>, period: int -> int)
    requires Ascending(s)
    ensures Ascending(Firsts(s, period))
    ensures var f := Firsts(s, period); f != [] ==> s != [] && f[|f| - 1].at.sec <= s[|s| - 1].at.sec
  {
    hide Covers, Ascending;
    if s == [] {
      assert Firsts(s, period) == s;
    } else {
      var init, x := s[..|s| - 1], s[|s| - 1];
      assert s == init + [x];
      AscendingInit(init, x);
      FirstsAscend(init, period);
      FirstsLast(init, x, period);
      AscendingAdd(Firsts(init, period), x);
      assert Firsts(init, period) + [] == Firsts(init, period);
    }
  }

  lemma {:induction false} FirstsCover(s: seq<Snap>, period: int -> int, p: int)
    ensures Covers(Firsts(s, period), period, p) <==> Covers(s, period, p)
  {
    hide Covers;
    if s != [] {
      var init, x := s[..|s| - 1], s[|s| - 1];
      assert s == init + [x];
      FirstsCover(init, period, p);
      FirstsLast(init, x, period);
      CoversLast(init, x, period, p);
      CoversLast(Firsts(init, period), x, period, p);
      assert Firsts(init, period) + [] == Firsts(init, period);
    }
  }

  lemma {:induction false} TierCovers(s: seq<Snap>, period: int -> int, p: int)
    ensures Has(AsTier(s), period, p) ==> Covers(s, period, p)
    ensures s != [] && period(s[|s| - 1].at.sec) == p ==> Has(AsTier(s), period, p)
  {
    hide Covers;
    if s != [] {
      var init, x := s[..|s| - 1], s[|s| - 1];
      assert s == init + [x];
      TierCovers(init, period, p);
      CoversLast(init, x, period, p);
      assert x.at in AsTier(s);
    }
  }

  /** When periods only grow, a period not before the newest snapshot is covered
      exactly when the newest snapshot covers it. */
  lemma NewestCovers(s: seq<Snap>, period: int -> int, now: int)
    requires Ascending(s) && Monotone(period) && (s != [] ==> s[|s| - 1].at.sec <= now)
    ensures Covers(s, period, period(now)) <==> s != [] && period(s[|s| - 1].at.sec) == period(now)
  {
    if i :| 0 <= i < |s| && period(s[i].at.sec) == period(now) {
      assert s[i].at.sec <= s[|s| - 1].at.sec;
    }
  }

  /** Although pruning forgets old periods, looking into the pruned tier decides as
      looking back over every snapshot would. */
  lemma TierDecides(s: seq<Snap>, period: int -> int, now: int, keep: nat)
    requires Ascending(s) && Monotone(period) && keep > 0 && (s != [] ==> s[|s| - 1].at.sec <= now)
    ensures Has(AsTier(Last(Firsts(s, period), keep)), period, period(now)) <==> Covers(s, period, period(now))
  {
    hide AsTier, Firsts, Covers, Has, Monotone, Ascending;
    var f := Firsts(s, period);
    var l := Last(f, keep);
    FirstsAscend(s, period);
    FirstsCover(s, period, period(now));
    NewestCovers(f, period, now);
    AscendingLast(f, keep);
    assert f != [] ==> l[|l| - 1] == f[|f| - 1];
    NewestCovers(l, period, now);
    TierCovers(l, period, period(now));
  }

  /** Promotion and pruning of one tier, after one more daily snapshot. */
  lemma PromoteStep(s: seq<Snap>, x: Snap, period: int -> int, keep: nat, daily: Tier)
    requires Ascending(s + [x]) && Monotone(period) && keep > 0
    requires Newest(daily, 1) == map[x.at := x.content]
    ensures Newest(Promoted(AsTier(Last(Firsts(s, period), keep)), daily, period, x.at), keep)
            == AsTier(Last(Firsts(s + [x], period), keep))
  {
    hide Newest, AsTier, Covers, Has, Monotone, Ascending, Firsts;
    AscendingInit(s, x);
    FirstsLast(s, x, period);
    TierDecides(s, period, x.at.sec, keep);
    FirstsAscend(s, period);
    var f := Firsts(s, period);
    var t := AsTier(Last(f, keep));
    if Covers(s, period, period(x.at.sec)) {
      AscendingLast(f, keep);
      PruneKeepsLast(Last(f, keep), keep);
      assert Last(Last(f, keep), keep) == Last(f, keep);
      assert f + [] == f;
    } else {
      assert t + map[x.at := x.content] == t[x.at := x.content];
      AscendingAdd(f, x);
      AddThenPrune(f, x, keep);
    }
  }

  lemma DailyNewest(s: seq<Snap>, x: Snap)
    requires Ascending(s + [x])
    ensures Newest(AsTier(Last(s, KEEP_DAILY))[x.at := x.content], 1) == map[x.at := x.content]
  {
    hide Newest, Ascending, AsTier;
    AscendingInit(s, x);
    AscendingLast(s, KEEP_DAILY);
    AscendingAdd(Last(s, KEEP_DAILY), x);
    AsTierBelow(Last(s, KEEP_DAILY), x);
    NewestAdd(AsTier(Last(s, KEEP_DAILY)), x, 0);
    NewestNone(AsTier(Last(s, KEEP_DAILY)));
  }

  lemma NewestNone(t: Tier)
    ensures Newest(t, 0) == map[]
  {
  }

  /** What every tier holds after a history, told without promoting or pruning. */
  ghost function Ladder(cal: Calendar, history: seq<RunV>): TreeV {
    var dailies := Made(history, Daily);
    TreeV(AsTier(Last(dailies, KEEP_DAILY)),
          AsTier(Last(Firsts(dailies, cal.week), KEEP_WEEKLY)),
          AsTier(Last(Firsts(dailies, cal.month), KEEP_MONTHLY)),
          AsTier(Made(history, Manual)),
          AsTier(Made(history, PreRestore)))
  }

  ghost predicate Timely(history: seq<RunV>) {
    forall kind: Kind :: Ascending(Made(history, kind))
  }

  lemma TimelyInit(history: seq<RunV>)
    requires history != [] && Timely(history)
    ensures Timely(history[..|history| - 1])
  {
    var init := history[..|history| - 1];
    forall kind: Kind
      ensures Ascending(Made(init, kind))
    {
      assert Made(init, kind) == Made(history, kind)[..|Made(init, kind)|];
    }
  }

  /** After any history, with manual and failed runs among the daily ones, daily/
      holds the last seven daily snapshots, weekly/ the first of each of the last
      four weeks that had one, monthly/ the first of each of the last twelve months
      that had one, and the other tiers every snapshot they ever got. */
  lemma {:induction false} LadderExact(cal: Calendar, history: seq<RunV>)
    requires cal.Sane() && Timely(history)
    ensures After(cal, history) == Ladder(cal, history)
    ensures var v, dailies := After(cal, history), Made(history, Daily);
            && v.daily == AsTier(Last(dailies, 7))
            && v.weekly == AsTier(Last(Firsts(dailies, cal.week), 4))
            && v.monthly == AsTier(Last(Firsts(dailies, cal.month), 12))
            && v.manual == AsTier(Made(history, Manual)) && v.preRestore == AsTier(Made(history, PreRestore))
  {
    hide Newest, Promoted, AsTier, Firsts, Last, Rank;
    if history == [] {
      LadderEmpty(cal);
    } else {
      TimelyInit(history);
      LadderExact(cal, history[..|history| - 1]);
      LadderStep(cal, history);
    }
  }

  lemma LadderEmpty(cal: Calendar)
    ensures Ladder(cal, []) == TreeV(map[], map[], map[], map[], map[])
  {
  }

  lemma MadeLast(history: seq<RunV>, run: RunV, kind: Kind)
    ensures Made(history + [run], kind)
            == Made(history, kind)
               + if run.kind == kind && run.content.Some? then [Snap(run.at, run.content.value)] else []
    ensures run.kind != kind || run.content.None? ==> Made(history + [run], kind) == Made(history, kind)
  {
    assert (history + [run])[..|history|] == history;
  }

  lemma LadderStep(cal: Calendar, history: seq<RunV>)
    requires history != [] && cal.Sane() && Timely(history)
    ensures Step(cal, Ladder(cal, history[..|history| - 1]), history[|history| - 1]) == Ladder(cal, history)
  {
    hide Newest, Promoted, AsTier, Firsts, Last, Rank, Made;
    var init, run := history[..|history| - 1], history[|history| - 1];
    assert history == init + [run];
    MadeLast(init, run, Daily);
    MadeLast(init, run, Manual);
    MadeLast(init, run, PreRestore);
    if run.content.Some? {
      var x := Snap(run.at, run.content.value);
      var s := Made(init, run.kind);
      assert Made(history, run.kind) == s + [x];
      assert Ascending(s + [x]);
      AsTierLast(s, x);
      if run.kind == Daily {
        var daily := AsTier(Last(s, KEEP_DAILY))[x.at := x.content];
        DailyNewest(s, x);
        AddThenPrune(s, x, KEEP_DAILY);
        PromoteStep(s, x, cal.week, KEEP_WEEKLY, daily);
        PromoteStep(s, x, cal.month, KEEP_MONTHLY, daily);
      }
    }
  }
}
