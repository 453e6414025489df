/** backup/schedule.go and the scheduler of server/handlers_backup.go. Time is local
    nanoseconds counted from some midnight, with every day of one length. */
module BackupSchedule {
  import opened Common

  const MINUTE := 60_000_000_000
  const DAY := 1440 * MINUTE
  const DEFAULT_TIME := "03:30"

  // ---- schedule.go ----

  predicate Digit(c: char, lo: char, hi: char) { lo <= c <= hi }

  /** ValidTime: two digits up to 23, a colon, two digits up to 59, nothing else. */
  predicate ValidTime(s: string) {
    && |s| == 5
    && ((Digit(s[0], '0', '1') && Digit(s[1], '0', '9')) || (s[0] == '2' && Digit(s[1], '0', '3')))
    && s[2] == ':'
    && Digit(s[3], '0', '5') && Digit(s[4], '0', '9')
  }

  function Value(c: char): int { c as int - '0' as int }

  /** The time of day a configured string stands for; a bad one stands for the
      default. */
  function SlotOf(s: string): int {
    var t := if ValidTime(s) then s else DEFAULT_TIME;
    ((Value(t[0]) * 10 + Value(t[1])) * 60 + Value(t[3]) * 10 + Value(t[4])) * MINUTE
  }

  function Midnight(now: int): int { now / DAY * DAY }

  function NextRun(now: int, s: string): int {
    var cand := Midnight(now) + SlotOf(s);
    if cand > now then cand else cand + DAY
  }

  function TwoDigits(n: nat): string
    requires n < 100
  {
    [('0' as int + n / 10) as char, ('0' as int + n % 10) as char]
  }

  lemma TimeRead(s: string, h: nat, m: nat)
    requires h < 24 && m < 60 && s == TwoDigits(h) + ":" + TwoDigits(m)
    ensures ValidTime(s) && SlotOf(s) == (h * 60 + m) * MINUTE
  {
    assert |s| == 5 && s[0] == TwoDigits(h)[0] && s[1] == TwoDigits(h)[1];
    assert s[3] == TwoDigits(m)[0] && s[4] == TwoDigits(m)[1];
  }

  lemma TimeWritten(s: string) returns (h: nat, m: nat)
    requires ValidTime(s)
    ensures h < 24 && m < 60 && s == TwoDigits(h) + ":" + TwoDigits(m)
  {
    h, m := Value(s[0]) * 10 + Value(s[1]), Value(s[3]) * 10 + Value(s[4]);
    assert TwoDigits(h) == [s[0], s[1]] && TwoDigits(m) == [s[3], s[4]];
  }

  /** The valid times are the 1440 minutes of a day, each written one way, and each
      stands for itself. */
  lemma TimesOfDay(s: string)
    ensures ValidTime(s) <==> exists h: nat, m: nat :: h < 24 && m < 60 && s == TwoDigits(h) + ":" + TwoDigits(m)
    ensures forall h: nat, m: nat :: h < 24 && m < 60 && s == TwoDigits(h) + ":" + TwoDigits(m) ==>
              SlotOf(s) == (h * 60 + m) * 60_000_000_000
    ensures !ValidTime(s) ==> SlotOf(s) == (3 * 60 + 30) * 60_000_000_000
  {
    hide TwoDigits, ValidTime;
    NotATime(s);
    if ValidTime(s) { var h, m := TimeWritten(s); }
    forall h: nat, m: nat | h < 24 && m < 60 && s == TwoDigits(h) + ":" + TwoDigits(m)
      ensures ValidTime(s) && SlotOf(s) == (h * 60 + m) * MINUTE
    {
      TimeRead(s, h, m);
    }
  }

  lemma NotATime(s: string)
    ensures !ValidTime(s) ==> SlotOf(s) == (3 * 60 + 30) * MINUTE
  {
  }

  lemma SlotInDay(s: string)
    ensures 0 <= SlotOf(s) < DAY
  {
  }

  /** A moment that shows the configured time on a clock. */
  predicate Shows(t: int, s: string) { t - Midnight(t) == SlotOf(s) }

  lemma DayOf(a: int, slot: int)
    requires 0 <= slot < DAY
    ensures Midnight(a * DAY + slot) == a * DAY
  {
  }

  lemma ShowsEveryDay(now: int, t: int, s: string)
    requires Shows(t, s)
    ensures t > now ==> t >= NextRun(now, s)
    ensures Shows(NextRun(now, s), s) && now < NextRun(now, s) <= now + DAY
  {
    hide SlotOf;
    SlotInDay(s);
    var a, b, slot := now / DAY, t / DAY, SlotOf(s);
    DayOf(a, slot);
    DayOf(a + 1, slot);
    if t > now { assert b >= a; }
  }

  /** NextRun is the least moment after now that shows the configured time. */
  lemma NextRunLeast(now: int, s: string)
    ensures Shows(NextRun(now, s), s) && now < NextRun(now, s) <= now + DAY
    ensures forall t :: now < t && Shows(t, s) ==> NextRun(now, s) <= t
    ensures NextRun(now, s) % 86_400_000_000_000 == SlotOf(s) && NextRun(now, s) <= now + 86_400_000_000_000
    ensures forall t :: now < t && t % 86_400_000_000_000 == SlotOf(s) ==> NextRun(now, s) <= t
  {
    hide SlotOf, NextRun, Midnight;
    AlwaysShows(now, s);
    ClockShows(s);
    forall t | now < t && Shows(t, s)
      ensures NextRun(now, s) <= t
    {
      ShowsEveryDay(now, t, s);
    }
  }

  /** What a clock shows starts over after 86400 seconds. */
  lemma ClockShows(s: string)
    ensures forall t :: Shows(t, s) <==> t % 86_400_000_000_000 == SlotOf(s)
  {
    hide SlotOf;
  }

  lemma AlwaysShows(now: int, s: string)
    ensures Shows(NextRun(now, s), s) && now < NextRun(now, s) <= now + DAY
  {
    SlotInDay(s);
    var t := SlotOf(s);
    assert t / DAY == 0;
    ShowsEveryDay(now, t, s);
  }

  // ---- one wake-up ----

  /** A hub profile on disk. */
  datatype Hub = Hub(loads: bool, enabled: bool, dir: string, time: string) {
    predicate Active() { loads && enabled && dir != "" }
  }

  /** nextScheduledBackup: none when no hub is active, else the earliest next slot. */
  method NextScheduled(hubs: seq<Hub>, now: int) returns (next: Option<int>)
    ensures next.None? <==> forall h :: h in hubs ==> !h.Active()
    ensures next.Some? ==> forall h :: h in hubs && h.Active() ==> next.value <= NextRun(now, h.time)
    ensures next.Some? ==> exists h :: h in hubs && h.Active() && NextRun(now, h.time) == next.value
  {
    hide NextRun;
    next := None;
    var i := 0;
    while i < |hubs|
      invariant 0 <= i <= |hubs|
      invariant next.None? <==> forall h :: h in hubs[..i] ==> !h.Active()
      invariant next.Some? ==> forall h :: h in hubs[..i] && h.Active() ==> next.value <= NextRun(now, h.time)
      invariant next.Some? ==> exists h :: h in hubs[..i] && h.Active() && NextRun(now, h.time) == next.value
    {
      var h := hubs[i];
      assert hubs[..i + 1] == hubs[..i] + [h];
      if h.Active() {
        var n := NextRun(now, h.time);
        if next.None? || n < next.value { next := Some(n); }
      }
      i := i + 1;
    }
    assert hubs[..i] == hubs;
  }

  datatype Fire = Fire(hub: nat, slot: int, at: int)

  /** The hub fires on a sleep from computed to woke. */
  predicate Due(h: Hub, computed: int, woke: int) {
    h.Active() && NextRun(computed, h.time) <= woke
  }

  function Fires(hubs: seq<Hub>, computed: int, woke: int): seq<Fire> {
    if hubs == [] then []
    else
      var h := hubs[|hubs| - 1];
      Fires(hubs[..|hubs| - 1], computed, woke)
      + if Due(h, computed, woke) then [Fire(|hubs| - 1, NextRun(computed, h.time), woke)] else []
  }

  /** runDueHubBackups. */
  method RunDue(hubs: seq<Hub>, computed: int, woke: int) returns (fires: seq<Fire>)
    ensures fires == Fires(hubs, computed, woke)
  {
    hide NextRun;
    fires := [];
    var i := 0;
    while i < |hubs|
      invariant 0 <= i <= |hubs|
      invariant fires == Fires(hubs[..i], computed, woke)
    {
      var h := hubs[i];
      assert hubs[..i + 1][..i] == hubs[..i];
      if h.Active() {
        var n := NextRun(computed, h.time);
        if n <= woke { fires := fires + [Fire(i, n, woke)]; }
      }
      i := i + 1;
    }
    assert hubs[..i] == hubs;
  }

  /** A wake-up fires exactly the active hubs whose time came up during the sleep,
      each once. */
  lemma {:induction false} FiresExactly(hubs: seq<Hub>, computed: int, woke: int)
    ensures forall i, j :: 0 <= i < j < |Fires(hubs, computed, woke)| ==>
              Fires(hubs, computed, woke)[i].hub < Fires(hubs, computed, woke)[j].hub
    ensures forall f :: f in Fires(hubs, computed, woke) <==>
              && f.hub < |hubs| && Due(hubs[f.hub], computed, woke)
              && f.slot == NextRun(computed, hubs[f.hub].time) && f.at == woke
  {
    hide Due, NextRun;
    if hubs != [] {
      var init := hubs[..|hubs| - 1];
      FiresExactly(init, computed, woke);
      var fs := Fires(init, computed, woke);
      assert forall i :: 0 <= i < |fs| ==> fs[i] in fs;
    }
  }

  lemma DueMeansTimeCameUp(h: Hub, computed: int, woke: int)
    ensures Due(h, computed, woke) <==> h.Active() && exists t :: computed < t <= woke && Shows(t, h.time)
    ensures h.Active() <==> h.loads && h.enabled && h.dir != ""
  {
    NextRunLeast(computed, h.time);
    hide NextRun, Shows;
  }

  // ---- whole runs ----

  /** One turn of the loop: the clock reading it planned from, then a poke, or a
      timer wake-up and the clock reading that serves it. */
  datatype Turn = Poked(computed: int, end: int) | Woken(computed: int, end: int)

  /** The clock never goes back, and a timer never rings before its time. */
  ghost predicate Legal(hubs: seq<Hub>, run: seq<Turn>) {
    && (forall i :: 0 <= i < |run| ==> run[i].computed <= run[i].end)
    && (forall i, j :: 0 <= i < j < |run| ==> run[i].end <= run[j].computed)
    && (forall i :: 0 <= i < |run| && run[i].Woken? ==>
          exists h :: h in hubs && h.Active() && NextRun(run[i].computed, h.time) <= run[i].end)
  }

  function Log(hubs: seq<Hub>, run: seq<Turn>): seq<Fire> {
    if run == [] then []
    else
      var turn := run[|run| - 1];
      Log(hubs, run[..|run| - 1]) + if turn.Woken? then Fires(hubs, turn.computed, turn.end) else []
  }

  /** The loop of runBackupScheduler against a record of what its clock and channels
      gave it. */
  method Scheduler(hubs: seq<Hub>, run: seq<Turn>) returns (log: seq<Fire>)
    requires Legal(hubs, run)
    ensures log == Log(hubs, run)
  {
    log := [];
    var i := 0;
    while i < |run|
      invariant 0 <= i <= |run|
      invariant log == Log(hubs, run[..i])
    {
      var turn := run[i];
      assert run[..i + 1][..i] == run[..i];
      var next := NextScheduled(hubs, turn.computed);
      if next.None? {
        assert turn.Poked?;
      } else if turn.Woken? {
        assert next.value <= turn.end;
        var fires := RunDue(hubs, turn.computed, turn.end);
        log := log + fires;
      }
      i := i + 1;
    }
    assert run[..i] == run;
  }

  /** Where each fire of the log came from. */
  lemma {:induction false} LogFrom(hubs: seq<Hub>, run: seq<Turn>, f: Fire)
    ensures f in Log(hubs, run) <==>
            exists i :: 0 <= i < |run| && run[i].Woken? && f in Fires(hubs, run[i].computed, run[i].end)
  {
    hide Fires;
    if run != [] {
      var init, turn := run[..|run| - 1], run[|run| - 1];
      LogFrom(hubs, init, f);
      assert forall i :: 0 <= i < |init| ==> init[i] == run[i];
      if i :| 0 <= i < |run| && run[i].Woken? && f in Fires(hubs, run[i].computed, run[i].end) {
        if i < |init| { assert init[i] == run[i]; }
      }
    }
  }

  lemma LegalInit(hubs: seq<Hub>, run: seq<Turn>)
    requires Legal(hubs, run) && run != []
    ensures Legal(hubs, run[..|run| - 1])
  {
    hide NextRun;
    var init := run[..|run| - 1];
    assert forall i :: 0 <= i < |init| ==> init[i] == run[i];
  }

  /** No fire is early, and the fires of one hub are for ever later slots: no slot
      is served twice. */
  lemma {:induction false} OncePerSlot(hubs: seq<Hub>, run: seq<Turn>)
    requires Legal(hubs, run)
    ensures forall f :: f in Log(hubs, run) ==> f.hub < |hubs| && Shows(f.slot, hubs[f.hub].time) && f.slot <= f.at
    ensures forall f :: f in Log(hubs, run) ==> run != [] && f.slot <= run[|run| - 1].end
    ensures forall i, j :: 0 <= i < j < |Log(hubs, run)| && Log(hubs, run)[i].hub == Log(hubs, run)[j].hub ==>
              Log(hubs, run)[i].slot < Log(hubs, run)[j].slot
  {
    hide NextRun, Shows, Fires, Legal;
    if run != [] {
      var init, turn := run[..|run| - 1], run[|run| - 1];
      LegalInit(hubs, run);
      OncePerSlot(hubs, init);
      LegalEnds(hubs, run);
      if turn.Woken? {
        FiresLater(hubs, turn.computed, turn.end);
        FiresExactly(hubs, turn.computed, turn.end);
        var a, b := Log(hubs, init), Fires(hubs, turn.computed, turn.end);
        assert forall i :: 0 <= i < |a| ==> a[i] in a;
        assert forall i :: 0 <= i < |b| ==> b[i] in b;
      }
    }
  }

  lemma LegalEnds(hubs: seq<Hub>, run: seq<Turn>)
    requires Legal(hubs, run) && run != []
    ensures run[|run| - 1].computed <= run[|run| - 1].end
    ensures |run| > 1 ==> run[|run| - 2].end <= run[|run| - 1].computed
  {
  }

  lemma FiresLater(hubs: seq<Hub>, computed: int, woke: int)
    ensures forall f :: f in Fires(hubs, computed, woke) ==>
              f.hub < |hubs| && Shows(f.slot, hubs[f.hub].time) && computed < f.slot <= f.at == woke
  {
    hide NextRun, Shows, Fires;
    FiresExactly(hubs, computed, woke);
    forall f | f in Fires(hubs, computed, woke)
      ensures Shows(f.slot, hubs[f.hub].time) && computed < f.slot <= woke
    {
      NextRunLeast(computed, hubs[f.hub].time);
    }
  }

  // ---- which slots are missed ----

  ghost predicate Served(hubs: seq<Hub>, run: seq<Turn>, hub: nat, t: int) {
    exists f :: f in Log(hubs, run) && f.hub == hub && f.slot == t
  }

  /** The turn slept through t and then served it: t came up while it slept, and no
      more than a day in. */
  predicate Catches(turn: Turn, t: int) {
    turn.Woken? && turn.computed < t <= turn.end && t <= turn.computed + DAY
  }

  /** A slot of an active hub is served exactly when it came up within the first day
      of a sleep the timer ended. One that comes up while the backups of a wake-up
      are still being taken, or just before a poke that beats the timer, is lost. */
  lemma ServedExactlyWhenSleptThrough(hubs: seq<Hub>, run: seq<Turn>, hub: nat, t: int)
    requires hub < |hubs| && hubs[hub].Active() && Shows(t, hubs[hub].time)
    ensures Served(hubs, run, hub, t) <==> exists i :: 0 <= i < |run| && Catches(run[i], t)
  {
    hide NextRun, Shows, Fires, Log;
    var time := hubs[hub].time;
    if f :| f in Log(hubs, run) && f.hub == hub && f.slot == t {
      LogFrom(hubs, run, f);
      var i :| 0 <= i < |run| && run[i].Woken? && f in Fires(hubs, run[i].computed, run[i].end);
      FiresExactly(hubs, run[i].computed, run[i].end);
      NextRunLeast(run[i].computed, time);
      assert Catches(run[i], t);
    }
    if i :| 0 <= i < |run| && Catches(run[i], t) {
      var c := run[i].computed;
      NextOfDay(c, t, time);
      var f := Fire(hub, t, run[i].end);
      FiresExactly(hubs, c, run[i].end);
      LogFrom(hubs, run, f);
    }
  }

  lemma NextOfDay(now: int, t: int, s: string)
    requires Shows(t, s) && now < t <= now + DAY
    ensures NextRun(now, s) == t
  {
    NextRunLeast(now, s);
    var n := NextRun(now, s);
    SlotInDay(s);
    hide NextRun, SlotOf;
    assert t - n == (t / DAY - n / DAY) * DAY;
  }

  /** Every moment after the first plan belongs to one turn's sleep or to the work
      after it, and only that turn can catch it. */
  lemma {:induction false} SleepOrWork(hubs: seq<Hub>, run: seq<Turn>, t: int) returns (i: nat)
    requires Legal(hubs, run) && run != [] && run[0].computed < t <= run[|run| - 1].end
    ensures i < |run| && run[i].computed < t && (t <= run[i].end || (i + 1 < |run| && t <= run[i + 1].computed))
    ensures forall j :: 0 <= j < |run| && Catches(run[j], t) ==> j == i
    decreases |run|
  {
    var last := |run| - 1;
    if run[last].computed < t {
      i := last;
    } else {
      var init := run[..last];
      LegalInit(hubs, run);
      if t <= init[last - 1].end {
        i := SleepOrWork(hubs, init, t);
      } else {
        i := last - 1;
      }
    }
  }

  /** The slots a run misses, told by the one turn each falls in: the turn ended with a
      poke, or the slot came up during the work after it, or a day was slept through. */
  lemma MissedExactly(hubs: seq<Hub>, run: seq<Turn>, hub: nat, t: int) returns (i: nat)
    requires Legal(hubs, run) && run != [] && run[0].computed < t <= run[|run| - 1].end
    requires hub < |hubs| && hubs[hub].Active() && Shows(t, hubs[hub].time)
    ensures i < |run| && run[i].computed < t && (i + 1 < |run| ==> t <= run[i + 1].computed)
    ensures !Served(hubs, run, hub, t) <==> run[i].Poked? || t > run[i].end || t > run[i].computed + DAY
  {
    hide Shows, Served;
    i := SleepOrWork(hubs, run, t);
    ServedExactlyWhenSleptThrough(hubs, run, hub, t);
    assert Catches(run[i], t) <==> run[i].Woken? && t <= run[i].end && t <= run[i].computed + DAY;
  }

  /** A poke that comes before the planned time costs no slot. */
  lemma EarlyPokeLosesNothing(hubs: seq<Hub>, computed: int, at: int, h: Hub, t: int)
    requires h in hubs && h.Active() && Shows(t, h.time)
    requires forall g :: g in hubs && g.Active() ==> at < NextRun(computed, g.time)
    ensures !(computed < t <= at)
  {
    NextRunLeast(computed, h.time);
  }

  /** One hub due at 03:30 whose backup takes two minutes costs another hub its 03:31
      slot. */
  lemma LongBackupCostsASlot() returns (hubs: seq<Hub>, run: seq<Turn>, t: int)
    ensures Legal(hubs, run) && |hubs| == 2 && hubs[1].Active() && Shows(t, hubs[1].time)
    ensures |run| == 2 && run[0].computed < t <= run[1].computed
    ensures !Served(hubs, run, 1, t)
  {
    hubs := [Hub(true, true, "a", "03:30"), Hub(true, true, "b", "03:31")];
    run := [Woken(200 * MINUTE, 210 * MINUTE), Poked(212 * MINUTE, 212 * MINUTE)];
    t := 211 * MINUTE;
    assert hubs[0] in hubs && NextRun(200 * MINUTE, "03:30") == 210 * MINUTE;
    ServedExactlyWhenSleptThrough(hubs, run, 1, t);
  }
}
