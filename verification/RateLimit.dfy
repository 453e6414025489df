/** chat/ratelimit.go: a token bucket per key, with a sweep that forgets idle keys.
    Time is integer nanoseconds; balances are exact reals. */
module RateLimit {
  const NANOS := 1_000_000_000
  const CAPACITY := 4096

  datatype Config = Config(rate: real, burst: real) {
    predicate Sane() { rate > 0.0 && burst >= 0.0 }
  }

  datatype BucketV = BucketV(tokens: real, last: int)

  datatype Call = Call(key: string, now: int)

  // ---- one call ----

  /** The tokens earned over d nanoseconds. */
  function Earned(c: Config, d: int): real {
    d as real / NANOS as real * c.rate
  }

  lemma EarnedAdds(c: Config, d: int, e: int)
    ensures Earned(c, d + e) == Earned(c, d) + Earned(c, e)
    ensures c.Sane() && d >= 0 ==> Earned(c, d) >= 0.0
  {
    assert (d + e) as real / NANOS as real == d as real / NANOS as real + e as real / NANOS as real;
  }

  lemma EarnedNothing(c: Config)
    ensures Earned(c, 0) == 0.0
  {
  }

  /** What a call for key at now finds in its bucket; an unknown key is full. */
  function Balance(c: Config, t: map<string, BucketV>, key: string, now: int): real {
    if key !in t then c.burst
    else
      var x := t[key].tokens + Earned(c, now - t[key].last);
      if x > c.burst then c.burst else x
  }

  /** One call against the table as it stands. */
  function Spend(c: Config, t: map<string, BucketV>, call: Call): (map<string, BucketV>, bool) {
    var b := Balance(c, t, call.key, call.now);
    if b < 1.0 then (t[call.key := BucketV(b, call.now)], false)
    else (t[call.key := BucketV(b - 1.0, call.now)], true)
  }

  /** A call touches its own bucket alone, and a new bucket starts full. */
  lemma SpendLocal(c: Config, t: map<string, BucketV>, call: Call, v: BucketV)
    requires v == if call.key in t then t[call.key] else BucketV(c.burst, call.now)
    ensures var (u, ok) := Spend(c, map[call.key := v], call);
            Spend(c, t, call) == (t[call.key := u[call.key]], ok)
  {
    EarnedNothing(c);
  }

  /** How long a bucket must rest to be forgotten: a full refill truncated to whole
      nanoseconds, and a minute at least. */
  function Idle(c: Config): int
    requires c.Sane()
  {
    var d := (NANOS as real * (c.burst / c.rate)).Floor;
    if d < 60 * NANOS then 60 * NANOS else d
  }

  function Prune(c: Config, t: map<string, BucketV>, now: int): map<string, BucketV>
    requires c.Sane()
  {
    map k | k in t && now - t[k].last <= Idle(c) :: t[k]
  }

  /** An unknown key meeting a full table sweeps it first. */
  function Swept(c: Config, t: map<string, BucketV>, key: string, now: int): map<string, BucketV>
    requires c.Sane()
  {
    if key !in t && |t| >= CAPACITY then Prune(c, t, now) else t
  }

  function Step(c: Config, t: map<string, BucketV>, call: Call): (map<string, BucketV>, bool)
    requires c.Sane()
  {
    Spend(c, Swept(c, t, call.key, call.now), call)
  }

  /** One call, whatever the clock did: a known key's tokens are topped up for the time
      since its last call and capped, an unknown key's are full; one is taken if there is
      one. No other key is touched, but for an unknown key that meets 4096 of them: then
      exactly those go that have rested for longer than a full refill, and a minute. */
  lemma OneCall(c: Config, t: map<string, BucketV>, call: Call)
    requires c.Sane()
    ensures var (u, ok) := Step(c, t, call);
            var had := if call.key !in t then c.burst
                       else t[call.key].tokens + (call.now - t[call.key].last) as real / 1_000_000_000.0 * c.rate;
            var tokens := if had > c.burst then c.burst else had;
            var refill := (1_000_000_000.0 * (c.burst / c.rate)).Floor;
            var idle := if refill < 60_000_000_000 then 60_000_000_000 else refill;
            && (ok <==> tokens >= 1.0)
            && call.key in u && u[call.key] == BucketV(if ok then tokens - 1.0 else tokens, call.now)
            && forall k :: k != call.key ==>
                 && (k in u <==> k in t && (call.key in t || |t| < 4096 || call.now - t[k].last <= idle))
                 && (k in u ==> u[k] == t[k])
  {
  }

  // ---- the live limiter ----

  class Bucket {
    var tokens: real
    var last: int

    constructor (tokens: real, last: int)
      ensures View() == BucketV(tokens, last)
    {
      this.tokens, this.last := tokens, last;
    }

    function View(): BucketV
      reads this
    {
      BucketV(tokens, last)
    }

    /** Tops the bucket up to now and takes a token if there is one. */
    method Charge(c: Config, key: string, now: int) returns (ok: bool)
      modifies this
      ensures (View(), ok) == var (u, o) := Spend(c, map[key := old(View())], Call(key, now)); (u[key], o)
    {
      tokens := tokens + Earned(c, now - last);
      if tokens > c.burst { tokens := c.burst; }
      last := now;
      ok := tokens >= 1.0;
      if ok { tokens := tokens - 1.0; }
    }
  }

  lemma ValuesWithin(part: map<string, Bucket>, all: map<string, Bucket>)
    requires forall k :: k in part ==> k in all && part[k] == all[k]
    ensures part.Values <= all.Values
  {
    assert forall b :: b in part.Values ==> exists k :: k in part && all[k] == b;
  }

  class Limiter {
    const c: Config
    var buckets: map<string, Bucket>

    constructor (rate: real, burst: real)
      requires rate > 0.0 && burst >= 0.0
      ensures Valid() && c == Config(rate, burst) && Table() == map[]
    {
      c := Config(rate, burst);
      buckets := map[];
    }

    ghost predicate Valid()
      reads this
    {
      c.Sane() && forall k, l :: k in buckets && l in buckets && k != l ==> buckets[k] != buckets[l]
    }

    ghost function Table(): map<string, BucketV>
      reads this, buckets.Values
    {
      map k | k in buckets :: buckets[k].View()
    }

    lemma TableShows()
      ensures Table().Keys == buckets.Keys && |Table()| == |buckets|
      ensures forall k :: k in buckets ==> Table()[k] == buckets[k].View()
    {
      assert Table().Keys == buckets.Keys;
    }

    lemma TablePruned(t: map<string, BucketV>, all: map<string, Bucket>, now: int)
      requires c.Sane() && t.Keys == all.Keys && (forall k :: k in all ==> t[k] == all[k].View())
      requires forall k :: k in buckets <==> k in all && now - all[k].last <= Idle(c)
      requires forall k :: k in buckets ==> buckets[k] == all[k]
      ensures Table() == Prune(c, t, now)
    {
    }

    lemma TableAt(key: string)
      requires key in buckets
      ensures Table() == Table()[key := Table()[key]]
    {
    }

    method Enter(key: string, now: int)
      requires Valid() && key !in buckets
      modifies this
      ensures Valid() && fresh(buckets.Values - old(buckets.Values))
      ensures key in buckets && Table() == old(Table())[key := BucketV(c.burst, now)]
    {
      var b := new Bucket(c.burst, now);
      buckets := buckets[key := b];
    }

    /** prune: deletes while ranging over the map, in whatever order that goes. */
    method PruneBuckets(now: int)
      requires Valid()
      modifies this
      ensures Valid() && buckets.Values <= old(buckets.Values)
      ensures Table() == Prune(c, old(Table()), now)
      ensures forall k :: k in buckets ==> k in old(buckets) && buckets[k] == old(buckets)[k]
    {
      hide Idle, Table, Prune, Bucket.View;
      ghost var t := Table();
      TableShows();
      var idle := Idle(c);
      var todo := buckets.Keys;
      var all := buckets;
      while todo != {}
        invariant todo <= buckets.Keys <= all.Keys
        invariant forall k :: k in buckets ==> buckets[k] == all[k]
        invariant forall k :: k in all && k !in todo ==> (k in buckets <==> now - all[k].last <= idle)
        decreases |todo|
      {
        var k :| k in todo;
        todo := todo - {k};
        if now - buckets[k].last > idle { buckets := buckets - {k}; }
      }
      ValuesWithin(buckets, all);
      TablePruned(t, all, now);
    }

    /** The bucket for key, made full if there is none. */
    method Open(key: string, now: int) returns (b: Bucket)
      requires Valid()
      modifies this
      ensures Valid() && fresh(buckets.Values - old(buckets.Values))
      ensures key in buckets && buckets[key] == b
      ensures var t := Swept(c, old(Table()), key, now);
              Table() == t[key := if key in t then t[key] else BucketV(c.burst, now)]
    {
      hide Prune, Table;
      TableShows();
      if key !in buckets {
        if |buckets| >= CAPACITY { PruneBuckets(now); }
        TableShows();
        Enter(key, now);
      } else {
        TableAt(key);
      }
      b := buckets[key];
    }

    method Allow(key: string, now: int) returns (ok: bool)
      requires Valid()
      modifies this, buckets.Values
      ensures Valid() && fresh(buckets.Values - old(buckets.Values))
      ensures (Table(), ok) == Step(c, old(Table()), Call(key, now))
    {
      hide Swept, Spend;
      var b := Open(key, now);
      ghost var t, v := Swept(c, old(Table()), key, now), b.View();
      assert Table()[key] == v;
      SpendLocal(c, t, Call(key, now), v);
      ok := b.Charge(c, key, now);
      assert Table() == t[key := b.View()];
    }
  }

  // ---- tables no later call can tell apart ----

  /** The two tables answer alike for every key from now on. */
  ghost predicate Alike(c: Config, t: map<string, BucketV>, u: map<string, BucketV>, now: int) {
    forall key, later :: later >= now ==> Balance(c, t, key, later) == Balance(c, u, key, later)
  }

  ghost predicate Full(c: Config, t: map<string, BucketV>) {
    forall k :: k in t ==> 0.0 <= t[k].tokens <= c.burst
  }

  /** A balance carried forward: what is found later is what was found now, topped
      up and capped. */
  lemma BalanceLater(c: Config, t: map<string, BucketV>, key: string, now: int, later: int)
    requires c.Sane() && now <= later
    ensures var x := Balance(c, t, key, now) + Earned(c, later - now);
            Balance(c, t, key, later) == if x > c.burst then c.burst else x
  {
    EarnedAdds(c, later - now, 0);
    if key in t { EarnedAdds(c, later - now, now - t[key].last); }
  }

  /** A rested bucket is a full one: the strict comparison in the sweep makes up for
      the nanosecond the truncation may have dropped. */
  lemma RestedIsFull(c: Config, b: BucketV, now: int)
    requires c.Sane() && b.tokens >= 0.0 && now - b.last > Idle(c)
    ensures b.tokens + Earned(c, now - b.last) >= c.burst
  {
    var d := now - b.last;
    var need := NANOS as real * (c.burst / c.rate);
    assert d as real >= need;
    assert need / NANOS as real * c.rate == c.burst;
    var x, y := d as real / NANOS as real, need / NANOS as real;
    assert x >= y;
    assert x * c.rate >= y * c.rate;
  }

  lemma PruneAlike(c: Config, t: map<string, BucketV>, now: int)
    requires c.Sane() && Full(c, t)
    ensures Alike(c, t, Prune(c, t, now), now)
  {
    forall key, later | later >= now
      ensures Balance(c, t, key, later) == Balance(c, Prune(c, t, now), key, later)
    {
      if key in t && now - t[key].last > Idle(c) { RestedIsFull(c, t[key], later); }
    }
  }

  /** A call leaves its own key with what it found less what it spent, and every
      other key as it was. */
  lemma SpendBalance(c: Config, t: map<string, BucketV>, call: Call, key: string)
    requires c.Sane()
    ensures var (u, ok) := Spend(c, t, call);
            Balance(c, u, key, call.now)
            == Balance(c, t, key, call.now) - if key == call.key && ok then 1.0 else 0.0
  {
    assert Earned(c, 0) == 0.0;
  }

  lemma SpendAlike(c: Config, t: map<string, BucketV>, u: map<string, BucketV>, call: Call)
    requires c.Sane() && Alike(c, t, u, call.now)
    ensures Spend(c, t, call).1 == Spend(c, u, call).1
    ensures Alike(c, Spend(c, t, call).0, Spend(c, u, call).0, call.now)
  {
    hide Earned, Balance;
    assert Balance(c, t, call.key, call.now) == Balance(c, u, call.key, call.now);
    var t', u' := Spend(c, t, call).0, Spend(c, u, call).0;
    forall key, later | later >= call.now
      ensures Balance(c, t', key, later) == Balance(c, u', key, later)
    {
      SpendBalance(c, t, call, key);
      SpendBalance(c, u, call, key);
      BalanceLater(c, t', key, call.now, later);
      BalanceLater(c, u', key, call.now, later);
    }
  }

  lemma StepIsSpend(c: Config, t: map<string, BucketV>, call: Call)
    requires c.Sane() && Full(c, t)
    ensures Step(c, t, call).1 == Spend(c, t, call).1
    ensures Alike(c, Step(c, t, call).0, Spend(c, t, call).0, call.now)
  {
    PruneAlike(c, t, call.now);
    SpendAlike(c, Swept(c, t, call.key, call.now), t, call);
  }

  lemma StepFull(c: Config, t: map<string, BucketV>, call: Call)
    requires c.Sane() && Full(c, t)
    requires forall k :: k in t ==> t[k].last <= call.now
    ensures Full(c, Step(c, t, call).0)
    ensures forall k :: k in Step(c, t, call).0 ==> Step(c, t, call).0[k].last <= call.now
  {
    if call.key in t { EarnedAdds(c, call.now - t[call.key].last, 0); }
  }

  // ---- runs ----

  ghost predicate Ordered(calls: seq<Call>) {
    forall i, j :: 0 <= i < j < |calls| ==> calls[i].now <= calls[j].now
  }

  /** The table after a run from empty. */
  function After(c: Config, calls: seq<Call>): map<string, BucketV>
    requires c.Sane()
  {
    if calls == [] then map[] else Step(c, After(c, calls[..|calls| - 1]), calls[|calls| - 1]).0
  }

  /** The answer to a call made after a run. */
  function Answer(c: Config, calls: seq<Call>, call: Call): bool
    requires c.Sane()
  {
    Step(c, After(c, calls), call).1
  }

  /** The reference limiter, which never forgets a key. */
  function AfterUnpruned(c: Config, calls: seq<Call>): map<string, BucketV> {
    if calls == [] then map[] else Spend(c, AfterUnpruned(c, calls[..|calls| - 1]), calls[|calls| - 1]).0
  }

  lemma {:induction false} AfterFull(c: Config, calls: seq<Call>)
    requires c.Sane() && Ordered(calls)
    ensures Full(c, After(c, calls))
    ensures forall k :: k in After(c, calls) ==> calls != [] && After(c, calls)[k].last <= calls[|calls| - 1].now
  {
    hide Step, Earned;
    if calls != [] {
      var init := calls[..|calls| - 1];
      AfterFull(c, init);
      StepFull(c, After(c, init), calls[|calls| - 1]);
    }
  }

  lemma AlikeLater(c: Config, t: map<string, BucketV>, u: map<string, BucketV>, now: int, later: int)
    requires Alike(c, t, u, now) && now <= later
    ensures Alike(c, t, u, later)
  {
  }

  lemma AlikeChain(c: Config, t: map<string, BucketV>, u: map<string, BucketV>, v: map<string, BucketV>, now: int)
    requires Alike(c, t, u, now) && Alike(c, u, v, now)
    ensures Alike(c, t, v, now)
  {
    hide Balance;
    forall key, later | later >= now
      ensures Balance(c, t, key, later) == Balance(c, v, key, later)
    {
      assert Balance(c, t, key, later) == Balance(c, u, key, later);
    }
  }

  /** Tables alike before a call are alike after it, whichever of them is pruned. */
  lemma StepAlike(c: Config, t: map<string, BucketV>, u: map<string, BucketV>, call: Call)
    requires c.Sane() && Full(c, t) && Alike(c, t, u, call.now)
    ensures Step(c, t, call).1 == Spend(c, u, call).1
    ensures Alike(c, Step(c, t, call).0, Spend(c, u, call).0, call.now)
  {
    hide Step, Spend, Alike;
    StepIsSpend(c, t, call);
    SpendAlike(c, t, u, call);
    AlikeChain(c, Step(c, t, call).0, Spend(c, t, call).0, Spend(c, u, call).0, call.now);
  }

  lemma {:induction false} AfterAlike(c: Config, calls: seq<Call>, now: int)
    requires c.Sane() && Ordered(calls)
    requires calls != [] ==> calls[|calls| - 1].now <= now
    ensures Alike(c, After(c, calls), AfterUnpruned(c, calls), now)
  {
    hide Step, Spend, Alike, Full;
    if calls != [] {
      var init, call := calls[..|calls| - 1], calls[|calls| - 1];
      AfterAlike(c, init, call.now);
      AfterFull(c, init);
      StepAlike(c, After(c, init), AfterUnpruned(c, init), call);
      AlikeLater(c, After(c, calls), AfterUnpruned(c, calls), call.now, now);
    } else {
      AlikeSelf(c, map[], now);
    }
  }

  lemma AlikeSelf(c: Config, t: map<string, BucketV>, now: int)
    ensures Alike(c, t, t, now)
  {
  }

  /** Forgetting idle keys never changes an answer, for any key, at any later time. */
  lemma PruningInvisible(c: Config, calls: seq<Call>, call: Call)
    requires c.Sane() && Ordered(calls + [call])
    ensures Answer(c, calls, call) == Spend(c, AfterUnpruned(c, calls), call).1
  {
    hide Step, Spend, Alike, Full;
    OrderedInit(calls, call);
    AfterAlike(c, calls, call.now);
    AfterFull(c, calls);
    StepAlike(c, After(c, calls), AfterUnpruned(c, calls), call);
  }

  lemma OrderedInit(calls: seq<Call>, call: Call)
    requires Ordered(calls + [call])
    ensures Ordered(calls) && (calls != [] ==> calls[|calls| - 1].now <= call.now)
  {
    var all := calls + [call];
    assert forall i :: 0 <= i < |calls| ==> all[i] == calls[i];
    assert all[|calls|] == call;
  }

  // ---- a refused call leaves no trace ----

  lemma RefusedAlike(c: Config, t: map<string, BucketV>, call: Call)
    requires c.Sane() && Full(c, t) && !Step(c, t, call).1
    ensures Alike(c, Step(c, t, call).0, t, call.now)
  {
    hide Earned, Balance, Full, Step, Spend;
    StepIsSpend(c, t, call);
    var u := Spend(c, t, call).0;
    forall key, later | later >= call.now
      ensures Balance(c, u, key, later) == Balance(c, t, key, later)
    {
      SpendBalance(c, t, call, key);
      BalanceLater(c, t, key, call.now, later);
      BalanceLater(c, u, key, call.now, later);
    }
    AlikeChain(c, Step(c, t, call).0, u, t, call.now);
  }

  /** Tables alike before a call are alike after it. */
  lemma StepBothAlike(c: Config, t: map<string, BucketV>, u: map<string, BucketV>, call: Call, now: int)
    requires c.Sane() && Full(c, t) && Full(c, u) && Alike(c, t, u, call.now) && call.now <= now
    ensures Step(c, t, call).1 == Step(c, u, call).1
    ensures Alike(c, Step(c, t, call).0, Step(c, u, call).0, now)
  {
    hide Step, Spend, Full, Alike, Balance;
    var v := Spend(c, u, call).0;
    StepAlike(c, t, u, call);
    StepIsSpend(c, u, call);
    AlikeSwap(c, Step(c, u, call).0, v, call.now);
    AlikeChain(c, Step(c, t, call).0, v, Step(c, u, call).0, call.now);
    AlikeLater(c, Step(c, t, call).0, Step(c, u, call).0, call.now, now);
  }

  lemma AlikeSwap(c: Config, t: map<string, BucketV>, u: map<string, BucketV>, now: int)
    requires Alike(c, t, u, now)
    ensures Alike(c, u, t, now)
  {
  }

  lemma AfterLast(c: Config, calls: seq<Call>, call: Call)
    requires c.Sane()
    ensures After(c, calls + [call]) == Step(c, After(c, calls), call).0
  {
    hide Step;
    assert (calls + [call])[..|calls|] == calls;
  }

  lemma OrderedWithout(before: seq<Call>, gone: Call, rest: seq<Call>)
    requires Ordered(before + [gone] + rest)
    ensures Ordered(before + rest)
  {
    var long, short := before + [gone] + rest, before + rest;
    assert forall i :: 0 <= i < |short| ==> short[i] == long[if i < |before| then i else i + 1];
  }

  /** Leaving a refused call out of a run gives a table alike to the run's. */
  lemma {:induction false} TraceGone(c: Config, before: seq<Call>, refused: Call, rest: seq<Call>, now: int)
    requires c.Sane() && Ordered(before + [refused] + rest)
    requires (before + [refused] + rest)[|before + rest|].now <= now
    requires !Answer(c, before, refused)
    ensures Alike(c, After(c, before + [refused] + rest), After(c, before + rest), now)
  {
    hide Step, Spend, Alike, Full, Balance, After, Ordered;
    if rest == [] {
      assert before + [refused] + rest == before + [refused] && before + rest == before;
      OrderedInit(before, refused);
      AfterFull(c, before);
      AfterLast(c, before, refused);
      RefusedAlike(c, After(c, before), refused);
      AlikeLater(c, After(c, before + [refused]), After(c, before), refused.now, now);
    } else {
      var init, last := rest[..|rest| - 1], rest[|rest| - 1];
      var long, short := before + [refused] + init, before + init;
      assert before + [refused] + rest == long + [last] && before + rest == short + [last];
      OrderedInit(long, last);
      OrderedWithout(before, refused, init);
      TraceGone(c, before, refused, init, last.now);
      AfterFull(c, long);
      AfterFull(c, short);
      StepBothAlike(c, After(c, long), After(c, short), last, now);
      AfterLast(c, long, last);
      AfterLast(c, short, last);
    }
  }

  /** A refused call changes no later answer, for its key or any other. */
  lemma RefusedLeavesNoTrace(c: Config, before: seq<Call>, refused: Call, rest: seq<Call>, call: Call)
    requires c.Sane() && Ordered(before + [refused] + rest + [call])
    requires !Answer(c, before, refused)
    ensures Answer(c, before + [refused] + rest, call) == Answer(c, before + rest, call)
  {
    hide Step, Spend, Alike, Full, Balance, After, Ordered;
    var long, short := before + [refused] + rest, before + rest;
    OrderedInit(long, call);
    OrderedWithout(before, refused, rest);
    TraceGone(c, before, refused, rest, call.now);
    AfterFull(c, long);
    AfterFull(c, short);
    StepBothAlike(c, After(c, long), After(c, short), call, call.now);
  }

  // ---- the rate, over any window ----

  /** How many calls of a run were granted to key with a time in [from, to]. */
  function Grants(c: Config, calls: seq<Call>, key: string, from: int, to: int): nat
    requires c.Sane()
  {
    if calls == [] then 0
    else
      var init, call := calls[..|calls| - 1], calls[|calls| - 1];
      Grants(c, init, key, from, to)
      + if call.key == key && from <= call.now <= to && Answer(c, init, call) then 1 else 0
  }

  lemma StepBalance(c: Config, t: map<string, BucketV>, call: Call, key: string)
    requires c.Sane() && Full(c, t)
    ensures Balance(c, Step(c, t, call).0, key, call.now)
            == Balance(c, t, key, call.now) - if key == call.key && Step(c, t, call).1 then 1.0 else 0.0
  {
    hide Earned, Balance, Full, Step, Spend;
    StepIsSpend(c, t, call);
    SpendBalance(c, t, call, key);
    assert Balance(c, Step(c, t, call).0, key, call.now) == Balance(c, Spend(c, t, call).0, key, call.now);
  }

  lemma BalanceCapped(c: Config, t: map<string, BucketV>, key: string, now: int)
    ensures Balance(c, t, key, now) <= c.burst
  {
  }

  /** Grants already made in a window and tokens still held never exceed what the
      window may yield. */
  lemma {:induction false} Potential(c: Config, calls: seq<Call>, key: string, from: int, to: int, at: int)
    requires c.Sane() && Ordered(calls) && (calls != [] ==> calls[|calls| - 1].now <= at)
    ensures at < from ==> Grants(c, calls, key, from, to) == 0
    ensures at >= from ==> Grants(c, calls, key, from, to) as real + Balance(c, After(c, calls), key, at)
                           <= c.burst + Earned(c, at - from)
  {
    hide Step, Balance, Earned, Full;
    EarnedAdds(c, at - from, 0);
    BalanceCapped(c, After(c, calls), key, at);
    if calls != [] {
      var init, call := calls[..|calls| - 1], calls[|calls| - 1];
      AfterFull(c, init);
      Potential(c, init, key, from, to, call.now);
      StepBalance(c, After(c, init), call, key);
      BalanceLater(c, After(c, calls), key, call.now, at);
      EarnedAdds(c, call.now - from, at - call.now);
    }
  }

  /** Some window is used up: its grants and the tokens held are exactly what it
      may yield. */
  lemma {:induction false} Tight(c: Config, calls: seq<Call>, key: string, to: int, at: int) returns (from: int)
    requires c.Sane() && Ordered(calls) && (calls != [] ==> calls[|calls| - 1].now <= at) && at <= to
    ensures from <= at
    ensures Grants(c, calls, key, from, to) as real + Balance(c, After(c, calls), key, at)
            == c.burst + Earned(c, at - from)
  {
    hide Step, Earned, Full;
    EarnedNothing(c);
    if calls == [] {
      from := at;
    } else {
      var init, call := calls[..|calls| - 1], calls[|calls| - 1];
      AfterFull(c, init);
      from := Tight(c, init, key, to, call.now);
      TightStep(c, init, call, key, from, to, at);
      if Balance(c, After(c, calls), key, call.now) + Earned(c, at - call.now) > c.burst {
        from := at;
      }
    }
  }

  /** A call in the window turns as much balance into grants as it is granted. */
  lemma GrantsStep(c: Config, init: seq<Call>, call: Call, key: string, from: int, to: int)
    requires c.Sane() && from <= call.now <= to && Full(c, After(c, init))
    ensures var calls := init + [call];
            Grants(c, calls, key, from, to) as real + Balance(c, After(c, calls), key, call.now)
            == Grants(c, init, key, from, to) as real + Balance(c, After(c, init), key, call.now)
  {
    hide Step, Balance, Earned, Full;
    assert (init + [call])[..|init|] == init;
    StepBalance(c, After(c, init), call, key);
  }

  lemma TightStep(c: Config, init: seq<Call>, call: Call, key: string, from: int, to: int, at: int)
    requires c.Sane() && Ordered(init + [call]) && from <= call.now <= at <= to && Full(c, After(c, init))
    requires Grants(c, init, key, from, to) as real + Balance(c, After(c, init), key, call.now)
             == c.burst + Earned(c, call.now - from)
    ensures var calls := init + [call];
            var b := Balance(c, After(c, calls), key, call.now) + Earned(c, at - call.now);
            && Balance(c, After(c, calls), key, at) == (if b > c.burst then c.burst else b)
            && Grants(c, calls, key, from, to) as real + b == c.burst + Earned(c, at - from)
            && (b > c.burst ==> Grants(c, calls, key, at, to) == 0)
  {
    hide Step, Balance, Earned, Full, Grants, After;
    var calls := init + [call];
    GrantsStep(c, init, call, key, from, to);
    BalanceLater(c, After(c, calls), key, call.now, at);
    EarnedAdds(c, call.now - from, at - call.now);
    EarnedNothing(c);
    BalanceCapped(c, After(c, calls), key, call.now);
    if call.now < at { Potential(c, calls, key, at, to, call.now); }
  }

  /** rate tokens a second, in nanoseconds. */
  lemma EarnedSpelled(c: Config, d: int)
    ensures Earned(c, d) == d as real / 1_000_000_000.0 * c.rate
  {
  }

  /** In every run whose clock does not go back, no key is granted more than its
      burst and what the rate yields, within any window of time. */
  lemma {:induction false} RateBound(c: Config, calls: seq<Call>, key: string, from: int, to: int)
    requires c.Sane() && Ordered(calls) && from <= to
    ensures Grants(c, calls, key, from, to) as real <= c.burst + (to - from) as real / 1_000_000_000.0 * c.rate
  {
    hide Step, Balance, Earned, Full;
    EarnedSpelled(c, to - from);
    EarnedAdds(c, to - from, 0);
    if calls != [] {
      var init, call := calls[..|calls| - 1], calls[|calls| - 1];
      if call.now > to {
        RateBound(c, init, key, from, to);
      } else {
        Potential(c, calls, key, from, to, to);
        HeldNotNegative(c, calls, key, to);
      }
    }
  }

  lemma HeldNotNegative(c: Config, calls: seq<Call>, key: string, at: int)
    requires c.Sane() && Ordered(calls) && (calls != [] ==> calls[|calls| - 1].now <= at)
    ensures Balance(c, After(c, calls), key, at) >= 0.0
  {
    hide Step, After;
    AfterFull(c, calls);
    var t := After(c, calls);
    if key in t { EarnedAdds(c, at - t[key].last, 0); }
  }

  /** The limiter is as generous as that bound allows: a call is granted exactly when
      granting it overruns no window that ends with it. */
  lemma GrantedExactlyWhenRoom(c: Config, calls: seq<Call>, call: Call)
    requires c.Sane() && Ordered(calls + [call])
    ensures Answer(c, calls, call) <==>
            forall from :: from <= call.now ==>
              Grants(c, calls, call.key, from, call.now) as real + 1.0
              <= c.burst + (call.now - from) as real / 1_000_000_000.0 * c.rate
  {
    hide Step, Balance, Earned, Full;
    forall from | from <= call.now
      ensures Grants(c, calls, call.key, from, call.now) as real + 1.0
              <= c.burst + (call.now - from) as real / 1_000_000_000.0 * c.rate <==>
              Grants(c, calls, call.key, from, call.now) as real + 1.0 <= c.burst + Earned(c, call.now - from)
    {
      EarnedSpelled(c, call.now - from);
    }
    OrderedInit(calls, call);
    AfterFull(c, calls);
    StepIsSpend(c, After(c, calls), call);
    forall from | from <= call.now
      ensures Grants(c, calls, call.key, from, call.now) as real + Balance(c, After(c, calls), call.key, call.now)
              <= c.burst + Earned(c, call.now - from)
    {
      Potential(c, calls, call.key, from, call.now, call.now);
    }
    var from := Tight(c, calls, call.key, call.now, call.now);
  }
}
