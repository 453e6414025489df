/** server/handlers_localrefs.go: cutting a list of references to a cap, from each
    kind in turn. */
module LocalRefs {
  const MAX := 200

  /** The five kinds a lookup scans for, and any other a record might carry. */
  datatype RefKind = TaskRef | ChatRef | WhiteboardRef | JobRef | BatchRef | OtherRef(name: string)

  const SOURCES := [TaskRef, ChatRef, WhiteboardRef, JobRef, BatchRef]

  datatype Ref = Ref(kind: RefKind, id: string)

  /** The references of one kind, in the order they came. */
  function Pool(refs: seq<Ref>, kind: RefKind): seq<Ref> {
    if refs == [] then []
    else
      var r := refs[|refs| - 1];
      Pool(refs[..|refs| - 1], kind) + if r.kind == kind then [r] else []
  }

  function Sizes(refs: seq<Ref>): (s: seq<nat>)
    ensures |s| == |SOURCES|
  {
    seq(|SOURCES|, k requires 0 <= k < |SOURCES| => |Pool(refs, SOURCES[k])|)
  }

  function Sum(s: seq<nat>): nat {
    if s == [] then 0 else Sum(s[..|s| - 1]) + s[|s| - 1]
  }

  // ---- what a fair cut is ----

  /** Each kind gives no more than it has; all give the cap, or all they have; and a
      kind with more to give is never behind another by more than one, nor behind a
      later one at all. */
  ghost predicate Fair(counts: seq<nat>, sizes: seq<nat>, cap: nat) {
    && |counts| == |sizes|
    && (forall k :: 0 <= k < |counts| ==> counts[k] <= sizes[k])
    && Sum(counts) == (if Sum(sizes) < cap then Sum(sizes) else cap)
    && (forall a, b :: 0 <= a < |counts| && 0 <= b < |counts| && counts[a] < sizes[a] ==>
          counts[b] <= counts[a] + 1 && (a < b ==> counts[b] <= counts[a]))
  }

  /** The first counts[k] of each kind, grouped by kind. */
  function Grouped(refs: seq<Ref>, counts: seq<nat>): seq<Ref>
    requires |counts| <= |SOURCES|
    requires forall k :: 0 <= k < |counts| ==> counts[k] <= |Pool(refs, SOURCES[k])|
  {
    if counts == [] then []
    else
      var k := |counts| - 1;
      Grouped(refs, counts[..k]) + Pool(refs, SOURCES[k])[..counts[k]]
  }

  lemma {:induction false} SumLess(a: seq<nat>, b: seq<nat>)
    requires |a| == |b| && forall k :: 0 <= k < |a| ==> a[k] <= b[k]
    ensures Sum(a) <= Sum(b)
    ensures Sum(a) == Sum(b) ==> a == b
  {
    if a != [] {
      SumLess(a[..|a| - 1], b[..|b| - 1]);
      if Sum(a) == Sum(b) {
        assert a == a[..|a| - 1] + [a[|a| - 1]] && b == b[..|b| - 1] + [b[|b| - 1]];
      }
    }
  }

  /** There is but one fair cut. */
  lemma FairUnique(c: seq<nat>, d: seq<nat>, sizes: seq<nat>, cap: nat)
    requires Fair(c, sizes, cap) && Fair(d, sizes, cap)
    ensures c == d
  {
    hide Sum;
    if forall k :: 0 <= k < |c| ==> c[k] <= d[k] {
      SumLess(c, d);
    } else if forall k :: 0 <= k < |c| ==> d[k] <= c[k] {
      SumLess(d, c);
    } else {
      var l :| 0 <= l < |c| && c[l] > d[l];
      FairWithin(c, d, sizes, cap, l);
      assert false;
    }
  }

  /** A kind that gives more in one fair cut than in another leaves no kind that gives
      less. */
  lemma FairWithin(c: seq<nat>, d: seq<nat>, sizes: seq<nat>, cap: nat, l: nat)
    requires Fair(c, sizes, cap) && Fair(d, sizes, cap) && l < |c| && c[l] > d[l]
    ensures forall k :: 0 <= k < |c| ==> d[k] <= c[k]
  {
    hide Sum;
    assert forall k :: 0 <= k < |c| && c[k] < d[k] ==> c[l] <= c[k] + 1 && d[k] <= d[l] + 1;
  }

  // ---- the cut, told of what comes back ----

  /** The order in which the kinds come, and in which each round asks them. */
  function Rank(kind: RefKind): nat {
    match kind
    case TaskRef => 0
    case ChatRef => 1
    case WhiteboardRef => 2
    case JobRef => 3
    case BatchRef => 4
    case OtherRef(_) => 5
  }

  /** Kind a had more to give, and b is another. */
  ghost predicate Behind(refs: seq<Ref>, out: seq<Ref>, a: RefKind, b: RefKind) {
    !a.OtherRef? && !b.OtherRef? && a != b && |Pool(out, a)| < |Pool(refs, a)|
  }

  /** How many more than a kind b may have given: one, if it is asked before. */
  function Ahead(a: RefKind, b: RefKind): nat { if Rank(b) < Rank(a) then 1 else 0 }

  lemma SourceAt(kind: RefKind)
    requires !kind.OtherRef?
    ensures Rank(kind) < |SOURCES| && SOURCES[Rank(kind)] == kind
  {
  }

  lemma {:induction false} GroupedRanked(refs: seq<Ref>, counts: seq<nat>)
    requires |counts| <= |SOURCES| && forall k :: 0 <= k < |counts| ==> counts[k] <= |Pool(refs, SOURCES[k])|
    ensures var out := Grouped(refs, counts);
            && (forall x :: x in out ==> x in refs && Rank(x.kind) < |counts|)
            && (forall i, j :: 0 <= i < j < |out| ==> Rank(out[i].kind) <= Rank(out[j].kind))
  {
    hide Pool;
    if counts != [] {
      var k := |counts| - 1;
      GroupedRanked(refs, counts[..k]);
      PoolHolds(refs, SOURCES[k]);
      var front, part := Grouped(refs, counts[..k]), Pool(refs, SOURCES[k])[..counts[k]];
      assert forall x :: x in part ==> x in Pool(refs, SOURCES[k]);
      assert forall i :: 0 <= i < |front| ==> front[i] in front;
      assert forall i :: 0 <= i < |part| ==> part[i] in part;
      RankOfSource(k);
    }
  }

  lemma RankOfSource(k: nat)
    requires k < |SOURCES|
    ensures Rank(SOURCES[k]) == k
  {
  }

  lemma CutGrouped(refs: seq<Ref>, counts: seq<nat>, cap: nat)
    requires Fair(counts, Sizes(refs), cap)
    requires forall k :: 0 <= k < |counts| ==> counts[k] <= |Pool(refs, SOURCES[k])|
    ensures var out := Grouped(refs, counts);
            && |out| <= cap && (forall x :: x in out ==> x in refs && !x.kind.OtherRef?)
            && (forall i, j :: 0 <= i < j < |out| ==> Rank(out[i].kind) <= Rank(out[j].kind))
            && (forall a, b :: Behind(refs, out, a, b) ==> |Pool(out, b)| <= |Pool(out, a)| + Ahead(a, b))
  {
    hide Pool, Grouped, Sum;
    var out := Grouped(refs, counts);
    GroupedRanked(refs, counts);
    GroupedCount(refs, counts);
    forall a, b | Behind(refs, out, a, b)
      ensures |Pool(out, b)| <= |Pool(out, a)| + Ahead(a, b)
    {
      SourceAt(a);
      SourceAt(b);
      GroupedPool(refs, counts, Rank(a));
      GroupedPool(refs, counts, Rank(b));
    }
  }

  // ---- the rounds ----

  /** What a kind has given once r whole rounds are over and the next has reached the
      kinds before j. */
  function Given(size: nat, r: nat, j: nat, k: nat): nat {
    var want := if k < j then r + 1 else r;
    if size < want then size else want
  }

  ghost predicate AtRound(counts: seq<nat>, sizes: seq<nat>, r: nat, j: nat) {
    |counts| == |sizes| && forall k :: 0 <= k < |counts| ==> counts[k] == Given(sizes[k], r, j, k)
  }

  lemma RoundFair(counts: seq<nat>, sizes: seq<nat>, r: nat, j: nat, cap: nat)
    requires AtRound(counts, sizes, r, j)
    requires Sum(counts) == cap || (counts == sizes && Sum(counts) <= cap)
    ensures Fair(counts, sizes, cap)
  {
    SumLess(counts, sizes);
  }

  lemma {:induction false} SumBump(s: seq<nat>, k: nat)
    requires k < |s|
    ensures Sum(s[k := s[k] + 1]) == Sum(s) + 1
  {
    var t := s[k := s[k] + 1];
    if k < |s| - 1 {
      SumBump(s[..|s| - 1], k);
      assert t[..|t| - 1] == s[..|s| - 1][k := s[k] + 1];
    } else {
      assert t[..|t| - 1] == s[..|s| - 1];
    }
  }

  lemma {:induction false} SumZero(s: seq<nat>)
    requires forall k :: 0 <= k < |s| ==> s[k] == 0
    ensures Sum(s) == 0
  {
    if s != [] { SumZero(s[..|s| - 1]); }
  }

  // ---- capLocalRefs ----

  function At(m: map<RefKind, seq<Ref>>, kind: RefKind): seq<Ref> {
    if kind in m then m[kind] else []
  }

  /** taken holds the first counts[k] of every kind's pool. */
  ghost predicate Taken(taken: map<RefKind, seq<Ref>>, refs: seq<Ref>, counts: seq<nat>) {
    && |counts| == |SOURCES|
    && forall k :: 0 <= k < |SOURCES| ==>
         counts[k] <= |Pool(refs, SOURCES[k])| && At(taken, SOURCES[k]) == Pool(refs, SOURCES[k])[..counts[k]]
  }

  lemma TakenMore(taken: map<RefKind, seq<Ref>>, refs: seq<Ref>, counts: seq<nat>, k: nat)
    requires Taken(taken, refs, counts) && k < |SOURCES| && counts[k] < |Pool(refs, SOURCES[k])|
    ensures var kind := SOURCES[k];
            Taken(taken[kind := At(taken, kind) + [Pool(refs, kind)[counts[k]]]], refs, counts[k := counts[k] + 1])
  {
    hide Pool;
    var p := Pool(refs, SOURCES[k]);
    assert p[..counts[k]] + [p[counts[k]]] == p[..counts[k] + 1];
    assert forall l :: 0 <= l < |SOURCES| && l != k ==> SOURCES[l] != SOURCES[k];
  }

  method ByKind(refs: seq<Ref>) returns (byKind: map<RefKind, seq<Ref>>)
    ensures forall kind :: At(byKind, kind) == Pool(refs, kind)
  {
    byKind := map[];
    var i := 0;
    while i < |refs|
      invariant 0 <= i <= |refs|
      invariant forall kind :: At(byKind, kind) == Pool(refs[..i], kind)
    {
      var r := refs[i];
      assert refs[..i + 1][..i] == refs[..i];
      byKind := byKind[r.kind := At(byKind, r.kind) + [r]];
      i := i + 1;
    }
    assert refs[..i] == refs;
  }

  /** One pass of the inner loop, which stops where the cap is met. */
  method Round(byKind: map<RefKind, seq<Ref>>, taken0: map<RefKind, seq<Ref>>, n0: nat, ghost refs: seq<Ref>,
               ghost counts0: seq<nat>, ghost r: nat)
    returns (taken: map<RefKind, seq<Ref>>, n: nat, progressed: bool, ghost counts: seq<nat>, ghost j: nat)
    requires forall kind :: At(byKind, kind) == Pool(refs, kind)
    requires Taken(taken0, refs, counts0) && AtRound(counts0, Sizes(refs), r, 0) && n0 == Sum(counts0) < MAX
    ensures j <= |SOURCES| && Taken(taken, refs, counts) && AtRound(counts, Sizes(refs), r, j) &&
            n == Sum(counts) <= MAX
    ensures n == MAX || j == |SOURCES|
    ensures progressed <==> n > n0
    ensures !progressed ==> counts == Sizes(refs)
  {
    hide Pool, Sum, Taken, AtRound;
    taken, n, progressed, counts := taken0, n0, false, counts0;
    var i := 0;
    ghost var sizes := Sizes(refs);
    while i < |SOURCES|
      invariant 0 <= i <= |SOURCES| && n0 <= n == Sum(counts) < MAX
      invariant Taken(taken, refs, counts) && AtRound(counts, sizes, r, i)
      invariant progressed <==> n > n0
      invariant !progressed ==> forall k :: 0 <= k < i ==> sizes[k] <= r
    {
      var kind := SOURCES[i];
      var pool := At(byKind, kind);
      RoundReaches(taken, refs, counts, r, i);
      if |At(taken, kind)| < |pool| {
        TakenMore(taken, refs, counts, i);
        taken := taken[kind := At(taken, kind) + [pool[|At(taken, kind)|]]];
        SumBump(counts, i);
        counts := counts[i := counts[i] + 1];
        progressed := true;
        n := n + 1;
        if n == MAX {
          j := i + 1;
          return;
        }
      }
      i := i + 1;
    }
    j := i;
    if !progressed { AllGiven(counts, sizes, r, i); }
  }

  lemma AllGiven(counts: seq<nat>, sizes: seq<nat>, r: nat, j: nat)
    requires AtRound(counts, sizes, r, j) && forall k :: 0 <= k < |sizes| ==> sizes[k] <= r
    ensures counts == sizes
  {
  }

  lemma RoundReaches(taken: map<RefKind, seq<Ref>>, refs: seq<Ref>, counts: seq<nat>, r: nat, i: nat)
    requires i < |SOURCES| && Taken(taken, refs, counts) && AtRound(counts, Sizes(refs), r, i)
    ensures |counts| == |SOURCES| && |At(taken, SOURCES[i])| == counts[i]
    ensures counts[i] < |Pool(refs, SOURCES[i])| ==> AtRound(counts[i := counts[i] + 1], Sizes(refs), r, i + 1)
    ensures counts[i] >= |Pool(refs, SOURCES[i])| ==> AtRound(counts, Sizes(refs), r, i + 1) && Sizes(refs)[i] <= r
  {
    hide Pool;
  }

  lemma RoundOver(counts: seq<nat>, sizes: seq<nat>, r: nat)
    requires AtRound(counts, sizes, r, |sizes|)
    ensures AtRound(counts, sizes, r + 1, 0)
  {
  }

  lemma Nothing(refs: seq<Ref>) returns (counts: seq<nat>)
    ensures Taken(map[], refs, counts) && AtRound(counts, Sizes(refs), 0, 0) && Sum(counts) == 0
  {
    counts := seq(|SOURCES|, _ => 0);
    SumZero(counts);
  }

  /** capLocalRefs. A list within the cap comes back whole; a longer one comes back as
      the one fair cut, and says it was cut. */
  method CapLocalRefs(refs: seq<Ref>) returns (out: seq<Ref>, truncated: bool)
    ensures truncated <==> |refs| > MAX
    ensures truncated <==> |refs| > 200
    ensures !truncated ==> out == refs
    ensures truncated ==>
              && |out| <= 200 && (forall x :: x in out ==> x in refs && !x.kind.OtherRef?)
              && (forall i, j :: 0 <= i < j < |out| ==> Rank(out[i].kind) <= Rank(out[j].kind))
              && (forall a, b :: Behind(refs, out, a, b) ==> |Pool(out, b)| <= |Pool(out, a)| + Ahead(a, b))
    ensures truncated ==> exists counts ::
              && Fair(counts, Sizes(refs), MAX)
              && (forall k :: 0 <= k < |counts| ==> counts[k] <= |Pool(refs, SOURCES[k])|)
              && out == Grouped(refs, counts)
    ensures |refs| > MAX && (forall x :: x in refs ==> x.kind in SOURCES) ==>
              && |out| == MAX
              && forall k :: 0 <= k < |SOURCES| ==> Pool(out, SOURCES[k]) <= Pool(refs, SOURCES[k])
  {
    hide Pool, Sum, Taken, AtRound, Fair, Grouped;
    if |refs| <= MAX { return refs, false; }
    var byKind := ByKind(refs);
    var taken: map<RefKind, seq<Ref>> := map[];
    var n := 0;
    ghost var counts := Nothing(refs);
    ghost var r: nat, j: nat := 0, 0;
    while n < MAX
      invariant j <= |SOURCES| && Taken(taken, refs, counts) && AtRound(counts, Sizes(refs), r, j)
      invariant n == Sum(counts) <= MAX && (n < MAX ==> j == 0)
      decreases MAX - n
    {
      var progressed;
      taken, n, progressed, counts, j := Round(byKind, taken, n, refs, counts, r);
      if !progressed { break; }
      if n < MAX {
        RoundOver(counts, Sizes(refs), r);
        r, j := r + 1, 0;
      }
    }
    RoundFair(counts, Sizes(refs), r, j, MAX);
    out := Group(taken, refs, counts);
    truncated := true;
    CutGrouped(refs, counts, MAX);
    if forall x :: x in refs ==> x.kind in SOURCES { CutExact(refs, counts); }
  }

  method Group(taken: map<RefKind, seq<Ref>>, ghost refs: seq<Ref>, ghost counts: seq<nat>) returns (out: seq<Ref>)
    requires Taken(taken, refs, counts)
    ensures |counts| == |SOURCES| && forall k :: 0 <= k < |counts| ==> counts[k] <= |Pool(refs, SOURCES[k])|
    ensures out == Grouped(refs, counts)
  {
    hide Pool;
    out := [];
    var i := 0;
    while i < |SOURCES|
      invariant 0 <= i <= |SOURCES|
      invariant out == Grouped(refs, counts[..i])
    {
      assert counts[..i + 1][..i] == counts[..i];
      out := out + At(taken, SOURCES[i]);
      i := i + 1;
    }
    assert counts[..i] == counts;
  }

  // ---- what the cut holds ----

  lemma {:induction false} PoolHolds(refs: seq<Ref>, kind: RefKind)
    ensures forall x :: x in Pool(refs, kind) <==> x in refs && x.kind == kind
  {
    if refs != [] {
      PoolHolds(refs[..|refs| - 1], kind);
      assert forall x :: x in refs <==> x in refs[..|refs| - 1] || x == refs[|refs| - 1];
    }
  }

  lemma {:induction false} GroupedCount(refs: seq<Ref>, counts: seq<nat>)
    requires |counts| <= |SOURCES| && forall k :: 0 <= k < |counts| ==> counts[k] <= |Pool(refs, SOURCES[k])|
    ensures |Grouped(refs, counts)| == Sum(counts)
  {
    hide Pool;
    if counts != [] { GroupedCount(refs, counts[..|counts| - 1]); }
  }

  /** Within its kind each reference of the cut stands where it stood. */
  lemma {:induction false} GroupedPool(refs: seq<Ref>, counts: seq<nat>, k: nat)
    requires |counts| <= |SOURCES| && forall i :: 0 <= i < |counts| ==> counts[i] <= |Pool(refs, SOURCES[i])|
    requires k < |SOURCES|
    ensures Pool(Grouped(refs, counts), SOURCES[k])
            == if k < |counts| then Pool(refs, SOURCES[k])[..counts[k]] else []
  {
    hide Pool;
    if counts == [] {
      PoolOfOne([], SOURCES[k], SOURCES[k]);
    } else {
      var l := |counts| - 1;
      GroupedPool(refs, counts[..l], k);
      OneGroup(refs, Grouped(refs, counts[..l]), counts[l], l, k);
    }
  }

  /** The share of one kind, put after the shares of others. */
  lemma OneGroup(refs: seq<Ref>, before: seq<Ref>, n: nat, l: nat, k: nat)
    requires l < |SOURCES| && k < |SOURCES| && n <= |Pool(refs, SOURCES[l])|
    ensures Pool(before + Pool(refs, SOURCES[l])[..n], SOURCES[k])
            == Pool(before, SOURCES[k]) + if k == l then Pool(refs, SOURCES[l])[..n] else []
  {
    hide Pool;
    var part := Pool(refs, SOURCES[l])[..n];
    PoolHolds(refs, SOURCES[l]);
    PoolAppend(before, part, SOURCES[k]);
    PoolOfOne(part, SOURCES[l], SOURCES[k]);
    SourcesApart(k, l);
  }

  lemma SourcesApart(k: nat, l: nat)
    requires k < |SOURCES| && l < |SOURCES|
    ensures SOURCES[k] == SOURCES[l] <==> k == l
  {
  }

  lemma {:induction false} PoolAppend(a: seq<Ref>, b: seq<Ref>, kind: RefKind)
    ensures Pool(a + b, kind) == Pool(a, kind) + Pool(b, kind)
  {
    if b == [] {
      assert a + b == a;
    } else {
      PoolAppend(a, b[..|b| - 1], kind);
      assert (a + b)[..|a + b| - 1] == a + b[..|b| - 1];
    }
  }

  lemma {:induction false} PoolOfOne(refs: seq<Ref>, own: RefKind, kind: RefKind)
    requires forall x :: x in refs ==> x.kind == own
    ensures Pool(refs, kind) == if kind == own then refs else []
  {
    if refs != [] {
      var init, last := refs[..|refs| - 1], refs[|refs| - 1];
      assert last in refs && refs == init + [last];
      assert forall x :: x in init ==> x in refs;
      PoolOfOne(init, own, kind);
    }
  }

  /** Every reference of a known kind is counted once. */
  lemma {:induction false} KnownCounted(refs: seq<Ref>)
    requires forall x :: x in refs ==> x.kind in SOURCES
    ensures Sum(Sizes(refs)) == |refs|
  {
    hide Sizes;
    if refs == [] {
      NoSizes();
    } else {
      var init, last := refs[..|refs| - 1], refs[|refs| - 1];
      KnownCounted(init);
      assert last in refs;
      var k :| 0 <= k < |SOURCES| && SOURCES[k] == last.kind;
      SumBump(Sizes(init), k);
      SizesLast(refs, k);
    }
  }

  lemma NoSizes()
    ensures Sum(Sizes([])) == 0
  {
    SumZero(Sizes([]));
  }

  lemma SizesLast(refs: seq<Ref>, k: nat)
    requires refs != [] && k < |SOURCES| && SOURCES[k] == refs[|refs| - 1].kind
    ensures var s := Sizes(refs[..|refs| - 1]); Sizes(refs) == s[k := s[k] + 1]
  {
    assert forall l :: 0 <= l < |SOURCES| && l != k ==> SOURCES[l] != SOURCES[k];
  }

  /** A list of known kinds longer than the cap is cut to exactly the cap, and each
      kind's share is the first part of that kind's own list. */
  lemma CutExact(refs: seq<Ref>, counts: seq<nat>)
    requires |refs| > MAX && (forall x :: x in refs ==> x.kind in SOURCES) && Fair(counts, Sizes(refs), MAX)
    requires forall k :: 0 <= k < |counts| ==> counts[k] <= |Pool(refs, SOURCES[k])|
    ensures |Grouped(refs, counts)| == MAX
    ensures forall k :: 0 <= k < |SOURCES| ==> Pool(Grouped(refs, counts), SOURCES[k]) <= Pool(refs, SOURCES[k])
  {
    hide Pool, Grouped, Sum;
    KnownCounted(refs);
    GroupedCount(refs, counts);
    forall k | 0 <= k < |SOURCES|
      ensures Pool(Grouped(refs, counts), SOURCES[k]) <= Pool(refs, SOURCES[k])
    {
      GroupedPool(refs, counts, k);
    }
  }
}
