/** Small vocabulary shared by every component. */
module Common {
  datatype Option<+T> = None | Some(value: T)

  datatype Result<+T, +E> = Ok(value: T) | Err(error: E)

  /** A sequence without its element at i: what Go's append(s[:i], s[i+1:]...) leaves. */
  function Without<T>(s: seq<T>, i: nat): (r: seq<T>)
    requires i < |s|
    ensures |r| == |s| - 1
    ensures forall k :: 0 <= k < |r| ==> r[k] == if k < i then s[k] else s[k + 1]
  {
    s[..i] + s[i + 1..]
  }

  /** The elements that satisfy keep, in order. */
  function Filter<T(!new)>(s: seq<T>, keep: T -> bool): (r: seq<T>)
    ensures forall x :: x in r <==> x in s && keep(x)
    ensures |r| <= |s|
  {
    if s == [] then []
    else
      var rest := Filter(s[..|s| - 1], keep);
      if keep(s[|s| - 1]) then rest + [s[|s| - 1]] else rest
  }

  /** The position of the first element whose key is wanted, or -1. */
  function Find<T, K(==)>(s: seq<T>, key: T -> K, wanted: K): (i: int)
    ensures -1 <= i < |s|
    ensures i >= 0 ==> key(s[i]) == wanted
    ensures forall k :: 0 <= k < (if i >= 0 then i else |s|) ==> key(s[k]) != wanted
  {
    FindFrom(s, key, wanted, 0)
  }

  function FindFrom<T, K(==)>(s: seq<T>, key: T -> K, wanted: K, from: nat): (i: int)
    requires from <= |s|
    ensures i == -1 || from <= i < |s|
    ensures i >= 0 ==> key(s[i]) == wanted
    ensures forall k :: from <= k < (if i >= 0 then i else |s|) ==> key(s[k]) != wanted
    decreases |s| - from
  {
    if from == |s| then -1 else if key(s[from]) == wanted then from else FindFrom(s, key, wanted, from + 1)
  }

  /** No two positions carry the same key. */
  ghost predicate Distinct<T, K>(s: seq<T>, key: T -> K) {
    forall i, j :: 0 <= i < j < |s| ==> key(s[i]) != key(s[j])
  }

  /** A filtered sequence keeps keys distinct. */
  lemma {:induction false} FilterDistinct<T(!new), K>(s: seq<T>, keep: T -> bool, key: T -> K)
    requires Distinct(s, key)
    ensures Distinct(Filter(s, keep), key)
  {
    if s != [] {
      var init := s[..|s| - 1];
      assert Distinct(init, key);
      FilterDistinct(init, keep, key);
      var rest := Filter(init, keep);
      forall i | 0 <= i < |rest|
        ensures key(rest[i]) != key(s[|s| - 1])
      {
        assert rest[i] in init;
      }
    }
  }

  lemma {:induction false} KeepsAll<T(!new)>(s: seq<T>, keep: T -> bool)
    requires forall x :: x in s ==> keep(x)
    ensures Filter(s, keep) == s
  {
    if s != [] { KeepsAll(s[..|s| - 1], keep); }
  }

  /** now has the elements of was that p names, in their order, each as often. */
  ghost predicate KeptOf<T(!new)>(was: seq<T>, now: seq<T>, p: T -> bool) {
    exists at: seq<nat> :: Picks(was, now, p, at)
  }

  /** at lists, in order, exactly the places of was where p holds. */
  ghost predicate Picks<T(!new)>(was: seq<T>, now: seq<T>, p: T -> bool, at: seq<nat>) {
    && |at| == |now|
    && (forall k :: 0 <= k < |at| ==> at[k] < |was| && now[k] == was[at[k]])
    && (forall k, l :: 0 <= k < l < |at| ==> at[k] < at[l])
    && (forall i: nat :: i < |was| ==> (p(was[i]) <==> i in at))
  }

  lemma {:induction false} FilterPicks<T(!new)>(s: seq<T>, keep: T -> bool, p: T -> bool) returns (at: seq<nat>)
    requires forall x :: x in s ==> (keep(x) <==> p(x))
    ensures Picks(s, Filter(s, keep), p, at)
  {
    if s == [] {
      at := [];
    } else {
      var n := |s| - 1;
      var init := FilterPicks(s[..n], keep, p);
      assert s[n] in s;
      at := if keep(s[n]) then init + [n] else init;
      PickedOn(s, Filter(s[..n], keep), p, init);
    }
  }

  /** The places picked from all but the last element, and then that one or not. */
  lemma PickedOn<T(!new)>(s: seq<T>, kept: seq<T>, p: T -> bool, at: seq<nat>)
    requires s != [] && Picks(s[..|s| - 1], kept, p, at)
    ensures var n: nat := |s| - 1;
            if p(s[n]) then Picks(s, kept + [s[n]], p, at + [n]) else Picks(s, kept, p, at)
  {
    var n: nat := |s| - 1;
    assert forall i :: 0 <= i < n ==> s[..n][i] == s[i];
    assert forall k :: 0 <= k < |at| ==> at[k] in at && at[k] < n;
    assert forall i: nat :: i in at + [n] <==> i in at || i == n;
  }

  lemma FilterKept<T(!new)>(s: seq<T>, keep: T -> bool, p: T -> bool)
    requires forall x :: x in s ==> (keep(x) <==> p(x))
    ensures KeptOf(s, Filter(s, keep), p)
  {
    var at := FilterPicks(s, keep, p);
  }

  /** The loop behind every "for i := range xs { if xs[i].ID == id }" lookup. */
  method FindIndex<T, K(==)>(s: seq<T>, key: T -> K, wanted: K) returns (i: int)
    ensures i == Find(s, key, wanted)
  {
    i := 0;
    while i < |s|
      invariant 0 <= i <= |s|
      invariant forall k :: 0 <= k < i ==> key(s[k]) != wanted
    {
      if key(s[i]) == wanted { return; }
      i := i + 1;
    }
    i := -1;
  }

  /** The loop behind every "kept := xs[:0]" sweep. */
  method Sweep<T(!new)>(s: seq<T>, keep: T -> bool) returns (kept: seq<T>)
    ensures kept == Filter(s, keep)
  {
    kept := [];
    var i := 0;
    while i < |s|
      invariant 0 <= i <= |s|
      invariant kept == Filter(s[..i], keep)
    {
      assert s[..i + 1][..i] == s[..i];
      if keep(s[i]) { kept := kept + [s[i]]; }
      i := i + 1;
    }
    assert s[..|s|] == s;
  }

  /** The last n elements, or all of them. */
  function Last<T>(s: seq<T>, n: nat): seq<T> {
    if |s| <= n then s else s[|s| - n..]
  }

  function Identity<T>(x: T): T { x }

  // ---- numbers ----

  /** One past the largest 64-bit signed integer. */
  const INT64 := 0x8000_0000_0000_0000

  /** A number as fmt writes it with %d. */
  function Decimal(n: nat): (s: string)
    ensures |s| > 0
    ensures forall i :: 0 <= i < |s| ==> '0' <= s[i] <= '9'
  {
    if n < 10 then [('0' as int + n) as char] else Decimal(n / 10) + [('0' as int + n % 10) as char]
  }

  lemma {:induction false} DecimalInjective(m: nat, n: nat)
    requires Decimal(m) == Decimal(n)
    ensures m == n
  {
    var a, b := Decimal(m), Decimal(n);
    assert (|a| > 1 <==> m >= 10) && (|b| > 1 <==> n >= 10);
    if m >= 10 {
      assert a[..|a| - 1] == Decimal(m / 10) && b[..|b| - 1] == Decimal(n / 10);
      assert a[|a| - 1] == b[|b| - 1];
      DecimalInjective(m / 10, n / 10);
    } else {
      assert a[0] == b[0];
    }
  }
}
