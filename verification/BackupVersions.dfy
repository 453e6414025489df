/** backup/restore.go: reading version strings and deciding which is newer. */
module BackupVersions {
  import opened Common

  // ---- comparing ----

  function Part(v: seq<nat>, i: nat): nat { if i < |v| then v[i] else 0 }

  /** a is newer than b: at the first part where they differ, a missing part counting
      as zero, a has the larger. */
  ghost predicate Newer(a: seq<nat>, b: seq<nat>) {
    exists i: nat :: Part(a, i) > Part(b, i) && Agree(a, b, i)
  }

  ghost predicate Agree(a: seq<nat>, b: seq<nat>, i: nat) {
    forall j: nat :: j < i ==> Part(a, j) == Part(b, j)
  }

  /** The loop of snapshotNewerThanApp. */
  method CompareParts(a: seq<nat>, b: seq<nat>) returns (newer: bool)
    ensures newer <==> Newer(a, b)
  {
    var i: nat := 0;
    while i < |a| || i < |b|
      invariant Agree(a, b, i)
      decreases |a| + |b| - i
    {
      var av, bv := 0, 0;
      if i < |a| { av := a[i]; }
      if i < |b| { bv := b[i]; }
      assert av == Part(a, i) && bv == Part(b, i);
      if av != bv { return av > bv; }
      i := i + 1;
    }
    newer := false;
  }

  /** Newer is a strict order, and versions neither of which is newer are the same
      but for zeros at the end. */
  lemma NewerIsAnOrder(a: seq<nat>, b: seq<nat>, c: seq<nat>)
    ensures !(Newer(a, b) && Newer(b, a))
    ensures Newer(a, b) && Newer(b, c) ==> Newer(a, c)
    ensures !Newer(a, b) && !Newer(b, a) <==> forall i: nat :: Part(a, i) == Part(b, i)
  {
    if Newer(a, b) && Newer(b, c) {
      var i: nat :| Part(a, i) > Part(b, i) && Agree(a, b, i);
      var j: nat :| Part(b, j) > Part(c, j) && Agree(b, c, j);
      var k: nat := if i < j then i else j;
      assert Part(a, k) > Part(c, k) && Agree(a, c, k);
    }
    if !Newer(a, b) && !Newer(b, a) {
      forall i: nat
        ensures Part(a, i) == Part(b, i)
      {
        NoFirstDifference(a, b, i);
      }
    }
  }

  /** The first part that differs decides, whatever follows. */
  lemma FirstDifferenceDecides(p: seq<nat>, x: nat, a: seq<nat>, y: nat, b: seq<nat>)
    requires x != y
    ensures Newer(p + [x] + a, p + [y] + b) <==> x > y
  {
    var u, v, n := p + [x] + a, p + [y] + b, |p|;
    assert forall i: nat :: i < n ==> Part(u, i) == p[i] == Part(v, i);
    assert Part(u, n) == x && Part(v, n) == y;
    assert Agree(u, v, n);
    if i: nat :| Part(u, i) > Part(v, i) && Agree(u, v, i) {
      assert i >= n;
    }
  }

  lemma {:induction false} NoFirstDifference(a: seq<nat>, b: seq<nat>, i: nat)
    requires !Newer(a, b) && !Newer(b, a)
    ensures Agree(a, b, i + 1)
  {
    if i > 0 { NoFirstDifference(a, b, i - 1); }
    assert Agree(a, b, i) && Agree(b, a, i);
  }

  // ---- reading ----

  predicate IsDigit(c: char) { '0' <= c <= '9' }

  function DigitRun(s: string): (n: nat)
    ensures n <= |s| && (forall i :: 0 <= i < n ==> IsDigit(s[i])) && (n < |s| ==> !IsDigit(s[n]))
  {
    if s == [] || !IsDigit(s[0]) then 0 else 1 + DigitRun(s[1..])
  }

  function Number(s: string): nat
    requires forall i :: 0 <= i < |s| ==> IsDigit(s[i])
  {
    if s == [] then 0
    else
      assert IsDigit(s[|s| - 1]);
      Number(s[..|s| - 1]) * 10 + (s[|s| - 1] as int - '0' as int)
  }

  /** The pieces between the dots; never none. */
  function SplitDots(s: string): (r: seq<string>)
    ensures |r| > 0
  {
    if s == [] then [""]
    else
      var rest := SplitDots(s[1..]);
      if s[0] == '.' then [""] + rest else [[s[0]] + rest[0]] + rest[1..]
  }

  /** Each piece must start with a digit; one with more after its digits is the last
      that is read. */
  function Pieces(parts: seq<string>): Option<seq<nat>> {
    if parts == [] then Some([])
    else
      var i := DigitRun(parts[0]);
      if i == 0 then None
      else
        var n := Number(parts[0][..i]);
        if n >= INT64 then None
        else if i != |parts[0]| then Some([n])
        else After([n], Pieces(parts[1..]))
  }

  function After(read: seq<nat>, rest: Option<seq<nat>>): Option<seq<nat>> {
    if rest.None? then None else Some(read + rest.value)
  }

  predicate Space(c: char) {
    c in "\t\n\U{B}\U{C}\r \U{85}\U{A0}\U{1680}\U{2028}\U{2029}\U{202F}\U{205F}\U{3000}" ||
        '\U{2000}' <= c <= '\U{200A}'
  }

  function TrimLeft(s: string): string { if s != [] && Space(s[0]) then TrimLeft(s[1..]) else s }

  function TrimRight(s: string): string {
    if s != [] && Space(s[|s| - 1]) then TrimRight(s[..|s| - 1]) else s
  }

  function Core(s: string): string {
    var t := TrimRight(TrimLeft(s));
    if t != [] && t[0] == 'v' then t[1..] else t
  }

  function ParseVersion(s: string): Option<seq<nat>> {
    var t := Core(s);
    if t == "" || t == "dev" then None else Pieces(SplitDots(t))
  }

  /** parseVersion. */
  method ReadVersion(s: string) returns (r: Option<seq<nat>>)
    ensures r == ParseVersion(s)
  {
    hide Core, SplitDots, Number;
    var t := Core(s);
    if t == "" || t == "dev" { return None; }
    var parts := SplitDots(t);
    var out: seq<nat> := [];
    var k := 0;
    assert parts[0..] == parts;
    assert Pieces(parts).Some? ==> [] + Pieces(parts).value == Pieces(parts).value;
    while k < |parts|
      invariant 0 <= k <= |parts|
      invariant Pieces(parts) == After(out, Pieces(parts[k..]))
    {
      var p := parts[k];
      assert parts[k..][0] == p && parts[k..][1..] == parts[k + 1..];
      ghost var rest := Pieces(parts[k + 1..]);
      var i := 0;
      while i < |p| && IsDigit(p[i])
        invariant 0 <= i <= |p| && forall j :: 0 <= j < i ==> IsDigit(p[j])
      {
        i := i + 1;
      }
      RunUnique(p, i);
      if i == 0 { return None; }
      var n := Number(p[..i]);
      if n >= INT64 { return None; }
      assert rest.Some? ==> out + ([n] + rest.value) == out + [n] + rest.value;
      out := out + [n];
      if i != |p| { return Some(out); }
      k := k + 1;
    }
    r := Some(out);
    assert out + [] == out;
  }

  lemma RunUnique(s: string, n: nat)
    requires n <= |s| && (forall i :: 0 <= i < n ==> IsDigit(s[i])) && (n < |s| ==> !IsDigit(s[n]))
    ensures DigitRun(s) == n
  {
  }

  function Join(v: seq<nat>): string {
    if v == [] then "" else if |v| == 1 then Decimal(v[0]) else Decimal(v[0]) + "." + Join(v[1..])
  }

  lemma {:induction false} NumberOfDecimal(n: nat)
    ensures Number(Decimal(n)) == n
  {
    var s := Decimal(n);
    if n >= 10 {
      NumberOfDecimal(n / 10);
      assert s[..|s| - 1] == Decimal(n / 10);
    }
  }

  lemma {:induction false} SplitAtDot(a: string, b: string)
    requires '.' !in a
    ensures SplitDots(a + "." + b) == [a] + SplitDots(b)
  {
    if a == "" {
      assert a + "." + b == "." + b && ("." + b)[1..] == b;
    } else {
      SplitAtDot(a[1..], b);
      assert (a + "." + b)[1..] == a[1..] + "." + b;
      assert a == [a[0]] + a[1..];
    }
  }

  lemma {:induction false} SplitInside(a: string, b: string)
    requires '.' !in a
    ensures SplitDots(a + b)[0] == a + SplitDots(b)[0] && SplitDots(a + b)[1..] == SplitDots(b)[1..]
  {
    if a == "" {
      assert a + b == b;
    } else {
      SplitInside(a[1..], b);
      assert (a + b)[1..] == a[1..] + b;
      assert a == [a[0]] + a[1..];
    }
  }

  predicate Numeral(d: string) {
    d != "" && forall i :: 0 <= i < |d| ==> IsDigit(d[i])
  }

  /** What may follow the number of a piece: nothing, or something not part of it. */
  predicate Suffix(s: string) {
    s == "" || (!IsDigit(s[0]) && s[0] != '.')
  }

  lemma SuffixPiece(s: string)
    requires Suffix(s)
    ensures var h := SplitDots(s)[0]; if s == "" then h == "" && SplitDots(s)[1..] == [] else h != "" && !IsDigit(h[0])
  {
  }

  lemma ReadsBackOne(d: string, suffix: string)
    requires Numeral(d) && Number(d) < INT64 && Suffix(suffix)
    ensures Pieces(SplitDots(d + suffix)) == Some([Number(d)])
  {
    hide DigitRun, Number, Numeral, Suffix, SplitDots;
    NumeralNoDot(d);
    SplitInside(d, suffix);
    SuffixPiece(suffix);
    FirstPiece(SplitDots(d + suffix), d, SplitDots(suffix)[0]);
  }

  lemma NumeralNoDot(d: string)
    requires Numeral(d)
    ensures '.' !in d
  {
  }

  /** A version written with dots reads back part for part, whether or not a suffix
      that starts with neither digit nor dot follows. */
  lemma {:induction false} ReadsBack(v: seq<nat>, suffix: string)
    requires v != [] && forall i :: 0 <= i < |v| ==> v[i] < INT64
    requires Suffix(suffix)
    ensures Pieces(SplitDots(Join(v) + suffix)) == Some(v)
  {
    hide DigitRun, Number, Decimal, Pieces, SplitDots, Numeral, Suffix;
    var d := Decimal(v[0]);
    DecimalNumeral(v[0]);
    NumberOfDecimal(v[0]);
    assert v == [v[0]] + v[1..];
    if |v| == 1 {
      ReadsBackOne(d, suffix);
      assert [Number(d)] == v && Join(v) == d;
    } else {
      ReadsBack(v[1..], suffix);
      var rest := Join(v[1..]) + suffix;
      assert Join(v) + suffix == d + "." + rest;
      ReadsOn(d, rest, v[1..]);
    }
  }

  lemma DecimalNumeral(n: nat)
    ensures Numeral(Decimal(n))
  {
  }

  lemma ReadsOn(d: string, rest: string, v: seq<nat>)
    requires Numeral(d) && Number(d) < INT64 && Pieces(SplitDots(rest)) == Some(v)
    ensures Pieces(SplitDots(d + "." + rest)) == Some([Number(d)] + v)
  {
    hide DigitRun, Number, Numeral, SplitDots;
    NumeralNoDot(d);
    SplitAtDot(d, rest);
    var parts := SplitDots(d + "." + rest);
    assert parts[1..] == SplitDots(rest) && d + "" == d;
    FirstPiece(parts, d, "");
  }

  lemma FirstPiece(parts: seq<string>, d: string, h: string)
    requires parts != [] && parts[0] == d + h && Numeral(d) && Number(d) < INT64
    requires h == "" || !IsDigit(h[0])
    ensures Pieces(parts) == if h != "" then Some([Number(d)]) else After([Number(d)], Pieces(parts[1..]))
    ensures h != "" || parts[1..] == [] ==> Pieces(parts) == Some([Number(d)])
  {
    assert [Number(d)] + [] == [Number(d)];
    RunUnique(d + h, |d|);
    assert (d + h)[..|d|] == d;
  }

  /** snapshotNewerThanApp: a version that cannot be read is never newer. */
  method SnapshotNewerThanApp(snap: string, app: string) returns (newer: bool)
    ensures newer <==> NewerText(snap, app)
    ensures newer <==> ParseVersion(snap).Some? && ParseVersion(app).Some? &&
                       Newer(ParseVersion(snap).value, ParseVersion(app).value)
  {
    var a := ReadVersion(snap);
    var b := ReadVersion(app);
    if a.None? || b.None? { return false; }
    newer := CompareParts(a.value, b.value);
  }

  ghost predicate NewerText(snap: string, app: string) {
    var a, b := ParseVersion(snap), ParseVersion(app);
    a.Some? && b.Some? && Newer(a.value, b.value)
  }

  /** A snapshot is never newer than the application that wrote it. */
  lemma OwnVersionPasses(app: string)
    ensures !NewerText(app, app)
  {
    if NewerText(app, app) {
      var a := ParseVersion(app).value;
      NewerIsAnOrder(a, a, a);
    }
  }

  // ---- the whole text ----

  predicate Blank(s: string) { forall i :: 0 <= i < |s| ==> Space(s[i]) }

  lemma {:induction false} LeftTrimmed(left: string, s: string)
    requires Blank(left) && (s == "" || !Space(s[0]))
    ensures TrimLeft(left + s) == s
  {
    hide Space;
    if left == "" {
      assert left + s == s;
    } else {
      LeftTrimmed(left[1..], s);
      assert (left + s)[1..] == left[1..] + s;
    }
  }

  lemma {:induction false} RightTrimmed(s: string, right: string)
    requires Blank(right) && (s == "" || !Space(s[|s| - 1]))
    ensures TrimRight(s + right) == s
  {
    hide Space;
    if right == "" {
      assert s + right == s;
    } else {
      RightTrimmed(s, right[..|right| - 1]);
      assert (s + right)[..|s + right| - 1] == s + right[..|right| - 1];
      assert (s + right)[|s + right| - 1] == right[|right| - 1];
    }
  }

  lemma TrimmedBoth(left: string, s: string, right: string)
    requires Blank(left) && Blank(right) && s != "" && !Space(s[0]) && !Space(s[|s| - 1])
    ensures TrimRight(TrimLeft(left + s + right)) == s
  {
    hide Space, Blank, TrimLeft, TrimRight;
    assert left + s + right == left + (s + right) && (s + right)[0] == s[0];
    LeftTrimmed(left, s + right);
    RightTrimmed(s, right);
  }

  /** A version's text begins with a digit and, but for its suffix, ends with one. */
  lemma {:induction false} JoinEnds(v: seq<nat>)
    requires v != []
    ensures Join(v) != "" && IsDigit(Join(v)[0]) && IsDigit(Join(v)[|Join(v)| - 1])
  {
    hide IsDigit, Decimal;
    DecimalNumeral(v[0]);
    NumeralEnds(Decimal(v[0]));
    if |v| > 1 { JoinEnds(v[1..]); }
  }

  lemma NumeralEnds(d: string)
    requires Numeral(d)
    ensures IsDigit(d[0]) && IsDigit(d[|d| - 1])
  {
  }

  lemma CoreFound(left: string, body: string, prefixed: bool, right: string)
    requires Blank(left) && Blank(right) && body != "" && IsDigit(body[0]) && !Space(body[|body| - 1])
    ensures Core(left + (if prefixed then "v" + body else body) + right) == body && body != "dev"
  {
    hide Blank, TrimLeft, TrimRight, Space;
    var s := if prefixed then "v" + body else body;
    NoSpaces(s[0]);
    assert s[|s| - 1] == body[|body| - 1];
    TrimmedBoth(left, s, right);
  }

  lemma BodyEnds(text: string, suffix: string)
    requires text != "" && IsDigit(text[0]) && IsDigit(text[|text| - 1])
    requires suffix != "" ==> !Space(suffix[|suffix| - 1])
    ensures var body := text + suffix; body != "" && IsDigit(body[0]) && !Space(body[|body| - 1])
  {
    hide Space;
    NoSpaces(text[|text| - 1]);
    assert suffix == "" ==> text + suffix == text;
  }

  /** parseVersion reads a dotted version back part for part, with or without a v before
      it, a suffix after it, and spaces around the whole. */
  lemma VersionReadsBack(left: string, v: seq<nat>, prefixed: bool, suffix: string, right: string)
    requires v != [] && forall i :: 0 <= i < |v| ==> v[i] < INT64
    requires Blank(left) && Blank(right)
    requires Suffix(suffix) && (suffix != "" ==> !Space(suffix[|suffix| - 1]))
    ensures var body := Join(v) + suffix;
            ParseVersion(left + (if prefixed then "v" + body else body) + right) == Some(v)
  {
    hide Join, Blank, Core, Pieces, SplitDots, Suffix, Space;
    JoinEnds(v);
    BodyEnds(Join(v), suffix);
    CoreFound(left, Join(v) + suffix, prefixed, right);
    ReadsBack(v, suffix);
  }

  /** How any text is read, piece by piece: what does not begin with a digit is no
      version; a number of 2^63 or more makes the whole unreadable; a number followed by
      neither a digit nor a dot is the last; and after a dot the rest must be readable. */
  lemma PiecesTell(d: string, suffix: string, rest: string)
    requires Numeral(d) && Suffix(suffix)
    ensures Pieces(SplitDots(d + suffix)) == if Number(d) >= 0x8000_0000_0000_0000 then None else Some([Number(d)])
    ensures Pieces(SplitDots(d + "." + rest)) ==
            if Number(d) >= 0x8000_0000_0000_0000 || Pieces(SplitDots(rest)).None? then None
            else Some([Number(d)] + Pieces(SplitDots(rest)).value)
    ensures rest == "" || !IsDigit(rest[0]) ==> Pieces(SplitDots(rest)).None?
  {
    hide DigitRun, Number, Suffix, SplitDots;
    NumeralNoDot(d);
    SplitInside(d, suffix);
    SuffixPiece(suffix);
    SplitAtDot(d, rest);
    assert d + "" == d;
    if Number(d) < INT64 {
      FirstPiece(SplitDots(d + suffix), d, SplitDots(suffix)[0]);
      FirstPiece(SplitDots(d + "." + rest), d, "");
    } else {
      TooLarge(SplitDots(d + suffix), d, SplitDots(suffix)[0]);
      TooLarge(SplitDots(d + "." + rest), d, "");
    }
    NoNumber(rest);
  }

  lemma TooLarge(parts: seq<string>, d: string, h: string)
    requires parts != [] && parts[0] == d + h && Numeral(d) && Number(d) >= INT64
    requires h == "" || !IsDigit(h[0])
    ensures Pieces(parts).None?
  {
    RunUnique(d + h, |d|);
    assert (d + h)[..|d|] == d;
  }

  lemma NoNumber(s: string)
    ensures s == "" || !IsDigit(s[0]) ==> Pieces(SplitDots(s)).None?
  {
    if s != "" && s[0] != '.' { assert SplitDots(s)[0][0] == s[0]; }
  }

  /** The spaces around a text, and one v before it, do not count; a text of spaces, or of
      a v alone, is no version. */
  lemma TextTells(left: string, body: string, prefixed: bool, right: string)
    requires Blank(left) && Blank(right)
    requires body != "" ==> !Space(body[0]) && !Space(body[|body| - 1]) && (prefixed || body[0] != 'v')
    ensures ParseVersion(left + (if prefixed then "v" + body else body) + right) ==
            if body == "" || !IsDigit(body[0]) then None else Pieces(SplitDots(body))
  {
    hide Pieces, SplitDots, Space;
    CoreTold(left, body, prefixed, right);
    NoNumber(body);
  }

  lemma CoreTold(left: string, body: string, prefixed: bool, right: string)
    requires Blank(left) && Blank(right)
    requires body != "" ==> !Space(body[0]) && !Space(body[|body| - 1]) && (prefixed || body[0] != 'v')
    ensures Core(left + (if prefixed then "v" + body else body) + right) == body
  {
    hide Blank, TrimLeft, TrimRight, Space;
    var s := if prefixed then "v" + body else body;
    NoSpaces('v');
    if s == "" {
      BlankTrims(left, right);
    } else {
      assert s[|s| - 1] == if body == "" then 'v' else body[|body| - 1];
      TrimmedBoth(left, s, right);
    }
  }

  lemma BlankTrims(left: string, right: string)
    requires Blank(left) && Blank(right)
    ensures TrimRight(TrimLeft(left + "" + right)) == ""
  {
    hide Space;
    var all := left + "" + right;
    assert Blank(all) && all + "" == all;
    LeftTrimmed(all, "");
  }

  /** The spaces are those of the Unicode property White_Space. */
  lemma SpacesAre(c: char)
    ensures Space(c) <==>
            var n := c as int;
            || 9 <= n <= 13 || n == 32 || n == 0x85 || n == 0xA0 || n == 0x1680 || 0x2000 <= n <= 0x200A
            || n == 0x2028 || n == 0x2029 || n == 0x202F || n == 0x205F || n == 0x3000
  {
  }

  lemma NoSpaces(c: char)
    ensures IsDigit(c) || c == 'v' ==> !Space(c)
  {
  }
}
