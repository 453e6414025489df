/** The path checks of backup/engine.go, verify.go and restore.go, over paths split at
    their slashes. */
module BackupPaths {
  import opened Common

  /** A cleaned path below some directory, or an absolute one. */
  type Path = seq<string>

  /** A path as written: whether it starts at the root, and what stands between its
      slashes. */
  datatype Raw = Raw(absolute: bool, segs: seq<string>)

  predicate Plain(s: string) { s != "" && s != "." && s != ".." }

  ghost predicate Normal(p: Path) {
    forall i :: 0 <= i < |p| ==> Plain(p[i])
  }

  /** path.Clean, one segment at a time. */
  function CleanStep(out: Path, absolute: bool, s: string): Path {
    if s == "" || s == "." then out
    else if s != ".." then out + [s]
    else if out != [] && out[|out| - 1] != ".." then out[..|out| - 1]
    else if absolute then out
    else out + [".."]
  }

  function Clean(raw: Raw): Path
    decreases |raw.segs|
  {
    if raw.segs == [] then []
    else CleanStep(Clean(raw.(segs := raw.segs[..|raw.segs| - 1])), raw.absolute, raw.segs[|raw.segs| - 1])
  }

  /** safeRel, and the same rule where snapshots are written. */
  function SafeRel(raw: Raw): Option<Path> {
    var c := Clean(raw);
    if c == [] || raw.absolute || c[0] == ".." then None else Some(c)
  }

  /** filepath.Rel between two absolute clean paths. */
  function RelTo(base: Path, target: Path): Path {
    if base == [] then target
    else if target != [] && base[0] == target[0] then RelTo(base[1..], target[1..])
    else Ups(|base|) + target
  }

  function Ups(n: nat): (p: Path)
    ensures |p| == n
  {
    seq(n, _ => "..")
  }

  /** containedJoin. */
  function ContainedJoin(root: Path, rel: seq<string>): Option<Path> {
    var dest := Clean(Raw(true, root + rel));
    var r := RelTo(root, dest);
    if r != [] && r[0] == ".." then None else Some(dest)
  }

  // ---- what they accept ----

  lemma CleanLast(absolute: bool, segs: seq<string>, s: string)
    ensures Clean(Raw(absolute, segs + [s])) == CleanStep(Clean(Raw(absolute, segs)), absolute, s)
  {
    assert (segs + [s])[..|segs|] == segs;
  }

  /** Cleaning reads on from where the front came to. */
  lemma {:induction false} CleanOn(absolute: bool, p: seq<string>, p': seq<string>, q: seq<string>)
    requires Clean(Raw(absolute, p)) == Clean(Raw(absolute, p'))
    ensures Clean(Raw(absolute, p + q)) == Clean(Raw(absolute, p' + q))
  {
    if q == [] {
      assert p + q == p && p' + q == p';
    } else {
      var init, s := q[..|q| - 1], q[|q| - 1];
      CleanOn(absolute, p, p', init);
      assert p + q == p + init + [s] && p' + q == p' + init + [s];
      CleanLast(absolute, p + init, s);
      CleanLast(absolute, p' + init, s);
    }
  }

  /** What may be left out of a path, anywhere in it, without changing what it cleans to:
      an empty segment or ".", a name and the ".." after it, and a ".." at the root. */
  lemma CleanLaws(absolute: bool, p: seq<string>, s: string, q: seq<string>)
    ensures s == "" || s == "." ==> Clean(Raw(absolute, p + [s] + q)) == Clean(Raw(absolute, p + q))
    ensures s != "" && s != "." && s != ".." ==>
              Clean(Raw(absolute, p + [s, ".."] + q)) == Clean(Raw(absolute, p + q))
    ensures Clean(Raw(true, [".."] + q)) == Clean(Raw(true, q))
  {
    CleanLast(absolute, p, s);
    assert p + [s, ".."] == p + [s] + [".."];
    CleanLast(absolute, p + [s], "..");
    if s == "" || s == "." { CleanOn(absolute, p + [s], p, q); }
    if Plain(s) { CleanOn(absolute, p + [s, ".."], p, q); }
    CleanLast(true, [], "..");
    assert [] + [".."] == [".."] && [] + q == q;
    CleanOn(true, [".."], [], q);
  }

  /** With nothing left to leave out a path is clean already: names alone, or, of a
      relative path, after climbing. With CleanLaws this says what every path cleans
      to. */
  lemma {:induction false} CleanFixed(absolute: bool, n: nat, p: Path)
    requires Normal(p) && (absolute ==> n == 0)
    ensures Clean(Raw(absolute, Ups(n) + p)) == Ups(n) + p
    decreases n, |p|
  {
    if p != [] {
      var init := p[..|p| - 1];
      CleanFixed(absolute, n, init);
      assert Ups(n) + p == Ups(n) + init + [p[|p| - 1]];
      CleanLast(absolute, Ups(n) + init, p[|p| - 1]);
    } else if n > 0 {
      CleanFixed(absolute, n - 1, []);
      assert Ups(n) + [] == Ups(n - 1) + [] + [".."];
      CleanLast(absolute, Ups(n - 1) + [], "..");
    }
  }

  /** A clean path climbs, if at all, before it descends; an absolute one never. */
  lemma {:induction false} CleanShape(raw: Raw)
    ensures raw.absolute ==> Normal(Clean(raw))
    ensures Clean(raw) != [] && Clean(raw)[0] != ".." ==> Normal(Clean(raw))
    ensures forall i :: 0 <= i < |Clean(raw)| ==> Clean(raw)[i] == ".." || Plain(Clean(raw)[i])
    decreases |raw.segs|
  {
    if raw.segs != [] {
      CleanShape(raw.(segs := raw.segs[..|raw.segs| - 1]));
    }
  }

  /** A normal path is clean already. */
  lemma {:induction false} CleanNormal(absolute: bool, p: Path)
    requires Normal(p)
    ensures Clean(Raw(absolute, p)) == p
    decreases |p|
  {
    if p != [] {
      var init := p[..|p| - 1];
      CleanNormal(absolute, init);
      assert p == init + [p[|p| - 1]];
      CleanLast(absolute, init, p[|p| - 1]);
    }
  }

  /** What a path that passes reads back as is itself. */
  lemma SafeRelNormal(raw: Raw)
    requires SafeRel(raw).Some?
    ensures var p := SafeRel(raw).value; p != [] && Normal(p) && SafeRel(Raw(false, p)) == Some(p)
  {
    CleanShape(raw);
    var p := SafeRel(raw).value;
    CleanNormal(false, p);
  }

  /** How far below its start a path has got: a name goes down, ".." goes up. */
  function Depth(segs: seq<string>): int {
    if segs == [] then 0
    else
      var s := segs[|segs| - 1];
      Depth(segs[..|segs| - 1]) + if Plain(s) then 1 else if s == ".." then -1 else 0
  }

  ghost predicate EverAbove(segs: seq<string>) {
    exists k :: 0 <= k <= |segs| && Depth(segs[..k]) < 0
  }

  lemma {:induction false} CleanDepth(segs: seq<string>)
    ensures var c := Clean(Raw(false, segs));
            && (EverAbove(segs) <==> c != [] && c[0] == "..")
            && (!EverAbove(segs) ==> |c| == Depth(segs))
  {
    if segs == [] {
      assert forall k :: 0 <= k <= |segs| ==> segs[..k] == [];
    } else {
      var init, s := segs[..|segs| - 1], segs[|segs| - 1];
      CleanDepth(init);
      CleanShape(Raw(false, init));
      AboveLast(init, s);
      assert segs == init + [s];
    }
  }

  lemma AboveLast(segs: seq<string>, s: string)
    ensures EverAbove(segs + [s]) <==> EverAbove(segs) || Depth(segs + [s]) < 0
  {
    var all := segs + [s];
    assert all[..|all|] == all;
    assert forall k :: 0 <= k <= |segs| ==> all[..k] == segs[..k];
    if k :| 0 <= k <= |segs| && Depth(segs[..k]) < 0 { assert Depth(all[..k]) < 0; }
  }

  /** safeRel refuses exactly the absolute paths, those that at some point stand above
      their start, and those that end where they started. */
  lemma SafeRelExactly(raw: Raw)
    ensures SafeRel(raw).Some? <==> !raw.absolute && !EverAbove(raw.segs) && Depth(raw.segs) != 0
  {
    CleanDepth(raw.segs);
    assert raw == Raw(raw.absolute, raw.segs);
  }

  lemma {:induction false} RelToInside(base: Path, target: Path)
    requires Normal(target)
    ensures base <= target ==> RelTo(base, target) == target[|base|..]
    ensures base <= target <==> !(RelTo(base, target) != [] && RelTo(base, target)[0] == "..")
  {
    if base != [] && target != [] && base[0] == target[0] {
      RelToInside(base[1..], target[1..]);
      assert base == [base[0]] + base[1..] && target == [target[0]] + target[1..];
    }
  }

  /** containedJoin accepts exactly what ends up inside the root, whatever is joined to
      it; a path that passed safeRel always does, and lands where it says. */
  lemma ContainedExactly(root: Path, rel: seq<string>)
    ensures ContainedJoin(root, rel).Some? <==> root <= Clean(Raw(true, root + rel))
    ensures ContainedJoin(root, rel).Some? ==> root <= ContainedJoin(root, rel).value
    ensures Normal(root) && Normal(rel) ==> ContainedJoin(root, rel) == Some(root + rel)
  {
    CleanShape(Raw(true, root + rel));
    RelToInside(root, Clean(Raw(true, root + rel)));
    if Normal(root) && Normal(rel) { CleanNormal(true, root + rel); }
  }
}
