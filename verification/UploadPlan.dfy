/** api/upload.go: the parts a file is uploaded in. */
module UploadPlan {
  import opened Common

  const PART_SIZE := 0x400_0000  // 64 MiB
  const MAX_PARTS := 25

  datatype Plan = Plan(partSize: nat, parts: nat)

  /** ossPartPlan. */
  function PartPlan(size: nat): Plan {
    if size <= PART_SIZE then Plan(PART_SIZE, 1)
    else
      var parts := (size + PART_SIZE - 1) / PART_SIZE;
      if parts > MAX_PARTS then Plan((size + MAX_PARTS - 1) / MAX_PARTS, MAX_PARTS) else Plan(PART_SIZE, parts)
  }

  lemma CeilDiv(size: nat, d: nat)
    requires d > 0 && size > 0
    ensures var q := (size + d - 1) / d; q > 0 && (q - 1) * d < size <= q * d
  {
    var q := (size + d - 1) / d;
    assert size + d - 1 == q * d + (size + d - 1) % d;
    assert (q - 1) * d == q * d - d;
    assert q == 0 ==> q * d == 0;
  }

  lemma GrownParts(size: nat)
    requires size > MAX_PARTS * PART_SIZE
    ensures var n := (size + MAX_PARTS - 1) / MAX_PARTS; n >= PART_SIZE && (MAX_PARTS - 1) * n < size <= MAX_PARTS * n
  {
  }

  /** At most 25 parts, none planned below 64 MiB, that cover the file with none to
      spare: the last one starts inside it. The size of a part grows only when 25 of
      64 MiB do not suffice. */
  lemma PlanCovers(size: nat)
    ensures var p := PartPlan(size);
            && 1 <= p.parts <= MAX_PARTS && p.partSize >= PART_SIZE
            && size <= p.parts * p.partSize
            && (size > 0 ==> (p.parts - 1) * p.partSize < size)
            && (p.partSize > PART_SIZE ==> size > MAX_PARTS * PART_SIZE && p.parts == MAX_PARTS)
  {
    if size > PART_SIZE {
      CeilDiv(size, PART_SIZE);
      if size > MAX_PARTS * PART_SIZE { GrownParts(size); }
    }
  }

  /** In numbers: parts of 64 MiB while 25 of them suffice, else 25 of the least size
      that does. */
  lemma PlanSized(size: nat)
    ensures size <= 1_677_721_600 ==> PartPlan(size).partSize == 67_108_864 && PartPlan(size).parts <= 25
    ensures size > 1_677_721_600 ==>
              var p := PartPlan(size); p.parts == 25 && 25 * (p.partSize - 1) < size <= 25 * p.partSize
  {
    if size > PART_SIZE { CeilDiv(size, PART_SIZE); }
  }

  /** No sum or product of the plan or of the loop leaves 64 bits, for any file whose
      size leaves room for one part more. */
  lemma FitsInt64(size: nat, i: nat)
    requires size <= INT64 - PART_SIZE && i < PartPlan(size).parts
    ensures size + PART_SIZE - 1 < INT64 && size + MAX_PARTS - 1 < INT64
    ensures i * PartPlan(size).partSize < INT64
  {
    PlanCovers(size);
    var p := PartPlan(size);
    if size > 0 { Times(i, p.parts - 1, p.partSize); }
  }

  lemma Times(a: nat, b: nat, c: nat)
    requires a <= b
    ensures a * c <= b * c
  {
  }

  /** Where a part begins, and how it stands to the end of the file. */
  lemma PartPlaced(size: nat, i: nat, ps: nat, off: nat)
    requires i < PartPlan(size).parts && ps == PartPlan(size).partSize && off == i * ps
    ensures off <= size && (size > 0 ==> off < size) && ps > 0
    ensures i + 1 < PartPlan(size).parts ==> off + ps <= size
    ensures i + 1 == PartPlan(size).parts ==> size <= off + ps
  {
    hide PartPlan;
    PlanCovers(size);
    var n := PartPlan(size).parts;
    Times(i, n - 1, ps);
    assert (i + 1) * ps == off + ps;
    if size == 0 { PlanOfNothing(); }
    if i + 1 < n { Times(i + 1, n - 1, ps); }
  }

  lemma PlanOfNothing()
    ensures PartPlan(0).parts == 1
  {
  }

  datatype Range = Range(off: nat, len: nat)

  /** The bytes that part i carries. */
  function PartRange(size: nat, i: nat): (r: Range)
    requires i < PartPlan(size).parts
    ensures r.off == i * PartPlan(size).partSize
    ensures r.off + r.len <= size && (size > 0 ==> r.len > 0)
    ensures r.len <= PartPlan(size).partSize
    ensures i + 1 < PartPlan(size).parts ==> r.len == PartPlan(size).partSize
    ensures i + 1 == PartPlan(size).parts ==> r.off + r.len == size
  {
    var ps := PartPlan(size).partSize;
    var off := i * ps;
    PartPlaced(size, i, ps, off);
    Range(off, if ps < size - off then ps else size - off)
  }

  /** Each range begins where the one before ends, so no two share a byte. */
  lemma RangesMeet(size: nat, i: nat, j: nat)
    requires i < j < PartPlan(size).parts
    ensures PartRange(size, i).off + PartRange(size, i).len <= PartRange(size, j).off
    ensures j == i + 1 ==> PartRange(size, i).off + PartRange(size, i).len == PartRange(size, j).off
  {
    hide PartPlan, PartRange;
    var ps := PartPlan(size).partSize;
    Times(i + 1, j, ps);
    assert (i + 1) * ps == i * ps + ps;
  }

  function Flat(s: seq<seq<bv8>>): seq<bv8> {
    if s == [] then [] else Flat(s[..|s| - 1]) + s[|s| - 1]
  }

  lemma FlatLast(s: seq<seq<bv8>>, src: seq<bv8>, r: Range)
    requires r.off + r.len <= |src| && Flat(s) == src[..r.off]
    ensures Flat(s + [src[r.off..r.off + r.len]]) == src[..r.off + r.len]
  {
    assert (s + [src[r.off..r.off + r.len]])[..|s|] == s;
  }

  /** The loop of uploadToOSSStream. Each part is one request, answered by its
      status; the first that is not a success ends the upload. The parts of an upload
      that ends well, put together, are the file. */
  method UploadParts(src: seq<bv8>, statuses: seq<int>) returns (sent: seq<seq<bv8>>, ok: bool)
    requires |statuses| == PartPlan(|src|).parts
    ensures ok <==> forall k :: 0 <= k < |statuses| ==> 200 <= statuses[k] < 300
    ensures Flat(sent) <= src && (ok ==> Flat(sent) == src && |sent| == |statuses|)
    ensures |src| > 0 ==> forall k :: 0 <= k < |sent| ==> sent[k] != []
  {
    hide PartPlan, PartRange, Flat;
    FlatNothing();
    sent := [];
    var size := |src|;
    PlanCovers(size);
    var i := 0;
    while i < |statuses|
      invariant 0 <= i <= |statuses| && |sent| == i
      invariant i < |statuses| ==> Flat(sent) == src[..PartRange(size, i).off]
      invariant i == |statuses| ==> Flat(sent) == src[..size]
      invariant forall k :: 0 <= k < i ==> 200 <= statuses[k] < 300
      invariant size > 0 ==> forall k :: 0 <= k < |sent| ==> sent[k] != []
    {
      var r := PartRange(size, i);
      var part := src[r.off..r.off + r.len];
      if i + 1 < |statuses| { RangesMeet(size, i, i + 1); }
      FlatLast(sent, src, r);
      if !(200 <= statuses[i] < 300) {
        assert Flat(sent) <= src;
        return sent, false;
      }
      sent := sent + [part];
      i := i + 1;
    }
    ok := true;
  }

  lemma FlatNothing()
    ensures Flat([]) == []
  {
  }
}
