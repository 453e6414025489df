/** The message log as bytes: one newline-terminated line a record, replayed with
    a cursor and trimmed at the last whole valid line (chat/jsonl.go). */
module ChatLog {
  import opened Common
  import opened ChatRecords
  import opened ChatInvariants

  newtype byte = x: int | 0 <= x < 256

  const NEWLINE: byte := 10
  const RECORD_VERSION := 1

  datatype Line = Line(version: int, rec: Record)

  /** The JSON codec, and what counts as white space, left open. */
  datatype Codec = Codec(enc: Line -> seq<byte>, dec: seq<byte> -> Option<Line>, blank: seq<byte> -> bool)

  /** All that is relied on: a line decodes to what was encoded, holds no newline,
      and is not white space; nothing at all is. */
  ghost predicate Faithful(c: Codec) {
    c.blank([]) && forall l :: NEWLINE !in c.enc(l) && c.dec(c.enc(l)) == Some(l) && !c.blank(c.enc(l))
  }

  // ---- the specification of a replay ----

  datatype Stop = Clean | Corrupt | Future

  /** The valid records, where they end, and why the scan stopped. */
  datatype Parsed = Parsed(recs: seq<Record>, end: nat, stop: Stop)

  /** bytes.IndexByte(data, '\n'). */
  function LineEnd(data: seq<byte>): int { Find(data, Identity, NEWLINE) }

  /** One line, before what the rest of the file parses to. */
  function Take(c: Codec, line: seq<byte>, rest: Parsed): Parsed {
    if c.blank(line) then Parsed(rest.recs, |line| + 1 + rest.end, rest.stop)
    else
      match c.dec(line)
      case None => Parsed([], 0, Corrupt)
      case Some(l) =>
        if l.version > RECORD_VERSION then Parsed([], 0, Future)
        else Parsed([l.rec] + rest.recs, |line| + 1 + rest.end, rest.stop)
  }

  function Parse(c: Codec, data: seq<byte>): (p: Parsed)
    ensures p.end <= |data|
    decreases |data|
  {
    var nl := LineEnd(data);
    if nl < 0 then Parsed([], 0, Clean) else Take(c, data[..nl], Parse(c, data[nl + 1..]))
  }

  lemma ParseUnfold(c: Codec, data: seq<byte>)
    ensures var nl := LineEnd(data);
            Parse(c, data) == if nl < 0 then Parsed([], 0, Clean) else Take(c, data[..nl], Parse(c, data[nl + 1..]))
  {}

  // ---- the file ----

  datatype LogError = FutureVersion | TrimFailed

  class LogFile {
    var data: seq<byte>
    var backup: Option<seq<byte>>

    constructor (data: seq<byte>)
      ensures this.data == data && backup == None
    {
      this.data, this.backup := data, None;
    }

    /** appendRecord: one line at the end of the file. */
    method Append(c: Codec, rec: Record)
      modifies this`data
      ensures data == old(data) + c.enc(Line(RECORD_VERSION, rec)) + [NEWLINE]
    {
      data := data + c.enc(Line(RECORD_VERSION, rec)) + [NEWLINE];
    }

    /** replayLog: reads line by line, stops at the first line it cannot take,
        and trims the file there. A record from a newer build refuses and leaves
        the file alone; a damaged line keeps the evidence beside the file. */
    method ReplayLog(c: Codec, canTrim: bool) returns (r: Result<seq<Record>, LogError>)
      modifies this
      ensures var p := Parse(c, old(data));
              if p.stop.Future? then r == Err(FutureVersion) && data == old(data) && backup == old(backup)
              else
                && backup == (if p.stop.Corrupt? then Some(old(data)) else old(backup))
                && (if p.end < |old(data)| && !canTrim then r == Err(TrimFailed) && data == old(data)
                    else r == Ok(p.recs) && data == old(data)[..p.end])
    {
      hide Parse, Find;
      ghost var all := Parse(c, data);
      assert data[0..] == data;
      var recs, pos, corrupt := [], 0, false;
      while pos < |data|
        invariant 0 <= pos <= |data| && !corrupt
        invariant data == old(data) && backup == old(backup)
        invariant var rest := Parse(c, data[pos..]);
                  all == Parsed(recs + rest.recs, pos + rest.end, rest.stop)
        decreases |data| - pos
      {
        var rest := data[pos..];
        ParseUnfold(c, rest);
        var nl := FindIndex(rest, Identity, NEWLINE);
        if nl < 0 { break; }
        var line := rest[..nl];
        assert rest[nl + 1..] == data[pos + nl + 1..];
        if !c.blank(line) {
          var rec := c.dec(line);
          if rec.None? {
            corrupt := true;
            break;
          }
          if rec.value.version > RECORD_VERSION { return Err(FutureVersion); }
          recs := recs + [rec.value.rec];
        }
        pos := pos + nl + 1;
      }
      ParseUnfold(c, data[pos..]);
      assert all.recs == recs && all.end == pos;
      if pos < |data| {
        if corrupt { backup := Some(data); }
        if !canTrim { return Err(TrimFailed); }
        data := data[..pos];
      }
      r := Ok(recs);
    }
  }

  // ---- what the store writes ----

  /** The file after appending these records, one appendRecord each. */
  function Serialize(c: Codec, recs: seq<Record>): seq<byte> {
    if recs == [] then [] else c.enc(Line(RECORD_VERSION, recs[0])) + [NEWLINE] + Serialize(c, recs[1..])
  }

  lemma {:induction false} SerializeConcat(c: Codec, a: seq<Record>, b: seq<Record>)
    ensures Serialize(c, a + b) == Serialize(c, a) + Serialize(c, b)
  {
    if a == [] {
      assert a + b == b;
    } else {
      SerializeConcat(c, a[1..], b);
      assert (a + b)[1..] == a[1..] + b;
    }
  }

  lemma SerializeOne(c: Codec, rec: Record)
    ensures Serialize(c, [rec]) == c.enc(Line(RECORD_VERSION, rec)) + [NEWLINE]
  {
    assert Serialize(c, [rec][1..]) == [];
  }

  /** How many whole lines a file of these records keeps when cut to n bytes. */
  function WholeLines(c: Codec, recs: seq<Record>, n: nat): (k: nat)
    ensures k <= |recs|
  {
    if recs == [] then 0
    else
      var first := |c.enc(Line(RECORD_VERSION, recs[0]))| + 1;
      if n < first then 0 else 1 + WholeLines(c, recs[1..], n - first)
  }

  lemma FirstLine(c: Codec, line: seq<byte>, rest: seq<byte>)
    requires NEWLINE !in line
    ensures LineEnd(line + [NEWLINE] + rest) == |line|
    ensures (line + [NEWLINE] + rest)[..|line|] == line && (line + [NEWLINE] + rest)[|line| + 1..] == rest
  {
    var data := line + [NEWLINE] + rest;
    assert data[|line|] == NEWLINE;
    assert forall k :: 0 <= k < |line| ==> data[k] == line[k];
  }

  lemma NoLine(line: seq<byte>, n: nat)
    requires NEWLINE !in line && n <= |line|
    ensures LineEnd(line[..n]) == -1
  {}

  lemma ParseLine(c: Codec, line: seq<byte>, rest: seq<byte>)
    requires NEWLINE !in line
    ensures Parse(c, line + [NEWLINE] + rest) == Take(c, line, Parse(c, rest))
  {
    hide Parse;
    FirstLine(c, line, rest);
    ParseUnfold(c, line + [NEWLINE] + rest);
  }

  /** Replay reads on past what the store wrote. */
  lemma {:induction false} ParseOn(c: Codec, recs: seq<Record>, data: seq<byte>)
    requires Faithful(c)
    ensures var p := Parse(c, data);
            Parse(c, Serialize(c, recs) + data) == Parsed(recs + p.recs, |Serialize(c, recs)| + p.end, p.stop)
    decreases |recs|
  {
    hide Parse, Find;
    if recs == [] {
      assert Serialize(c, recs) + data == data && recs + Parse(c, data).recs == Parse(c, data).recs;
    } else {
      var line, tail := c.enc(Line(RECORD_VERSION, recs[0])), Serialize(c, recs[1..]);
      ParseOn(c, recs[1..], data);
      assert Serialize(c, recs) + data == line + [NEWLINE] + (tail + data);
      ParseLine(c, line, tail + data);
      assert [recs[0]] + (recs[1..] + Parse(c, data).recs) == recs + Parse(c, data).recs;
    }
  }

  /** What replay makes of any line at all after lines the store wrote: white space is
      passed over, a line that does not decode stops it there as damage, one of a later
      version than 1 stops it there as a newer build's, and any other is a record. */
  lemma LineAfterLog(c: Codec, recs: seq<Record>, line: seq<byte>, rest: seq<byte>)
    requires Faithful(c) && NEWLINE !in line
    ensures var end, p := |Serialize(c, recs)|, Parse(c, rest);
            Parse(c, Serialize(c, recs) + (line + [NEWLINE] + rest)) ==
            if c.blank(line) then Parsed(recs + p.recs, end + |line| + 1 + p.end, p.stop)
            else if c.dec(line).None? then Parsed(recs, end, Corrupt)
            else if c.dec(line).value.version > 1 then Parsed(recs, end, Future)
            else Parsed(recs + ([c.dec(line).value.rec] + p.recs), end + |line| + 1 + p.end, p.stop)
  {
    hide Parse, Serialize;
    ParseOn(c, recs, line + [NEWLINE] + rest);
    ParseLine(c, line, rest);
    assert recs + [] == recs;
  }

  lemma SerializeCons(c: Codec, recs: seq<Record>, k: nat)
    requires 0 < k <= |recs|
    ensures recs[..k] == [recs[0]] + recs[1..][..k - 1]
    ensures Serialize(c, recs[..k]) ==
            c.enc(Line(RECORD_VERSION, recs[0])) + [NEWLINE] + Serialize(c, recs[1..][..k - 1])
  {
    assert recs[..k][1..] == recs[1..][..k - 1];
  }

  /** Cut a log anywhere: the whole lines that survive are a prefix of the file. */
  lemma {:induction false} CutKeepsLines(c: Codec, recs: seq<Record>, n: nat)
    requires n <= |Serialize(c, recs)|
    ensures var k := WholeLines(c, recs, n);
            && |Serialize(c, recs[..k])| <= n
            && Serialize(c, recs)[..|Serialize(c, recs[..k])|] == Serialize(c, recs[..k])
            && (k < |recs| ==> n < |Serialize(c, recs[..k + 1])|)
    decreases |recs|
  {
    if recs != [] {
      var line := c.enc(Line(RECORD_VERSION, recs[0]));
      SerializeCons(c, recs, 1);
      assert recs[1..][..0] == [];
      if n >= |line| + 1 {
        var m := n - |line| - 1;
        var k := WholeLines(c, recs[1..], m);
        CutKeepsLines(c, recs[1..], m);
        SerializeCons(c, recs, k + 1);
        if k + 2 <= |recs| { SerializeCons(c, recs, k + 2); }
      }
    }
  }

  /** And replay returns exactly their records, ending where they end. */
  lemma {:induction false} CutParses(c: Codec, recs: seq<Record>, n: nat)
    requires Faithful(c) && n <= |Serialize(c, recs)|
    ensures var k := WholeLines(c, recs, n);
            Parse(c, Serialize(c, recs)[..n]) == Parsed(recs[..k], |Serialize(c, recs[..k])|, Clean)
    decreases |recs|
  {
    hide Parse, Find;
    var data := Serialize(c, recs)[..n];
    if recs == [] {
      ParseUnfold(c, data);
    } else {
      var line := c.enc(Line(RECORD_VERSION, recs[0]));
      var tail := Serialize(c, recs[1..]);
      if n < |line| + 1 {
        assert data == line[..n];
        ParseUnfold(c, data);
      } else {
        var m := n - |line| - 1;
        CutParses(c, recs[1..], m);
        assert data == line + [NEWLINE] + tail[..m];
        ParseLine(c, line, tail[..m]);
        SerializeCons(c, recs, WholeLines(c, recs[1..], m) + 1);
      }
    }
  }

  /** Replaying what a replay left changes nothing: same records, whole file. */
  lemma {:induction false} ReplayIdempotent(c: Codec, data: seq<byte>)
    requires !Parse(c, data).stop.Future?
    ensures var p := Parse(c, data); Parse(c, data[..p.end]) == Parsed(p.recs, p.end, Clean)
    decreases |data|
  {
    hide Parse, Find;
    ParseUnfold(c, data);
    var p := Parse(c, data);
    var nl := LineEnd(data);
    ParseUnfold(c, data[..0]);
    if p.end > 0 {
      var line, rest := data[..nl], data[nl + 1..];
      ReplayIdempotent(c, rest);
      var kept := rest[..Parse(c, rest).end];
      assert data[..p.end] == line + [NEWLINE] + kept;
      ParseLine(c, line, kept);
    }
  }

  /** Crash anywhere, reload: the channel is the one some prefix of the appended
      records had folded to, it is well kept, and the next append starts a clean
      line on a log the store can have written. */
  lemma CrashRecovery(c: Codec, recs: seq<Record>, n: nat, next: Record)
    requires Faithful(c) && StoreLog(recs) && n <= |Serialize(c, recs)|
    ensures var k := WholeLines(c, recs, n);
            var p := Parse(c, Serialize(c, recs)[..n]);
            && p.stop.Clean? && p.recs == recs[..k] && StoreLog(p.recs) && WellKept(Replay(p.recs))
            && Serialize(c, recs)[..p.end] + Serialize(c, [next]) == Serialize(c, p.recs + [next])
            && (n == |Serialize(c, recs)| ==> p.recs == recs)
  {
    hide Parse, Replay, StoreLog, WellKept, Serialize, WholeLines;
    var k := WholeLines(c, recs, n);
    CutKeepsLines(c, recs, n);
    CutParses(c, recs, n);
    StoreLogPrefix(recs, k);
    ReachableWellKept(recs[..k]);
    SerializeConcat(c, recs[..k], [next]);
    UncutKeepsAll(c, recs);
    assert recs[..|recs|] == recs;
  }

  lemma {:induction false} UncutKeepsAll(c: Codec, recs: seq<Record>)
    ensures WholeLines(c, recs, |Serialize(c, recs)|) == |recs|
  {
    if recs != [] { UncutKeepsAll(c, recs[1..]); }
  }
}
