/** The cheaper replay of chat/docrefs.go: one pass over the raw lines that keeps
    only author, body, time and a deleted flag, against the full replay. */
module ChatScan {
  import opened Common
  import opened ChatRecords
  import opened ChatInvariants
  import opened ChatLog

  datatype MsgState = MsgState(author: string, body: string, at: int, deleted: bool)

  datatype Hit = Hit(count: nat, lastNum: int, lastAuthor: string, lastBody: string, lastAt: int)

  // ---- what the scan must report, from the full replay ----

  function Refs(m: MessageV, count: string -> nat): nat {
    if m.deletedAt.Some? then 0 else count(m.body)
  }

  /** References over the live messages. */
  function Total(msgs: seq<MessageV>, count: string -> nat): nat {
    if msgs == [] then 0 else Total(msgs[..|msgs| - 1], count) + Refs(msgs[|msgs| - 1], count)
  }

  /** Each live message counts as often as its body refers to the document, a deleted one
      not at all. */
  lemma TotalTells(msgs: seq<MessageV>, m: MessageV, count: string -> nat)
    ensures Total([], count) == 0
    ensures Total(msgs + [m], count) == Total(msgs, count) + if m.deletedAt.Some? then 0 else count(m.body)
  {
    assert (msgs + [m])[..|msgs|] == msgs;
  }

  /** The newest live message that refers to the document is the one shown. */
  function Report(msgs: seq<MessageV>, count: string -> nat, excerpt: string -> string): Option<Hit> {
    if msgs == [] then None
    else
      var m := msgs[|msgs| - 1];
      var before := msgs[..|msgs| - 1];
      if Refs(m, count) > 0 then Some(Hit(Total(msgs, count), m.num, m.authorName, excerpt(m.body), m.createdAt))
      else Report(before, count, excerpt)
  }

  /** The reported count is always the whole total, and there is a report exactly
      when the total is positive. */
  lemma {:induction false} ReportIsTotal(msgs: seq<MessageV>, count: string -> nat, excerpt: string -> string)
    ensures Report(msgs, count, excerpt).Some? <==> Total(msgs, count) > 0
    ensures Report(msgs, count, excerpt).Some? ==> Report(msgs, count, excerpt).value.count == Total(msgs, count)
  {
    if msgs != [] { ReportIsTotal(msgs[..|msgs| - 1], count, excerpt); }
  }

  /** The message shown is the newest live one that refers to the document. */
  lemma {:induction false} ReportShowsNewest(msgs: seq<MessageV>, count: string -> nat, excerpt: string -> string)
    returns (i: int)
    requires Report(msgs, count, excerpt).Some?
    ensures Shown(msgs, i, count, Report(msgs, count, excerpt).value, excerpt)
  {
    var n := |msgs| - 1;
    if Refs(msgs[n], count) > 0 {
      i := n;
    } else {
      i := ReportShowsNewest(msgs[..n], count, excerpt);
      assert forall j :: 0 <= j < n ==> msgs[..n][j] == msgs[j];
    }
  }

  ghost predicate Shown(msgs: seq<MessageV>, i: int, count: string -> nat, h: Hit, excerpt: string -> string) {
    && 0 <= i < |msgs| && msgs[i].deletedAt.None? && count(msgs[i].body) > 0
    && (forall j :: i < j < |msgs| ==> msgs[j].deletedAt.Some? || count(msgs[j].body) == 0)
    && h.lastNum == msgs[i].num && h.lastAuthor == msgs[i].authorName && h.lastAt == msgs[i].createdAt
    && h.lastBody == excerpt(msgs[i].body)
  }

  // ---- the lines the scan sees ----

  function LineRecords(c: Codec, line: seq<byte>): seq<Record> {
    if c.blank(line) then []
    else
      match c.dec(line)
      case None => []
      case Some(l) => [l.rec]
  }

  /** bytes.Split on newline, each piece decoded, what does not decode skipped. */
  function Lines(c: Codec, data: seq<byte>): seq<Record>
    decreases |data|
  {
    var nl := LineEnd(data);
    if nl < 0 then LineRecords(c, data) else LineRecords(c, data[..nl]) + Lines(c, data[nl + 1..])
  }

  lemma LinesUnfold(c: Codec, data: seq<byte>)
    ensures var nl := LineEnd(data);
            Lines(c, data) ==
            if nl < 0 then LineRecords(c, data) else LineRecords(c, data[..nl]) + Lines(c, data[nl + 1..])
  {}

  /** On a file the store wrote, the scan sees exactly the records. */
  lemma {:induction false} LinesOfLog(c: Codec, recs: seq<Record>)
    requires Faithful(c)
    ensures Lines(c, Serialize(c, recs)) == recs
  {
    hide Lines, Find;
    LinesUnfold(c, Serialize(c, recs));
    if recs == [] {
      NoLine([], 0);
    } else {
      var line := c.enc(Line(RECORD_VERSION, recs[0]));
      LinesOfLog(c, recs[1..]);
      FirstLine(c, line, Serialize(c, recs[1..]));
    }
  }

  lemma {:induction false} LinesThenTail(c: Codec, recs: seq<Record>, tail: seq<byte>)
    requires Faithful(c) && NEWLINE !in tail
    ensures Lines(c, Serialize(c, recs) + tail) == recs + LineRecords(c, tail)
  {
    hide Lines, Find;
    var data := Serialize(c, recs) + tail;
    LinesUnfold(c, data);
    if recs == [] {
      assert data == tail[..|tail|];
      NoLine(tail, |tail|);
      assert tail[..|tail|] == tail;
    } else {
      var line := c.enc(Line(RECORD_VERSION, recs[0]));
      var rest := Serialize(c, recs[1..]);
      LinesThenTail(c, recs[1..], tail);
      assert data == line + [NEWLINE] + (rest + tail);
      FirstLine(c, line, rest + tail);
    }
  }

  // ---- the lines of a cut log ----

  /** JSON objects have this too: part of a line decodes to nothing. */
  ghost predicate Unbroken(c: Codec) {
    forall l, n :: 0 <= n < |c.enc(l)| ==> c.blank(c.enc(l)[..n]) || c.dec(c.enc(l)[..n]).None?
  }

  /** What a cut leaves after the last whole line. */
  function Tail(c: Codec, recs: seq<Record>, n: nat): seq<byte>
    requires n <= |Serialize(c, recs)|
  {
    CutKeepsLines(c, recs, n);
    Serialize(c, recs)[|Serialize(c, recs[..WholeLines(c, recs, n)])|..n]
  }

  /** Where line k stands in the file. */
  lemma LineInLog(c: Codec, recs: seq<Record>, k: nat)
    requires k < |recs|
    ensures var whole, line := Serialize(c, recs[..k]), c.enc(Line(RECORD_VERSION, recs[k]));
            && Serialize(c, recs[..k + 1]) == whole + (line + [NEWLINE])
            && Serialize(c, recs) == whole + (line + [NEWLINE]) + Serialize(c, recs[k + 1..])
  {
    hide Serialize;
    assert recs[..k + 1] == recs[..k] + [recs[k]] && recs == recs[..k + 1] + recs[k + 1..];
    SerializeConcat(c, recs[..k + 1], recs[k + 1..]);
    SerializeConcat(c, recs[..k], [recs[k]]);
    SerializeOne(c, recs[k]);
  }

  /** The tail is the beginning of the next line, its newline not among it. */
  lemma TailOfCut(c: Codec, recs: seq<Record>, n: nat)
    requires n <= |Serialize(c, recs)|
    ensures var k, tail := WholeLines(c, recs, n), Tail(c, recs, n);
            && Serialize(c, recs)[..n] == Serialize(c, recs[..k]) + tail
            && (if k == |recs| then tail == []
                else
                  var line := c.enc(Line(RECORD_VERSION, recs[k]));
                  && |tail| <= |line| && tail == line[..|tail|]
                  && |Serialize(c, recs[..k + 1])| == n - |tail| + |line| + 1)
  {
    hide Serialize, WholeLines;
    CutKeepsLines(c, recs, n);
    var k := WholeLines(c, recs, n);
    if k == |recs| {
      assert recs[..k] == recs;
    } else {
      LineInLog(c, recs, k);
    }
  }

  lemma TailHasNoNewline(c: Codec, recs: seq<Record>, n: nat)
    requires Faithful(c) && n <= |Serialize(c, recs)|
    ensures NEWLINE !in Tail(c, recs, n)
  {
    hide Tail, Serialize;
    TailOfCut(c, recs, n);
  }

  /** Cut a log anywhere: the scan sees the whole lines and what the tail decodes to,
      so it sees what the full replay does if and only if the tail decodes to
      nothing. */
  lemma CutScanExactly(c: Codec, recs: seq<Record>, n: nat)
    requires Faithful(c) && n <= |Serialize(c, recs)|
    ensures var data, k := Serialize(c, recs)[..n], WholeLines(c, recs, n);
            && Lines(c, data) == recs[..k] + LineRecords(c, Tail(c, recs, n))
            && Parse(c, data).recs == recs[..k]
            && (Lines(c, data) == Parse(c, data).recs <==> LineRecords(c, Tail(c, recs, n)) == [])
  {
    hide Parse, Lines, WholeLines, Tail, Serialize, LineRecords;
    TailOfCut(c, recs, n);
    TailHasNoNewline(c, recs, n);
    LinesThenTail(c, recs[..WholeLines(c, recs, n)], Tail(c, recs, n));
    CutParses(c, recs, n);
  }

  /** The cut took a newline and nothing else of the line before it. */
  predicate JustNewlineLost(c: Codec, recs: seq<Record>, n: nat) {
    var k := WholeLines(c, recs, n);
    k < |recs| && n + 1 == |Serialize(c, recs[..k + 1])|
  }

  /** The records the scan sees of a cut log. */
  function Seen(c: Codec, recs: seq<Record>, n: nat): (k: nat)
    ensures k <= |recs|
  {
    WholeLines(c, recs, n) + if JustNewlineLost(c, recs, n) then 1 else 0
  }

  lemma LinesOfCut(c: Codec, recs: seq<Record>, n: nat)
    requires Faithful(c) && Unbroken(c) && n <= |Serialize(c, recs)|
    ensures Lines(c, Serialize(c, recs)[..n]) == recs[..Seen(c, recs, n)]
  {
    hide Parse, Lines, WholeLines, Tail, Serialize;
    CutScanExactly(c, recs, n);
    TailOfCut(c, recs, n);
    var k, tail := WholeLines(c, recs, n), Tail(c, recs, n);
    if k < |recs| {
      var l := Line(RECORD_VERSION, recs[k]);
      if JustNewlineLost(c, recs, n) {
        assert tail == c.enc(l);
        assert recs[..k + 1] == recs[..k] + [recs[k]];
      } else {
        assert tail == c.enc(l)[..|tail|] && |tail| < |c.enc(l)|;
      }
    }
  }

  /** The scan takes any line that decodes, whatever its version, and passes over any
      that does not. */
  lemma LineScanned(c: Codec, line: seq<byte>, rest: seq<byte>)
    requires NEWLINE !in line
    ensures Lines(c, line + [NEWLINE] + rest) ==
            (if !c.blank(line) && c.dec(line).Some? then [c.dec(line).value.rec] else []) + Lines(c, rest)
  {
    hide Lines, Find;
    LinesUnfold(c, line + [NEWLINE] + rest);
    FirstLine(c, line, rest);
  }

  // ---- the scan ----

  /** The scan's table of messages and the order they appeared in. */
  datatype ScanState = ScanState(live: map<int, MsgState>, order: seq<int>)

  function ScanStep(s: ScanState, r: Record): ScanState {
    match r
    case Create(num, _, _, author, _, body, at) =>
      ScanState(s.live[num := MsgState(author, body, at, false)], s.order + [num])
    case Edit(target, body, _) =>
      if target in s.live then s.(live := s.live[target := s.live[target].(body := body)]) else s
    case Delete(target, _) =>
      if target in s.live then s.(live := s.live[target := s.live[target].(deleted := true)]) else s
    case _ => s
  }

  function ScanAll(recs: seq<Record>): ScanState
    decreases |recs|
  {
    if recs == [] then ScanState(map[], []) else ScanStep(ScanAll(recs[..|recs| - 1]), recs[|recs| - 1])
  }

  /** The scan's row for a message: everything but the body of a deleted one,
      which the full replay blanks and the scan keeps. */
  ghost predicate RowOf(row: MsgState, m: MessageV) {
    && row.author == m.authorName && row.at == m.createdAt && (row.deleted <==> m.deletedAt.Some?)
    && (m.deletedAt.None? ==> row.body == m.body)
  }

  ghost predicate Agree(s: ScanState, c: ChannelV) {
    && |s.order| == |c.msgs|
    && (forall k :: k in s.live <==> 1 <= k <= |c.msgs|)
    && (forall i :: 0 <= i < |c.msgs| ==> s.order[i] == i + 1 && RowOf(s.live[i + 1], c.msgs[i]))
  }

  /** A reply's effect on its root does not show in the scan. */
  lemma CountsInvisible(s: ScanState, c: ChannelV, bySeq: map<int, nat>, root: int, at: int)
    requires Agree(s, c)
    ensures Agree(s, c.(msgs := CountReply(c.msgs, bySeq, root, at)))
    ensures Agree(s, c.(msgs := UncountReply(c.msgs, bySeq, root)))
  {}

  lemma CreateAgrees(s: ScanState, c: ChannelV, r: Record)
    requires Agree(s, c) && r.Create? && r.num == |c.msgs| + 1
    ensures Agree(ScanStep(s, r), FoldCreate(c, r))
  {
    hide CountReply;
    var d := Inserted(c, FreshMessage(r));
    assert Agree(ScanStep(s, r), d);
    CountsInvisible(ScanStep(s, r), d, d.bySeq, r.threadRoot, r.at);
  }

  lemma TargetAgrees(s: ScanState, c: ChannelV, r: Record)
    requires Agree(s, c) && Indexed(c) && !r.Create? && !r.Other? && 1 <= r.target <= |c.msgs|
    ensures Agree(ScanStep(s, r), FoldOn(c, r.target - 1, r))
  {
    hide UncountReply;
    var i := r.target - 1;
    var m := c.msgs[i];
    if r.Delete? && m.deletedAt.None? {
      var dead := c.(msgs := c.msgs[i := m.(deletedAt := Some(r.at), body := "", reactions := [])]);
      assert Agree(ScanStep(s, r), dead);
      CountsInvisible(ScanStep(s, r), dead, c.bySeq, m.threadRoot, r.at);
    }
  }

  /** Whatever the record, the scan stays in step with the full replay, as long
      as messages are numbered in order. Edits of deleted messages, repeated
      deletes and unknown targets included. */
  lemma StepAgrees(s: ScanState, c: ChannelV, r: Record)
    requires Agree(s, c) && Indexed(c) && Numbered(c) && (r.Create? ==> r.num == c.nextSeq)
    ensures Agree(ScanStep(s, r), Fold(c, r))
  {
    hide FoldCreate, FoldOn;
    if r.Create? {
      CreateAgrees(s, c, r);
    } else if !r.Other? && r.target in c.bySeq {
      TargetAgrees(s, c, r);
    }
  }

  lemma NothingYet()
    ensures Agree(ScanAll([]), Replay([]))
  {}

  lemma NumberedNext(before: seq<Record>, r: Record)
    requires Decided(before, r) && r.Create?
    ensures r.num == Replay(before).nextSeq
  {
    hide Replay;
    var op, now :| Decide(Replay(before), op, now) == Append(r);
  }

  lemma {:induction false} ScanAgrees(recs: seq<Record>)
    requires StoreLog(recs)
    ensures Agree(ScanAll(recs), Replay(recs))
    decreases |recs|
  {
    hide Agree, Fold, Decide, ScanStep;
    if recs == [] {
      NothingYet();
    } else {
      var n := |recs| - 1;
      StoreLogPrefix(recs, n);
      ScanAgrees(recs[..n]);
      ReachableWellKept(recs[..n]);
      assert Decided(recs[..n], recs[n]);
      if recs[n].Create? { NumberedNext(recs[..n], recs[n]); }
      StepAgrees(ScanAll(recs[..n]), Replay(recs[..n]), recs[n]);
    }
  }

  /** scanChannelLog on a log cut anywhere, or not at all: the count it reports, and the
      mention it shows, are those of the full replay of the records it sees; on an
      undamaged log these are all of them. mayContain is the raw-bytes prefilter,
      taken as never missing a mention. */
  method ScanChannelLog(c: Codec, data: seq<byte>, mayContain: bool, count: string -> nat, excerpt: string -> string,
                        ghost log: seq<Record>, ghost n: nat)
    returns (hit: Option<Hit>)
    requires Faithful(c) && StoreLog(log) && n <= |Serialize(c, log)| && data == Serialize(c, log)[..n]
    requires n < |Serialize(c, log)| ==> Unbroken(c)
    requires !mayContain ==> Total(Replay(log[..Seen(c, log, n)]).msgs, count) == 0
    ensures hit == Report(Replay(log[..Seen(c, log, n)]).msgs, count, excerpt)
    ensures n == |Serialize(c, log)| ==> hit == Report(Replay(log).msgs, count, excerpt)
  {
    hide Replay, StoreLog, Serialize, Faithful, ScanAll, Seen, Lines, Unbroken;
    ghost var seen := log[..Seen(c, log, n)];
    SeenUncut(c, log);
    assert Serialize(c, log)[..|Serialize(c, log)|] == Serialize(c, log);
    if n < |Serialize(c, log)| { LinesOfCut(c, log, n); } else { LinesOfLog(c, log); }
    ReportIsTotal(Replay(seen).msgs, count, excerpt);
    if !mayContain { return None; }
    var s := ReadTable(c, data, seen);
    StoreLogPrefix(log, Seen(c, log, n));
    ScanAgrees(seen);
    ReachableWellKept(seen);
    hit := Accumulate(s, count, excerpt, Replay(seen));
  }

  lemma SeenUncut(c: Codec, log: seq<Record>)
    ensures log[..Seen(c, log, |Serialize(c, log)|)] == log
  {
    UncutKeepsAll(c, log);
  }

  /** The first loop: lines into the table. */
  method ReadTable(c: Codec, data: seq<byte>, ghost log: seq<Record>) returns (s: ScanState)
    requires Lines(c, data) == log
    ensures s == ScanAll(log)
  {
    hide Lines, Find, ScanStep, ScanAll;
    s := ScanState(map[], []);
    var rest, more := data, true;
    ghost var done := 0;
    ScanNothing();
    assert log[..0] == [] && log[0..] == log;
    while more
      invariant 0 <= done <= |log| && s == ScanAll(log[..done])
      invariant log[done..] == if more then Lines(c, rest) else []
      decreases more, |rest|
    {
      LinesUnfold(c, rest);
      var nl := FindIndex(rest, Identity, NEWLINE);
      var line := if nl < 0 then rest else rest[..nl];
      ghost var left := if nl < 0 then [] else Lines(c, rest[nl + 1..]);
      assert log[done..] == LineRecords(c, line) + left;
      if nl < 0 { more := false; } else { rest := rest[nl + 1..]; }
      if !c.blank(line) {
        var rec := c.dec(line);
        if rec.Some? {
          ScanOneMore(log, done, rec.value.rec, left);
          s := Absorb(s, rec.value.rec);
          done := done + 1;
        }
      }
    }
    assert log[..|log|] == log;
  }

  lemma ScanNothing()
    ensures ScanAll([]) == ScanState(map[], [])
  {
  }

  lemma ScanOneMore(log: seq<Record>, done: nat, r: Record, left: seq<Record>)
    requires done <= |log| && log[done..] == [r] + left
    ensures done < |log| && log[done] == r && log[done + 1..] == left
    ensures ScanAll(log[..done + 1]) == ScanStep(ScanAll(log[..done]), r)
  {
    hide ScanStep;
    assert log[done] == log[done..][0];
    assert log[..done + 1][..done] == log[..done];
    assert log[done + 1..] == log[done..][1..];
  }

  /** The first loop's switch on one decoded record. */
  method Absorb(s: ScanState, r: Record) returns (t: ScanState)
    ensures t == ScanStep(s, r)
  {
    var live, order := s.live, s.order;
    if r.Create? {
      live := live[r.num := MsgState(r.authorName, r.body, r.at, false)];
      order := order + [r.num];
    } else if r.Edit? && r.target in live {
      live := live[r.target := live[r.target].(body := r.body)];
    } else if r.Delete? && r.target in live {
      live := live[r.target := live[r.target].(deleted := true)];
    }
    t := ScanState(live, order);
  }

  /** The second loop: the table into a hit; the last match wins. */
  method Accumulate(s: ScanState, count: string -> nat, excerpt: string -> string, ghost ch: ChannelV)
    returns (hit: Option<Hit>)
    requires Agree(s, ch) && Numbered(ch)
    ensures hit == Report(ch.msgs, count, excerpt)
  {
    var total: nat := 0;
    var last := Hit(0, 0, "", "", 0);
    var i := 0;
    while i < |s.order|
      invariant 0 <= i <= |s.order| && total == Total(ch.msgs[..i], count)
      invariant total > 0 ==> Report(ch.msgs[..i], count, excerpt) == Some(last.(count := total))
      invariant total == 0 ==> Report(ch.msgs[..i], count, excerpt) == None
    {
      assert ch.msgs[..i + 1][..i] == ch.msgs[..i];
      var row := s.live[s.order[i]];
      if !row.deleted {
        var n := count(row.body);
        if n > 0 {
          total := total + n;
          last := Hit(total, s.order[i], row.author, excerpt(row.body), row.at);
        }
      }
      i := i + 1;
    }
    assert ch.msgs[..|ch.msgs|] == ch.msgs;
    hit := if total == 0 then None else Some(last.(count := total));
  }

  // ---- when a torn line shows ----

  /** No message after i refers to the document. */
  ghost predicate LastMention(msgs: seq<MessageV>, i: nat, count: string -> nat) {
    forall j :: i < j < |msgs| ==> Refs(msgs[j], count) == 0
  }

  /** The record changes what is reported of the channel: a post that refers to the
      document, a deletion of a message that does, or an edit that changes how often
      a message does or, of the message shown, its excerpt. */
  ghost predicate Changes(ch: ChannelV, r: Record, count: string -> nat, excerpt: string -> string)
    requires Indexed(ch)
  {
    if r.Create? then count(r.body) > 0
    else if r.Other? || r.target !in ch.bySeq then false
    else
      var i := ch.bySeq[r.target];
      var m := ch.msgs[i];
      && m.deletedAt.None?
      && ((r.Edit? && (count(r.body) != count(m.body)
                       || (count(m.body) > 0 && excerpt(r.body) != excerpt(m.body) && LastMention(ch.msgs, i, count))))
          || (r.Delete? && count(m.body) > 0))
  }

  lemma {:induction false} TotalReplaced(msgs: seq<MessageV>, i: nat, m: MessageV, count: string -> nat)
    requires i < |msgs|
    ensures Total(msgs[i := m], count) == Total(msgs, count) - Refs(msgs[i], count) + Refs(m, count)
  {
    var n := |msgs| - 1;
    if i < n {
      TotalReplaced(msgs[..n], i, m, count);
      assert msgs[i := m][..n] == msgs[..n][i := m];
    } else {
      assert msgs[i := m][..n] == msgs[..n];
    }
  }

  /** One message replaced by one of the same number, author and time. */
  lemma {:induction false} ReportReplaced(msgs: seq<MessageV>, i: nat, m: MessageV, count: string -> nat,
                                          excerpt: string -> string)
    requires i < |msgs| && m.num == msgs[i].num && m.authorName == msgs[i].authorName &&
             m.createdAt == msgs[i].createdAt
    ensures Report(msgs[i := m], count, excerpt) != Report(msgs, count, excerpt) <==>
            || Refs(m, count) != Refs(msgs[i], count)
            || (Refs(m, count) > 0 && excerpt(m.body) != excerpt(msgs[i].body) && LastMention(msgs, i, count))
  {
    hide Refs;
    var n, after := |msgs| - 1, msgs[i := m];
    TotalReplaced(msgs, i, m, count);
    if Refs(m, count) != Refs(msgs[i], count) {
      ReportIsTotal(msgs, count, excerpt);
      ReportIsTotal(after, count, excerpt);
    } else if i == n {
      assert after[..n] == msgs[..n];
    } else {
      assert after[..n] == msgs[..n][i := m] && after[n] == msgs[n];
      ReportReplaced(msgs[..n], i, m, count, excerpt);
      assert forall j :: 0 <= j < n ==> msgs[..n][j] == msgs[j];
    }
  }

  /** Counters, reactions and edit times do not show. */
  ghost predicate LookAlike(msgs: seq<MessageV>, other: seq<MessageV>) {
    && |msgs| == |other|
    && forall i :: 0 <= i < |msgs| ==>
         other[i] == msgs[i].(replyCount := other[i].replyCount, lastReplyAt := other[i].lastReplyAt,
                              reactions := other[i].reactions, editedAt := other[i].editedAt)
  }

  lemma {:induction false} ReportAlike(msgs: seq<MessageV>, other: seq<MessageV>, count: string -> nat,
                                       excerpt: string -> string)
    requires LookAlike(msgs, other)
    ensures Total(msgs, count) == Total(other, count) && Report(msgs, count, excerpt) == Report(other, count, excerpt)
  {
    if msgs != [] {
      ReportAlike(msgs[..|msgs| - 1], other[..|other| - 1], count, excerpt);
    }
  }

  lemma ReportAppended(msgs: seq<MessageV>, m: MessageV, count: string -> nat, excerpt: string -> string)
    ensures Report(msgs + [m], count, excerpt) != Report(msgs, count, excerpt) <==> Refs(m, count) > 0
  {
    assert (msgs + [m])[..|msgs|] == msgs;
    ReportIsTotal(msgs, count, excerpt);
    ReportIsTotal(msgs + [m], count, excerpt);
  }

  /** A record shows in the report exactly when it is one that Changes names. */
  lemma ShowsExactly(ch: ChannelV, r: Record, count: string -> nat, excerpt: string -> string)
    requires Indexed(ch)
    ensures Report(Fold(ch, r).msgs, count, excerpt) != Report(ch.msgs, count, excerpt) <==>
            Changes(ch, r, count, excerpt)
  {
    hide Report, Total, CountReply, UncountReply, LastMention;
    if r.Create? {
      var d := Inserted(ch, FreshMessage(r));
      ReportAppended(ch.msgs, FreshMessage(r), count, excerpt);
      CountsAlike(d.msgs, d.bySeq, r.threadRoot, r.at);
      ReportAlike(d.msgs, Fold(ch, r).msgs, count, excerpt);
    } else if !r.Other? && r.target in ch.bySeq {
      var i := ch.bySeq[r.target];
      var m := ch.msgs[i];
      if r.Edit? && m.deletedAt.None? {
        ReportReplaced(ch.msgs, i, m.(body := r.body, editedAt := Some(r.at)), count, excerpt);
      } else if r.Delete? && m.deletedAt.None? {
        var dead := m.(deletedAt := Some(r.at), body := "", reactions := []);
        ReportReplaced(ch.msgs, i, dead, count, excerpt);
        CountsAlike(ch.msgs[i := dead], ch.bySeq, m.threadRoot, r.at);
        ReportAlike(ch.msgs[i := dead], Fold(ch, r).msgs, count, excerpt);
      } else {
        ReportAlike(ch.msgs, Fold(ch, r).msgs, count, excerpt);
      }
    }
  }

  lemma CountsAlike(msgs: seq<MessageV>, bySeq: map<int, nat>, root: int, at: int)
    ensures LookAlike(msgs, CountReply(msgs, bySeq, root, at)) && LookAlike(msgs, UncountReply(msgs, bySeq, root))
  {
  }

  /** On a log cut at any byte, what the scan reports differs from what the full
      replay, which is about to trim the file, would report if and only if the cut took
      just a newline and the line before it is one that shows. */
  lemma TornLineDiffers(c: Codec, log: seq<Record>, n: nat, count: string -> nat, excerpt: string -> string)
    requires Faithful(c) && Unbroken(c) && StoreLog(log) && n <= |Serialize(c, log)|
    ensures var data, k := Serialize(c, log)[..n], WholeLines(c, log, n);
            && Parse(c, data).recs == log[..k] && Lines(c, data) == log[..Seen(c, log, n)]
            && (Report(Replay(Lines(c, data)).msgs, count, excerpt) != Report(Replay(Parse(c, data).recs).msgs, count,
                 excerpt)
                <==> JustNewlineLost(c, log, n) && Changes(Replay(log[..k]), log[k], count, excerpt))
  {
    hide Replay, Report, Parse, Lines, WholeLines, Serialize, Changes, Fold, Faithful, Unbroken;
    var k := WholeLines(c, log, n);
    LinesOfCut(c, log, n);
    CutParses(c, log, n);
    if JustNewlineLost(c, log, n) {
      assert log[..k + 1] == log[..k] + [log[k]];
      ReplayAppend(log[..k], log[k]);
      ShowsExactly(Replay(log[..k]), log[k], count, excerpt);
    }
  }

  /** A cut that takes just a newline exists for every line of every log. */
  lemma NewlineCanBeLost(c: Codec, log: seq<Record>, k: nat) returns (n: nat)
    requires k < |log|
    ensures n < |Serialize(c, log)| && JustNewlineLost(c, log, n) && WholeLines(c, log, n) == k
  {
    n := |Serialize(c, log[..k + 1])| - 1;
    LostAt(c, log, k);
    assert log == log[..k + 1] + log[k + 1..];
    SerializeConcat(c, log[..k + 1], log[k + 1..]);
  }

  lemma {:induction false} LostAt(c: Codec, log: seq<Record>, k: nat)
    requires k < |log|
    ensures |Serialize(c, log[..k + 1])| > 0 && WholeLines(c, log, |Serialize(c, log[..k + 1])| - 1) == k
    decreases |log|
  {
    SerializeCons(c, log, k + 1);
    if k == 0 {
      assert log[1..][..0] == [];
    } else {
      LostAt(c, log[1..], k - 1);
    }
  }
}
