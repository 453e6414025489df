/** One channel over its whole life: requests, failed writes, read cursors, clean
    restarts and crashes that cut the log, in any order. */
module ChatRuns {
  import opened Common
  import opened ChatRecords
  import opened ChatInvariants
  import opened ChatLog
  import opened ChatStore
  import opened ChatRecovery
  import opened ChatViews

  /** Ask: a request, and whether its append reached the disk. Read: a read cursor
      asked to move, and whether cursors.json could be saved. Restart: the process
      ends, at most n bytes of the log are left, and the channel is loaded again; a
      clean stop leaves them all. */
  datatype Event =
    | Ask(op: ChatOp, now: int, wrote: bool)
    | Read(user: string, num: int, saved: bool)
    | Restart(n: nat)

  /** What lasts: the records of the log, and how far each user has read. */
  datatype Site = Site(log: seq<Record>, cursors: map<string, int>)

  function CursorOf(s: Site, user: string): int {
    if user in s.cursors then s.cursors[user] else 0
  }

  /** The number of the newest message. */
  function Newest(s: Site): nat { |Replay(s.log).msgs| }

  function Step(c: Codec, s: Site, ev: Event): Site {
    match ev
    case Ask(op, now, wrote) =>
      var d := Decide(Replay(s.log), op, now);
      if d.Append? && wrote then s.(log := s.log + [d.rec]) else s
    case Read(user, num, saved) =>
      if user == "" || num < 0 || !saved then s
      else s.(cursors := s.cursors[user := Moved(CursorOf(s, user), num, Newest(s))])
    case Restart(n) => s.(log := s.log[..WholeLines(c, s.log, n)])
  }

  function After(c: Codec, events: seq<Event>): Site {
    if events == [] then Site([], map[]) else Step(c, After(c, events[..|events| - 1]), events[|events| - 1])
  }

  lemma StepKeepsLog(c: Codec, s: Site, ev: Event)
    requires StoreLog(s.log)
    ensures StoreLog(Step(c, s, ev).log)
  {
    hide Replay, Decide, StoreLog, WholeLines;
    match ev {
      case Ask(op, now, wrote) =>
        var d := Decide(Replay(s.log), op, now);
        if d.Append? && wrote { StoreLogAppend(s.log, op, now, d.rec); }
      case Read(_, _, _) =>
      case Restart(n) => StoreLogPrefix(s.log, WholeLines(c, s.log, n));
    }
  }

  /** Whatever happened, the log is one the store can have written, and the channel
      it replays to is well kept. */
  lemma {:induction false} RunKeepsLog(c: Codec, events: seq<Event>)
    ensures StoreLog(After(c, events).log) && WellKept(Replay(After(c, events).log))
  {
    hide Replay, StoreLog, Step, WellKept;
    if events == [] {
      NoLog();
    } else {
      RunKeepsLog(c, events[..|events| - 1]);
      StepKeepsLog(c, After(c, events[..|events| - 1]), events[|events| - 1]);
    }
    ReachableWellKept(After(c, events).log);
  }

  lemma NoLog()
    ensures StoreLog([])
  {
  }

  // ---- the live channel ----

  class Live {
    const c: Codec
    const id: string
    var ch: Channel
    var file: LogFile
    var cursors: Cursors

    constructor (c: Codec, id: string)
      ensures this.c == c && this.id == id && Shows(Site([], map[]))
      ensures fresh(ch) && fresh(ch.msgs) && fresh(file) && fresh(cursors)
    {
      this.c, this.id := c, id;
      ch := new Channel.Empty();
      file := new LogFile([]);
      cursors := new Cursors();
      new;
      NoLog();
    }

    /** Memory is the replay of the log, the file is the log's lines, and each cursor
        in memory and on disk is the one recorded. */
    ghost predicate Shows(s: Site)
      reads this, ch, ch.msgs, file, cursors
    {
      && ch.Consistent() && ch.log == s.log && file.data == Serialize(c, s.log)
      && cursors.Saved() && forall u :: cursors.At(u, id) == CursorOf(s, u)
    }

    /** One request put to the channel. */
    method Request(op: ChatOp, now: int, wrote: bool) returns (answer: Result<MessageV, ChatError>)
      requires ch.Consistent()
      modifies ch, ch.msgs
      ensures ch.Consistent() && forall m :: m in ch.msgs ==> m in old(ch.msgs) || fresh(m)
      ensures Served(old(ch.model), old(ch.log), ch.model, ch.log, Decide(old(ch.model), op, now), wrote, answer)
    {
      hide Replay, StoreLog, Served, Decide;
      match op
      case Post(_, _, _, _, _, _) =>
        ghost var before := ch.msgs;
        answer := ch.CreateMessage(op, now, wrote);
        assert forall i :: 0 <= i < |before| ==> ch.msgs[i] == before[i];
      case EditMsg(num, body) => answer := ch.EditMessage(num, body, now, wrote);
      case DeleteMsg(num) => answer := ch.DeleteMessage(num, now, wrote);
      case AddReaction(num, user, emoji) => answer := ch.AddReaction(num, user, emoji, now, wrote);
      case RemoveReaction(num, user, emoji) => answer := ch.RemoveReaction(num, user, emoji, now, wrote);
    }

    method ServeAsk(op: ChatOp, now: int, wrote: bool, ghost s: Site)
      requires Faithful(c) && Shows(s)
      modifies ch, ch.msgs, file
      ensures Shows(Step(c, s, Ask(op, now, wrote)))
      ensures forall m :: m in ch.msgs ==> m in old(ch.msgs) || fresh(m)
    {
      hide Replay, StoreLog, Decide, Fold, Cursors.At, Cursors.Saved, Channel.Valid, WholeLines, Moved, Serialize;
      var before := |ch.log|;
      var _ := Request(op, now, wrote);
      if |ch.log| > before {
        var rec := ch.log[before];
        file.Append(c, rec);
        SerializeConcat(c, s.log, [rec]);
        SerializeOne(c, rec);
      }
    }

    method ServeRead(user: string, num: int, saved: bool, ghost s: Site)
      requires Shows(s)
      modifies cursors
      ensures Shows(Step(c, s, Read(user, num, saved)))
    {
      hide Replay, StoreLog, Cursors.At, Cursors.Saved, Channel.Valid, LivePast, Moved, WholeLines, Decide, Fold,
        Serialize;
      ReachableWellKept(s.log);
      var _ := cursors.SetReadCursor(ch, user, id, num, saved);
    }

    /** What is left of the file is loaded into new objects. */
    method ServeRestart(ghost n: nat, left: nat, ghost s: Site)
      requires Faithful(c) && Shows(s) && left == if n < |file.data| then n else |file.data|
      modifies this`ch, file, cursors
      ensures Shows(Step(c, s, Restart(n))) && fresh(ch) && fresh(ch.msgs)
    {
      hide Replay, StoreLog, Serialize, WellKept, Lookup;
      file.data := file.data[..left];
      ch := LoadChannel(c, file, s.log, left);
      cursors.Reload();
      CutAtEnd(c, s.log, n);
    }

    /** Any life of the channel: at its end memory is the replay of the log, the file
        holds the log's lines, and log and cursors are those of the specification. */
    method ServeAll(events: seq<Event>, ghost s0: Site)
      requires Faithful(c) && s0 == Site([], map[]) && Shows(s0)
      modifies this`ch, ch, ch.msgs, file, cursors
      ensures Shows(After(c, events))
    {
      hide Shows, Step;
      ghost var created: set<Message> := {};
      var i := 0;
      while i < |events|
        invariant 0 <= i <= |events| && file == old(file) && cursors == old(cursors)
        invariant ch == old(ch) || fresh(ch)
        invariant fresh(created) && forall j :: 0 <= j < |ch.msgs| ==>
                  ch.msgs[j] in created || ch.msgs[j] in old(ch.msgs)
        invariant Shows(After(c, events[..i]))
      {
        ghost var s := After(c, events[..i]);
        assert events[..i + 1][..i] == events[..i];
        match events[i] {
          case Ask(op, now, wrote) => ServeAsk(op, now, wrote, s);
          case Read(user, num, saved) => ServeRead(user, num, saved, s);
          case Restart(n) => ServeRestart(n, if n < |file.data| then n else |file.data|, s);
        }
        created := created + (set m | m in ch.msgs && fresh(m));
        assert forall j :: 0 <= j < |ch.msgs| ==> ch.msgs[j] in ch.msgs;
        i := i + 1;
      }
      assert events[..i] == events;
    }
  }

  /** Cutting past the end cuts nothing. */
  lemma {:induction false} CutAtEnd(c: Codec, recs: seq<Record>, n: nat)
    ensures var size := |Serialize(c, recs)|;
            WholeLines(c, recs, n) == WholeLines(c, recs, if n < size then n else size)
  {
    if recs != [] {
      var first := |c.enc(Line(RECORD_VERSION, recs[0]))| + 1;
      if n >= first { CutAtEnd(c, recs[1..], n - first); }
    }
  }

  // ---- how far a reader can be ----

  /** A cursor never falls, crashes or not. */
  lemma {:induction false} CursorsAdvance(c: Codec, events: seq<Event>, k: nat, user: string)
    requires k <= |events|
    ensures CursorOf(After(c, events[..k]), user) <= CursorOf(After(c, events), user)
    ensures 0 <= CursorOf(After(c, events), user)
    decreases |events|
  {
    hide Replay, Moved, WholeLines;
    if events != [] {
      var n := |events| - 1;
      CursorsAdvance(c, events[..n], if k <= n then k else n, user);
      if k <= n {
        assert events[..n][..k] == events[..k];
      } else {
        assert events[..k] == events;
      }
    }
  }

  /** A message is added by a create record and by nothing else. */
  lemma MessagesCounted(recs: seq<Record>, j: nat)
    requires j < |recs|
    ensures |Replay(recs[..j + 1]).msgs| == |Replay(recs[..j]).msgs| + if recs[j].Create? then 1 else 0
  {
    hide Replay, Fold;
    assert recs[..j + 1] == recs[..j] + [recs[j]];
    ReplayAppend(recs[..j], recs[j]);
    FoldCounts(Replay(recs[..j]), recs[j]);
  }

  lemma FoldCounts(c: ChannelV, r: Record)
    requires Indexed(c)
    ensures |Fold(c, r).msgs| == |c.msgs| + if r.Create? then 1 else 0
  {
  }

  /** Message m is there after j records exactly when one of them created it. */
  lemma {:induction false} CreatedBefore(recs: seq<Record>, m: int, j: nat)
    requires StoreLog(recs) && m >= 1 && j <= |recs|
    ensures m <= |Replay(recs[..j]).msgs| <==> exists k :: 0 <= k < j && recs[k].Create? && recs[k].num == m
  {
    hide Replay, Decide, Numbered;
    if j == 0 {
      assert Replay(recs[..0]) == EMPTY by { NoMessages(recs); }
    } else {
      CreatedBefore(recs, m, j - 1);
      MessagesCounted(recs, j - 1);
      assert Decided(recs[..j - 1], recs[j - 1]);
      if recs[j - 1].Create? { CreatedNext(recs, j - 1); }
    }
  }

  lemma NoMessages(recs: seq<Record>)
    ensures Replay(recs[..0]) == EMPTY
  {
  }

  lemma CreatedNext(recs: seq<Record>, j: nat)
    requires StoreLog(recs) && j < |recs| && recs[j].Create?
    ensures recs[j].num == |Replay(recs[..j]).msgs| + 1
  {
    hide Replay;
    StoreLogPrefix(recs, j);
    ReachableWellKept(recs[..j]);
    assert Decided(recs[..j], recs[j]);
    var op, now :| Decide(Replay(recs[..j]), op, now) == Append(recs[j]);
  }

  /** The line of record k ends within the first n bytes. */
  predicate EndsWithin(c: Codec, recs: seq<Record>, k: nat, n: nat)
    requires k < |recs|
  {
    |Serialize(c, recs[..k + 1])| <= n
  }

  /** A cut keeps record k whole exactly when it comes no earlier than that line's
      end. */
  lemma {:induction false} LineSurvives(c: Codec, recs: seq<Record>, n: nat, k: nat)
    requires k < |recs|
    ensures EndsWithin(c, recs, k, n) <==> k < WholeLines(c, recs, n)
    decreases |recs|
  {
    var first := |c.enc(Line(RECORD_VERSION, recs[0]))| + 1;
    SerializeCons(c, recs, k + 1);
    if k == 0 {
      assert recs[1..][..0] == [];
    } else if n >= first {
      LineSurvives(c, recs[1..], n - first, k - 1);
    }
  }

  /** The line that created message mark is whole within the first n bytes. */
  ghost predicate MarkSurvives(c: Codec, log: seq<Record>, mark: int, n: nat) {
    mark <= 0 || exists k :: 0 <= k < |log| && log[k].Create? && log[k].num == mark && EndsWithin(c, log, k, n)
  }

  lemma MarkWithin(c: Codec, log: seq<Record>, mark: int, n: nat)
    requires StoreLog(log)
    ensures MarkSurvives(c, log, mark, n) <==> mark <= |Replay(log[..WholeLines(c, log, n)]).msgs|
  {
    hide Replay, StoreLog, WholeLines, Serialize, EndsWithin;
    var j := WholeLines(c, log, n);
    if mark >= 1 {
      CreatedBefore(log, mark, j);
      forall k | 0 <= k < |log|
        ensures EndsWithin(c, log, k, n) <==> k < j
      {
        LineSurvives(c, log, n, k);
      }
    }
  }

  /** The user has read no further than there are messages. */
  predicate Within(s: Site, user: string) { CursorOf(s, user) <= Newest(s) }

  ghost predicate WithinThroughout(c: Codec, events: seq<Event>, user: string) {
    forall k :: 0 <= k <= |events| ==> Within(After(c, events[..k]), user)
  }

  /** What can be checked at each restart before the log is read: that the message
      the cursor stands at was not cut off. */
  ghost predicate MarkKept(c: Codec, s: Site, ev: Event, user: string) {
    ev.Restart? ==> MarkSurvives(c, s.log, CursorOf(s, user), ev.n)
  }

  ghost predicate MarksKept(c: Codec, events: seq<Event>, user: string) {
    forall k :: 0 <= k < |events| ==> MarkKept(c, After(c, events[..k]), events[k], user)
  }

  lemma StepWithin(c: Codec, s: Site, ev: Event, user: string)
    requires StoreLog(s.log) && Within(s, user)
    ensures Within(Step(c, s, ev), user) <==> MarkKept(c, s, ev, user)
  {
    hide Replay, StoreLog, Moved, WholeLines, MarkSurvives, Decide;
    match ev {
      case Ask(op, now, wrote) =>
        var d := Decide(Replay(s.log), op, now);
        if d.Append? && wrote {
          var all := s.log + [d.rec];
          MessagesCounted(all, |s.log|);
          assert all[..|s.log|] == s.log && all[..|s.log| + 1] == all;
        }
      case Read(_, _, _) =>
      case Restart(n) => MarkWithin(c, s.log, CursorOf(s, user), n);
    }
  }

  lemma AfterAt(c: Codec, events: seq<Event>, k: nat)
    requires k < |events|
    ensures After(c, events[..k + 1]) == Step(c, After(c, events[..k]), events[k])
  {
    hide Step;
    assert events[..k + 1][..k] == events[..k];
  }

  /** A read cursor never passes the newest message, through a whole life of the
      channel, if and only if every restart finds the message it then stands at: no
      crash cut the log before the end of that message's line. */
  lemma {:induction false} CursorWithinExactly(c: Codec, events: seq<Event>, user: string)
    ensures WithinThroughout(c, events, user) <==> MarksKept(c, events, user)
    decreases |events|
  {
    hide After, Step, Within, MarkKept, StoreLog, Replay;
    if events == [] {
      BeginsWithin(c, events, user);
    } else {
      var n := |events| - 1;
      var init := events[..n];
      CursorWithinExactly(c, init, user);
      RunKeepsLog(c, init);
      AfterAt(c, events, n);
      assert events[..n + 1] == events && forall k :: 0 <= k <= n ==> init[..k] == events[..k];
      assert WithinThroughout(c, init, user) ==> Within(After(c, init[..n]), user);
      if WithinThroughout(c, init, user) { StepWithin(c, After(c, init), events[n], user); }
      assert WithinThroughout(c, events, user) ==>
               WithinThroughout(c, init, user) && Within(After(c, events[..n + 1]), user);
      assert MarksKept(c, events, user) ==>
               MarksKept(c, init, user) && MarkKept(c, After(c, events[..n]), events[n], user);
    }
  }

  lemma BeginsWithin(c: Codec, events: seq<Event>, user: string)
    requires events == []
    ensures Within(After(c, events[..0]), user)
  {
  }

  /** It can pass it: one message, read, and a crash that loses the log. */
  lemma CursorPastLog(c: Codec) returns (events: seq<Event>)
    ensures var s := After(c, events); CursorOf(s, "u") == 1 && Newest(s) == 0
  {
    var post := Post("a", "A", "id", "hello", 0, false);
    events := [Ask(post, 0, true), Read("u", 1, true), Restart(0)];
    hide Step, Replay, After;
    var r := Create(1, 0, "a", "A", "id", "hello", 0);
    NothingYet(c);
    AfterAt(c, events, 0);
    AfterAt(c, events, 1);
    AfterAt(c, events, 2);
    assert events[..0] == [] && events[..3] == events;
    FirstPost(r, post);
    ReadFirst(c, r, post);
    assert map["u" := 1]["u"] == 1;
  }

  lemma NothingYet(c: Codec)
    ensures After(c, []) == Site([], map[])
  {
  }

  lemma ReadFirst(c: Codec, r: Record, post: ChatOp)
    requires Decide(Replay([]), post, 0) == Append(r) && |Replay([r]).msgs| == 1
    ensures Step(c, Site([], map[]), Ask(post, 0, true)) == Site([r], map[])
    ensures Step(c, Site([r], map[]), Read("u", 1, true)) == Site([r], map["u" := 1])
    ensures Step(c, Site([r], map["u" := 1]), Restart(0)) == Site([], map["u" := 1])
  {
    hide Replay, Decide;
    assert [] + [r] == [r];
  }

  lemma FirstPost(r: Record, post: ChatOp)
    requires r == Create(1, 0, "a", "A", "id", "hello", 0) && post == Post("a", "A", "id", "hello", 0, false)
    ensures Decide(Replay([]), post, 0) == Append(r) && |Replay([r]).msgs| == 1 && Replay([]) == EMPTY
  {
    assert [r][..0] == [];
  }

  /** A cursor left past the end makes exactly as many of the messages posted next
      count as read as it stands past it. */
  lemma {:induction false} CountedAsRead(msgs: seq<MessageV>, more: seq<MessageV>, cursor: int)
    requires forall i :: 0 <= i < |more| ==> more[i].num == |msgs| + 1 + i && more[i].deletedAt.None?
    ensures var hidden := if cursor <= |msgs| then 0 else if cursor - |msgs| < |more| then cursor - |msgs| else |more|;
            LivePast(msgs + more, cursor) == LivePast(msgs, cursor) + |more| - hidden
  {
    if more == [] {
      assert msgs + more == msgs;
    } else {
      var init := more[..|more| - 1];
      CountedAsRead(msgs, init, cursor);
      assert (msgs + more)[..|msgs + more| - 1] == msgs + init;
    }
  }
}
