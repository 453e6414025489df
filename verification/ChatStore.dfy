/** The live channel of chat/store.go and chat/jsonl.go: message objects shared by
    a list and two indexes, changed in place beside the log. */
module ChatStore {
  import opened Common
  import opened ChatRecords
  import opened ChatInvariants
  import opened ChatMeaning

  class Message {
    const num: int
    const threadRoot: int
    const authorId: string
    const authorName: string
    const clientMsgId: string
    const createdAt: int
    var body: string
    var editedAt: Option<int>
    var deletedAt: Option<int>
    var replyCount: int
    var lastReplyAt: Option<int>
    var reactions: seq<Reaction>

    constructor (num: int, threadRoot: int, authorId: string, authorName: string, clientMsgId: string, body: string,
                 at: int)
      ensures View() == MessageV(num, threadRoot, authorId, authorName, clientMsgId, body, at, None, None, 0, None, [])
    {
      this.num, this.threadRoot := num, threadRoot;
      this.authorId, this.authorName, this.clientMsgId := authorId, authorName, clientMsgId;
      this.createdAt, this.body := at, body;
      this.editedAt, this.deletedAt := None, None;
      this.replyCount, this.lastReplyAt, this.reactions := 0, None, [];
    }

    function View(): MessageV
      reads this
    {
      MessageV(num, threadRoot, authorId, authorName, clientMsgId, body, createdAt, editedAt, deletedAt,
               replyCount, lastReplyAt, reactions)
    }

    /** hasReaction. */
    method Reacted(user: string, emoji: string) returns (b: bool)
      ensures b <==> HasReaction(reactions, user, emoji)
    {
      var i := 0;
      while i < |reactions|
        invariant 0 <= i <= |reactions|
        invariant forall k :: 0 <= k < i ==> !(reactions[k].userId == user && reactions[k].emoji == emoji)
      {
        if reactions[i].userId == user && reactions[i].emoji == emoji { return true; }
        i := i + 1;
      }
      b := false;
    }
  }

  /** What one request must leave behind, and answer, given what it decided. */
  ghost predicate Served(c: ChannelV, log: seq<Record>, d: ChannelV, log': seq<Record>, decision: Decision, wrote: bool,
                         answer: Result<MessageV, ChatError>)
    requires Indexed(c) && (decision.Existing? ==> decision.index < |c.msgs|)
  {
    match decision
    case Append(r) =>
      if wrote then
        && d == Fold(c, r) && log' == log + [r]
        && (if r.Create? then |d.msgs| == |c.msgs| + 1 && answer == Ok(d.msgs[|c.msgs|])
            else !r.Other? && r.target in d.bySeq && answer == Ok(d.msgs[d.bySeq[r.target]]))
      else d == c && log' == log && answer == Err(WriteFailed)
    case Existing(i) => d == c && log' == log && answer == Ok(c.msgs[i])
    case Refuse(e) => d == c && log' == log && answer == Err(e)
  }

  // ---- what an answer tells, in the fields of the request ----

  /** A post is refused exactly when it is bad; the answer carries its client id, and
      when it was written it is the post, under the next number. */
  ghost predicate PostTells(c: ChannelV, log: seq<Record>, op: ChatOp, now: int, log': seq<Record>,
                            answer: Result<MessageV, ChatError>)
    requires op.Post?
  {
    && (answer == Err(ChatError.Invalid) <==> !(PostOk(op) && (Known(c, op.clientMsgId) || RootOk(c, op.threadRoot))))
    && (answer.Ok? ==> answer.value.clientMsgId == op.clientMsgId)
    && (answer.Ok? && log' != log ==>
          answer.value == MessageV(|c.msgs| + 1, op.threadRoot, op.authorId, op.authorName, op.clientMsgId, op.body,
                                   now, None, None, 0, None, []))
  }

  lemma PostTold(c: ChannelV, log: seq<Record>, op: ChatOp, now: int, wrote: bool)
    requires WellKept(c) && Indexed(c) && op.Post?
    ensures forall d, log', answer :: Served(c, log, d, log', Decide(c, op, now), wrote, answer) ==>
              PostTells(c, log, op, now, log', answer)
  {
    hide Fold, WellKept, Known, RootOk, DecidePost;
    PostAnswered(c, op, now);
    var d := Decide(c, op, now);
    if d.Append? {
      Addresses(c, op, now, d.rec);
      NewestIs(c, op, now);
    }
  }

  lemma NewestIs(c: ChannelV, op: ChatOp, now: int)
    requires Indexed(c) && op.Post? && Decide(c, op, now).Append?
    ensures Decide(c, op, now).rec.Create?
  {
  }

  /** What an answer about message num shows of it, when it is no error. */
  ghost predicate Tells(c: ChannelV, op: ChatOp, now: int, answer: Result<MessageV, ChatError>)
    requires !op.Post?
  {
    answer.Ok? ==>
      && There(c, op.num) && answer.value.num == op.num
      && match op
         case EditMsg(num, body) => answer.value == c.msgs[num - 1].(body := body, editedAt := Some(now))
         case DeleteMsg(_) => answer.value.deletedAt.Some? && answer.value.body == "" && answer.value.reactions == []
         case AddReaction(_, user, emoji) => HasReaction(answer.value.reactions, user, emoji)
         case RemoveReaction(_, user, emoji) => !HasReaction(answer.value.reactions, user, emoji)
  }

  lemma Told(c: ChannelV, log: seq<Record>, op: ChatOp, now: int, wrote: bool)
    requires WellKept(c) && Indexed(c) && !op.Post?
    ensures forall d, log', answer :: Served(c, log, d, log', Decide(c, op, now), wrote, answer) ==>
              Tells(c, op, now, answer)
  {
    hide Fold, WellKept, Bodied, HasReaction;
    Readable(c);
    AnswerTells(c, op, now);
  }

  /** The message an answer shows, whether the request wrote or found nothing to do. */
  lemma AnswerTells(c: ChannelV, op: ChatOp, now: int)
    requires WellKept(c) && Indexed(c) && !op.Post?
    ensures match Decide(c, op, now)
            case Append(r) =>
              && !r.Create? && !r.Other? && r.target == op.num && There(c, op.num) && |Fold(c, r).msgs| == |c.msgs|
              && Fold(c, r).bySeq == c.bySeq && op.num in c.bySeq && c.bySeq[op.num] == op.num - 1
              && Tells(c, op, now, Ok(Fold(c, r).msgs[op.num - 1]))
            case Existing(i) => Tells(c, op, now, Ok(c.msgs[i]))
            case Refuse(_) => true
  {
    hide HasReaction, Counted, Threaded, ClientsUnique, LiveReplies;
    match op
    case EditMsg(num, body) => EditAnswered(c, num, body, now);
    case DeleteMsg(num) =>
      DeleteAnswered(c, num, now);
      Readable(c);
    case AddReaction(num, user, emoji) =>
      ReactAnswered(c, num, user, emoji, now);
      ReactionAdds(c, num, user, emoji, now);
    case RemoveReaction(num, user, emoji) =>
      UnreactAnswered(c, num, user, emoji, now);
      ReactionTaken(c, num, user, emoji, now);
  }

  lemma ReactionTaken(c: ChannelV, num: int, user: string, emoji: string, now: int)
    requires WellKept(c) && Indexed(c)
    ensures var d := Decide(c, ChatOp.RemoveReaction(num, user, emoji), now);
            d.Append? ==>
              && d.rec.Unreact? && There(c, num) && num - 1 < |Fold(c, d.rec).msgs|
              && !HasReaction(Fold(c, d.rec).msgs[num - 1].reactions, user, emoji)
  {
    hide WellKept, Fold, HasReaction;
    var op := ChatOp.RemoveReaction(num, user, emoji);
    var d := Decide(c, op, now);
    if d.Append? {
      Addresses(c, op, now, d.rec);
      ReactionStep(c, d.rec, num - 1, user, emoji);
    }
  }

  lemma ReactionAdds(c: ChannelV, num: int, user: string, emoji: string, now: int)
    ensures There(c, num) ==> HasReaction(c.msgs[num - 1].reactions + [Reaction(user, emoji, now)], user, emoji)
  {
    if There(c, num) { assert Reaction(user, emoji, now) in c.msgs[num - 1].reactions + [Reaction(user, emoji, now)]; }
  }

  // An index that gains an entry still leads to the listed objects.

  lemma BySeqGrows(index: map<int, Message>, places: map<int, nat>, msgs: seq<Message>, k: int, m: Message,
                       grown: seq<Message>, index': map<int, Message>, places': map<int, nat>)
    requires index.Keys == places.Keys && (forall j :: j in places ==> places[j] < |msgs|)
    requires forall j :: j in index ==> index[j] == msgs[places[j]]
    requires grown == msgs + [m] && index' == index[k := m] && places' == places[k := |msgs|]
    ensures index'.Keys == places'.Keys && forall j :: j in index' ==>
            places'[j] < |grown| && index'[j] == grown[places'[j]]
  {}

  lemma ByClientGrows(index: map<string, Message>, places: map<string, nat>, msgs: seq<Message>, k: string, m: Message,
                       grown: seq<Message>, index': map<string, Message>, places': map<string, nat>)
    requires index.Keys == places.Keys && (forall j :: j in places ==> places[j] < |msgs|)
    requires forall j :: j in index ==> index[j] == msgs[places[j]]
    requires grown == msgs + [m] && index' == index[k := m] && places' == places[k := |msgs|]
    ensures index'.Keys == places'.Keys && forall j :: j in index' ==>
            places'[j] < |grown| && index'[j] == grown[places'[j]]
  {}

  class Channel {
    var msgs: seq<Message>
    var bySeq: map<int, Message>
    var byClient: map<string, Message>
    var nextSeq: int
    var log: seq<Record>
    ghost var model: ChannelV

    /** The objects show the model, and each index leads to the very object the
        list holds at that place. */
    ghost predicate Valid()
      reads this, msgs
    {
      && Indexed(model) && |model.msgs| == |msgs| && nextSeq == model.nextSeq
      && (forall i :: 0 <= i < |msgs| ==> msgs[i].View() == model.msgs[i])
      && (forall i, k :: 0 <= i < k < |msgs| ==> msgs[i] != msgs[k])
      && bySeq.Keys == model.bySeq.Keys && (forall k :: k in bySeq ==> bySeq[k] == msgs[model.bySeq[k]])
      && byClient.Keys == model.byClient.Keys && (forall k :: k in byClient ==> byClient[k] == msgs[model.byClient[k]])
    }

    /** A channel the store has been running: what is in memory is the replay of
        what it appended. */
    ghost predicate Consistent()
      reads this, msgs
    {
      Valid() && model == Replay(log) && StoreLog(log)
    }

    constructor Empty()
      ensures Valid() && model == EMPTY && log == [] && msgs == []
    {
      msgs, bySeq, byClient, nextSeq, log, model := [], map[], map[], 1, [], EMPTY;
    }

    // ---- replayMessages ----

    /** A new object joins the list and both indexes. */
    method Insert(m: Message)
      requires Valid() && m !in msgs
      modifies this
      ensures Valid() && model == Inserted(old(model), m.View()) && log == old(log) && msgs == old(msgs) + [m]
    {
      ghost var d := Inserted(model, m.View());
      ghost var grown := msgs + [m];
      BySeqGrows(bySeq, model.bySeq, msgs, m.num, m, grown, bySeq[m.num := m], d.bySeq);
      if m.clientMsgId != "" {
        ByClientGrows(byClient, model.byClient, msgs, m.clientMsgId, m, grown, byClient[m.clientMsgId := m],
            d.byClient);
        byClient := byClient[m.clientMsgId := m];
      }
      bySeq := bySeq[m.num := m];
      if m.num >= nextSeq { nextSeq := m.num + 1; }
      msgs := msgs + [m];
      model := d;
    }

    /** Changing one listed object changes one place of the model. */
    ghost method Touched(i: nat, v: MessageV)
      requires i < |msgs| && |model.msgs| == |msgs| && msgs[i].View() == v
      requires Indexed(model) && nextSeq == model.nextSeq
      requires forall k :: 0 <= k < |msgs| && k != i ==> msgs[k].View() == model.msgs[k]
      requires forall i, k :: 0 <= i < k < |msgs| ==> msgs[i] != msgs[k]
      requires bySeq.Keys == model.bySeq.Keys && (forall k :: k in bySeq ==> bySeq[k] == msgs[model.bySeq[k]])
      requires byClient.Keys == model.byClient.Keys && (forall k :: k in byClient ==>
               byClient[k] == msgs[model.byClient[k]])
      modifies this`model
      ensures Valid() && model == old(model).(msgs := old(model).msgs[i := v])
    {
      model := model.(msgs := model.msgs[i := v]);
    }

    /** The root's counters move when a reply is created. */
    method CountOn(root: int, at: int)
      requires Valid()
      modifies this`model, msgs
      ensures Valid() && model == old(model).(msgs := CountReply(old(model).msgs, old(model).bySeq, root, at))
    {
      if root != 0 && root in bySeq {
        var m := bySeq[root];
        m.replyCount := m.replyCount + 1;
        m.lastReplyAt := Some(at);
        Touched(model.bySeq[root], m.View());
      }
    }

    /** A create record. */
    method ReplayCreate(r: Record)
      requires Valid() && r.Create?
      modifies this, msgs
      ensures Valid() && model == Fold(old(model), r) && log == old(log)
      ensures |msgs| == |old(msgs)| + 1 && msgs[..|old(msgs)|] == old(msgs) && fresh(msgs[|old(msgs)|])
    {
      var m := new Message(r.num, r.threadRoot, r.authorId, r.authorName, r.clientMsgId, r.body, r.at);
      Insert(m);
      CountOn(r.threadRoot, r.at);
    }

    /** The root's counter moves back when a live reply is deleted. */
    method CountOff(root: int)
      requires Valid()
      modifies this`model, msgs
      ensures Valid() && model == old(model).(msgs := UncountReply(old(model).msgs, old(model).bySeq, root))
    {
      if root != 0 && root in bySeq && bySeq[root].replyCount > 0 {
        var m := bySeq[root];
        m.replyCount := m.replyCount - 1;
        Touched(model.bySeq[root], m.View());
      }
    }

    /** An edit, delete, react or unreact record. */
    method ReplayOn(r: Record)
      requires Valid() && !r.Create? && !r.Other?
      modifies this`model, msgs
      ensures Valid() && model == Fold(old(model), r)
    {
      hide UncountReply, HasReaction, NotBy, Filter, FoldCreate;
      if r.target !in bySeq { return; }
      var m := bySeq[r.target];
      ghost var i := model.bySeq[r.target];
      if r.Unreact? {
        var kept := Sweep(m.reactions, NotBy(r.userId, r.emoji));
        m.reactions := kept;
        Touched(i, m.View());
      } else if m.deletedAt.None? {
        if r.Edit? {
          m.body := r.body;
          m.editedAt := Some(r.at);
          Touched(i, m.View());
        } else if r.Delete? {
          m.deletedAt := Some(r.at);
          m.body := "";
          m.reactions := [];
          Touched(i, m.View());
          CountOff(m.threadRoot);
        } else {
          var has := m.Reacted(r.userId, r.emoji);
          if !has {
            m.reactions := m.reactions + [Reaction(r.userId, r.emoji, r.at)];
            Touched(i, m.View());
          }
        }
      }
    }

    /** loadChannel after replayLog: fold the records into fresh objects. */
    constructor Load(recs: seq<Record>)
      ensures Valid() && model == Replay(recs) && log == recs && fresh(msgs)
    {
      hide Fold;
      msgs, bySeq, byClient, nextSeq, log, model := [], map[], map[], 1, recs, EMPTY;
      new;
      var i := 0;
      while i < |recs|
        invariant 0 <= i <= |recs| && log == recs && Valid() && fresh(msgs) && model == Replay(recs[..i])
      {
        assert recs[..i + 1][..i] == recs[..i];
        if recs[i].Create? {
          ghost var before := msgs;
          ReplayCreate(recs[i]);
          assert forall m :: m in msgs ==> m in before || m == msgs[|before|];
        } else if !recs[i].Other? {
          ReplayOn(recs[i]);
        } else {
          FoldOther(model);
        }
        i := i + 1;
      }
      assert recs[..|recs|] == recs;
    }

    // ---- requests ----

    /** What every request relies on and keeps, and how a record that was
        appended keeps memory equal to the replay of the log. */
    lemma Appended(op: ChatOp, now: int, r: Record, before: ChannelV, logBefore: seq<Record>)
      requires Valid() && before == Replay(logBefore) && StoreLog(logBefore)
      requires Decide(before, op, now) == ChatRecords.Append(r) && model == Fold(before, r) && log == logBefore + [r]
      ensures Consistent()
    {
      ReplayAppend(logBefore, r);
      StoreLogAppend(logBefore, op, now, r);
    }

    /** Why a post is refused, or which message already answers it. */
    method CheckPost(op: ChatOp, now: int) returns (existing: Message?, refused: bool)
      requires Valid() && op.Post?
      ensures match DecidePost(model, op, now)
              case Append(_) => existing == null && !refused
              case Existing(i) => existing == msgs[i] && existing in byClient.Values && !refused
              case Refuse(e) => existing == null && refused && e == Invalid
    {
      existing, refused := null, true;
      if op.body == "" || |op.body| > MAX_BODY_RUNES || op.clientMsgId == "" || op.archived { return; }
      if op.clientMsgId in byClient {
        assert byClient[op.clientMsgId] in byClient.Values;
        return byClient[op.clientMsgId], false;
      }
      if op.threadRoot != 0 {
        if op.threadRoot !in bySeq { return; }
        var root := bySeq[op.threadRoot];
        assert root.View() == model.msgs[model.bySeq[op.threadRoot]];
        if root.threadRoot != 0 || root.deletedAt.Some? { return; }
      }
      refused := false;
    }

    /** The store's own update of a posted message, its indexes and its root. */
    method ApplyPost(op: ChatOp, now: int)
      requires Valid() && op.Post? && op.clientMsgId != ""
      modifies this, msgs
      ensures Valid() && log == old(log) && |msgs| == |old(msgs)| + 1 && fresh(msgs[|old(msgs)|])
      ensures msgs[..|old(msgs)|] == old(msgs)
      ensures model == Fold(old(model), Create(old(nextSeq), op.threadRoot, op.authorId, op.authorName, op.clientMsgId,
                                               op.body, now))
    {
      var m := new Message(nextSeq, op.threadRoot, op.authorId, op.authorName, op.clientMsgId, op.body, now);
      Insert(m);
      CountOn(op.threadRoot, now);
    }

    method ApplyEdit(m: Message, num: int, body: string, now: int)
      requires Valid() && num in bySeq && bySeq[num] == m && m.deletedAt.None?
      modifies this`model, msgs
      ensures Valid() && model == Fold(old(model), Edit(num, body, now)) && model.bySeq == old(model.bySeq)
    {
      m.body := body;
      m.editedAt := Some(now);
      Touched(model.bySeq[num], m.View());
    }

    method ApplyDelete(m: Message, num: int, now: int)
      requires Valid() && num in bySeq && bySeq[num] == m && m.deletedAt.None?
      modifies this`model, msgs
      ensures Valid() && model == Fold(old(model), Delete(num, now)) && model.bySeq == old(model.bySeq)
    {
      m.deletedAt := Some(now);
      m.body := "";
      m.reactions := [];
      Touched(model.bySeq[num], m.View());
      CountOff(m.threadRoot);
    }

    method ApplyReact(m: Message, num: int, user: string, emoji: string, now: int)
      requires Valid() && num in bySeq && bySeq[num] == m && m.deletedAt.None? && !HasReaction(m.reactions, user, emoji)
      modifies this`model, msgs
      ensures Valid() && model == Fold(old(model), React(num, user, emoji, now)) && model.bySeq == old(model.bySeq)
    {
      m.reactions := m.reactions + [Reaction(user, emoji, now)];
      Touched(model.bySeq[num], m.View());
    }

    method ApplyUnreact(m: Message, num: int, user: string, emoji: string, ghost now: int)
      requires Valid() && num in bySeq && bySeq[num] == m
      modifies this`model, msgs
      ensures Valid() && model == Fold(old(model), Unreact(num, user, emoji, now)) && model.bySeq == old(model.bySeq)
    {
      var kept := Sweep(m.reactions, NotBy(user, emoji));
      m.reactions := kept;
      Touched(model.bySeq[num], m.View());
    }

    /** appendRecord: one whole line, or a write error and no line. */
    method AppendRecord(r: Record, wrote: bool) returns (ok: bool)
      modifies this`log
      ensures ok == wrote && log == if wrote then old(log) + [r] else old(log)
    {
      if wrote { log := log + [r]; }
      ok := wrote;
    }

    /** The record, the write, and the store's own update, for a post that passed. */
    method WritePost(op: ChatOp, now: int, wrote: bool) returns (answer: Result<MessageV, ChatError>)
      requires Consistent() && op.Post? && Decide(model, op, now).Append?
      modifies this, msgs
      ensures Consistent() && |old(msgs)| <= |msgs| && msgs[..|old(msgs)|] == old(msgs)
      ensures forall i :: |old(msgs)| <= i < |msgs| ==> fresh(msgs[i])
      ensures Served(old(model), old(log), model, log, Decide(old(model), op, now), wrote, answer)
    {
      hide Fold, Replay, StoreLog;
      ghost var c, l := model, log;
      var rec := Create(nextSeq, op.threadRoot, op.authorId, op.authorName, op.clientMsgId, op.body, now);
      var ok := AppendRecord(rec, wrote);
      if !ok { return Err(WriteFailed); }
      ApplyPost(op, now);
      Appended(op, now, rec, c, l);
      answer := Ok(msgs[|msgs| - 1].View());
    }

    method CreateMessage(op: ChatOp, now: int, wrote: bool) returns (answer: Result<MessageV, ChatError>)
      requires Consistent() && op.Post?
      modifies this, msgs
      ensures Consistent() && |old(msgs)| <= |msgs| && msgs[..|old(msgs)|] == old(msgs)
      ensures forall i :: |old(msgs)| <= i < |msgs| ==> fresh(msgs[i])
      ensures Served(old(model), old(log), model, log, Decide(old(model), op, now), wrote, answer)
      ensures PostTells(old(model), old(log), op, now, log, answer)
    {
      hide Fold, Replay, StoreLog, WellKept, PostTells, DecidePost;
      ReachableWellKept(log);
      PostTold(model, log, op, now, wrote);
      var existing, refused := CheckPost(op, now);
      if refused { return Err(Invalid); }
      if existing != null { return Ok(existing.View()); }
      answer := WritePost(op, now, wrote);
    }

    method EditMessage(num: int, body: string, now: int, wrote: bool) returns (answer: Result<MessageV, ChatError>)
      requires Consistent()
      modifies this`log, this`model, msgs
      ensures Consistent()
      ensures Served(old(model), old(log), model, log, Decide(old(model), EditMsg(num, body), now), wrote, answer)
      ensures Tells(old(model), EditMsg(num, body), now, answer)
    {
      hide Fold, Replay, StoreLog, WellKept, Tells;
      ReachableWellKept(log);
      Told(model, log, EditMsg(num, body), now, wrote);
      if body == "" || |body| > MAX_BODY_RUNES { return Err(Invalid); }
      if num !in bySeq { return Err(NotFound); }
      var m := bySeq[num];
      if m.deletedAt.Some? { return Err(Invalid); }
      ghost var c, l := model, log;
      var rec := Edit(num, body, now);
      var ok := AppendRecord(rec, wrote);
      if !ok { return Err(WriteFailed); }
      ApplyEdit(m, num, body, now);
      Appended(EditMsg(num, body), now, rec, c, l);
      answer := Ok(m.View());
    }

    method DeleteMessage(num: int, now: int, wrote: bool) returns (answer: Result<MessageV, ChatError>)
      requires Consistent()
      modifies this`log, this`model, msgs
      ensures Consistent()
      ensures Served(old(model), old(log), model, log, Decide(old(model), DeleteMsg(num), now), wrote, answer)
      ensures Tells(old(model), DeleteMsg(num), now, answer)
    {
      hide Fold, Replay, StoreLog, DecidePost, WellKept, Tells;
      ReachableWellKept(log);
      Told(model, log, DeleteMsg(num), now, wrote);
      if num !in bySeq { return Err(NotFound); }
      var m := bySeq[num];
      if m.deletedAt.Some? { return Ok(m.View()); }
      ghost var c, l := model, log;
      var rec := Delete(num, now);
      var ok := AppendRecord(rec, wrote);
      if !ok { return Err(WriteFailed); }
      ApplyDelete(m, num, now);
      Appended(DeleteMsg(num), now, rec, c, l);
      answer := Ok(m.View());
    }

    method WriteReact(m: Message, num: int, user: string, emoji: string, now: int, wrote: bool)
      returns (answer: Result<MessageV, ChatError>)
      requires Consistent() && num in bySeq && bySeq[num] == m && m.deletedAt.None?
      requires !HasReaction(m.reactions, user, emoji)
      modifies this`log, this`model, msgs
      ensures Consistent()
      ensures Served(old(model), old(log), model, log, Decide(old(model), ChatOp.AddReaction(num, user, emoji), now),
                     wrote, answer)
    {
      hide Fold, Replay, StoreLog, HasReaction, DecidePost, BadBody;
      ghost var c, l := model, log;
      var rec := React(num, user, emoji, now);
      var ok := AppendRecord(rec, wrote);
      if !ok { return Err(WriteFailed); }
      ApplyReact(m, num, user, emoji, now);
      Appended(ChatOp.AddReaction(num, user, emoji), now, rec, c, l);
      answer := Ok(m.View());
    }

    method AddReaction(num: int, user: string, emoji: string, now: int, wrote: bool)
      returns (answer: Result<MessageV, ChatError>)
      requires Consistent()
      modifies this`log, this`model, msgs
      ensures Consistent()
      ensures Served(old(model), old(log), model, log, Decide(old(model), ChatOp.AddReaction(num, user, emoji), now),
                     wrote, answer)
      ensures Tells(old(model), ChatOp.AddReaction(num, user, emoji), now, answer)
    {
      hide Fold, Replay, StoreLog, HasReaction, DecidePost, BadBody, WellKept, Tells;
      ReachableWellKept(log);
      Told(model, log, ChatOp.AddReaction(num, user, emoji), now, wrote);
      if num !in bySeq { return Err(NotFound); }
      var m := bySeq[num];
      if m.deletedAt.Some? { return Err(Invalid); }
      var has := m.Reacted(user, emoji);
      if has { return Ok(m.View()); }
      answer := WriteReact(m, num, user, emoji, now, wrote);
    }

    method WriteUnreact(m: Message, num: int, user: string, emoji: string, now: int, wrote: bool)
      returns (answer: Result<MessageV, ChatError>)
      requires Consistent() && num in bySeq && bySeq[num] == m && HasReaction(m.reactions, user, emoji)
      modifies this`log, this`model, msgs
      ensures Consistent()
      ensures Served(old(model), old(log), model, log, Decide(old(model), ChatOp.RemoveReaction(num, user, emoji), now),
                     wrote, answer)
    {
      hide Fold, Replay, StoreLog, HasReaction, DecidePost, BadBody;
      ghost var c, l := model, log;
      var rec := Unreact(num, user, emoji, now);
      var ok := AppendRecord(rec, wrote);
      if !ok { return Err(WriteFailed); }
      ApplyUnreact(m, num, user, emoji, now);
      Appended(ChatOp.RemoveReaction(num, user, emoji), now, rec, c, l);
      answer := Ok(m.View());
    }

    method RemoveReaction(num: int, user: string, emoji: string, now: int, wrote: bool)
      returns (answer: Result<MessageV, ChatError>)
      requires Consistent()
      modifies this`log, this`model, msgs
      ensures Consistent()
      ensures Served(old(model), old(log), model, log, Decide(old(model), ChatOp.RemoveReaction(num, user, emoji), now),
                     wrote, answer)
      ensures Tells(old(model), ChatOp.RemoveReaction(num, user, emoji), now, answer)
    {
      hide Fold, Replay, StoreLog, HasReaction, DecidePost, BadBody, WellKept, Tells;
      ReachableWellKept(log);
      Told(model, log, ChatOp.RemoveReaction(num, user, emoji), now, wrote);
      if num !in bySeq { return Err(NotFound); }
      var m := bySeq[num];
      var has := m.Reacted(user, emoji);
      if !has { return Ok(m.View()); }
      answer := WriteUnreact(m, num, user, emoji, now, wrote);
    }
  }
}
