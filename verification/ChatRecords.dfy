/** A chat channel as the fold of its record log (chat/jsonl.go), and what the
    store decides to append for each request (chat/store.go). */
module ChatRecords {
  import opened Common

  datatype Reaction = Reaction(userId: string, emoji: string, at: int)

  /** A folded message. threadRoot is 0 for a top-level message. */
  datatype MessageV = MessageV(num: int, threadRoot: int, authorId: string, authorName: string, clientMsgId: string,
                               body: string, createdAt: int, editedAt: Option<int>, deletedAt: Option<int>,
                               replyCount: int, lastReplyAt: Option<int>, reactions: seq<Reaction>)

  /** One line of the log. Other is an operation this build does not know. */
  datatype Record =
    | Create(num: int, threadRoot: int, authorId: string, authorName: string, clientMsgId: string, body: string,
        at: int)
    | Edit(target: int, body: string, at: int)
    | Delete(target: int, at: int)
    | React(target: int, userId: string, emoji: string, at: int)
    | Unreact(target: int, userId: string, emoji: string, at: int)
    | Other

  /** The messages in log order, the two indexes into them, and the next number. */
  datatype ChannelV = ChannelV(msgs: seq<MessageV>, bySeq: map<int, nat>, byClient: map<string, nat>, nextSeq: int)

  const EMPTY := ChannelV([], map[], map[], 1)

  ghost predicate Indexed(c: ChannelV) {
    && (forall k :: k in c.bySeq ==> c.bySeq[k] < |c.msgs|)
    && (forall k :: k in c.byClient ==> c.byClient[k] < |c.msgs|)
  }

  // ---- reactions ----

  predicate HasReaction(rs: seq<Reaction>, user: string, emoji: string) {
    exists r :: r in rs && r.userId == user && r.emoji == emoji
  }

  function NotBy(user: string, emoji: string): Reaction -> bool {
    (r: Reaction) => r.userId != user || r.emoji != emoji
  }

  // ---- the fold ----

  function FreshMessage(r: Record): MessageV
    requires r.Create?
  {
    MessageV(r.num, r.threadRoot, r.authorId, r.authorName, r.clientMsgId, r.body, r.at, None, None, 0, None, [])
  }

  /** A new reply counts on its root, wherever the index finds one. */
  function CountReply(msgs: seq<MessageV>, bySeq: map<int, nat>, root: int, at: int): (r: seq<MessageV>)
    ensures |r| == |msgs|
  {
    if root != 0 && root in bySeq && bySeq[root] < |msgs| then
      var i := bySeq[root];
      msgs[i := msgs[i].(replyCount := msgs[i].replyCount + 1, lastReplyAt := Some(at))]
    else msgs
  }

  /** A deleted reply no longer counts, and the count never goes below zero. */
  function UncountReply(msgs: seq<MessageV>, bySeq: map<int, nat>, root: int): (r: seq<MessageV>)
    ensures |r| == |msgs|
  {
    if root != 0 && root in bySeq && bySeq[root] < |msgs| && msgs[bySeq[root]].replyCount > 0 then
      var i := bySeq[root];
      msgs[i := msgs[i].(replyCount := msgs[i].replyCount - 1)]
    else msgs
  }

  /** The channel with a new message last, indexed by number and client id. */
  function Inserted(c: ChannelV, m: MessageV): ChannelV {
    var i := |c.msgs|;
    ChannelV(c.msgs + [m], c.bySeq[m.num := i],
             if m.clientMsgId != "" then c.byClient[m.clientMsgId := i] else c.byClient,
             if m.num >= c.nextSeq then m.num + 1 else c.nextSeq)
  }

  function FoldCreate(c: ChannelV, r: Record): ChannelV
    requires r.Create?
  {
    var d := Inserted(c, FreshMessage(r));
    d.(msgs := CountReply(d.msgs, d.bySeq, r.threadRoot, r.at))
  }

  /** A record that addresses message i. */
  function FoldOn(c: ChannelV, i: nat, r: Record): ChannelV
    requires i < |c.msgs| && !r.Create? && !r.Other?
  {
    var m := c.msgs[i];
    if r.Unreact? then
      c.(msgs := c.msgs[i := m.(reactions := Filter(m.reactions, NotBy(r.userId, r.emoji)))])
    else if m.deletedAt.Some? then c
    else if r.Edit? then
      c.(msgs := c.msgs[i := m.(body := r.body, editedAt := Some(r.at))])
    else if r.Delete? then
      c.(msgs := UncountReply(c.msgs[i := m.(deletedAt := Some(r.at), body := "", reactions := [])], c.bySeq,
          m.threadRoot))
    else if HasReaction(m.reactions, r.userId, r.emoji) then c
    else c.(msgs := c.msgs[i := m.(reactions := m.reactions + [Reaction(r.userId, r.emoji, r.at)])])
  }

  function Fold(c: ChannelV, r: Record): (d: ChannelV)
    requires Indexed(c)
    ensures Indexed(d)
  {
    if r.Create? then FoldCreate(c, r)
    else if r.Other? || r.target !in c.bySeq then c
    else FoldOn(c, c.bySeq[r.target], r)
  }

  /** An operation this build does not know changes nothing. */
  lemma FoldOther(c: ChannelV)
    requires Indexed(c)
    ensures Fold(c, Other) == c
  {}

  /** replayMessages, as a function of the whole log. */
  function Replay(recs: seq<Record>): (c: ChannelV)
    ensures Indexed(c)
    decreases |recs|
  {
    if recs == [] then EMPTY else Fold(Replay(recs[..|recs| - 1]), recs[|recs| - 1])
  }

  lemma ReplayAppend(recs: seq<Record>, r: Record)
    ensures Replay(recs + [r]) == Fold(Replay(recs), r)
  {
    assert (recs + [r])[..|recs|] == recs;
  }

  // ---- what the store appends ----

  datatype ChatError = NotFound | Invalid | WriteFailed

  /** A request. Bodies arrive trimmed; archived says whether the channel is. */
  datatype ChatOp =
    | Post(authorId: string, authorName: string, clientMsgId: string, body: string, threadRoot: int, archived: bool)
    | EditMsg(num: int, body: string)
    | DeleteMsg(num: int)
    | AddReaction(num: int, userId: string, emoji: string)
    | RemoveReaction(num: int, userId: string, emoji: string)

  /** What a request leads to: one record, the existing message, or a refusal. */
  datatype Decision = Append(rec: Record) | Existing(index: nat) | Refuse(why: ChatError)

  const MAX_BODY_RUNES := 4000

  predicate BadBody(body: string) { body == "" || |body| > MAX_BODY_RUNES }

  function DecidePost(c: ChannelV, op: ChatOp, now: int): Decision
    requires Indexed(c) && op.Post?
  {
    if BadBody(op.body) || op.clientMsgId == "" || op.archived then Refuse(Invalid)
    else if op.clientMsgId in c.byClient then Existing(c.byClient[op.clientMsgId])
    else if op.threadRoot != 0 &&
            (op.threadRoot !in c.bySeq ||
             var root := c.msgs[c.bySeq[op.threadRoot]]; root.threadRoot != 0 || root.deletedAt.Some?)
    then Refuse(Invalid)
    else Append(Create(c.nextSeq, op.threadRoot, op.authorId, op.authorName, op.clientMsgId, op.body, now))
  }

  function Decide(c: ChannelV, op: ChatOp, now: int): (d: Decision)
    requires Indexed(c)
    ensures d.Existing? ==> d.index < |c.msgs|
  {
    match op
    case Post(_, _, _, _, _, _) => DecidePost(c, op, now)
    case EditMsg(num, body) =>
      if BadBody(body) then Refuse(Invalid)
      else if num !in c.bySeq then Refuse(NotFound)
      else if c.msgs[c.bySeq[num]].deletedAt.Some? then Refuse(Invalid)
      else Append(Edit(num, body, now))
    case DeleteMsg(num) =>
      if num !in c.bySeq then Refuse(NotFound)
      else if c.msgs[c.bySeq[num]].deletedAt.Some? then Existing(c.bySeq[num])
      else Append(Delete(num, now))
    case AddReaction(num, user, emoji) =>
      if num !in c.bySeq then Refuse(NotFound)
      else if c.msgs[c.bySeq[num]].deletedAt.Some? then Refuse(Invalid)
      else if HasReaction(c.msgs[c.bySeq[num]].reactions, user, emoji) then Existing(c.bySeq[num])
      else Append(React(num, user, emoji, now))
    case RemoveReaction(num, user, emoji) =>
      if num !in c.bySeq then Refuse(NotFound)
      else if !HasReaction(c.msgs[c.bySeq[num]].reactions, user, emoji) then Existing(c.bySeq[num])
      else Append(Unreact(num, user, emoji, now))
  }

  /** A log the store can have written: every record was what some request led
      to in the channel state the records before it fold to. Crashes only ever
      cut such a log short, and restarts do not touch it. */
  ghost predicate StoreLog(recs: seq<Record>) {
    forall k :: 0 <= k < |recs| ==> Decided(recs[..k], recs[k])
  }

  ghost predicate Decided(before: seq<Record>, r: Record) {
    exists op, now :: Decide(Replay(before), op, now) == Append(r)
  }

  lemma StoreLogPrefix(recs: seq<Record>, n: nat)
    requires StoreLog(recs) && n <= |recs|
    ensures StoreLog(recs[..n])
  {
    forall k | 0 <= k < n ensures Decided(recs[..n][..k], recs[..n][k]) {
      assert recs[..n][..k] == recs[..k];
    }
  }

  lemma StoreLogAppend(recs: seq<Record>, op: ChatOp, now: int, r: Record)
    requires StoreLog(recs) && Decide(Replay(recs), op, now) == Append(r)
    ensures StoreLog(recs + [r])
  {
    var all := recs + [r];
    forall k | 0 <= k < |all| ensures Decided(all[..k], all[k]) {
      assert all[..k] == recs[..k];
      assert recs[..|recs|] == recs;
      if k < |recs| { assert Decided(recs[..k], recs[k]); }
    }
  }
}
