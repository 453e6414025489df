/** What each request of chat/store.go does to a channel it can meet, told in the
    fields of the request and of the messages, and what a message shows, told from the
    log alone. */
module ChatMeaning {
  import opened Common
  import opened ChatRecords
  import opened ChatInvariants

  // ---- posting ----

  /** What a post needs but for its root. */
  predicate PostOk(op: ChatOp)
    requires op.Post?
  {
    op.body != "" && |op.body| <= 4000 && op.clientMsgId != "" && !op.archived
  }

  ghost predicate Known(c: ChannelV, client: string) {
    exists m :: m in c.msgs && m.clientMsgId == client
  }

  /** A root is a live top-level message; zero is no root. */
  predicate RootOk(c: ChannelV, root: int) {
    root == 0 || (1 <= root <= |c.msgs| && c.msgs[root - 1].threadRoot == 0 && c.msgs[root - 1].deletedAt.None?)
  }

  lemma ClientKnown(c: ChannelV, client: string)
    requires WellKept(c)
    ensures client in c.byClient <==> Known(c, client)
    ensures client in c.byClient ==> c.byClient[client] < |c.msgs| && c.msgs[c.byClient[client]].clientMsgId == client
  {
    if m :| m in c.msgs && m.clientMsgId == client {
      var i :| 0 <= i < |c.msgs| && c.msgs[i] == m;
    }
    if client in c.byClient { assert c.msgs[c.byClient[client]] in c.msgs; }
  }

  /** A post is refused exactly when its body, client id, channel or root is bad; one
      whose client id is known is answered with the message that has it, root unseen;
      any other becomes the newest message, under the next number, as it was asked for,
      and counts on its root, and no other message changes. */
  lemma PostAnswered(c: ChannelV, op: ChatOp, now: int)
    requires WellKept(c) && Indexed(c) && op.Post?
    ensures match Decide(c, op, now)
            case Refuse(why) =>
              why == ChatError.Invalid && !(PostOk(op) && (Known(c, op.clientMsgId) || RootOk(c, op.threadRoot)))
            case Existing(i) =>
              PostOk(op) && Known(c, op.clientMsgId) && i < |c.msgs| && c.msgs[i].clientMsgId == op.clientMsgId
            case Append(r) =>
              && PostOk(op) && !Known(c, op.clientMsgId) && RootOk(c, op.threadRoot)
              && var after := Fold(c, r).msgs;
                 && |after| == |c.msgs| + 1
                 && after[|c.msgs|] == MessageV(|c.msgs| + 1, op.threadRoot, op.authorId, op.authorName,
                                                op.clientMsgId, op.body, now, None, None, 0, None, [])
                 && forall i :: 0 <= i < |c.msgs| ==>
                      after[i] == if i + 1 == op.threadRoot
                                  then c.msgs[i].(replyCount := c.msgs[i].replyCount + 1, lastReplyAt := Some(now))
                                  else c.msgs[i]
  {
    hide Known, ClientsUnique, Threaded, Counted, Bodied;
    ClientKnown(c, op.clientMsgId);
  }

  // ---- what addresses a message ----

  predicate There(c: ChannelV, num: int) { 1 <= num <= |c.msgs| }

  predicate Dead(c: ChannelV, num: int)
    requires There(c, num)
  {
    c.msgs[num - 1].deletedAt.Some?
  }

  /** Only the body and the edit time of the message named change. */
  lemma EditAnswered(c: ChannelV, num: int, body: string, now: int)
    requires WellKept(c) && Indexed(c)
    ensures var d := Decide(c, EditMsg(num, body), now);
            if body == "" || |body| > 4000 then d == Refuse(ChatError.Invalid)
            else if !There(c, num) then d == Refuse(ChatError.NotFound)
            else if Dead(c, num) then d == Refuse(ChatError.Invalid)
            else d.Append? && Fold(c, d.rec) ==
                              c.(msgs := c.msgs[num - 1 := c.msgs[num - 1].(body := body, editedAt := Some(now))])
  {
    hide ClientsUnique, Threaded, Counted, Bodied;
  }

  /** The message named loses body and reactions for good, its root one live reply, and
      no other message anything. Deleting again writes nothing. */
  lemma DeleteAnswered(c: ChannelV, num: int, now: int)
    requires WellKept(c) && Indexed(c)
    ensures var d := Decide(c, DeleteMsg(num), now);
            if !There(c, num) then d == Refuse(ChatError.NotFound)
            else if Dead(c, num) then d == Existing(num - 1)
            else
              && d.Append?
              && var m, after := c.msgs[num - 1], Fold(c, d.rec).msgs;
                 && |after| == |c.msgs|
                 && after[num - 1] == m.(deletedAt := Some(now), body := "", reactions := [])
                 && forall i :: 0 <= i < |c.msgs| && i != num - 1 ==>
                      after[i] == if i + 1 == m.threadRoot then c.msgs[i].(replyCount := c.msgs[i].replyCount - 1)
                                  else c.msgs[i]
  {
    hide LiveReplies, LastReply, UncountReply, Counted, Threaded, ClientsUnique;
    if There(c, num) && !Dead(c, num) {
      Uncounted(c.msgs, c.bySeq, num - 1, c.msgs[num - 1].(deletedAt := Some(now), body := "", reactions := []));
    }
  }

  lemma Uncounted(msgs: seq<MessageV>, bySeq: map<int, nat>, i: nat, dead: MessageV)
    requires i < |msgs| && Counted(msgs) && Threaded(msgs) && msgs[i].deletedAt.None? && dead.deletedAt.Some?
    requires forall k :: 1 <= k <= |msgs| ==> k in bySeq && bySeq[k] == k - 1
    requires dead == msgs[i].(deletedAt := dead.deletedAt, body := "", reactions := [])
    ensures var after := UncountReply(msgs[i := dead], bySeq, dead.threadRoot);
            && after[i] == dead
            && forall k :: 0 <= k < |msgs| && k != i ==>
                 after[k] == if k + 1 == dead.threadRoot then msgs[k].(replyCount := msgs[k].replyCount - 1)
                             else msgs[k]
  {
    hide LiveReplies, LastReply, Counted;
    DeleteCounted(msgs, bySeq, i, dead, UncountReply(msgs[i := dead], bySeq, dead.threadRoot));
  }

  ghost predicate Reacted(m: MessageV, user: string, emoji: string) {
    exists k :: 0 <= k < |m.reactions| && m.reactions[k].userId == user && m.reactions[k].emoji == emoji
  }

  lemma ReactedMeans(m: MessageV, user: string, emoji: string)
    ensures HasReaction(m.reactions, user, emoji) <==> Reacted(m, user, emoji)
  {
    if r :| r in m.reactions && r.userId == user && r.emoji == emoji {
      var k :| 0 <= k < |m.reactions| && m.reactions[k] == r;
    }
  }

  /** A reaction comes last on the message named, unless its user has it there already,
      when nothing is written. */
  lemma ReactAnswered(c: ChannelV, num: int, user: string, emoji: string, now: int)
    requires WellKept(c) && Indexed(c)
    ensures var d := Decide(c, ChatOp.AddReaction(num, user, emoji), now);
            if !There(c, num) then d == Refuse(ChatError.NotFound)
            else if Dead(c, num) then d == Refuse(ChatError.Invalid)
            else if Reacted(c.msgs[num - 1], user, emoji) then d == Existing(num - 1)
            else
              var m := c.msgs[num - 1];
              d.Append? && Fold(c, d.rec) ==
                           c.(msgs := c.msgs[num - 1 := m.(reactions := m.reactions + [Reaction(user, emoji, now)])])
  {
    hide ClientsUnique, Threaded, Counted, Bodied, HasReaction;
    if There(c, num) { ReactedMeans(c.msgs[num - 1], user, emoji); }
  }

  /** Exactly the user's own reaction with that emoji goes, if it is there. */
  lemma UnreactAnswered(c: ChannelV, num: int, user: string, emoji: string, now: int)
    requires WellKept(c) && Indexed(c)
    ensures var d := Decide(c, ChatOp.RemoveReaction(num, user, emoji), now);
            if !There(c, num) then d == Refuse(ChatError.NotFound)
            else if !Reacted(c.msgs[num - 1], user, emoji) then d == Existing(num - 1)
            else
              var m, rs := c.msgs[num - 1], c.msgs[num - 1].reactions;
              && d.Append?
              && forall k :: 0 <= k < |rs| && rs[k].userId == user && rs[k].emoji == emoji ==>
                   Fold(c, d.rec) == c.(msgs := c.msgs[num - 1 := m.(reactions := rs[..k] + rs[k + 1..])])
  {
    hide ClientsUnique, Threaded, Counted, Bodied, HasReaction, NotBy;
    if There(c, num) {
      ReactedMeans(c.msgs[num - 1], user, emoji);
      Readable(c);
      OneReactionGone(c.msgs[num - 1], user, emoji);
    }
  }

  lemma OneReactionGone(m: MessageV, user: string, emoji: string)
    requires Bodied(m)
    ensures forall k :: 0 <= k < |m.reactions| && m.reactions[k].userId == user && m.reactions[k].emoji == emoji ==>
              Filter(m.reactions, NotBy(user, emoji)) == m.reactions[..k] + m.reactions[k + 1..]
  {
    forall k | 0 <= k < |m.reactions| && m.reactions[k].userId == user && m.reactions[k].emoji == emoji
      ensures Filter(m.reactions, NotBy(user, emoji)) == m.reactions[..k] + m.reactions[k + 1..]
    {
      AllButOne(m.reactions, k, NotBy(user, emoji));
    }
  }

  lemma {:induction false} AllButOne<T(!new)>(s: seq<T>, k: nat, keep: T -> bool)
    requires k < |s| && forall i :: 0 <= i < |s| ==> (keep(s[i]) <==> i != k)
    ensures Filter(s, keep) == s[..k] + s[k + 1..]
  {
    var n := |s| - 1;
    if k < n {
      AllButOne(s[..n], k, keep);
      assert s[k + 1..] == s[..n][k + 1..] + [s[n]] && s[..n][..k] == s[..k];
    } else {
      KeepsAll(s[..n], keep);
      assert s[k + 1..] == [] && s[..k] + [] == s[..k];
    }
  }

  // ---- what a message shows, told from the log ----

  /** The body last written for message num. */
  function LastBody(recs: seq<Record>, num: int): string {
    if recs == [] then ""
    else
      var init, r := recs[..|recs| - 1], recs[|recs| - 1];
      if (r.Create? && r.num == num) || (r.Edit? && r.target == num) then r.body else LastBody(init, num)
  }

  /** The user's reaction to message num came last, and nothing took it away. */
  function Standing(recs: seq<Record>, num: int, user: string, emoji: string): bool {
    if recs == [] then false
    else
      var init, r := recs[..|recs| - 1], recs[|recs| - 1];
      if r.React? && r.target == num && r.userId == user && r.emoji == emoji then true
      else if r.Unreact? && r.target == num && r.userId == user && r.emoji == emoji then false
      else if r.Delete? && r.target == num then false
      else Standing(init, num, user, emoji)
  }

  ghost predicate EverDeleted(recs: seq<Record>, num: int) {
    exists k :: 0 <= k < |recs| && recs[k].Delete? && recs[k].target == num
  }

  ghost predicate Created(recs: seq<Record>, m: MessageV) {
    exists k :: 0 <= k < |recs| && recs[k].Create? &&
                recs[k] == Create(m.num, m.threadRoot, m.authorId, m.authorName, m.clientMsgId, recs[k].body,
                                  m.createdAt)
  }

  /** The record numbers the next message, or addresses one there is, a live one unless
      it takes back a reaction. */
  ghost predicate Addressed(c: ChannelV, r: Record) {
    && !r.Other? && Numbered(c)
    && (if r.Create? then r.num == |c.msgs| + 1 else There(c, r.target) && (r.Unreact? || !Dead(c, r.target)))
  }

  lemma Addresses(c: ChannelV, op: ChatOp, now: int, r: Record)
    requires WellKept(c) && Indexed(c) && Decide(c, op, now) == Append(r)
    ensures Addressed(c, r)
    ensures |Fold(c, r).msgs| == |c.msgs| + if r.Create? then 1 else 0
  {
    hide ClientsUnique, Threaded, Counted, Bodied, HasReaction;
  }

  /** What the record a request led to does to the body and the mark of one message. */
  lemma BodyStep(c: ChannelV, r: Record, i: nat)
    requires Indexed(c) && Addressed(c, r) && i < |c.msgs|
    ensures i < |Fold(c, r).msgs|
    ensures var m, d := c.msgs[i], Fold(c, r).msgs[i];
            && d.num == m.num && d.threadRoot == m.threadRoot && d.authorId == m.authorId
            && d.authorName == m.authorName && d.clientMsgId == m.clientMsgId && d.createdAt == m.createdAt
            && (d.deletedAt.Some? <==> m.deletedAt.Some? || (r.Delete? && r.target == i + 1))
            && (d.deletedAt.None? ==> d.body == if r.Edit? && r.target == i + 1 then r.body else m.body)
  {
    hide HasReaction, NotBy;
  }

  lemma ReactionStep(c: ChannelV, r: Record, i: nat, user: string, emoji: string)
    requires Indexed(c) && Addressed(c, r) && i < |c.msgs|
    ensures i < |Fold(c, r).msgs|
    ensures HasReaction(Fold(c, r).msgs[i].reactions, user, emoji) <==>
            if r.React? && r.target == i + 1 && r.userId == user && r.emoji == emoji then true
            else if r.Unreact? && r.target == i + 1 && r.userId == user && r.emoji == emoji then false
            else if r.Delete? && r.target == i + 1 then false
            else HasReaction(c.msgs[i].reactions, user, emoji)
  {
    if r.React? { ReactionLast(c.msgs[r.target - 1].reactions, Reaction(r.userId, r.emoji, r.at), user, emoji); }
  }

  lemma ReactionLast(rs: seq<Reaction>, r: Reaction, user: string, emoji: string)
    ensures HasReaction(rs + [r], user, emoji) <==>
            HasReaction(rs, user, emoji) || (r.userId == user && r.emoji == emoji)
  {
    assert r in rs + [r];
  }

  /** What the log so far says of a number no message has yet: nothing. */
  lemma {:induction false} NothingYet(recs: seq<Record>, num: int, user: string, emoji: string)
    requires StoreLog(recs) && num > |Replay(recs).msgs|
    ensures !EverDeleted(recs, num) && !Standing(recs, num, user, emoji)
    decreases |recs|
  {
    hide Fold, Decide, StoreLog, WellKept;
    if recs != [] {
      var n := |recs| - 1;
      var op, now := LastDecided(recs);
      Addresses(Replay(recs[..n]), op, now, recs[n]);
      NothingYet(recs[..n], num, user, emoji);
      assert forall k :: 0 <= k < n ==> recs[k] == recs[..n][k];
    }
  }

  lemma LastDecided(recs: seq<Record>) returns (op: ChatOp, now: int)
    requires StoreLog(recs) && recs != []
    ensures StoreLog(recs[..|recs| - 1]) && WellKept(Replay(recs[..|recs| - 1]))
    ensures Decide(Replay(recs[..|recs| - 1]), op, now) == Append(recs[|recs| - 1])
  {
    var n := |recs| - 1;
    StoreLogPrefix(recs, n);
    ReachableWellKept(recs[..n]);
    assert Decided(recs[..n], recs[n]);
    op, now :| Decide(Replay(recs[..n]), op, now) == Append(recs[n]);
  }

  /** In every channel the store can reach, message i shows what the log says of its
      number: who created it and when; deleted, if a deletion names it; its body, if it
      is live, as last written; and a user's reaction if it came after all that took it
      away. */
  lemma {:induction false} ShownFromLog(recs: seq<Record>, i: nat, user: string, emoji: string)
    requires StoreLog(recs) && i < |Replay(recs).msgs|
    ensures var m := Replay(recs).msgs[i];
            && m.num == i + 1 && Created(recs, m)
            && (m.deletedAt.Some? <==> EverDeleted(recs, i + 1))
            && (m.deletedAt.None? ==> m.body == LastBody(recs, i + 1))
            && (HasReaction(m.reactions, user, emoji) <==> Standing(recs, i + 1, user, emoji))
    decreases |recs|
  {
    hide Fold, Decide, StoreLog, WellKept, HasReaction;
    if recs != [] {
      var n := |recs| - 1;
      var c, r := Replay(recs[..n]), recs[n];
      var op, now := LastDecided(recs);
      Addresses(c, op, now, r);
      EverDeletedLast(recs, i + 1);
      if i < |c.msgs| {
        BodyStep(c, r, i);
        ReactionStep(c, r, i, user, emoji);
        ShownFromLog(recs[..n], i, user, emoji);
        assert forall k :: 0 <= k < n ==> recs[k] == recs[..n][k];
      } else {
        NothingYet(recs[..n], i + 1, user, emoji);
        Born(c, op, now, r);
      }
    }
  }

  lemma EverDeletedLast(recs: seq<Record>, num: int)
    requires recs != []
    ensures var n := |recs| - 1;
            EverDeleted(recs, num) <==> EverDeleted(recs[..n], num) || (recs[n].Delete? && recs[n].target == num)
  {
    var n := |recs| - 1;
    assert forall k :: 0 <= k < n ==> recs[k] == recs[..n][k];
    if k :| 0 <= k < |recs| && recs[k].Delete? && recs[k].target == num {
      if k < n { assert recs[..n][k].Delete?; }
    }
  }

  lemma Born(c: ChannelV, op: ChatOp, now: int, r: Record)
    requires WellKept(c) && Indexed(c) && Decide(c, op, now) == Append(r) && r.Create?
    ensures |Fold(c, r).msgs| == |c.msgs| + 1
    ensures var m := Fold(c, r).msgs[|c.msgs|];
            && r == Create(m.num, m.threadRoot, m.authorId, m.authorName, m.clientMsgId, m.body, m.createdAt)
            && m.num == |c.msgs| + 1 && m.deletedAt.None? && m.reactions == []
    ensures forall user, emoji :: !HasReaction(Fold(c, r).msgs[|c.msgs|].reactions, user, emoji)
  {
    hide WellKept;
    PostAnswered(c, op, now);
    Addresses(c, op, now, r);
  }

  // ---- what no record brings back ----

  /** Whatever a log holds, a deleted message stays deleted, empty and without
      reactions. */
  lemma TombstoneKept(c: ChannelV, r: Record, i: nat)
    requires Indexed(c) && i < |c.msgs|
    requires c.msgs[i].deletedAt.Some? && c.msgs[i].body == "" && c.msgs[i].reactions == []
    ensures i < |Fold(c, r).msgs|
    ensures var m, d := c.msgs[i], Fold(c, r).msgs[i];
            d == m.(replyCount := d.replyCount, lastReplyAt := d.lastReplyAt)
  {
  }
}
