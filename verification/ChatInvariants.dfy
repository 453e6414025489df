/** What holds of every channel the store can reach, and that no request, nor
    any replay of what it wrote, breaks it. */
module ChatInvariants {
  import opened Common
  import opened ChatRecords

  // ---- independent definitions of the derived counters ----

  function One(m: MessageV, root: int): nat {
    if m.threadRoot == root && m.deletedAt.None? then 1 else 0
  }

  /** The replies to a root that are not deleted. */
  function LiveReplies(msgs: seq<MessageV>, root: int): nat {
    if msgs == [] then 0 else LiveReplies(msgs[..|msgs| - 1], root) + One(msgs[|msgs| - 1], root)
  }

  /** When the newest reply to a root, deleted or not, was created. */
  function LastReply(msgs: seq<MessageV>, root: int): Option<int> {
    if msgs == [] then None
    else if msgs[|msgs| - 1].threadRoot == root then Some(msgs[|msgs| - 1].createdAt)
    else LastReply(msgs[..|msgs| - 1], root)
  }

  // ---- the invariant ----

  /** Message i carries number i + 1, and the number index says just that. */
  ghost predicate Numbered(c: ChannelV) {
    && c.nextSeq == |c.msgs| + 1
    && (forall i :: 0 <= i < |c.msgs| ==> c.msgs[i].num == i + 1)
    && (forall k :: k in c.bySeq <==> 1 <= k <= |c.msgs|)
    && (forall k :: k in c.bySeq ==> c.bySeq[k] == k - 1)
  }

  /** A client message id names exactly one message, the one its index leads to. */
  ghost predicate ClientsUnique(c: ChannelV) {
    && (forall i :: 0 <= i < |c.msgs| ==>
          c.msgs[i].clientMsgId != "" && c.msgs[i].clientMsgId in c.byClient && c.byClient[c.msgs[i].clientMsgId] == i)
    && (forall k :: k in c.byClient ==> c.byClient[k] < |c.msgs| && c.msgs[c.byClient[k]].clientMsgId == k)
  }

  /** A reply's root is an earlier top-level message: threads are one level deep. */
  ghost predicate Threaded(msgs: seq<MessageV>) {
    forall i :: 0 <= i < |msgs| && msgs[i].threadRoot != 0 ==>
      1 <= msgs[i].threadRoot <= i && msgs[msgs[i].threadRoot - 1].threadRoot == 0
  }

  ghost predicate Counted(msgs: seq<MessageV>) {
    forall i :: 0 <= i < |msgs| ==>
      msgs[i].replyCount == LiveReplies(msgs, i + 1) && msgs[i].lastReplyAt == LastReply(msgs, i + 1)
  }

  ghost predicate ReactionsOnce(rs: seq<Reaction>) {
    forall i, k :: 0 <= i < k < |rs| ==> !(rs[i].userId == rs[k].userId && rs[i].emoji == rs[k].emoji)
  }

  /** A deleted message shows neither body nor reactions; a live one has a body,
      and each user reacts with an emoji at most once. */
  ghost predicate Bodied(m: MessageV) {
    if m.deletedAt.Some? then m.body == "" && m.reactions == [] else m.body != "" && ReactionsOnce(m.reactions)
  }

  ghost predicate WellKept(c: ChannelV) {
    && Numbered(c) && ClientsUnique(c) && Threaded(c.msgs) && Counted(c.msgs)
    && forall i :: 0 <= i < |c.msgs| ==> Bodied(c.msgs[i])
  }

  // ---- counting lemmas ----

  lemma {:induction false} LiveRepliesUpdate(msgs: seq<MessageV>, i: nat, m: MessageV, root: int)
    requires i < |msgs|
    ensures LiveReplies(msgs[i := m], root) == LiveReplies(msgs, root) - One(msgs[i], root) + One(m, root)
    ensures One(msgs[i], root) <= LiveReplies(msgs, root)
  {
    var n := |msgs| - 1;
    if i == n {
      assert msgs[i := m][..n] == msgs[..n];
    } else {
      LiveRepliesUpdate(msgs[..n], i, m, root);
      assert msgs[i := m][..n] == msgs[..n][i := m];
    }
  }

  lemma {:induction false} LastReplyUpdate(msgs: seq<MessageV>, i: nat, m: MessageV, root: int)
    requires i < |msgs| && m.threadRoot == msgs[i].threadRoot && m.createdAt == msgs[i].createdAt
    ensures LastReply(msgs[i := m], root) == LastReply(msgs, root)
  {
    var n := |msgs| - 1;
    if i == n {
      assert msgs[i := m][..n] == msgs[..n];
    } else {
      LastReplyUpdate(msgs[..n], i, m, root);
      assert msgs[i := m][..n] == msgs[..n][i := m];
    }
  }

  /** Nothing replies yet to a number that has not been given out. */
  lemma {:induction false} NoRepliesYet(msgs: seq<MessageV>, root: int)
    requires forall i :: 0 <= i < |msgs| ==> msgs[i].threadRoot != root
    ensures LiveReplies(msgs, root) == 0 && LastReply(msgs, root) == None
  {
    if msgs != [] { NoRepliesYet(msgs[..|msgs| - 1], root); }
  }

  lemma {:induction false} RepliesAgree(a: seq<MessageV>, b: seq<MessageV>, root: int)
    requires |a| == |b|
    requires forall k :: 0 <= k < |a| ==>
               a[k].threadRoot == b[k].threadRoot && a[k].createdAt == b[k].createdAt &&
               (a[k].deletedAt.Some? <==> b[k].deletedAt.Some?)
    ensures LiveReplies(a, root) == LiveReplies(b, root) && LastReply(a, root) == LastReply(b, root)
  {
    if a != [] { RepliesAgree(a[..|a| - 1], b[..|b| - 1], root); }
  }

  /** Replacing a message by one with the same thread fields and liveness leaves
      every thread, and every count that a counter is compared with, as it was. */
  lemma SameThreads(msgs: seq<MessageV>, i: nat, m: MessageV)
    requires i < |msgs| && Threaded(msgs)
    requires m.threadRoot == msgs[i].threadRoot && m.createdAt == msgs[i].createdAt
    requires m.deletedAt.Some? <==> msgs[i].deletedAt.Some?
    ensures Threaded(msgs[i := m])
    ensures forall root :: LiveReplies(msgs[i := m], root) == LiveReplies(msgs, root)
    ensures forall root :: LastReply(msgs[i := m], root) == LastReply(msgs, root)
  {
    forall root
      ensures LiveReplies(msgs[i := m], root) == LiveReplies(msgs, root)
      ensures LastReply(msgs[i := m], root) == LastReply(msgs, root)
    {
      RepliesAgree(msgs[i := m], msgs, root);
    }
  }

  ghost predicate SameIds(a: seq<MessageV>, b: seq<MessageV>) {
    |a| == |b| && forall k :: 0 <= k < |a| ==> a[k].num == b[k].num && a[k].clientMsgId == b[k].clientMsgId
  }

  lemma IdsKept(c: ChannelV, msgs: seq<MessageV>)
    requires Numbered(c) && ClientsUnique(c) && SameIds(msgs, c.msgs)
    ensures Numbered(c.(msgs := msgs)) && ClientsUnique(c.(msgs := msgs))
  {}

  // ---- one record ----

  /** An edit or a reaction changes one message and nothing about threads. */
  lemma TouchKeeps(c: ChannelV, i: nat, m: MessageV)
    requires WellKept(c) && i < |c.msgs| && Bodied(m) && m.deletedAt == c.msgs[i].deletedAt
    requires m == c.msgs[i].(body := m.body, editedAt := m.editedAt, reactions := m.reactions)
    ensures WellKept(c.(msgs := c.msgs[i := m]))
  {
    SameThreads(c.msgs, i, m);
    IdsKept(c, c.msgs[i := m]);
  }

  /** Marking a reply deleted takes it out of its root's live replies. */
  lemma DeadCounts(msgs: seq<MessageV>, i: nat, m: MessageV)
    requires i < |msgs| && Threaded(msgs) && msgs[i].deletedAt.None? && m.deletedAt.Some?
    requires m.threadRoot == msgs[i].threadRoot && m.createdAt == msgs[i].createdAt
    ensures Threaded(msgs[i := m])
    ensures forall root :: LiveReplies(msgs[i := m], root)
                           == LiveReplies(msgs, root) - if m.threadRoot == root then 1 else 0
    ensures forall root :: LastReply(msgs[i := m], root) == LastReply(msgs, root)
    ensures LiveReplies(msgs, m.threadRoot) > 0
  {
    forall root
      ensures LiveReplies(msgs[i := m], root) == LiveReplies(msgs, root) - if m.threadRoot == root then 1 else 0
      ensures LastReply(msgs[i := m], root) == LastReply(msgs, root)
    {
      LiveRepliesUpdate(msgs, i, m, root);
      LastReplyUpdate(msgs, i, m, root);
    }
    LiveRepliesUpdate(msgs, i, m, m.threadRoot);
  }

  /** After a deletion every counter is right again; the guard that keeps a
      counter from going negative never bites, because the reply being deleted
      is one of those its root counts. */
  lemma DeleteCounted(msgs: seq<MessageV>, bySeq: map<int, nat>, i: nat, m: MessageV, after: seq<MessageV>)
    requires i < |msgs| && Counted(msgs) && Threaded(msgs) && msgs[i].deletedAt.None?
    requires forall k :: 1 <= k <= |msgs| ==> k in bySeq && bySeq[k] == k - 1
    requires m == msgs[i].(deletedAt := m.deletedAt, body := "", reactions := []) && m.deletedAt.Some?
    requires after == UncountReply(msgs[i := m], bySeq, m.threadRoot)
    ensures Counted(after) && Threaded(after)
    ensures m.threadRoot != 0 ==> msgs[m.threadRoot - 1].replyCount > 0
    ensures forall k :: 0 <= k < |msgs| ==>
              after[k] == (if k == i then m else msgs[k]).(replyCount := after[k].replyCount)
  {
    hide LiveReplies, LastReply;
    var dead := msgs[i := m];
    var root := m.threadRoot;
    DeadCounts(msgs, i, m);
    if root != 0 {
      assert msgs[root - 1].replyCount == LiveReplies(msgs, root);
      SameThreads(dead, root - 1, dead[root - 1].(replyCount := dead[root - 1].replyCount - 1));
    }
  }

  lemma DeleteKeeps(c: ChannelV, i: nat, m: MessageV)
    requires WellKept(c) && i < |c.msgs| && c.msgs[i].deletedAt.None? && m.deletedAt.Some?
    requires m == c.msgs[i].(deletedAt := m.deletedAt, body := "", reactions := [])
    ensures WellKept(c.(msgs := UncountReply(c.msgs[i := m], c.bySeq, m.threadRoot)))
  {
    hide UncountReply, LiveReplies, LastReply;
    var after := UncountReply(c.msgs[i := m], c.bySeq, m.threadRoot);
    DeleteCounted(c.msgs, c.bySeq, i, m, after);
    IdsKept(c, after);
  }

  lemma AppendCounts(msgs: seq<MessageV>, m: MessageV)
    ensures forall root :: LiveReplies(msgs + [m], root) == LiveReplies(msgs, root) + One(m, root)
    ensures forall root :: LastReply(msgs + [m], root) ==
                           if m.threadRoot == root then Some(m.createdAt) else LastReply(msgs, root)
  {
    assert (msgs + [m])[..|msgs|] == msgs;
  }

  /** After a post every counter is right, the new message's own among them. */
  lemma PostCounted(msgs: seq<MessageV>, bySeq: map<int, nat>, m: MessageV, after: seq<MessageV>)
    requires Counted(msgs) && Threaded(msgs) && m.deletedAt.None? && m.replyCount == 0 && m.lastReplyAt.None?
    requires forall k :: 1 <= k <= |msgs| + 1 ==> k in bySeq && bySeq[k] == k - 1
    requires m.threadRoot == 0 || (1 <= m.threadRoot <= |msgs| && msgs[m.threadRoot - 1].threadRoot == 0)
    requires after == CountReply(msgs + [m], bySeq, m.threadRoot, m.createdAt)
    ensures Counted(after) && Threaded(after)
    ensures forall k :: 0 <= k <= |msgs| ==>
              after[k] == (msgs + [m])[k].(replyCount := after[k].replyCount, lastReplyAt := after[k].lastReplyAt)
  {
    hide LiveReplies, LastReply;
    var all := msgs + [m];
    BeforeRootCounts(msgs, m);
    var root := m.threadRoot;
    if root != 0 {
      var r := root - 1;
      SameThreads(all, r, all[r].(replyCount := all[r].replyCount + 1, lastReplyAt := Some(m.createdAt)));
    }
  }

  /** Until the root's own counters move, they alone are behind, by the new reply. */
  lemma BeforeRootCounts(msgs: seq<MessageV>, m: MessageV)
    requires Counted(msgs) && Threaded(msgs) && m.deletedAt.None? && m.replyCount == 0 && m.lastReplyAt.None?
    requires m.threadRoot == 0 || (1 <= m.threadRoot <= |msgs| && msgs[m.threadRoot - 1].threadRoot == 0)
    ensures Threaded(msgs + [m])
    ensures forall k :: 0 <= k <= |msgs| ==>
              && (msgs + [m])[k].replyCount == LiveReplies(msgs + [m], k + 1) - (if m.threadRoot == k + 1 then 1 else 0)
              && (m.threadRoot == k + 1 || (msgs + [m])[k].lastReplyAt == LastReply(msgs + [m], k + 1))
    ensures m.threadRoot != 0 ==> LastReply(msgs + [m], m.threadRoot) == Some(m.createdAt)
  {
    hide LiveReplies, LastReply;
    var all := msgs + [m];
    AppendCounts(msgs, m);
    NoRepliesYet(msgs, |msgs| + 1);
    forall k | 0 <= k <= |msgs|
      ensures all[k].replyCount == LiveReplies(all, k + 1) - (if m.threadRoot == k + 1 then 1 else 0)
      ensures m.threadRoot == k + 1 || all[k].lastReplyAt == LastReply(all, k + 1)
    {
      if k < |msgs| { assert all[k] == msgs[k]; }
    }
  }

  /** A number and a client id nobody has yet keep both indexes exact. */
  lemma InsertKept(c: ChannelV, m: MessageV, after: seq<MessageV>)
    requires Numbered(c) && ClientsUnique(c) && m.num == c.nextSeq
    requires m.clientMsgId != "" && m.clientMsgId !in c.byClient && SameIds(after, c.msgs + [m])
    ensures Numbered(Inserted(c, m).(msgs := after)) && ClientsUnique(Inserted(c, m).(msgs := after))
  {}

  lemma PostKeeps(c: ChannelV, m: MessageV)
    requires WellKept(c) && m.num == c.nextSeq && m.clientMsgId != "" && m.clientMsgId !in c.byClient
    requires m.deletedAt.None? && m.replyCount == 0 && m.lastReplyAt.None? && m.body != "" && m.reactions == []
    requires m.threadRoot == 0 || (m.threadRoot in c.bySeq && c.msgs[m.threadRoot - 1].threadRoot == 0)
    ensures WellKept(Inserted(c, m).(msgs := CountReply(c.msgs + [m], c.bySeq[m.num := |c.msgs|], m.threadRoot,
            m.createdAt)))
  {
    hide CountReply;
    var after := CountReply(c.msgs + [m], c.bySeq[m.num := |c.msgs|], m.threadRoot, m.createdAt);
    PostCounted(c.msgs, c.bySeq[m.num := |c.msgs|], m, after);
    InsertKept(c, m, after);
  }

  lemma ReactionAdded(rs: seq<Reaction>, r: Reaction)
    requires ReactionsOnce(rs) && !HasReaction(rs, r.userId, r.emoji)
    ensures ReactionsOnce(rs + [r])
  {
    forall i | 0 <= i < |rs| ensures !(rs[i].userId == r.userId && rs[i].emoji == r.emoji) {
      assert rs[i] in rs;
    }
  }

  function ReactionKey(r: Reaction): (string, string) { (r.userId, r.emoji) }

  lemma ReactionRemoved(rs: seq<Reaction>, user: string, emoji: string)
    requires ReactionsOnce(rs)
    ensures ReactionsOnce(Filter(rs, NotBy(user, emoji))) && !HasReaction(Filter(rs, NotBy(user, emoji)), user, emoji)
  {
    forall i, k | 0 <= i < k < |rs| ensures ReactionKey(rs[i]) != ReactionKey(rs[k]) {}
    FilterDistinct(rs, NotBy(user, emoji), ReactionKey);
    var kept := Filter(rs, NotBy(user, emoji));
    forall i, k | 0 <= i < k < |kept| ensures !(kept[i].userId == kept[k].userId && kept[i].emoji == kept[k].emoji) {
      assert ReactionKey(kept[i]) != ReactionKey(kept[k]);
    }
  }

  lemma ReactionsKeep(c: ChannelV, i: nat, user: string, emoji: string, now: int)
    requires WellKept(c) && i < |c.msgs|
    ensures c.msgs[i].deletedAt.None? && !HasReaction(c.msgs[i].reactions, user, emoji) ==>
              var all := c.msgs[i].reactions + [Reaction(user, emoji, now)];
              WellKept(c.(msgs := c.msgs[i := c.msgs[i].(reactions := all)]))
    ensures WellKept(c.(msgs := c.msgs[i := c.msgs[i].(reactions := Filter(c.msgs[i].reactions, NotBy(user, emoji)))]))
  {
    var m := c.msgs[i];
    assert Bodied(m);
    if m.deletedAt.None? && !HasReaction(m.reactions, user, emoji) {
      ReactionAdded(m.reactions, Reaction(user, emoji, now));
      TouchKeeps(c, i, m.(reactions := m.reactions + [Reaction(user, emoji, now)]));
    }
    if m.deletedAt.None? { ReactionRemoved(m.reactions, user, emoji); }
    TouchKeeps(c, i, m.(reactions := Filter(m.reactions, NotBy(user, emoji))));
  }

  /** Every request keeps the invariant. */
  lemma StepKeeps(c: ChannelV, op: ChatOp, now: int)
    requires WellKept(c) && Indexed(c) && Decide(c, op, now).Append?
    ensures WellKept(Fold(c, Decide(c, op, now).rec))
  {
    hide WellKept, UncountReply, CountReply, HasReaction;
    Readable(c);
    match op
    case Post(_, _, _, _, _, _) =>
      PostKeeps(c, FreshMessage(Decide(c, op, now).rec));
    case EditMsg(num, body) =>
      TouchKeeps(c, c.bySeq[num], c.msgs[c.bySeq[num]].(body := body, editedAt := Some(now)));
    case DeleteMsg(num) =>
      DeleteKeeps(c, c.bySeq[num], c.msgs[c.bySeq[num]].(deletedAt := Some(now), body := "", reactions := []));
    case AddReaction(num, user, emoji) => ReactionsKeep(c, c.bySeq[num], user, emoji, now);
    case RemoveReaction(num, user, emoji) => ReactionsKeep(c, c.bySeq[num], user, emoji, now);
  }

  lemma Readable(c: ChannelV)
    requires WellKept(c)
    ensures forall k :: k in c.bySeq ==> c.bySeq[k] == k - 1
    ensures forall i :: 0 <= i < |c.msgs| ==> Bodied(c.msgs[i])
  {}

  /** Every channel the store can reach is well kept: whatever the requests,
      wherever the process restarted, and wherever a crash cut the log. */
  lemma {:induction false} ReachableWellKept(recs: seq<Record>)
    requires StoreLog(recs)
    ensures WellKept(Replay(recs))
    decreases |recs|
  {
    if recs != [] {
      var n := |recs| - 1;
      StoreLogPrefix(recs, n);
      ReachableWellKept(recs[..n]);
      assert Decided(recs[..n], recs[n]);
      var op, now :| Decide(Replay(recs[..n]), op, now) == Append(recs[n]);
      StepKeeps(Replay(recs[..n]), op, now);
    }
  }
}
