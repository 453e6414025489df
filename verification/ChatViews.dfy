/** The scans over a live channel that stop early, against their plain meanings:
    paging the timeline, counting unread messages, moving read cursors. */
module ChatViews {
  import opened Common
  import opened ChatRecords
  import opened ChatInvariants
  import opened ChatStore

  // ---- the timeline ----

  predicate Older(m: MessageV, before: int) {
    m.threadRoot == 0 && (before > 0 ==> m.num < before)
  }

  function IsOlder(before: int): MessageV -> bool { (m: MessageV) => Older(m, before) }

  /** The top-level messages strictly older than a number; 0 means all of them. */
  function Timeline(msgs: seq<MessageV>, before: int): seq<MessageV> { Filter(msgs, IsOlder(before)) }

  function Clamp(limit: int): (n: nat)
    ensures 1 <= n <= 200
  {
    if limit <= 0 then 50 else if limit > 200 then 200 else limit
  }

  /** One page: the newest of the older messages, oldest first. */
  function Page(msgs: seq<MessageV>, before: int, limit: int): seq<MessageV> {
    Last(Timeline(msgs, before), Clamp(limit))
  }

  /** A page holds as many as were asked for, fifty when none or fewer were, two hundred
      at most, while there are as many: the newest top-level ones below the bound. */
  lemma PageExactly(msgs: seq<MessageV>, before: int, limit: int)
    ensures var size := if limit <= 0 then 50 else if limit > 200 then 200 else limit;
            var all, page := Timeline(msgs, before), Page(msgs, before, limit);
            && |page| == (if |all| < size then |all| else size)
            && page == all[|all| - |page|..]
    ensures KeptOf(msgs, Timeline(msgs, before), (m: MessageV) => m.threadRoot == 0 && (before <= 0 || m.num < before))
  {
    FilterKept(msgs, IsOlder(before), (m: MessageV) => m.threadRoot == 0 && (before <= 0 || m.num < before));
  }

  method ListMessages(ch: Channel, before: int, limit: int) returns (out: seq<MessageV>)
    requires ch.Valid()
    ensures out == Page(ch.model.msgs, before, limit)
  {
    hide Filter, Reversed;
    var n := if limit <= 0 then 50 else if limit > 200 then 200 else limit;
    ReversedEmpty();
    ghost var msgs := ch.model.msgs;
    var newestFirst: seq<MessageV> := [];
    var i := |ch.msgs|;
    assert msgs[..i] == msgs;
    while i > 0 && |newestFirst| < n
      invariant 0 <= i <= |msgs| && |newestFirst| <= n
      invariant Timeline(msgs, before) == Timeline(msgs[..i], before) + Reversed(newestFirst)
    {
      i := i - 1;
      TimelineStep(msgs, before, i);
      var m := ch.msgs[i];
      assert m.View() == msgs[i];
      if m.threadRoot == 0 && !(before > 0 && m.num >= before) {
        ReversedAppend(newestFirst, m.View());
        newestFirst := newestFirst + [m.View()];
      }
    }
    out := Reversed(newestFirst);
    ReversedLength(newestFirst);
    if i == 0 { TimelineEmpty(msgs[..0], before); }
    assert Timeline(msgs, before) == Timeline(msgs[..i], before) + out;
  }

  lemma TimelineStep(msgs: seq<MessageV>, before: int, i: nat)
    requires i < |msgs|
    ensures Timeline(msgs[..i + 1], before) ==
            Timeline(msgs[..i], before) + if Older(msgs[i], before) then [msgs[i]] else []
  {
    assert msgs[..i + 1][..i] == msgs[..i];
  }

  lemma TimelineEmpty(msgs: seq<MessageV>, before: int)
    requires msgs == []
    ensures Timeline(msgs, before) == []
  {}

  lemma ReversedEmpty()
    ensures Reversed<MessageV>([]) == []
  {}

  lemma ReversedAppend<T>(s: seq<T>, x: T)
    ensures Reversed(s + [x]) == [x] + Reversed(s)
  {
    assert (s + [x])[..|s|] == s;
  }

  function Reversed<T>(s: seq<T>): seq<T> {
    if s == [] then [] else [s[|s| - 1]] + Reversed(s[..|s| - 1])
  }

  lemma {:induction false} ReversedLength<T>(s: seq<T>)
    ensures |Reversed(s)| == |s|
  {
    if s != [] { ReversedLength(s[..|s| - 1]); }
  }

  /** Ascending numbers: what paging by number relies on. */
  ghost predicate Ascending(msgs: seq<MessageV>) {
    && (forall i :: 0 <= i < |msgs| ==> msgs[i].num > 0)
    && (forall i, k :: 0 <= i < k < |msgs| ==> msgs[i].num < msgs[k].num)
  }

  lemma {:induction false} TimelineAscending(msgs: seq<MessageV>, before: int)
    requires Ascending(msgs)
    ensures Ascending(Timeline(msgs, before))
    ensures forall m :: m in Timeline(msgs, before) ==> before > 0 ==> m.num < before
  {
    if msgs != [] {
      var n := |msgs| - 1;
      TimelineAscending(msgs[..n], before);
      var t := Timeline(msgs[..n], before);
      forall i | 0 <= i < |t| ensures t[i].num < msgs[n].num {
        assert t[i] in msgs[..n];
      }
    }
  }

  /** Asking for what is older than message k of a timeline gives its first k. */
  lemma {:induction false} TimelineSplits(msgs: seq<MessageV>, before: int, k: nat)
    requires Ascending(msgs) && k < |Timeline(msgs, before)|
    ensures Timeline(msgs, Timeline(msgs, before)[k].num) == Timeline(msgs, before)[..k]
  {
    var n := |msgs| - 1;
    var t := Timeline(msgs, before);
    var init := msgs[..n];
    var u := Timeline(init, before);
    TimelineAscending(msgs, before);
    if k < |u| {
      TimelineSplits(init, before, k);
      assert t[k] == u[k] && t[..k] == u[..k];
      assert u[k] in init;
    } else {
      assert t == u + [msgs[n]] && t[k] == msgs[n] && t[..k] == u;
      SameFilter(init, before, msgs[n].num);
    }
  }

  /** A bound above everything that already passes changes nothing. */
  lemma {:induction false} SameFilter(msgs: seq<MessageV>, before: int, bound: int)
    requires bound > 0 && forall i :: 0 <= i < |msgs| ==> msgs[i].num < bound
    requires before > 0 ==> bound < before
    ensures Timeline(msgs, bound) == Timeline(msgs, before)
  {
    if msgs != [] { SameFilter(msgs[..|msgs| - 1], before, bound); }
  }

  /** Paging backward until an empty page, with whatever limit each request uses. */
  function PageBack(msgs: seq<MessageV>, before: int, limits: nat -> int, n: nat): seq<MessageV>
    requires Ascending(msgs)
    decreases |Timeline(msgs, before)|
  {
    var page := Page(msgs, before, limits(n));
    if page == [] then []
    else
      var k := |Timeline(msgs, before)| - |page|;
      TimelineSplits(msgs, before, k);
      PageBack(msgs, page[0].num, limits, n + 1) + page
  }

  /** The pages put together are the whole timeline: no gap, no repeat. */
  lemma {:induction false} PagingRebuilds(msgs: seq<MessageV>, before: int, limits: nat -> int, n: nat)
    requires Ascending(msgs)
    ensures PageBack(msgs, before, limits, n) == Timeline(msgs, before)
    decreases |Timeline(msgs, before)|
  {
    var t := Timeline(msgs, before);
    var page := Page(msgs, before, limits(n));
    if page != [] {
      var k := |t| - |page|;
      TimelineSplits(msgs, before, k);
      PagingRebuilds(msgs, page[0].num, limits, n + 1);
      assert t == t[..k] + page;
    }
  }

  // ---- paging while the channel lives on ----

  /** Numbers and threads of what was there stay; more may have come. Bodies,
      reactions, counters and deletion marks are free to change. */
  ghost predicate Grows(a: seq<MessageV>, b: seq<MessageV>) {
    |a| <= |b| && forall i :: 0 <= i < |a| ==> b[i].num == a[i].num && b[i].threadRoot == a[i].threadRoot
  }

  /** Every record lets a channel grow. */
  lemma FoldGrows(c: ChannelV, r: Record)
    requires Indexed(c)
    ensures Grows(c.msgs, Fold(c, r).msgs)
  {
  }

  function Nums(msgs: seq<MessageV>): seq<int> {
    if msgs == [] then [] else Nums(msgs[..|msgs| - 1]) + [msgs[|msgs| - 1].num]
  }

  lemma {:induction false} NumsJoin(a: seq<MessageV>, b: seq<MessageV>)
    ensures Nums(a + b) == Nums(a) + Nums(b)
  {
    if b == [] {
      assert a + b == a;
    } else {
      NumsJoin(a, b[..|b| - 1]);
      assert (a + b)[..|a + b| - 1] == a + b[..|b| - 1];
    }
  }

  lemma {:induction false} NumsCount(msgs: seq<MessageV>)
    ensures |Nums(msgs)| == |msgs|
  {
    if msgs != [] { NumsCount(msgs[..|msgs| - 1]); }
  }

  /** Messages numbered at or above the bound leave the timeline below it alone. */
  lemma {:induction false} NewerInvisible(msgs: seq<MessageV>, k: nat, before: int)
    requires k <= |msgs| && before > 0 && forall i :: k <= i < |msgs| ==> msgs[i].num >= before
    ensures Timeline(msgs, before) == Timeline(msgs[..k], before)
  {
    if k < |msgs| {
      var init := msgs[..|msgs| - 1];
      NewerInvisible(init, k, before);
      assert init[..k] == msgs[..k];
    } else {
      assert msgs[..k] == msgs;
    }
  }

  lemma {:induction false} SameNumsSameTimeline(a: seq<MessageV>, b: seq<MessageV>, before: int)
    requires |a| == |b| && Grows(a, b)
    ensures Nums(Timeline(a, before)) == Nums(Timeline(b, before))
  {
    hide Timeline, Nums;
    if a == [] {
      TimelineEmpty(a, before);
      TimelineEmpty(b, before);
    } else {
      var n := |a| - 1;
      SameNumsSameTimeline(a[..n], b[..n], before);
      NumsLast(a, before, n);
      NumsLast(b, before, n);
      assert a[..n + 1] == a && b[..n + 1] == b;
    }
  }

  lemma NumsLast(msgs: seq<MessageV>, before: int, n: nat)
    requires n < |msgs|
    ensures Nums(Timeline(msgs[..n + 1], before))
            == Nums(Timeline(msgs[..n], before)) + if Older(msgs[n], before) then [msgs[n].num] else []
  {
    hide Timeline, Nums;
    TimelineStep(msgs, before, n);
    var t := Timeline(msgs[..n], before);
    NumsJoin(t, [msgs[n]]);
    NumsOne(msgs[n]);
    assert t + [] == t;
  }

  lemma NumsOne(m: MessageV)
    ensures Nums([m]) == [m.num]
  {
  }

  /** A bound some message has reached fixes the numbers below it, whatever comes. */
  lemma BelowStays(a: seq<MessageV>, b: seq<MessageV>, before: int)
    requires Grows(a, b) && Ascending(b) && exists i :: 0 <= i < |a| && a[i].num >= before > 0
    ensures Nums(Timeline(a, before)) == Nums(Timeline(b, before))
  {
    hide Timeline, Nums;
    var i :| 0 <= i < |a| && a[i].num >= before;
    assert forall k :: |a| <= k < |b| ==> b[k].num > b[i].num;
    NewerInvisible(b, |a|, before);
    SameNumsSameTimeline(a, b[..|a|], before);
  }

  /** A channel as each request for a page finds it. */
  ghost predicate LivesOn(states: nat -> seq<MessageV>) {
    forall n: nat :: AscendsAt(states, n)
  }

  ghost predicate AscendsAt(states: nat -> seq<MessageV>, n: nat) {
    Ascending(states(n)) && Grows(states(n), states(n + 1))
  }

  /** The numbers of the pages, put together, of one who pages backward until an empty
      page, the channel living on between requests. depth: how many pages there are at
      most. */
  ghost function LivePageBack(states: nat -> seq<MessageV>, before: int, limits: nat -> int, n: nat,
                              depth: nat): seq<int>
    decreases depth
  {
    var page := Page(states(n), before, limits(n));
    if page == [] || depth == 0 then []
    else LivePageBack(states, page[0].num, limits, n + 1, depth - 1) + Nums(page)
  }

  /** Posts, edits, deletions and reactions between the requests do not disturb paging:
      the pages have every message of the timeline the first request met, in order,
      once. */
  lemma {:induction false} PagingRebuildsLive(states: nat -> seq<MessageV>, before: int, limits: nat -> int, n: nat,
                                              depth: nat)
    requires LivesOn(states) && |Timeline(states(n), before)| <= depth
    ensures LivePageBack(states, before, limits, n, depth) == Nums(Timeline(states(n), before))
    decreases depth
  {
    hide Timeline, Nums, Ascending, Grows;
    assert AscendsAt(states, n) && AscendsAt(states, n + 1);
    var t := Timeline(states(n), before);
    var page := Page(states(n), before, limits(n));
    NumsNothing();
    if page != [] && depth > 0 {
      var k := |t| - |page|;
      TimelineSplits(states(n), before, k);
      PageBound(states(n), before, k);
      BelowStays(states(n), states(n + 1), page[0].num);
      NumsCount(Timeline(states(n), page[0].num));
      NumsCount(Timeline(states(n + 1), page[0].num));
      PagingRebuildsLive(states, page[0].num, limits, n + 1, depth - 1);
      assert t == t[..k] + page;
      NumsJoin(t[..k], page);
    } else {
      assert t == [];
    }
  }

  lemma PageBound(msgs: seq<MessageV>, before: int, k: nat)
    requires Ascending(msgs) && k < |Timeline(msgs, before)|
    ensures exists i :: 0 <= i < |msgs| && msgs[i].num >= Timeline(msgs, before)[k].num > 0
  {
    var m := Timeline(msgs, before)[k];
    assert m in Timeline(msgs, before);
    var i :| 0 <= i < |msgs| && msgs[i] == m;
  }

  lemma NumsNothing()
    ensures Nums([]) == []
  {
  }

  // ---- unread ----

  /** The live messages numbered past a cursor. */
  function LivePast(msgs: seq<MessageV>, cursor: int): nat {
    if msgs == [] then 0
    else
      var m := msgs[|msgs| - 1];
      LivePast(msgs[..|msgs| - 1], cursor) + if m.num > cursor && m.deletedAt.None? then 1 else 0
  }

  /** Counted one by one. */
  lemma {:induction false} LivePastCounts(msgs: seq<MessageV>, cursor: int)
    ensures LivePast(msgs, cursor)
            == |set i: nat | i < |msgs| && msgs[i].num > cursor && msgs[i].deletedAt.None?|
  {
    if msgs != [] {
      var n: nat := |msgs| - 1;
      LivePastCounts(msgs[..n], cursor);
      var all := set i: nat | i < |msgs| && msgs[i].num > cursor && msgs[i].deletedAt.None?;
      var most := set i: nat | i < n && msgs[..n][i].num > cursor && msgs[..n][i].deletedAt.None?;
      assert all == if msgs[n].num > cursor && msgs[n].deletedAt.None? then most + {n} else most;
    }
  }

  lemma {:induction false} NonePast(msgs: seq<MessageV>, cursor: int)
    requires forall i :: 0 <= i < |msgs| ==> msgs[i].num <= cursor
    ensures LivePast(msgs, cursor) == 0
  {
    if msgs != [] { NonePast(msgs[..|msgs| - 1], cursor); }
  }

  datatype Unread = Unread(lastRead: int, count: nat, latest: int)

  /** unreadLocked: counts backward and stops at the first message at or below
      the cursor, which loses nothing because numbers ascend. */
  method UnreadLocked(ch: Channel, cursor: int) returns (u: Unread)
    requires ch.Valid() && Numbered(ch.model)
    ensures u == Unread(cursor, LivePast(ch.model.msgs, cursor), |ch.model.msgs|)
  {
    ghost var msgs := ch.model.msgs;
    var count: nat := 0;
    var i := |ch.msgs|;
    assert msgs[..i] == msgs;
    while i > 0
      invariant 0 <= i <= |msgs| && LivePast(msgs, cursor) == LivePast(msgs[..i], cursor) + count
    {
      var m := ch.msgs[i - 1];
      assert m.View() == msgs[i - 1] && msgs[..i][..i - 1] == msgs[..i - 1];
      if m.num <= cursor {
        NonePast(msgs[..i], cursor);
        break;
      }
      if m.deletedAt.None? { count := count + 1; }
      i := i - 1;
    }
    u := Unread(cursor, count, ch.nextSeq - 1);
  }

  // ---- cursors ----

  /** Where a request for num leaves a cursor in a channel whose newest message is
      newest: clamped to what exists, and never back. */
  function Moved(cursor: int, num: int, newest: nat): (r: int)
    ensures r >= cursor && r >= (if num < newest then num else newest)
    ensures r == cursor || r == num || r == newest
    ensures r == cursor || r <= num
    ensures cursor <= newest ==> r <= newest
    ensures cursor > newest ==> r == cursor
  {
    var n := if num > newest then newest else num;
    if n > cursor then n else cursor
  }

  /** A missing entry reads as zero, as in the source. */
  function Lookup(table: map<string, map<string, int>>, user: string, channel: string): int {
    if user in table && channel in table[user] then table[user][channel] else 0
  }

  class Cursors {
    var cursors: map<string, map<string, int>>
    var disk: map<string, map<string, int>>

    constructor ()
      ensures cursors == map[] && disk == map[] && Saved()
    {
      cursors, disk := map[], map[];
    }

    function At(user: string, channel: string): int
      reads this`cursors
    {
      Lookup(cursors, user, channel)
    }

    /** What is in memory reads as what cursors.json holds. */
    ghost predicate Saved()
      reads this
    {
      forall u, c :: Lookup(disk, u, c) == At(u, c)
    }

    /** Writes one entry, making the user's map if there is none. */
    method Put(user: string, channel: string, num: int)
      modifies this`cursors
      ensures At(user, channel) == num && forall u, c :: u != user || c != channel ==> At(u, c) == old(At(u, c))
    {
      if user !in cursors { cursors := cursors[user := map[]]; }
      cursors := cursors[user := cursors[user][channel := num]];
    }

    /** SetReadCursor. A failed save moves nothing, and no other user's or channel's
        cursor is affected. */
    method SetReadCursor(ch: Channel, user: string, channel: string, num: int, saved: bool)
      returns (r: Result<(Unread, bool), ChatError>)
      requires ch.Valid() && Numbered(ch.model) && Saved()
      modifies this
      ensures Saved()
      ensures user == "" || num < 0 ==> r == Err(Invalid) && At(user, channel) == old(At(user, channel))
      ensures user != "" && num >= 0 ==>
                var prev, newest := old(At(user, channel)), |ch.model.msgs|;
                var next := Moved(prev, num, newest);
                if next > prev && !saved then r == Err(WriteFailed) && At(user, channel) == prev
                else
                  && At(user, channel) == next
                  && r == Ok((Unread(next, LivePast(ch.model.msgs, next), newest), next > prev))
      ensures forall u, c :: u != user || c != channel ==> At(u, c) == old(At(u, c))
    {
      hide LivePast, Lookup;
      if user == "" || num < 0 { return Err(Invalid); }
      var asked := if num > ch.nextSeq - 1 then ch.nextSeq - 1 else num;
      var prev := At(user, channel);
      var advanced := asked > prev;
      if advanced {
        Put(user, channel, asked);
        if !saved {
          Put(user, channel, prev);
          return Err(WriteFailed);
        }
        disk := cursors;
      } else {
        asked := prev;
      }
      var u := UnreadLocked(ch, asked);
      r := Ok((u, advanced));
    }

    /** A stop and a start: memory is read back from cursors.json. */
    method Reload()
      requires Saved()
      modifies this`cursors
      ensures Saved() && forall u, c :: At(u, c) == old(At(u, c))
    {
      cursors := disk;
    }

    /** Unreads, for one channel the caller may see. */
    method UnreadOf(ch: Channel, user: string, channel: string) returns (u: Unread)
      requires ch.Valid() && Numbered(ch.model)
      ensures u == Unread(At(user, channel), LivePast(ch.model.msgs, At(user, channel)), |ch.model.msgs|)
    {
      u := UnreadLocked(ch, At(user, channel));
    }
  }
}
