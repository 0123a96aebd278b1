/** The read side of a board: the projections the two GET handlers return
    and the "ten most recently bumped threads" listing. */
module Listing {
  import opened Schema

  /** Most threads one listing returns (`$limit: 10`). */
  const ThreadLimit := 10
  /** Most replies shown per listed thread (`slice(-3)`). */
  const ReplyLimit := 3

  /** A reply as clients see it: no password hash, no `reported` flag. */
  datatype ReplyView = ReplyView(id: Id, text: string, createdOn: Time)

  /** A thread as `GET /api/replies/:board` returns it: every reply, no
      password hashes, no `reported` flags. */
  datatype ThreadView = ThreadView(id: Id, text: string, createdOn: Time, bumpedOn: Time, replies: seq<ReplyView>)

  /** A thread as `GET /api/threads/:board` lists it: the latest replies
      only, with the true total in `replycount`. */
  datatype ThreadSummary = ThreadSummary(
    id: Id,
    text: string,
    createdOn: Time,
    bumpedOn: Time,
    replycount: nat,
    replies: seq<ReplyView>)

  function Min(a: int, b: int): int {
    if a <= b then a else b
  }

  function ViewReply(r: Reply): ReplyView {
    ReplyView(r.id, r.text, r.createdOn)
  }

  function ViewReplies(replies: seq<Reply>): (vs: seq<ReplyView>)
    ensures |vs| == |replies|
    ensures forall k :: 0 <= k < |replies| ==> vs[k] == ViewReply(replies[k])
  {
    seq(|replies|, k requires 0 <= k < |replies| => ViewReply(replies[k]))
  }

  /** The document `findById` returns with the schema's `select: false`
      fields left out. */
  function ViewThread(t: Thread): (v: ThreadView)
    ensures v.id == t.id && v.text == t.text
    ensures v.createdOn == t.createdOn && v.bumpedOn == t.bumpedOn
    ensures |v.replies| == |t.replies|
    ensures forall k :: 0 <= k < |t.replies| ==> v.replies[k] == ViewReply(t.replies[k])
  {
    ThreadView(t.id, t.text, t.createdOn, t.bumpedOn, ViewReplies(t.replies))
  }

  /** JavaScript's `s.slice(-n)`: the last `n` elements, or all of them
      when there are fewer. `-0` is `0`, so `slice(-0)` keeps everything. */
  function LastN<T>(s: seq<T>, n: nat): (tail: seq<T>)
    ensures n > 0 ==> |tail| == Min(n, |s|)
    ensures n == 0 ==> tail == s
    ensures |tail| <= |s|
    ensures forall k :: 0 <= k < |tail| ==> tail[k] == s[|s| - |tail| + k]
  {
    if n == 0 || |s| <= n then s else s[|s| - n..]
  }

  /** One entry of the listing: the `$project` stage followed by the
      `slice(-3)` on the replies. */
  function Summarize(t: Thread): (v: ThreadSummary)
    ensures v.id == t.id && v.text == t.text
    ensures v.createdOn == t.createdOn && v.bumpedOn == t.bumpedOn
    ensures v.replycount == |t.replies|
    ensures |v.replies| == Min(ReplyLimit, |t.replies|) && |v.replies| <= |t.replies|
    ensures forall k :: 0 <= k < |v.replies| ==>
              v.replies[k] == ViewReply(t.replies[|t.replies| - |v.replies| + k])
  {
    ThreadSummary(t.id, t.text, t.createdOn, t.bumpedOn, |t.replies|, ViewReplies(LastN(t.replies, ReplyLimit)))
  }

  /** Ordered by bump time, latest first (`$sort: { bumped_on: -1 }`). */
  predicate NewestFirst(s: seq<Thread>) {
    forall i, j :: 0 <= i < j < |s| ==> s[i].bumpedOn >= s[j].bumpedOn
  }

  /** Places `t` into a newest-first sequence. */
  function Insert(t: Thread, s: seq<Thread>): (r: seq<Thread>)
    requires NewestFirst(s)
    ensures NewestFirst(r)
    ensures multiset(r) == multiset(s) + multiset{t}
    ensures forall x :: x in r ==> x == t || x in s
    decreases |s|
  {
    if |s| == 0 then [t]
    else if t.bumpedOn >= s[0].bumpedOn then
      ConsNewest(t, s);
      [t] + s
    else
      TailNewest(s);
      var rest := Insert(t, s[1..]);
      BelowHead(s, t, rest);
      ConsNewest(s[0], rest);
      assert s == [s[0]] + s[1..];
      [s[0]] + rest
  }

  lemma TailNewest(s: seq<Thread>)
    requires NewestFirst(s) && |s| > 0
    ensures NewestFirst(s[1..])
  {
    assert forall i :: 0 <= i < |s| - 1 ==> s[1..][i] == s[i + 1];
  }

  /** Putting a thread no older than all of `r` in front keeps the order. */
  lemma ConsNewest(x: Thread, r: seq<Thread>)
    requires NewestFirst(r)
    requires forall k :: 0 <= k < |r| ==> r[k].bumpedOn <= x.bumpedOn
    ensures NewestFirst([x] + r)
  {
    var c := [x] + r;
    assert forall k :: 1 <= k < |c| ==> c[k] == r[k - 1];
  }

  /** Every thread of the insertion below the head is no newer than the head. */
  lemma BelowHead(s: seq<Thread>, t: Thread, rest: seq<Thread>)
    requires NewestFirst(s) && |s| > 0 && t.bumpedOn < s[0].bumpedOn
    requires forall x :: x in rest ==> x == t || x in s[1..]
    ensures forall k :: 0 <= k < |rest| ==> rest[k].bumpedOn <= s[0].bumpedOn
  {
    forall k | 0 <= k < |rest|
      ensures rest[k].bumpedOn <= s[0].bumpedOn
    {
      assert rest[k] in rest;
      if rest[k] != t {
        var j :| 0 <= j < |s[1..]| && s[1..][j] == rest[k];
        assert s[j + 1] == rest[k];
      }
    }
  }

  /** The `$sort` stage. Threads with equal bump times may come out in any
      order: the database does not promise one, and neither does this. */
  function SortByBump(b: Board): (s: seq<Thread>)
    ensures NewestFirst(s)
    ensures multiset(s) == multiset(b)
    decreases |b|
  {
    if |b| == 0 then []
    else
      assert b == [b[0]] + b[1..];
      Insert(b[0], SortByBump(b[1..]))
  }

  /** The `$sort` and `$limit` stages: the threads that are listed. They are
      distinct threads of the board, newest first, and every thread of the
      board left out was bumped no later than any thread listed. */
  function TopThreads(b: Board): (top: seq<Thread>)
    ensures |top| == Min(ThreadLimit, |b|)
    ensures NewestFirst(top)
    ensures multiset(top) <= multiset(b)
    ensures forall t, k :: t in multiset(b) - multiset(top) && 0 <= k < |top| ==> t.bumpedOn <= top[k].bumpedOn
  {
    var s := SortByBump(b);
    var n := Min(ThreadLimit, |s|);
    PrefixIsNewest(s, n);
    s[..n]
  }

  /** A prefix of a newest-first sequence is newest first, and what it
      leaves behind is no newer than anything it keeps. */
  lemma PrefixIsNewest(s: seq<Thread>, n: nat)
    requires NewestFirst(s) && n <= |s|
    ensures NewestFirst(s[..n])
    ensures multiset(s[..n]) <= multiset(s)
    ensures forall t, k :: t in multiset(s) - multiset(s[..n]) && 0 <= k < n ==> t.bumpedOn <= s[k].bumpedOn
  {
    var top, rest := s[..n], s[n..];
    assert s == top + rest;
    assert multiset(s) == multiset(top) + multiset(rest);
    forall t, k | t in multiset(s) - multiset(top) && 0 <= k < n
      ensures t.bumpedOn <= s[k].bumpedOn
    {
      assert t in multiset(rest);
      assert t in rest;
      var j :| 0 <= j < |rest| && rest[j] == t;
      assert s[n + j] == t;
    }
  }

  /** `v` is the listing entry of some thread of `b`. */
  ghost predicate SummaryOf(b: Board, v: ThreadSummary) {
    exists t :: t in b && v == Summarize(t)
  }

  /** `GET /api/threads/:board` on the board's threads. */
  function ListRecent(b: Board): (r: seq<ThreadSummary>)
    ensures |r| == Min(ThreadLimit, |b|)
    ensures forall i, j :: 0 <= i < j < |r| ==> r[i].bumpedOn >= r[j].bumpedOn
    ensures forall i :: 0 <= i < |r| ==> SummaryOf(b, r[i])
    ensures forall t, i :: t in b && Summarize(t) !in r && 0 <= i < |r| ==> t.bumpedOn <= r[i].bumpedOn
    ensures exists top: seq<Thread> :: |top| == |r| && multiset(top) <= multiset(b) &&
              forall k :: 0 <= k < |r| ==> r[k] == Summarize(top[k])
  {
    var top := TopThreads(b);
    var r := seq(|top|, k requires 0 <= k < |top| => Summarize(top[k]));
    ListedAreFromBoard(b, top, r);
    UnlistedAreOlder(b, top, r);
    r
  }

  lemma ListedAreFromBoard(b: Board, top: seq<Thread>, r: seq<ThreadSummary>)
    requires multiset(top) <= multiset(b)
    requires |r| == |top| && forall k :: 0 <= k < |top| ==> r[k] == Summarize(top[k])
    ensures forall i :: 0 <= i < |r| ==> SummaryOf(b, r[i])
  {
    forall i | 0 <= i < |r|
      ensures SummaryOf(b, r[i])
    {
      assert top[i] in multiset(top);
      assert top[i] in b && r[i] == Summarize(top[i]);
    }
  }

  lemma UnlistedAreOlder(b: Board, top: seq<Thread>, r: seq<ThreadSummary>)
    requires forall t, k :: t in multiset(b) - multiset(top) && 0 <= k < |top| ==> t.bumpedOn <= top[k].bumpedOn
    requires |r| == |top| && forall k :: 0 <= k < |top| ==> r[k] == Summarize(top[k])
    ensures forall t, i :: t in b && Summarize(t) !in r && 0 <= i < |r| ==> t.bumpedOn <= r[i].bumpedOn
  {
    forall t, i | t in b && Summarize(t) !in r && 0 <= i < |r|
      ensures t.bumpedOn <= r[i].bumpedOn
    {
      assert t in multiset(b) - multiset(top);
      assert t.bumpedOn <= top[i].bumpedOn;
    }
  }
}
