/** The post schema of the message board: threads with embedded replies,
    the pre-save hook that maintains `bumped_on`, id lookups, and the
    well-formedness every reachable store keeps. */
module Schema {
  import opened Wrappers

  /** A JavaScript `Date`, as the milliseconds it compares by. */
  type Time = int

  /** Thread ids are ObjectIds and reply ids their string form. The model
      compares both by exact string equality; the code casts a requested
      thread id to an ObjectId first, which this model does not. */
  type Id = string

  /** A bcrypt digest. Nothing in the model looks inside it: only the
      `Verifier` handed to the moderation operations does. */
  datatype Hash = Hash(digest: string)

  /** `bcrypt.compareSync(password, digest)`, left uninterpreted. */
  type Verifier = (string, Hash) -> bool

  datatype Reply = Reply(id: Id, text: string, createdOn: Time, passwordHash: Hash, reported: bool)

  datatype Thread = Thread(
    id: Id,
    text: string,
    createdOn: Time,
    bumpedOn: Time,
    passwordHash: Hash,
    reported: bool,
    replies: seq<Reply>)

  /** One board's collection, in storage (insertion) order. */
  type Board = seq<Thread>

  /** Every board collection, by exact board name. */
  type Store = map<string, Board>

  function Max(a: Time, b: Time): Time {
    if a >= b then a else b
  }

  /** The `forEach` of the pre-save hook: starting from `latest`, keep the
      later of it and each reply's creation time, left to right. */
  function LatestStamp(latest: Time, replies: seq<Reply>): (r: Time)
    ensures r >= latest
    ensures forall k :: 0 <= k < |replies| ==> replies[k].createdOn <= r
    ensures r == latest || exists k :: 0 <= k < |replies| && replies[k].createdOn == r
    decreases |replies|
  {
    if |replies| == 0 then latest
    else
      var next := if replies[0].createdOn > latest then replies[0].createdOn else latest;
      var r := LatestStamp(next, replies[1..]);
      assert r != next ==> exists k :: 1 <= k < |replies| && replies[k].createdOn == r by {
        if r != next {
          var k :| 0 <= k < |replies[1..]| && replies[1..][k].createdOn == r;
          assert replies[k + 1].createdOn == r;
        }
      }
      r
  }

  /** The value the hook assigns to `bumped_on`. */
  function BumpTime(createdOn: Time, replies: seq<Reply>): Time {
    LatestStamp(createdOn, replies)
  }

  /** The `pre('save')` hook on a thread whose `created_on` is already set:
      it recomputes `bumped_on` and touches nothing else. */
  function PreSave(t: Thread): (s: Thread)
    ensures s == t.(bumpedOn := s.bumpedOn)
    ensures s.bumpedOn >= t.createdOn
    ensures forall k :: 0 <= k < |t.replies| ==> t.replies[k].createdOn <= s.bumpedOn
    ensures s.bumpedOn == t.createdOn || exists k :: 0 <= k < |t.replies| && t.replies[k].createdOn == s.bumpedOn
  {
    t.(bumpedOn := BumpTime(t.createdOn, t.replies))
  }

  /** A thread as it is after any save: `bumped_on` is what the hook computes. */
  predicate Saved(t: Thread) {
    t.bumpedOn == BumpTime(t.createdOn, t.replies)
  }

  /** Appending a reply moves the bump time to the later of the old bump time
      and the new reply's creation time. */
  lemma {:induction false} LatestStampAppend(latest: Time, replies: seq<Reply>, r: Reply)
    ensures LatestStamp(latest, replies + [r]) == Max(LatestStamp(latest, replies), r.createdOn)
    decreases |replies|
  {
    if |replies| == 0 {
      assert [] + [r] == [r];
      assert [r][1..] == [];
    } else {
      var next := if replies[0].createdOn > latest then replies[0].createdOn else latest;
      assert (replies + [r])[0] == replies[0];
      assert (replies + [r])[1..] == replies[1..] + [r];
      LatestStampAppend(next, replies[1..], r);
    }
  }

  /** The bump time reads only the replies' creation times. */
  lemma {:induction false} LatestStampOnlyReadsTimes(latest: Time, a: seq<Reply>, b: seq<Reply>)
    requires |a| == |b|
    requires forall k :: 0 <= k < |a| ==> a[k].createdOn == b[k].createdOn
    ensures LatestStamp(latest, a) == LatestStamp(latest, b)
    decreases |a|
  {
    if |a| > 0 {
      var next := if a[0].createdOn > latest then a[0].createdOn else latest;
      LatestStampOnlyReadsTimes(next, a[1..], b[1..]);
    }
  }

  /** Position of the first `id` in `ids`, as MongoDB's first match. */
  function IndexOf(ids: seq<Id>, id: Id): (r: Option<nat>)
    ensures r.Some? ==> r.value < |ids| && ids[r.value] == id
    ensures r.Some? ==> forall k :: 0 <= k < r.value ==> ids[k] != id
    ensures r.None? <==> id !in ids
    decreases |ids|
  {
    if |ids| == 0 then None
    else if ids[0] == id then Some(0)
    else
      match IndexOf(ids[1..], id)
      case None => None
      case Some(k) => Some(k + 1)
  }

  /** The ids of a sequence of documents, in order. */
  function Ids<T>(docs: seq<T>, key: T -> Id): (ids: seq<Id>)
    ensures |ids| == |docs|
    ensures forall k :: 0 <= k < |docs| ==> ids[k] == key(docs[k])
  {
    seq(|docs|, k requires 0 <= k < |docs| => key(docs[k]))
  }

  function ThreadIds(b: Board): (ids: seq<Id>)
    ensures |ids| == |b|
    ensures forall k :: 0 <= k < |b| ==> ids[k] == b[k].id
  {
    Ids(b, (t: Thread) => t.id)
  }

  function ReplyIds(replies: seq<Reply>): (ids: seq<Id>)
    ensures |ids| == |replies|
    ensures forall k :: 0 <= k < |replies| ==> ids[k] == replies[k].id
  {
    Ids(replies, (r: Reply) => r.id)
  }

  /** `Model.findById(id)`: the first thread of the board with that id. */
  function FindThread(b: Board, id: Id): (r: Option<nat>)
    ensures r.Some? ==> r.value < |b| && b[r.value].id == id
    ensures r.Some? ==> forall k :: 0 <= k < r.value ==> b[k].id != id
    ensures r.None? <==> forall k :: 0 <= k < |b| ==> b[k].id != id
  {
    var ids := ThreadIds(b);
    var r := IndexOf(ids, id);
    assert r.None? <== (forall k :: 0 <= k < |b| ==> b[k].id != id) by {
      if forall k :: 0 <= k < |b| ==> b[k].id != id {
        assert forall k :: 0 <= k < |ids| ==> ids[k] != id;
      }
    }
    r
  }

  /** The positional `replies.$` match: the first reply of the thread with that id. */
  function FindReply(replies: seq<Reply>, id: Id): (r: Option<nat>)
    ensures r.Some? ==> r.value < |replies| && replies[r.value].id == id
    ensures r.Some? ==> forall k :: 0 <= k < r.value ==> replies[k].id != id
    ensures r.None? <==> forall k :: 0 <= k < |replies| ==> replies[k].id != id
  {
    var ids := ReplyIds(replies);
    var r := IndexOf(ids, id);
    assert r.None? <== (forall k :: 0 <= k < |replies| ==> replies[k].id != id) by {
      if forall k :: 0 <= k < |replies| ==> replies[k].id != id {
        assert forall k :: 0 <= k < |ids| ==> ids[k] != id;
      }
    }
    r
  }

  /** The unique `_id` index of a MongoDB collection. */
  predicate UniqueIds(b: Board) {
    forall i, j :: 0 <= i < j < |b| ==> b[i].id != b[j].id
  }

  /** A board collection as the handlers leave it. */
  predicate WellFormed(b: Board) {
    UniqueIds(b) && forall k :: 0 <= k < |b| ==> Saved(b[k])
  }

  predicate Valid(store: Store) {
    forall name :: name in store ==> WellFormed(store[name])
  }
}
