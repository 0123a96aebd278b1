/** Facts about sequences of handler calls: the store invariant every
    mutating handler keeps, what a later read observes, and idempotence of
    the moderation operations. */
module Properties {
  import opened Wrappers
  import opened Schema
  import opened Listing
  import opened Api

  /** In a valid store, no thread was bumped before it or any of its replies
      was created. */
  lemma BumpBounds(store: Store, board: string, i: nat)
    requires Valid(store) && board in store && i < |store[board]|
    ensures var t := store[board][i];
            t.bumpedOn >= t.createdOn && forall k :: 0 <= k < |t.replies| ==> t.bumpedOn >= t.replies[k].createdOn
  {
  }

  lemma RemovePreservesWellFormed(b: Board, i: nat)
    requires WellFormed(b) && i < |b|
    ensures WellFormed(b[..i] + b[i + 1..])
  {
    var b' := b[..i] + b[i + 1..];
    assert forall k :: 0 <= k < |b'| ==> b'[k] == if k < i then b[k] else b[k + 1];
  }

  lemma ReplacePreservesWellFormed(b: Board, i: nat, t: Thread)
    requires WellFormed(b) && i < |b|
    requires t.id == b[i].id && Saved(t)
    ensures WellFormed(b[i := t])
  {
  }

  /** A handler that rewrote at most the one board keeps the store valid
      when that board stays well formed. */
  lemma OneBoardPreservesValid(store: Store, store': Store, board: string)
    requires Valid(store)
    requires OtherBoardsUnchanged(store, store', board)
    requires board in store' ==> WellFormed(store'[board])
    ensures Valid(store')
  {
  }

  /** A redaction or a report keeps every creation time, so the thread stays
      saved although the hook did not run. */
  lemma SameTimesStaySaved(t: Thread, t': Thread, j: nat)
    requires Saved(t)
    requires OnlyReplyChanged(t, t', j) && j < |t.replies|
    requires t'.replies[j].createdOn == t.replies[j].createdOn
    ensures Saved(t')
  {
    LatestStampOnlyReadsTimes(t.createdOn, t.replies, t'.replies);
  }

  lemma AddPreservesWellFormed(b: Board, t: Thread)
    requires WellFormed(b) && Saved(t)
    requires forall k :: 0 <= k < |b| ==> b[k].id != t.id
    ensures WellFormed(b + [t])
  {
    var b' := b + [t];
    assert forall k :: 0 <= k < |b| ==> b'[k] == b[k];
  }

  lemma CreatePreservesValid(store: Store, board: string, text: string, password: string,
                             id: Id, now: Time, hash: Hash)
    requires Valid(store)
    ensures Valid(CreateThread(store, board, text, password, id, now, hash).store)
  {
    var s := CreateThread(store, board, text, password, id, now, hash);
    var b := Collection(store, board);
    if board != "" && text != "" && password != "" && FindThread(b, id).None? {
      var t := Thread(id, text, now, now, hash, false, []);
      assert Saved(t);
      AddPreservesWellFormed(b, t);
    }
    OneBoardPreservesValid(store, s.store, board);
  }

  lemma DeletePreservesValid(store: Store, board: string, threadId: Id, password: string, verify: Verifier)
    requires Valid(store)
    ensures Valid(DeleteThread(store, board, threadId, password, verify).store)
  {
    var s := DeleteThread(store, board, threadId, password, verify);
    var b := Collection(store, board);
    if s.store != store {
      RemovePreservesWellFormed(b, FindThread(b, threadId).value);
    }
    OneBoardPreservesValid(store, s.store, board);
  }

  lemma ReportThreadPreservesValid(store: Store, board: string, threadId: Id)
    requires Valid(store)
    ensures Valid(ReportThread(store, board, threadId).store)
  {
    var s := ReportThread(store, board, threadId);
    var b := Collection(store, board);
    if s.store != store {
      var i := FindThread(b, threadId).value;
      assert s.store[board] == b[i := b[i].(reported := true)];
      ReplacePreservesWellFormed(b, i, b[i].(reported := true));
    }
    OneBoardPreservesValid(store, s.store, board);
  }

  lemma AppendPreservesValid(store: Store, board: string, threadId: Id, text: string, password: string,
                             replyId: Id, now: Time, hash: Hash)
    requires Valid(store)
    ensures Valid(AppendReply(store, board, threadId, text, password, replyId, now, hash).store)
  {
    var s := AppendReply(store, board, threadId, text, password, replyId, now, hash);
    var b := Collection(store, board);
    if s.store != store {
      var i := FindThread(b, threadId).value;
      assert s.store[board] == b[i := s.store[board][i]];
      ReplacePreservesWellFormed(b, i, s.store[board][i]);
    }
    OneBoardPreservesValid(store, s.store, board);
  }

  lemma RedactPreservesValid(store: Store, board: string, threadId: Id, replyId: Id, password: string,
                             verify: Verifier)
    requires Valid(store)
    ensures Valid(RedactReply(store, board, threadId, replyId, password, verify).store)
  {
    var s := RedactReply(store, board, threadId, replyId, password, verify);
    var b := Collection(store, board);
    if s.store != store {
      var i := FindThread(b, threadId).value;
      var j := FindReply(b[i].replies, replyId).value;
      SameTimesStaySaved(b[i], s.store[board][i], j);
      assert s.store[board] == b[i := s.store[board][i]];
      ReplacePreservesWellFormed(b, i, s.store[board][i]);
    }
    OneBoardPreservesValid(store, s.store, board);
  }

  lemma ReportReplyPreservesValid(store: Store, board: string, threadId: Id, replyId: Id)
    requires Valid(store)
    ensures Valid(ReportReply(store, board, threadId, replyId).store)
  {
    var s := ReportReply(store, board, threadId, replyId);
    var b := Collection(store, board);
    if s.store != store {
      var i := FindThread(b, threadId).value;
      var j := FindReply(b[i].replies, replyId).value;
      SameTimesStaySaved(b[i], s.store[board][i], j);
      assert s.store[board] == b[i := s.store[board][i]];
      ReplacePreservesWellFormed(b, i, s.store[board][i]);
    }
    OneBoardPreservesValid(store, s.store, board);
  }

  /** After a successful thread deletion the thread can no longer be fetched
      and is not listed. */
  lemma DeletedThreadIsGone(store: Store, board: string, threadId: Id, password: string, verify: Verifier)
    requires Valid(store)
    requires DeleteThread(store, board, threadId, password, verify).response == Text(200, SuccessMessage)
    ensures var store' := DeleteThread(store, board, threadId, password, verify).store;
            && GetThread(store', board, threadId) == Json(None)
            && var listed := ListThreads(store', board).threads;
               forall k :: 0 <= k < |listed| ==> listed[k].id != threadId
  {
    var store' := DeleteThread(store, board, threadId, password, verify).store;
    var b := Collection(store, board);
    assert board != "" && threadId != "" && password != "";
    var i := FindThread(b, threadId).value;
    var b' := b[..i] + b[i + 1..];
    assert Collection(store', board) == b';
    assert forall k :: 0 <= k < |b'| ==> b'[k].id != threadId by {
      RemovedIdIsAbsent(b, i);
    }
    UnknownIdIsNotListed(b', threadId);
  }

  /** With unique ids, removing a thread removes its id from the board. */
  lemma RemovedIdIsAbsent(b: Board, i: nat)
    requires UniqueIds(b) && i < |b|
    ensures var b' := b[..i] + b[i + 1..]; forall k :: 0 <= k < |b'| ==> b'[k].id != b[i].id
  {
    var b' := b[..i] + b[i + 1..];
    assert forall k :: 0 <= k < |b'| ==> b'[k] == if k < i then b[k] else b[k + 1];
  }

  /** The listing shows only ids that are on the board. */
  lemma UnknownIdIsNotListed(b: Board, id: Id)
    requires forall k :: 0 <= k < |b| ==> b[k].id != id
    ensures forall k :: 0 <= k < |ListRecent(b)| ==> ListRecent(b)[k].id != id
  {
    var listed := ListRecent(b);
    forall k | 0 <= k < |listed|
      ensures listed[k].id != id
    {
      assert SummaryOf(b, listed[k]);
      var t :| t in b && listed[k] == Summarize(t);
    }
  }

  /** Lookups read only the ids. */
  lemma FindThreadReadsIds(b: Board, b': Board, id: Id)
    requires ThreadIds(b) == ThreadIds(b')
    ensures FindThread(b, id) == FindThread(b', id)
  {
  }

  lemma FindReplyReadsIds(rs: seq<Reply>, rs': seq<Reply>, id: Id)
    requires ReplyIds(rs) == ReplyIds(rs')
    ensures FindReply(rs, id) == FindReply(rs', id)
  {
  }

  /** A created thread can be fetched at once, with no replies and
      `bumped_on == created_on`. */
  lemma CreatedThreadIsFound(store: Store, board: string, text: string, password: string,
                             id: Id, now: Time, hash: Hash)
    requires id != ""
    requires CreateThread(store, board, text, password, id, now, hash).response.Redirect?
    ensures GetThread(CreateThread(store, board, text, password, id, now, hash).store, board, id)
            == Json(Some(ThreadView(id, text, now, now, [])))
  {
    var b := Collection(store, board);
    var t := Thread(id, text, now, now, hash, false, []);
    assert board != "" && text != "" && password != "" && FindThread(b, id).None?;
    var store' := CreateThread(store, board, text, password, id, now, hash).store;
    assert Collection(store', board) == b + [t];
    assert FindThread(b + [t], id) == Some(|b|) by {
      AppendedIsFound(b, t);
    }
    assert ViewThread(t) == ThreadView(id, text, now, now, []);
  }

  /** A thread appended to a board where its id is new is found last. */
  lemma AppendedIsFound(b: Board, t: Thread)
    requires forall k :: 0 <= k < |b| ==> b[k].id != t.id
    ensures FindThread(b + [t], t.id) == Some(|b|)
  {
    var b' := b + [t];
    assert b'[|b|] == t;
    assert forall k :: 0 <= k < |b| ==> b'[k] == b[k];
  }

  /** The success path of a redaction, as one equation. */
  lemma RedactSucceeds(store: Store, board: string, threadId: Id, replyId: Id, password: string,
                       verify: Verifier, i: nat, j: nat)
    requires board != "" && threadId != "" && replyId != "" && password != ""
    requires FindThread(Collection(store, board), threadId) == Some(i)
    requires FindReply(Collection(store, board)[i].replies, replyId) == Some(j)
    requires verify(password, Collection(store, board)[i].replies[j].passwordHash)
    ensures var b := Collection(store, board);
            RedactReply(store, board, threadId, replyId, password, verify)
              == Step(Text(200, SuccessMessage), store[board := SetReply(b, i, j, b[i].replies[j].(text := DeletedText))])
  {
  }

  /** A successful redaction found the thread and the reply and the
      password matched the reply's hash. */
  lemma RedactSuccessInversion(store: Store, board: string, threadId: Id, replyId: Id, password: string,
                               verify: Verifier)
    requires RedactReply(store, board, threadId, replyId, password, verify).response == Text(200, SuccessMessage)
    ensures board != "" && threadId != "" && replyId != "" && password != ""
    ensures var found := FindThread(Collection(store, board), threadId);
            && found.Some?
            && var t := Collection(store, board)[found.value];
               && FindReply(t.replies, replyId).Some?
               && verify(password, t.replies[FindReply(t.replies, replyId).value].passwordHash)
  {
  }

  /** Rewriting one reply in place keeps every id, so later lookups find
      the same thread and reply. */
  lemma SetReplyKeepsLookups(b: Board, i: nat, j: nat, r: Reply, threadId: Id, replyId: Id)
    requires i < |b| && j < |b[i].replies| && r.id == b[i].replies[j].id
    ensures FindThread(SetReply(b, i, j, r), threadId) == FindThread(b, threadId)
    ensures FindReply(SetReply(b, i, j, r)[i].replies, replyId) == FindReply(b[i].replies, replyId)
  {
    var b' := SetReply(b, i, j, r);
    assert ThreadIds(b') == ThreadIds(b);
    FindThreadReadsIds(b, b', threadId);
    assert ReplyIds(b'[i].replies) == ReplyIds(b[i].replies);
    FindReplyReadsIds(b[i].replies, b'[i].replies, replyId);
  }

  /** Writing a reply back unchanged leaves the board as it was. */
  lemma SetReplyUnchanged(b: Board, i: nat, j: nat)
    requires i < |b| && j < |b[i].replies|
    ensures SetReply(b, i, j, b[i].replies[j]) == b
  {
    assert b[i].replies[j := b[i].replies[j]] == b[i].replies;
    assert b[i].(replies := b[i].replies) == b[i];
    assert b[i := b[i]] == b;
  }

  /** Redacting the same reply again with the same password succeeds and
      changes nothing more. */
  lemma RedactIsIdempotent(store: Store, board: string, threadId: Id, replyId: Id, password: string,
                           verify: Verifier)
    requires RedactReply(store, board, threadId, replyId, password, verify).response == Text(200, SuccessMessage)
    ensures var once := RedactReply(store, board, threadId, replyId, password, verify);
            RedactReply(once.store, board, threadId, replyId, password, verify) == once
  {
    RedactSuccessInversion(store, board, threadId, replyId, password, verify);
    var b := Collection(store, board);
    var i := FindThread(b, threadId).value;
    RedactAgain(store, board, threadId, replyId, password, verify, i, FindReply(b[i].replies, replyId).value);
  }

  /** A second redaction of a redacted reply finds it at the same positions,
      accepts the same password and writes the text it already has. */
  lemma RedactAgain(store: Store, board: string, threadId: Id, replyId: Id, password: string,
                    verify: Verifier, i: nat, j: nat)
    requires board != "" && threadId != "" && replyId != "" && password != ""
    requires FindThread(Collection(store, board), threadId) == Some(i)
    requires FindReply(Collection(store, board)[i].replies, replyId) == Some(j)
    requires verify(password, Collection(store, board)[i].replies[j].passwordHash)
    ensures var once := RedactReply(store, board, threadId, replyId, password, verify);
            RedactReply(once.store, board, threadId, replyId, password, verify) == once
  {
    var b := Collection(store, board);
    var r := b[i].replies[j].(text := DeletedText);
    var b' := SetReply(b, i, j, r);
    var store' := store[board := b'];
    assert RedactReply(store, board, threadId, replyId, password, verify) == Step(Text(200, SuccessMessage), store') by {
      RedactSucceeds(store, board, threadId, replyId, password, verify, i, j);
    }
    assert Collection(store', board) == b';
    assert FindThread(b', threadId) == Some(i) && FindReply(b'[i].replies, replyId) == Some(j) by {
      SetReplyKeepsLookups(b, i, j, r, threadId, replyId);
    }
    assert b'[i].replies[j] == r;
    assert RedactReply(store', board, threadId, replyId, password, verify)
        == Step(Text(200, SuccessMessage), store'[board := SetReply(b', i, j, r)]) by {
      RedactSucceeds(store', board, threadId, replyId, password, verify, i, j);
    }
    assert SetReply(b', i, j, r) == b' by {
      SetReplyUnchanged(b', i, j);
    }
    assert store'[board := b'] == store';
  }

  /** Reporting a thread twice is the same as reporting it once. */
  lemma ReportThreadIsIdempotent(store: Store, board: string, threadId: Id)
    ensures var once := ReportThread(store, board, threadId);
            ReportThread(once.store, board, threadId) == once
  {
    var once := ReportThread(store, board, threadId);
    var b := Collection(store, board);
    if board == "" || threadId == "" || FindThread(b, threadId).None? {
      assert once.store == store;
    } else {
      ReportThreadAgain(store, board, threadId, FindThread(b, threadId).value);
    }
  }

  /** The second report of a found thread finds it at the same position and
      sets a flag that is already set. */
  lemma ReportThreadAgain(store: Store, board: string, threadId: Id, i: nat)
    requires board != "" && threadId != ""
    requires FindThread(Collection(store, board), threadId) == Some(i)
    ensures var once := ReportThread(store, board, threadId);
            ReportThread(once.store, board, threadId) == once
  {
    var b := Collection(store, board);
    var b' := b[i := b[i].(reported := true)];
    var once := ReportThread(store, board, threadId);
    assert once == Step(Text(200, SuccessMessage), store[board := b']);
    assert Collection(once.store, board) == b';
    assert FindThread(b', threadId) == Some(i) by {
      assert ThreadIds(b') == ThreadIds(b);
      FindThreadReadsIds(b, b', threadId);
    }
    assert b'[i := b'[i].(reported := true)] == b';
    assert once.store[board := b'] == once.store;
  }

  /** The success path of a reply report, as one equation. */
  lemma ReportReplySucceeds(store: Store, board: string, threadId: Id, replyId: Id, i: nat, j: nat)
    requires board != "" && threadId != "" && replyId != ""
    requires FindThread(Collection(store, board), threadId) == Some(i)
    requires FindReply(Collection(store, board)[i].replies, replyId) == Some(j)
    ensures var b := Collection(store, board);
            ReportReply(store, board, threadId, replyId)
              == Step(Text(200, SuccessMessage), store[board := SetReply(b, i, j, b[i].replies[j].(reported := true))])
  {
  }

  /** A successful reply report found both the thread and the reply. */
  lemma ReportReplySuccessInversion(store: Store, board: string, threadId: Id, replyId: Id)
    requires ReportReply(store, board, threadId, replyId).response == Text(200, SuccessMessage)
    ensures board != "" && threadId != "" && replyId != ""
    ensures var found := FindThread(Collection(store, board), threadId);
            found.Some? && FindReply(Collection(store, board)[found.value].replies, replyId).Some?
  {
  }

  /** Reporting a reply twice is the same as reporting it once. */
  lemma ReportReplyIsIdempotent(store: Store, board: string, threadId: Id, replyId: Id)
    ensures var once := ReportReply(store, board, threadId, replyId);
            ReportReply(once.store, board, threadId, replyId) == once
  {
    var b := Collection(store, board);
    if board == "" || threadId == "" || replyId == "" || FindThread(b, threadId).None? {
      assert ReportReply(store, board, threadId, replyId).store == store;
    } else if FindReply(b[FindThread(b, threadId).value].replies, replyId).None? {
      assert ReportReply(store, board, threadId, replyId).store == store;
    } else {
      var i := FindThread(b, threadId).value;
      ReportReplyAgain(store, board, threadId, replyId, i, FindReply(b[i].replies, replyId).value);
    }
  }

  /** The second report of a found reply finds it at the same positions and
      sets a flag that is already set. */
  lemma ReportReplyAgain(store: Store, board: string, threadId: Id, replyId: Id, i: nat, j: nat)
    requires board != "" && threadId != "" && replyId != ""
    requires FindThread(Collection(store, board), threadId) == Some(i)
    requires FindReply(Collection(store, board)[i].replies, replyId) == Some(j)
    ensures var once := ReportReply(store, board, threadId, replyId);
            ReportReply(once.store, board, threadId, replyId) == once
  {
    var b := Collection(store, board);
    var r := b[i].replies[j].(reported := true);
    ReportReplySucceeds(store, board, threadId, replyId, i, j);
    var b' := SetReply(b, i, j, r);
    var store' := store[board := b'];
    SetReplyKeepsLookups(b, i, j, r, threadId, replyId);
    ReportReplySucceeds(store', board, threadId, replyId, i, j);
    SetReplyUnchanged(b', i, j);
    assert b'[i].replies[j].(reported := true) == b'[i].replies[j];
  }

  /** Redaction consults the reply's own password hash: replacing the
      thread's hash changes neither the response nor the reply's new text. */
  lemma RedactIgnoresThreadPassword(store: Store, board: string, threadId: Id, replyId: Id, password: string,
                                    verify: Verifier, other: Hash)
    requires board in store
    requires FindThread(store[board], threadId).Some?
    ensures var b := store[board]; var i := FindThread(b, threadId).value;
            var store2 := store[board := b[i := b[i].(passwordHash := other)]];
            RedactReply(store2, board, threadId, replyId, password, verify).response
              == RedactReply(store, board, threadId, replyId, password, verify).response
  {
    var b := store[board];
    var i := FindThread(b, threadId).value;
    var b2 := b[i := b[i].(passwordHash := other)];
    assert ThreadIds(b2) == ThreadIds(b);
  }
}
