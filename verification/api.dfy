/** The eight route handlers of `/api/threads/:board` and `/api/replies/:board`,
    each one atomic step from a store to a response and the next store.
    The clock, fresh ObjectIds and bcrypt are parameters: `now`, `id`, the
    already computed `hash`, and `verify`. */
module Api {
  import opened Wrappers
  import opened Schema
  import opened Validation
  import opened Listing

  const NoThreadMessage := "no thread found associated with id "
  const NoReplyMessage := "no reply found associated with id "
  const IncorrectPassword := "incorrect password"
  const SuccessMessage := "success"
  const InvalidBoard := "invalid board"
  /** The text a redacted reply keeps. */
  const DeletedText := "[deleted]"

  /** What the handler sends back. */
  datatype Response =
    | Redirect(location: string)               // res.redirect(location)
    | Text(status: int, body: string)           // res.status(status).send(body)
    | Listed(threads: seq<ThreadSummary>)       // res.json(threads)
    | Json(thread: Option<ThreadView>)          // res.json(thread), null when absent
    | RawError                                  // .catch(err => res.send(err))

  datatype Step = Step(response: Response, store: Store)

  /** `getModel(name)`: the board's collection, which is empty until the
      first thread is saved into it. */
  function Collection(store: Store, name: string): (b: Board)
    ensures name in store ==> b == store[name]
    ensures name !in store ==> b == []
  {
    if name in store then store[name] else []
  }

  /** Every board other than `board` is exactly as it was. */
  ghost predicate OtherBoardsUnchanged(store: Store, store': Store, board: string) {
    forall n :: n != board ==> (n in store' <==> n in store) && (n in store ==> store'[n] == store[n])
  }

  /** Every thread of the board other than the one at `i` is exactly as it was. */
  predicate OtherThreadsUnchanged(b: Board, b': Board, i: nat) {
    |b'| == |b| && forall k :: 0 <= k < |b| && k != i ==> b'[k] == b[k]
  }

  /** Only the reply at `j` may differ; the thread's own fields, including
      `bumpedOn`, are as they were. */
  predicate OnlyReplyChanged(t: Thread, t': Thread, j: nat) {
    && t' == t.(replies := t'.replies)
    && |t'.replies| == |t.replies|
    && forall k :: 0 <= k < |t.replies| && k != j ==> t'.replies[k] == t.replies[k]
  }

  /** Replaces reply `j` of thread `i`, as a positional `$set` does. */
  function SetReply(b: Board, i: nat, j: nat, r: Reply): (b': Board)
    requires i < |b| && j < |b[i].replies|
    ensures OtherThreadsUnchanged(b, b', i)
    ensures OnlyReplyChanged(b[i], b'[i], j) && b'[i].replies[j] == r
  {
    b[i := b[i].(replies := b[i].replies[j := r])]
  }

  /** Field checks of the six mutating routes, each in the route's own
      field order. */
  function ThreadPostErrors(board: string, text: string, password: string): (r: Option<string>)
    ensures r.None? <==> board != "" && text != "" && password != ""
  {
    ErrorMessage(map[BoardField := board, TextField := text, PasswordField := password],
                 [BoardField, TextField, PasswordField])
  }

  function ThreadDeleteErrors(board: string, threadId: string, password: string): (r: Option<string>)
    ensures r.None? <==> board != "" && threadId != "" && password != ""
  {
    ErrorMessage(map[BoardField := board, ThreadIdField := threadId, PasswordField := password],
                 [BoardField, ThreadIdField, PasswordField])
  }

  function ThreadPutErrors(board: string, threadId: string): (r: Option<string>)
    ensures r.None? <==> board != "" && threadId != ""
  {
    ErrorMessage(map[BoardField := board, ThreadIdField := threadId], [BoardField, ThreadIdField])
  }

  function ReplyPostErrors(board: string, threadId: string, text: string, password: string): (r: Option<string>)
    ensures r.None? <==> board != "" && threadId != "" && text != "" && password != ""
  {
    ErrorMessage(map[BoardField := board, ThreadIdField := threadId, TextField := text, PasswordField := password],
                 [BoardField, ThreadIdField, TextField, PasswordField])
  }

  function ReplyDeleteErrors(board: string, threadId: string, replyId: string, password: string): (r: Option<string>)
    ensures r.None? <==> board != "" && threadId != "" && replyId != "" && password != ""
  {
    ErrorMessage(map[BoardField := board, ThreadIdField := threadId, ReplyIdField := replyId, PasswordField := password],
                 [BoardField, ThreadIdField, ReplyIdField, PasswordField])
  }

  function ReplyPutErrors(board: string, threadId: string, replyId: string): (r: Option<string>)
    ensures r.None? <==> board != "" && threadId != "" && replyId != ""
  {
    ErrorMessage(map[BoardField := board, ThreadIdField := threadId, ReplyIdField := replyId],
                 [BoardField, ThreadIdField, ReplyIdField])
  }

  /** `POST /api/threads/:board`. */
  function CreateThread(store: Store, board: string, text: string, password: string,
                        id: Id, now: Time, hash: Hash): (s: Step)
    ensures board == "" || text == "" || password == "" ==>
              s == Step(Text(400, ThreadPostErrors(board, text, password).value), store)
    ensures board != "" && text != "" && password != "" && FindThread(Collection(store, board), id).Some? ==>
              s == Step(RawError, store)
    ensures board != "" && text != "" && password != "" && FindThread(Collection(store, board), id).None? ==>
              && s.response == Redirect("/b/" + board + "/")
              && board in s.store
              && s.store[board] == Collection(store, board) + [Thread(id, text, now, now, hash, false, [])]
    ensures OtherBoardsUnchanged(store, s.store, board)
  {
    match ThreadPostErrors(board, text, password)
    case Some(msg) => Step(Text(400, msg), store)
    case None =>
      var b := Collection(store, board);
      if FindThread(b, id).Some? then
        // the unique `_id` index rejects the insert
        Step(RawError, store)
      else
        // `bumped_on` is unset before the hook runs; 0 stands for that
        var post := PreSave(Thread(id, text, now, 0, hash, false, []));
        Step(Redirect("/b/" + board + "/"), store[board := b + [post]])
  }

  /** `GET /api/threads/:board`. Reading never changes the store. */
  function ListThreads(store: Store, board: string): (r: Response)
    ensures board == "" ==> r == Text(400, InvalidBoard)
    ensures board != "" ==> r.Listed? && |r.threads| == Min(ThreadLimit, |Collection(store, board)|)
    ensures board != "" ==> forall i :: 0 <= i < |r.threads| ==> SummaryOf(Collection(store, board), r.threads[i])
    ensures board != "" ==> r == Listed(ListRecent(Collection(store, board)))
  {
    if board == "" then Text(400, InvalidBoard)
    else Listed(ListRecent(Collection(store, board)))
  }

  /** `GET /api/replies/:board`. Reading never changes the store. Without a
      `thread_id` the lookup is by an undefined id and finds nothing. */
  function GetThread(store: Store, board: string, threadId: Id): (r: Response)
    ensures board == "" ==> r == Text(400, InvalidBoard)
    ensures board != "" ==> r.Json?
    ensures board != "" ==>
              (r.thread.None? <==>
                 threadId == "" || forall k :: 0 <= k < |Collection(store, board)| ==> Collection(store, board)[k].id != threadId)
    ensures var b := Collection(store, board); var found := FindThread(b, threadId);
            board != "" && threadId != "" && found.Some? ==>
              r == Json(Some(ViewThread(b[found.value]))) && r.thread.value.id == threadId
  {
    if board == "" then Text(400, InvalidBoard)
    else if threadId == "" then Json(None)
    else
      var b := Collection(store, board);
      match FindThread(b, threadId)
      case None => Json(None)
      case Some(i) =>
        Json(Some(ViewThread(b[i])))
  }

  /** `DELETE /api/threads/:board`: checks the thread's own password. */
  function DeleteThread(store: Store, board: string, threadId: Id, password: string,
                        verify: Verifier): (s: Step)
    ensures board == "" || threadId == "" || password == "" ==>
              s == Step(Text(400, ThreadDeleteErrors(board, threadId, password).value), store)
    ensures board != "" && threadId != "" && password != "" && FindThread(Collection(store, board), threadId).None? ==>
              s == Step(Text(404, NoThreadMessage + threadId), store)
    ensures var b := Collection(store, board); var found := FindThread(b, threadId);
            board != "" && threadId != "" && password != "" && found.Some? && !verify(password, b[found.value].passwordHash) ==>
              s == Step(Text(400, IncorrectPassword), store)
    ensures var b := Collection(store, board); var found := FindThread(b, threadId);
            board != "" && threadId != "" && password != "" && found.Some? && verify(password, b[found.value].passwordHash) ==>
              && s.response == Text(200, SuccessMessage)
              && board in s.store
              && s.store[board] == b[..found.value] + b[found.value + 1..]
    ensures OtherBoardsUnchanged(store, s.store, board)
  {
    match ThreadDeleteErrors(board, threadId, password)
    case Some(msg) => Step(Text(400, msg), store)
    case None =>
      var b := Collection(store, board);
      match FindThread(b, threadId)
      case None => Step(Text(404, NoThreadMessage + threadId), store)
      case Some(i) =>
        if verify(password, b[i].passwordHash) then
          Step(Text(200, SuccessMessage), store[board := b[..i] + b[i + 1..]])
        else
          Step(Text(400, IncorrectPassword), store)
  }

  /** `PUT /api/threads/:board`: `findOneAndUpdate` sets the flag without
      running the save hook. */
  function ReportThread(store: Store, board: string, threadId: Id): (s: Step)
    ensures board == "" || threadId == "" ==>
              s == Step(Text(400, ThreadPutErrors(board, threadId).value), store)
    ensures board != "" && threadId != "" && FindThread(Collection(store, board), threadId).None? ==>
              s == Step(Text(404, NoThreadMessage + threadId), store)
    ensures var b := Collection(store, board); var found := FindThread(b, threadId);
            board != "" && threadId != "" && found.Some? ==>
              && s.response == Text(200, SuccessMessage)
              && board in s.store
              && OtherThreadsUnchanged(b, s.store[board], found.value)
              && s.store[board][found.value] == b[found.value].(reported := true)
    ensures OtherBoardsUnchanged(store, s.store, board)
  {
    match ThreadPutErrors(board, threadId)
    case Some(msg) => Step(Text(400, msg), store)
    case None =>
      var b := Collection(store, board);
      match FindThread(b, threadId)
      case None => Step(Text(404, NoThreadMessage + threadId), store)
      case Some(i) => Step(Text(200, SuccessMessage), store[board := b[i := b[i].(reported := true)]])
  }

  /** `POST /api/replies/:board`: appends the reply and saves the thread,
      so the hook recomputes `bumped_on`. */
  function AppendReply(store: Store, board: string, threadId: Id, text: string, password: string,
                       replyId: Id, now: Time, hash: Hash): (s: Step)
    ensures board == "" || threadId == "" || text == "" || password == "" ==>
              s == Step(Text(400, ReplyPostErrors(board, threadId, text, password).value), store)
    ensures board != "" && threadId != "" && text != "" && password != "" && FindThread(Collection(store, board), threadId).None? ==>
              s == Step(RawError, store)
    ensures var b := Collection(store, board); var found := FindThread(b, threadId);
            board != "" && threadId != "" && text != "" && password != "" && found.Some? ==>
              && s.response == Redirect("/b/" + board + "/" + threadId)
              && board in s.store
              && OtherThreadsUnchanged(b, s.store[board], found.value)
              && var t, t' := b[found.value], s.store[board][found.value];
              && t' == t.(replies := t.replies + [Reply(replyId, text, now, hash, false)], bumpedOn := t'.bumpedOn)
              && Saved(t')
              && (Saved(t) ==> t'.bumpedOn == Max(t.bumpedOn, now))
    ensures OtherBoardsUnchanged(store, s.store, board)
  {
    match ReplyPostErrors(board, threadId, text, password)
    case Some(msg) => Step(Text(400, msg), store)
    case None =>
      var b := Collection(store, board);
      match FindThread(b, threadId)
      // `thread.replies` of a null thread throws; nothing is saved
      case None => Step(RawError, store)
      case Some(i) =>
        var reply := Reply(replyId, text, now, hash, false);
        var t := b[i];
        var saved := PreSave(t.(replies := t.replies + [reply]));
        LatestStampAppend(t.createdOn, t.replies, reply);
        Step(Redirect("/b/" + board + "/" + threadId), store[board := b[i := saved]])
  }

  /** `DELETE /api/replies/:board`: checks the reply's own password and, on
      success, overwrites only its text. `updateOne` bypasses the save hook,
      so `bumped_on` stays. A missing thread and a missing reply give the
      same reply message. */
  function RedactReply(store: Store, board: string, threadId: Id, replyId: Id, password: string,
                       verify: Verifier): (s: Step)
    ensures board == "" || threadId == "" || replyId == "" || password == "" ==>
              s == Step(Text(400, ReplyDeleteErrors(board, threadId, replyId, password).value), store)
    ensures var b := Collection(store, board); var found := FindThread(b, threadId);
            board != "" && threadId != "" && replyId != "" && password != "" &&
            (found.None? || FindReply(b[found.value].replies, replyId).None?) ==>
              s == Step(Text(404, NoReplyMessage + replyId), store)
    ensures var b := Collection(store, board); var found := FindThread(b, threadId);
            board != "" && threadId != "" && replyId != "" && password != "" && found.Some? ==>
              var t := b[found.value]; var at := FindReply(t.replies, replyId);
              at.Some? && !verify(password, t.replies[at.value].passwordHash) ==>
                s == Step(Text(400, IncorrectPassword), store)
    ensures var b := Collection(store, board); var found := FindThread(b, threadId);
            board != "" && threadId != "" && replyId != "" && password != "" && found.Some? ==>
              var t := b[found.value]; var at := FindReply(t.replies, replyId);
              at.Some? && verify(password, t.replies[at.value].passwordHash) ==>
                && s.response == Text(200, SuccessMessage)
                && board in s.store
                && OtherThreadsUnchanged(b, s.store[board], found.value)
                && OnlyReplyChanged(t, s.store[board][found.value], at.value)
                && s.store[board][found.value].replies[at.value] == t.replies[at.value].(text := DeletedText)
    ensures OtherBoardsUnchanged(store, s.store, board)
  {
    match ReplyDeleteErrors(board, threadId, replyId, password)
    case Some(msg) => Step(Text(400, msg), store)
    case None =>
      var b := Collection(store, board);
      match FindThread(b, threadId)
      case None => Step(Text(404, NoReplyMessage + replyId), store)
      case Some(i) =>
        match FindReply(b[i].replies, replyId)
        case None => Step(Text(404, NoReplyMessage + replyId), store)
        case Some(j) =>
          var r := b[i].replies[j];
          if verify(password, r.passwordHash) then
            Step(Text(200, SuccessMessage), store[board := SetReply(b, i, j, r.(text := DeletedText))])
          else
            Step(Text(400, IncorrectPassword), store)
  }

  /** `PUT /api/replies/:board`: the thread is looked up first, so a missing
      thread gives the thread message even when the reply is missing too. */
  function ReportReply(store: Store, board: string, threadId: Id, replyId: Id): (s: Step)
    ensures board == "" || threadId == "" || replyId == "" ==>
              s == Step(Text(400, ReplyPutErrors(board, threadId, replyId).value), store)
    ensures board != "" && threadId != "" && replyId != "" && FindThread(Collection(store, board), threadId).None? ==>
              s == Step(Text(404, NoThreadMessage + threadId), store)
    ensures var b := Collection(store, board); var found := FindThread(b, threadId);
            board != "" && threadId != "" && replyId != "" && found.Some? &&
            FindReply(b[found.value].replies, replyId).None? ==>
              s == Step(Text(404, NoReplyMessage + replyId), store)
    ensures var b := Collection(store, board); var found := FindThread(b, threadId);
            board != "" && threadId != "" && replyId != "" && found.Some? ==>
              var t := b[found.value]; var at := FindReply(t.replies, replyId);
              at.Some? ==>
                && s.response == Text(200, SuccessMessage)
                && board in s.store
                && OtherThreadsUnchanged(b, s.store[board], found.value)
                && OnlyReplyChanged(t, s.store[board][found.value], at.value)
                && s.store[board][found.value].replies[at.value] == t.replies[at.value].(reported := true)
    ensures OtherBoardsUnchanged(store, s.store, board)
  {
    match ReplyPutErrors(board, threadId, replyId)
    case Some(msg) => Step(Text(400, msg), store)
    case None =>
      var b := Collection(store, board);
      match FindThread(b, threadId)
      case None => Step(Text(404, NoThreadMessage + threadId), store)
      case Some(i) =>
        match FindReply(b[i].replies, replyId)
        case None => Step(Text(404, NoReplyMessage + replyId), store)
        case Some(j) =>
          Step(Text(200, SuccessMessage), store[board := SetReply(b, i, j, b[i].replies[j].(reported := true))])
  }
}
