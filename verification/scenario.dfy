/** Concrete runs of the handlers: the messages the functional tests expect
    for missing fields, and a full create / reply / redact / delete session. */
module Scenario {
  import opened Wrappers
  import opened Schema
  import opened Validation
  import opened Listing
  import opened Api

  /** `Join` of two names. */
  lemma JoinTwo(a: string, b: string, sep: string)
    ensures Join([a, b], sep) == a + sep + b
  {
    assert [a, b][1..] == [b];
  }

  /** `Join` of three names. */
  lemma JoinThree(a: string, b: string, c: string, sep: string)
    ensures Join([a, b, c], sep) == a + sep + (b + sep + c)
  {
    assert [a, b, c][1..] == [b, c];
    JoinTwo(b, c, sep);
  }

  /** The message for the fields after the first, when only the first is
      present. */
  lemma AllButFirstMissing(inputs: Inputs, fields: seq<Field>)
    requires |fields| > 1 && Present(inputs, fields[0])
    requires forall k :: 1 <= k < |fields| ==> !Present(inputs, fields[k])
    ensures ErrorMessage(inputs, fields) == Some(InvalidPrefix + Join(Names(fields[1..]), FieldSeparator))
  {
    var rest := fields[1..];
    assert forall k :: 0 <= k < |rest| ==> !Present(inputs, rest[k]);
    MissingAllAbsent(inputs, rest);
    assert Missing(inputs, fields) == [] + Missing(inputs, rest);
    assert [] + rest == rest;
  }

  /** Two of three fields missing: both named, separated by a comma. */
  lemma LastTwoMissing(inputs: Inputs, f0: Field, f1: Field, f2: Field)
    requires Present(inputs, f0) && !Present(inputs, f1) && !Present(inputs, f2)
    ensures ErrorMessage(inputs, [f0, f1, f2]) == Some(InvalidPrefix + (FieldName(f1) + FieldSeparator + FieldName(f2)))
  {
    var fields := [f0, f1, f2];
    AllButFirstMissing(inputs, fields);
    assert fields[1..] == [f1, f2];
    assert Names([f1, f2]) == [FieldName(f1), FieldName(f2)];
    JoinTwo(FieldName(f1), FieldName(f2), FieldSeparator);
  }

  /** Three of four fields missing. */
  lemma LastThreeMissing(inputs: Inputs, f0: Field, f1: Field, f2: Field, f3: Field)
    requires Present(inputs, f0) && !Present(inputs, f1) && !Present(inputs, f2) && !Present(inputs, f3)
    ensures ErrorMessage(inputs, [f0, f1, f2, f3])
            == Some(InvalidPrefix + (FieldName(f1) + FieldSeparator + (FieldName(f2) + FieldSeparator + FieldName(f3))))
  {
    var fields := [f0, f1, f2, f3];
    AllButFirstMissing(inputs, fields);
    assert fields[1..] == [f1, f2, f3];
    assert Names([f1, f2, f3]) == [FieldName(f1), FieldName(f2), FieldName(f3)];
    JoinThree(FieldName(f1), FieldName(f2), FieldName(f3), FieldSeparator);
  }

  /** The messages spelled out, each proved apart from the field-list
      reasoning so that the string comparison stays small. */
  lemma SpelledText()
    ensures InvalidPrefix + FieldName(TextField) == "invalid text"
  {
  }

  lemma SpelledPassword()
    ensures InvalidPrefix + FieldName(PasswordField) == "invalid delete_password"
  {
  }

  lemma SpelledTextPassword()
    ensures InvalidPrefix + (FieldName(TextField) + FieldSeparator + FieldName(PasswordField)) == "invalid text, delete_password"
  {
  }

  lemma SpelledThreadIdPassword()
    ensures InvalidPrefix + (FieldName(ThreadIdField) + FieldSeparator + FieldName(PasswordField))
            == "invalid thread_id, delete_password"
  {
  }

  lemma SpelledThreadIdReplyId()
    ensures InvalidPrefix + (FieldName(ThreadIdField) + FieldSeparator + FieldName(ReplyIdField)) == "invalid thread_id, reply_id"
  {
  }

  lemma SpelledThreadIdTextPassword()
    ensures InvalidPrefix + (FieldName(ThreadIdField) + FieldSeparator + (FieldName(TextField) + FieldSeparator + FieldName(PasswordField)))
            == "invalid thread_id, text, delete_password"
  {
  }

  /** The validation messages of `POST /api/threads/:board`: without text,
      without a password, and without both. */
  lemma ThreadPostMessageText()
    ensures ThreadPostErrors("testing", "", "password") == Some("invalid text")
  {
    var inputs := map[BoardField := "testing", TextField := "", PasswordField := "password"];
    OneMissing(inputs, [BoardField, TextField, PasswordField], 1);
    assert ThreadPostErrors("testing", "", "password") == ErrorMessage(inputs, [BoardField, TextField, PasswordField]);
    SpelledText();
  }

  lemma ThreadPostMessagePassword()
    ensures ThreadPostErrors("testing", "Thread 1", "") == Some("invalid delete_password")
  {
    var inputs := map[BoardField := "testing", TextField := "Thread 1", PasswordField := ""];
    OneMissing(inputs, [BoardField, TextField, PasswordField], 2);
    assert ThreadPostErrors("testing", "Thread 1", "") == ErrorMessage(inputs, [BoardField, TextField, PasswordField]);
    SpelledPassword();
  }

  lemma ThreadPostMessageBoth()
    ensures ThreadPostErrors("testing", "", "") == Some("invalid text, delete_password")
  {
    var fields := [BoardField, TextField, PasswordField];
    var inputs := map[BoardField := "testing", TextField := "", PasswordField := ""];
    LastTwoMissing(inputs, BoardField, TextField, PasswordField);
    assert ThreadPostErrors("testing", "", "") == ErrorMessage(inputs, fields);
    SpelledTextPassword();
  }

  /** `POST /api/threads/:board` without text, without a password, and
      without both: nothing is stored. */
  lemma CreateThreadMissingFields(store: Store, id: Id, now: Time, hash: Hash)
    ensures CreateThread(store, "testing", "", "password", id, now, hash) == Step(Text(400, "invalid text"), store)
    ensures CreateThread(store, "testing", "Thread 1", "", id, now, hash) == Step(Text(400, "invalid delete_password"), store)
    ensures CreateThread(store, "testing", "", "", id, now, hash) == Step(Text(400, "invalid text, delete_password"), store)
  {
    ThreadPostMessageText();
    ThreadPostMessagePassword();
    ThreadPostMessageBoth();
  }

  /** The validation message of `DELETE /api/threads/:board` with neither
      id nor password. */
  lemma ThreadDeleteMessage()
    ensures ThreadDeleteErrors("testing", "", "") == Some("invalid thread_id, delete_password")
  {
    var fields := [BoardField, ThreadIdField, PasswordField];
    var inputs := map[BoardField := "testing", ThreadIdField := "", PasswordField := ""];
    LastTwoMissing(inputs, BoardField, ThreadIdField, PasswordField);
    assert ThreadDeleteErrors("testing", "", "") == ErrorMessage(inputs, fields);
    SpelledThreadIdPassword();
  }

  lemma DeleteThreadMissingFields(store: Store, verify: Verifier)
    ensures DeleteThread(store, "testing", "", "", verify) == Step(Text(400, "invalid thread_id, delete_password"), store)
  {
    ThreadDeleteMessage();
  }

  /** The validation message of `PUT /api/replies/:board` with neither
      thread id nor reply id. */
  lemma ReplyPutMessage()
    ensures ReplyPutErrors("testing", "", "") == Some("invalid thread_id, reply_id")
  {
    var fields := [BoardField, ThreadIdField, ReplyIdField];
    var inputs := map[BoardField := "testing", ThreadIdField := "", ReplyIdField := ""];
    LastTwoMissing(inputs, BoardField, ThreadIdField, ReplyIdField);
    assert ReplyPutErrors("testing", "", "") == ErrorMessage(inputs, fields);
    SpelledThreadIdReplyId();
  }

  lemma ReportReplyMissingFields(store: Store)
    ensures ReportReply(store, "testing", "", "") == Step(Text(400, "invalid thread_id, reply_id"), store)
  {
    ReplyPutMessage();
  }

  /** The validation message of `POST /api/replies/:board` with nothing but
      the board. */
  lemma ReplyPostMessage()
    ensures ReplyPostErrors("testing", "", "", "") == Some("invalid thread_id, text, delete_password")
  {
    var inputs := map[BoardField := "testing", ThreadIdField := "", TextField := "", PasswordField := ""];
    assert Present(inputs, BoardField);
    LastThreeMissing(inputs, BoardField, ThreadIdField, TextField, PasswordField);
    SpelledThreadIdTextPassword();
  }

  lemma AppendReplyMissingFields(store: Store, id: Id, now: Time, hash: Hash)
    ensures AppendReply(store, "testing", "", "", "", id, now, hash) == Step(Text(400, "invalid thread_id, text, delete_password"), store)
  {
    ReplyPostMessage();
  }

  /** What the two passwords of a session open: the thread's password
      `pw` opens only the thread's hash, the reply's `rpw` only the reply's,
      and `wrong` neither. */
  predicate Keys(verify: Verifier, pw: string, rpw: string, wrong: string, h1: Hash, h2: Hash) {
    && pw != "" && rpw != "" && wrong != ""
    && verify(pw, h1) && !verify(wrong, h1)
    && verify(rpw, h2) && !verify(wrong, h2)
  }

  /** The thread a session creates, and the same thread after one reply. */
  function Opened(tid: Id, text: string, t0: Time, h1: Hash): Thread {
    Thread(tid, text, t0, t0, h1, false, [])
  }

  function Replied(tid: Id, text: string, t0: Time, h1: Hash, reply: Reply): Thread {
    Opened(tid, text, t0, h1).(bumpedOn := reply.createdOn, replies := [reply])
  }

  lemma SessionCreate(store: Store, board: string, text: string, pw: string, tid: Id, t0: Time, h1: Hash)
    requires board != "" && board !in store && text != "" && pw != ""
    ensures CreateThread(store, board, text, pw, tid, t0, h1)
            == Step(Redirect("/b/" + board + "/"), store[board := [Opened(tid, text, t0, h1)]])
  {
    assert Collection(store, board) == [];
    assert [] + [Opened(tid, text, t0, h1)] == [Opened(tid, text, t0, h1)];
  }

  lemma SessionList(store: Store, board: string, t: Thread)
    requires board != ""
    ensures ListThreads(store[board := [t]], board) == Listed([Summarize(t)])
  {
    assert SortByBump([t]) == [t];
    assert TopThreads([t]) == [t];
  }

  lemma SessionReply(store: Store, board: string, rpw: string, t: Thread, reply: Reply)
    requires board != "" && t.id != "" && rpw != "" && reply.text != ""
    requires t.replies == [] && t.bumpedOn == t.createdOn <= reply.createdOn
    ensures AppendReply(store[board := [t]], board, t.id, reply.text, rpw, reply.id, reply.createdOn, reply.passwordHash)
            == Step(Redirect("/b/" + board + "/" + t.id),
                    store[board := [t.(bumpedOn := reply.createdOn, replies := [Reply(reply.id, reply.text, reply.createdOn, reply.passwordHash, false)])]])
  {
    var s := store[board := [t]];
    assert Collection(s, board) == [t];
    assert FindThread([t], t.id) == Some(0);
    assert ReplyPostErrors(board, t.id, reply.text, rpw).None?;
    var r := Reply(reply.id, reply.text, reply.createdOn, reply.passwordHash, false);
    assert t.replies + [r] == [r];
    var saved := PreSave(t.(replies := [r]));
    assert saved.bumpedOn == reply.createdOn;
    assert [t][0 := saved] == [t.(bumpedOn := reply.createdOn, replies := [r])];
  }

  lemma SessionRedactWrong(store: Store, board: string, t: Thread, wrong: string, verify: Verifier)
    requires board != "" && t.id != "" && |t.replies| == 1 && t.replies[0].id != ""
    requires wrong != "" && !verify(wrong, t.replies[0].passwordHash)
    ensures RedactReply(store[board := [t]], board, t.id, t.replies[0].id, wrong, verify)
            == Step(Text(400, IncorrectPassword), store[board := [t]])
  {
    assert Collection(store[board := [t]], board) == [t];
    assert FindThread([t], t.id) == Some(0);
    assert FindReply(t.replies, t.replies[0].id) == Some(0);
  }

  lemma SessionRedactRight(store: Store, board: string, t: Thread, rpw: string, verify: Verifier)
    requires board != "" && t.id != "" && |t.replies| == 1 && t.replies[0].id != ""
    requires rpw != "" && verify(rpw, t.replies[0].passwordHash)
    ensures RedactReply(store[board := [t]], board, t.id, t.replies[0].id, rpw, verify)
            == Step(Text(200, SuccessMessage), store[board := [t.(replies := [t.replies[0].(text := DeletedText)])]])
  {
    assert Collection(store[board := [t]], board) == [t];
    assert FindThread([t], t.id) == Some(0);
    assert FindReply(t.replies, t.replies[0].id) == Some(0);
    var r := t.replies[0].(text := DeletedText);
    assert t.replies[0 := r] == [r];
    assert SetReply([t], 0, 0, r) == [t.(replies := [r])];
  }

  lemma SessionDelete(store: Store, board: string, t: Thread, pw: string, wrong: string, verify: Verifier)
    requires board != "" && t.id != "" && pw != "" && wrong != ""
    requires verify(pw, t.passwordHash) && !verify(wrong, t.passwordHash)
    ensures DeleteThread(store[board := [t]], board, t.id, wrong, verify) == Step(Text(400, IncorrectPassword), store[board := [t]])
    ensures DeleteThread(store[board := [t]], board, t.id, pw, verify) == Step(Text(200, SuccessMessage), store[board := []])
  {
    assert Collection(store[board := [t]], board) == [t];
    assert FindThread([t], t.id) == Some(0);
    assert [t][..0] + [t][1..] == [];
  }

  lemma SessionGet(store: Store, board: string, t: Thread)
    requires board != "" && t.id != ""
    ensures GetThread(store[board := [t]], board, t.id) == Json(Some(ViewThread(t)))
    ensures GetThread(store[board := []], board, t.id) == Json(None)
  {
    assert Collection(store[board := [t]], board) == [t];
    assert FindThread([t], t.id) == Some(0);
    assert Collection(store[board := []], board) == [];
  }

  lemma SessionReadReply(store: Store, board: string, text: string, reply: Reply, tid: Id, t0: Time, h1: Hash)
    requires board != "" && tid != ""
    ensures GetThread(store[board := [Replied(tid, text, t0, h1, reply)]], board, tid)
            == Json(Some(ThreadView(tid, text, t0, reply.createdOn, [ViewReply(reply)])))
  {
    var replied := Replied(tid, text, t0, h1, reply);
    SessionGet(store, board, replied);
    assert ViewThread(replied).replies == [ViewReply(reply)];
  }

  /** The first half of a board's life: a thread is created and replied
      to, and the reply moves its bump time. */
  lemma SessionOpen(store: Store, board: string, text: string, reply: Reply, tid: Id, t0: Time,
                    pw: string, rpw: string, h1: Hash)
    requires board != "" && board !in store
    requires text != "" && reply.text != "" && tid != "" && pw != "" && rpw != ""
    requires t0 <= reply.createdOn && !reply.reported
    ensures var s1 := store[board := [Opened(tid, text, t0, h1)]];
            var s2 := store[board := [Replied(tid, text, t0, h1, reply)]];
            && CreateThread(store, board, text, pw, tid, t0, h1) == Step(Redirect("/b/" + board + "/"), s1)
            && AppendReply(s1, board, tid, reply.text, rpw, reply.id, reply.createdOn, reply.passwordHash)
               == Step(Redirect("/b/" + board + "/" + tid), s2)
            && GetThread(s2, board, tid) == Json(Some(ThreadView(tid, text, t0, reply.createdOn, [ViewReply(reply)])))
  {
    var created := Opened(tid, text, t0, h1);
    var replied := Replied(tid, text, t0, h1, reply);
    SessionCreate(store, board, text, pw, tid, t0, h1);
    SessionReply(store, board, rpw, created, reply);
    assert Reply(reply.id, reply.text, reply.createdOn, reply.passwordHash, false) == reply;
    assert store[board := [created]][board := [replied]] == store[board := [replied]];
    SessionReadReply(store, board, text, reply, tid, t0, h1);
  }

  /** The second half: with the wrong password neither the reply nor the
      thread goes; with the right ones the reply is redacted in place and
      then the thread is deleted, after which it cannot be fetched. */
  lemma SessionClose(store: Store, board: string, t: Thread,
                     pw: string, rpw: string, wrong: string, verify: Verifier)
    requires board != "" && t.id != "" && |t.replies| == 1 && t.replies[0].id != ""
    requires Keys(verify, pw, rpw, wrong, t.passwordHash, t.replies[0].passwordHash)
    ensures var s2 := store[board := [t]];
            var redacted := t.(replies := [t.replies[0].(text := DeletedText)]);
            var s4 := store[board := [redacted]];
            var s6 := store[board := []];
            && RedactReply(s2, board, t.id, t.replies[0].id, wrong, verify) == Step(Text(400, IncorrectPassword), s2)
            && RedactReply(s2, board, t.id, t.replies[0].id, rpw, verify) == Step(Text(200, SuccessMessage), s4)
            && GetThread(s4, board, t.id) == Json(Some(ViewThread(redacted)))
            && DeleteThread(s4, board, t.id, wrong, verify) == Step(Text(400, IncorrectPassword), s4)
            && DeleteThread(s4, board, t.id, pw, verify) == Step(Text(200, SuccessMessage), s6)
            && GetThread(s6, board, t.id) == Json(None)
  {
    var redacted := t.(replies := [t.replies[0].(text := DeletedText)]);
    SessionRedactWrong(store, board, t, wrong, verify);
    SessionRedactRight(store, board, t, rpw, verify);
    assert store[board := [t]][board := [redacted]] == store[board := [redacted]];
    SessionGet(store, board, redacted);
    SessionDelete(store, board, redacted, pw, wrong, verify);
    assert store[board := [redacted]][board := []] == store[board := []];
  }
}
