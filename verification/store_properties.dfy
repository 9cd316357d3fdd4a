/** How the thread store's methods relate: what a write makes the reads return,
    and the consequences of the load-time defaults. */
module StoreProperties {
  import opened Outcomes
  import opened JsValues
  import opened MongoHelper
  import opened ThreadSchema
  import opened ThreadStore
  import opened StoreInvariants

  /** A thread whose id no earlier thread carries is the one `findById` returns. */
  lemma FindFirstWithId(store: Store, i: nat)
    requires i < |store| && forall j :: 0 <= j < i ==> store[j].id != store[i].id
    ensures Find(store, ById(store[i].id)) == Some(i)
  {
  }

  /** After `addThread` resolves, `getThread` returns the new thread, and the password
      check on it matches exactly the password it was created with. */
  lemma AddThreadThenGetThread(defaults: LoadDefaults, store: Store, board: JsValue, text: JsValue,
                               password: JsValue, newId: Id, salt: nat, candidate: string)
    requires AddThread(defaults, store, board, text, password, newId, salt).outcome.Resolved?
    ensures var r := AddThread(defaults, store, board, text, password, newId, salt);
            var t := r.outcome.value;
            && GetThread(r.store, newId) == Some(t)
            && IsThreadPassword(r.store, newId, candidate)
               == Resolved(if candidate == password.s then PasswordCheck(true, Some(t))
                           else PasswordCheck(false, None))
  {
    var r := AddThread(defaults, store, board, text, password, newId, salt);
    assert !HasThread(store, newId);
    assert r.store[|store|] == r.outcome.value;
    FindFirstWithId(r.store, |store|);
  }

  /** String arguments whose trimmed board and text fit the schema make a document `create` accepts. */
  lemma CreatedFromStrings(defaults: LoadDefaults, store: Store, board: string, text: string,
                           password: string, newId: Id, salt: nat)
    requires BoardFits(Trim(board)) && TextFits(Trim(text)) && !HasThread(store, newId)
    ensures CreatedThread(defaults, store, JsString(board), JsString(text), JsString(password), newId, salt)
            == Some(Thread(newId, Trim(board), Trim(text), HashPassword(password, salt),
                           defaults.loadTime, defaults.loadTime, false, []))
  {
    assert CastString(JsString(board)) == Some(board);
    assert CastString(JsString(text)) == Some(text);
  }

  /** Non-empty string arguments that fit the schema, with a free id: `addThread`
      resolves with the created document and appends it. */
  lemma AddThreadFromStrings(defaults: LoadDefaults, store: Store, board: string, text: string,
                             password: string, newId: Id, salt: nat)
    requires board != [] && text != [] && password != []
    requires BoardFits(Trim(board)) && TextFits(Trim(text)) && !HasThread(store, newId)
    ensures var t := Thread(newId, Trim(board), Trim(text), HashPassword(password, salt),
                            defaults.loadTime, defaults.loadTime, false, []);
            AddThread(defaults, store, JsString(board), JsString(text), JsString(password), newId, salt)
            == Step(Resolved(t), store + [t])
  {
    CreatedFromStrings(defaults, store, board, text, password, newId, salt);
  }

  /** The missing `return` after the guard: with an empty password the guard rejects,
      yet bcrypt hashes the empty string and `create` accepts the document, so the
      thread is stored all the same. */
  lemma RejectedAddThreadStillWrites(defaults: LoadDefaults, store: Store, board: string, text: string,
                                     newId: Id, salt: nat)
    requires BoardFits(Trim(board)) && TextFits(Trim(text)) && !HasThread(store, newId)
    ensures var r := AddThread(defaults, store, JsString(board), JsString(text), JsString(""), newId, salt);
            && r.outcome == Rejected(Bare(StringsOnly))
            && |r.store| == |store| + 1
            && r.store[|store|].id == newId && r.store[|store|].board == Trim(board)
  {
    CreatedFromStrings(defaults, store, board, text, "", newId, salt);
    var created := CreatedThread(defaults, store, JsString(board), JsString(text), JsString(""), newId, salt);
    assert !IsStrNotEmpty(JsString(""));
    assert AddThread(defaults, store, JsString(board), JsString(text), JsString(""), newId, salt).store
           == store + [created.value];
  }

  /** The board and thread text of the unit tests pass trimming and the schema unchanged. */
  lemma TestValuesFit()
    ensures Trim("testBoard") == "testBoard" && BoardFits("testBoard")
    ensures Trim("Add unit test thread") == "Add unit test thread" && TextFits("Add unit test thread")
  {
    assert IsTrimmed("testBoard");
    TrimmedIsFixed("testBoard");
    assert IsTrimmed("Add unit test thread");
    TrimmedIsFixed("Add unit test thread");
    assert BoardMatch("testBoard") by {
      BoardMatchChars("testBoard");
      assert forall k :: 0 <= k < |"testBoard"| ==> BoardNameChar("testBoard"[k]);
    }
  }

  /** A concrete instance: `addThread('testBoard', 'Add unit test thread', '')` rejects
      and still writes. */
  lemma RejectedAddThreadExample(defaults: LoadDefaults)
    ensures var r := AddThread(defaults, [], JsString("testBoard"), JsString("Add unit test thread"),
                               JsString(""), 1, 0);
            r.outcome == Rejected(Bare(StringsOnly)) && |r.store| == 1
  {
    TestValuesFit();
    RejectedAddThreadStillWrites(defaults, [], "testBoard", "Add unit test thread", 1, 0);
  }

  /** The same missing `return` with an object board that Mongoose casts to a string,
      such as `{_id: 'general'}`: the guard rejects it, but `create` casts it to that
      string and stores the thread. */
  lemma CastableBoardStillWrites(defaults: LoadDefaults, store: Store, board: string, text: string,
                                 password: string, newId: Id, salt: nat)
    requires BoardFits(Trim(board)) && TextFits(Trim(text)) && !HasThread(store, newId)
    ensures var t := Thread(newId, Trim(board), Trim(text), HashPassword(password, salt),
                            defaults.loadTime, defaults.loadTime, false, []);
            AddThread(defaults, store, JsCastable(board), JsString(text), JsString(password), newId, salt)
            == Step(Rejected(Bare(StringsOnly)), store + [t])
  {
    CreatedFromCastable(defaults, store, board, text, password, newId, salt);
    assert !IsStrNotEmpty(JsCastable(board));
  }

  /** A castable object board and a string text that fit make a document `create` accepts. */
  lemma CreatedFromCastable(defaults: LoadDefaults, store: Store, board: string, text: string,
                            password: string, newId: Id, salt: nat)
    requires BoardFits(Trim(board)) && TextFits(Trim(text)) && !HasThread(store, newId)
    ensures CreatedThread(defaults, store, JsCastable(board), JsString(text), JsString(password), newId, salt)
            == Some(Thread(newId, Trim(board), Trim(text), HashPassword(password, salt),
                           defaults.loadTime, defaults.loadTime, false, []))
  {
    assert CastString(JsCastable(board)) == Some(board);
    assert CastString(JsString(text)) == Some(text);
  }

  /** The guard of `addThread` refuses the payloads of the unit tests, objects the
      string cast cannot turn into a string, and writes nothing for them. */
  lemma AddThreadRefusesObjects(defaults: LoadDefaults, store: Store, board: JsValue, text: JsValue,
                                password: JsValue, newId: Id, salt: nat)
    requires board.JsObject? || text.JsObject? || password.JsObject?
    ensures var r := AddThread(defaults, store, board, text, password, newId, salt);
            r == Step(Rejected(Bare(StringsOnly)), store)
  {
  }

  /** The filter value goes through the `trim` setter, so white space around the
      board name does not change the listing. */
  lemma GetThreadsTrimsBoard(store: Store, board: string, limit: JsValue, limitReplies: JsValue)
    requires Trim(board) != []
    ensures GetThreads(store, JsString(board), limit, limitReplies)
            == GetThreads(store, JsString(Trim(board)), limit, limitReplies)
  {
    TrimIdempotent(board);
  }

  /** Reporting a thread twice is the same as reporting it once. */
  lemma ReportThreadIdempotent(store: Store, id: Id)
    ensures var once := ReportThread(store, id);
            ReportThread(once.store, id) == once
  {
    var once := ReportThread(store, id);
    match Find(store, ById(id))
    case None =>
    case Some(i) =>
      assert once.store[i] == store[i].(reported := true);
      assert forall j :: 0 <= j < i ==> once.store[j] == store[j];
      FindFirstWithId(once.store, i);
      assert once.store[i := once.store[i].(reported := true)] == once.store;
  }

  /** With unique ids, a successful `deleteThread` leaves no thread with that id, so
      `getThread` yields null; and the thread it removed is the one `getThread` saw. */
  lemma DeleteThreadThenGetThread(store: Store, id: Id, password: string)
    requires UniqueIds(store)
    requires DeleteThread(store, id, password).outcome == Resolved(true)
    ensures var r := DeleteThread(store, id, password);
            GetThread(r.store, id) == None && |r.store| + 1 == |store|
  {
    var r := DeleteThread(store, id, password);
    var i :| 0 <= i < |store| && store[i].id == id && r.store == store[..i] + store[i + 1..];
    forall j | 0 <= j < |r.store|
      ensures r.store[j].id != id
    {
      if j < i {
        assert r.store[j] == store[j];
      } else {
        assert r.store[j] == store[j + 1];
      }
    }
  }

  /** The password that created a thread deletes it, and only that password does. */
  lemma AddThreadThenDeleteThread(defaults: LoadDefaults, store: Store, board: JsValue, text: JsValue,
                                  password: JsValue, newId: Id, salt: nat, candidate: string)
    requires UniqueIds(store)
    requires AddThread(defaults, store, board, text, password, newId, salt).outcome.Resolved?
    ensures var added := AddThread(defaults, store, board, text, password, newId, salt).store;
            var r := DeleteThread(added, newId, candidate);
            && (r.outcome == Resolved(true) <==> candidate == password.s)
            && (candidate == password.s ==> r.store == store)
            && (candidate != password.s ==> r.store == added)
  {
    var a := AddThread(defaults, store, board, text, password, newId, salt);
    AddThreadThenGetThread(defaults, store, board, text, password, newId, salt, candidate);
    var r := DeleteThread(a.store, newId, candidate);
    if candidate == password.s {
      FindFirstWithId(a.store, |store|);
      assert a.store[..|store|] == store;
    }
  }

  /** After `addReply`, `getReply` (whatever reply id it is given) returns the thread
      with its first stored reply: the new reply when the thread had none, the
      oldest reply otherwise. */
  lemma AddReplyThenGetReply(defaults: LoadDefaults, store: Store, threadId: Id, text: string,
                             password: string, salt: nat, now: Time, replyId: Id)
    requires HasThread(store, threadId)
    ensures var before := GetThread(store, threadId).value;
            var r := AddReply(defaults, store, threadId, text, password, salt, now);
            var after := r.outcome.value.value;
            && GetReply(r.store, threadId, replyId) == Some(after.(replies := [after.replies[0]]))
            && (before.replies == [] ==>
                  after.replies[0] == Reply(defaults.replyId, Trim(text), HashPassword(password, salt),
                                            defaults.loadTime, false))
            && (before.replies != [] ==> after.replies[0] == before.replies[0])
  {
    var r := AddReply(defaults, store, threadId, text, password, salt, now);
    var i := Find(store, ById(threadId)).value;
    assert r.store[i] == r.outcome.value.value;
    assert forall j :: 0 <= j < i ==> r.store[j] == store[j];
    FindFirstWithId(r.store, i);
  }

  /** After `addReply`, the reply password check compares with the first stored reply:
      it accepts exactly the new reply's password when the thread had no replies, and
      otherwise exactly what the oldest reply's password accepts, whatever reply id
      it is given. */
  lemma AddReplyThenCheckPassword(defaults: LoadDefaults, store: Store, threadId: Id, text: string,
                                  password: string, salt: nat, now: Time, replyId: Id, candidate: string)
    requires HasThread(store, threadId)
    ensures var before := GetThread(store, threadId).value;
            var r := AddReply(defaults, store, threadId, text, password, salt, now);
            var check := IsValidReplyPassword(r.store, threadId, replyId, candidate);
            && (before.replies == [] ==> (check.isMatch <==> candidate == password))
            && (before.replies != [] ==>
                  (check.isMatch <==> ComparePassword(candidate, before.replies[0].password)))
  {
    AddReplyThenGetReply(defaults, store, threadId, text, password, salt, now, replyId);
  }

  /** In a consistent collection every reply carries the load-time default id, so
      `reportReply` flags all of a thread's replies or none of them. */
  lemma ReportReplyAllOrNothing(defaults: LoadDefaults, store: Store, threadId: Id, replyId: Id)
    requires Consistent(defaults, store) && HasThread(store, threadId)
    ensures var i := Find(store, ById(threadId)).value;
            var after := ReportReply(store, threadId, replyId).store[i];
            forall k :: 0 <= k < |after.replies| ==>
              after.replies[k].reported == (store[i].replies[k].reported || replyId == defaults.replyId)
  {
  }

  /** Pulling an id every reply carries empties the list. */
  lemma PullEverything(replies: seq<Reply>, replyId: Id)
    requires forall k :: 0 <= k < |replies| ==> replies[k].id == replyId
    ensures Pull(replies, replyId) == []
  {
  }

  /** With unique ids, the thread that carries a reply is found at the position of its id. */
  lemma FindWithReplyUnique(store: Store, i: nat, replyId: Id)
    requires UniqueIds(store) && i < |store| && HasReply(store[i].replies, replyId)
    ensures Find(store, ByIdWithReply(store[i].id, replyId)) == Some(i)
  {
    var q := ByIdWithReply(store[i].id, replyId);
    assert Matches(store[i], q);
    var r := Find(store, q);
    assert r.Some?;
    assert Matches(store[r.value], q);
    assert store[r.value].id == store[i].id;
  }

  /** The store a passed check leaves when no thread carries the reply: untouched. */
  lemma DeleteReplyMissing(store: Store, threadId: Id, replyId: Id, password: string)
    requires DeleteReply(store, threadId, replyId, password).outcome == Resolved(true)
    requires Find(store, ByIdWithReply(threadId, replyId)).None?
    ensures DeleteReply(store, threadId, replyId, password).store == store
  {
  }

  /** The store a passed check leaves when the thread at `i` carries the reply. */
  lemma DeleteReplyFound(store: Store, threadId: Id, replyId: Id, password: string, i: nat)
    requires DeleteReply(store, threadId, replyId, password).outcome == Resolved(true)
    requires Find(store, ByIdWithReply(threadId, replyId)) == Some(i)
    ensures DeleteReply(store, threadId, replyId, password).store
            == store[i := store[i].(replies := Pull(store[i].replies, replyId))]
  {
  }

  /** In a consistent collection, a `deleteReply` whose password matches the thread's
      first reply empties the thread when the reply id is the load-time default, the
      id every reply carries; the other threads are untouched. */
  lemma DeleteLoadedReplyEmptiesThread(defaults: LoadDefaults, store: Store, threadId: Id, password: string)
    requires Consistent(defaults, store)
    requires DeleteReply(store, threadId, defaults.replyId, password).outcome == Resolved(true)
    ensures HasThread(store, threadId)
    ensures var i := Find(store, ById(threadId)).value;
            DeleteReply(store, threadId, defaults.replyId, password).store == store[i := store[i].(replies := [])]
  {
    var i := Find(store, ById(threadId)).value;
    var replies := store[i].replies;
    assert replies != [];
    assert replies[0].id == defaults.replyId;
    FindWithReplyUnique(store, i, defaults.replyId);
    PullEverything(replies, defaults.replyId);
    DeleteReplyFound(store, threadId, defaults.replyId, password, i);
  }

  /** A `deleteReply` by an id no reply in the collection carries removes nothing,
      whether or not the password check passes. This holds of any collection,
      including one written across several module loads. */
  lemma DeleteAbsentReplyKeepsStore(store: Store, threadId: Id, replyId: Id, password: string)
    requires forall j :: 0 <= j < |store| ==> !HasReply(store[j].replies, replyId)
    ensures DeleteReply(store, threadId, replyId, password).store == store
  {
    if DeleteReply(store, threadId, replyId, password).outcome == Resolved(true) {
      assert Find(store, ByIdWithReply(threadId, replyId)) == None;
      DeleteReplyMissing(store, threadId, replyId, password);
    }
  }

  /** Within one module load no reply carries any id but the load-time default, so a
      `deleteReply` by any other id resolves true on a matching password and removes
      nothing. */
  lemma DeleteOtherReplyKeepsStore(defaults: LoadDefaults, store: Store, threadId: Id, replyId: Id,
                                   password: string)
    requires Consistent(defaults, store) && replyId != defaults.replyId
    ensures DeleteReply(store, threadId, replyId, password).store == store
  {
    assert forall j :: 0 <= j < |store| ==> !HasReply(store[j].replies, replyId);
    DeleteAbsentReplyKeepsStore(store, threadId, replyId, password);
  }

  /** A lookup by id sees only ids, so it lands on the same position in both collections. */
  lemma FindOnSameVisible(a: Store, b: Store, id: Id)
    requires SameVisibleStore(a, b)
    ensures Find(a, ById(id)) == Find(b, ById(id))
  {
    assert forall k :: 0 <= k < |a| ==> (Matches(a[k], ById(id)) <==> Matches(b[k], ById(id)));
  }

  /** What `getReplies` shows depends only on the visible fields of the collection. */
  lemma GetRepliesSeesVisibleFields(a: Store, b: Store, id: Id)
    requires SameVisibleStore(a, b)
    ensures GetReplies(a, id) == GetReplies(b, id)
  {
    FindOnSameVisible(a, b, id);
    match Find(a, ById(id))
    case None =>
    case Some(i) =>
      ProjectionShowsExactlyVisibleFields(a[i], b[i]);
  }

  /** Reporting a thread or a reply flips only a hidden flag: `getReplies` shows the
      same thread, with the same replies, before and after. */
  lemma ReportingIsInvisible(store: Store, threadId: Id, replyId: Id, id: Id)
    ensures GetReplies(ReportThread(store, threadId).store, id) == GetReplies(store, id)
    ensures GetReplies(ReportReply(store, threadId, replyId).store, id) == GetReplies(store, id)
  {
    var flagged := ReportThread(store, threadId).store;
    assert SameVisibleStore(flagged, store) by {
      assert forall k :: 0 <= k < |store| ==> flagged[k] == store[k] || flagged[k] == store[k].(reported := true);
    }
    GetRepliesSeesVisibleFields(flagged, store, id);
    var marked := ReportReply(store, threadId, replyId).store;
    assert SameVisibleStore(marked, store) by {
      match Find(store, ById(threadId))
      case None =>
      case Some(i) =>
        var before, after := store[i], marked[i];
        assert forall k :: 0 <= k < |after.replies| ==> SameVisibleReply(after.replies[k], before.replies[k]);
        assert SameVisibleThread(after, before);
    }
    GetRepliesSeesVisibleFields(marked, store, id);
  }
}
