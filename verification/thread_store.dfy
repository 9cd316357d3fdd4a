/** models/Thread.js, the static methods: every query and update of the threads
    collection as a pure function from a store to an outcome and a new store. */
module ThreadStore {
  import opened Outcomes
  import opened JsValues
  import opened MongoHelper
  import opened Seqs
  import opened ThreadSchema

  /** What a mutating method yields: its settled promise and the collection after it. */
  datatype Step<+T> = Step(outcome: Settled<T>, store: Store)

  /** The result of a password check: `{isMatch, thread}`. */
  datatype PasswordCheck = PasswordCheck(isMatch: bool, thread: Option<Thread>)

  /** A filter on the threads collection: `{_id}` or `{_id, 'replies._id'}`. */
  datatype Query = ById(id: Id) | ByIdWithReply(id: Id, replyId: Id)

  const StringsOnly := "Unable to add thread to board, only strings are accepted for properties (board, text and password)"
  const AddThreadFailed := "Unable to add thread to board"
  const InvalidBoardName := "Invalid Thread Board name"
  const InvalidThreadLimit := "Invalid Thread limit"
  const InvalidRepliesLimit := "Invalid Replies limit"
  const GetReplyFailed := "Unable to get reply"
  const DeleteThreadFailed := "Unable to delete thread!"

  predicate HasReply(replies: seq<Reply>, replyId: Id) {
    exists k :: 0 <= k < |replies| && replies[k].id == replyId
  }

  predicate Matches(thread: Thread, q: Query) {
    thread.id == q.id && (q.ByIdWithReply? ==> HasReply(thread.replies, q.replyId))
  }

  predicate HasThread(store: Store, id: Id) {
    exists i :: 0 <= i < |store| && store[i].id == id
  }

  /** The position of the document a `findOne`-style call acts on: the first, in
      natural order, that matches the filter. */
  function Find(store: Store, q: Query): (r: Option<nat>)
    ensures r.Some? ==> r.value < |store| && Matches(store[r.value], q)
    ensures r.Some? ==> forall j :: 0 <= j < r.value ==> !Matches(store[j], q)
    ensures r.None? <==> forall j :: 0 <= j < |store| ==> !Matches(store[j], q)
  {
    if |store| == 0 then None
    else if Matches(store[0], q) then Some(0)
    else
      match Find(store[1..], q)
      case None =>
        assert forall j :: 1 <= j < |store| ==> store[j] == store[1..][j - 1];
        None
      case Some(i) =>
        assert forall j :: 1 <= j < i + 1 ==> store[j] == store[1..][j - 1];
        Some(i + 1)
  }

  /** The filter `{board}`. */
  function BoardIs(board: string): Thread -> bool {
    (t: Thread) => t.board == board
  }

  /** The threads of one board, in natural order (`find({board})`). */
  function OnBoard(store: Store, board: string): (r: seq<Thread>)
    ensures forall k :: 0 <= k < |r| ==> r[k].board == board && r[k] in store
    ensures forall t :: t in store && t.board == board ==> t in r
    ensures Subsequence(r, store)
  {
    Filter(store, BoardIs(board))
  }

  /** Threads as `getThreads` lists them: each cut to its first `m` replies, then projected. */
  function BoardListing(threads: seq<Thread>, m: nat): seq<ThreadView> {
    FilterThreadsFields(seq(|threads|, k requires 0 <= k < |threads| => SliceReplies(threads[k], m)))
  }

  /** The replies left after `$pull: {replies: {_id: replyId}}`. */
  function Pull(replies: seq<Reply>, replyId: Id): (r: seq<Reply>)
    ensures forall k :: 0 <= k < |r| ==> r[k].id != replyId && r[k] in replies
    ensures forall x :: x in replies && x.id != replyId ==> x in r
    ensures |r| == |replies| - Count(replies, (x: Reply) => x.id == replyId)
    ensures Subsequence(r, replies)
  {
    PullCount(replies, replyId);
    Filter(replies, (x: Reply) => x.id != replyId)
  }

  lemma {:induction false} PullCount(replies: seq<Reply>, replyId: Id)
    ensures Count(replies, (x: Reply) => x.id != replyId)
            == |replies| - Count(replies, (x: Reply) => x.id == replyId)
  {
    if |replies| > 0 {
      PullCount(replies[1..], replyId);
    }
  }

  /** The replies after `$set: {'replies.$[elem].reported': true}` with the array
      filter `{'elem._id': replyId}`: every reply with that id is flagged. */
  function MarkReported(replies: seq<Reply>, replyId: Id): (r: seq<Reply>)
    ensures |r| == |replies|
    ensures forall k :: 0 <= k < |r| ==>
              && r[k].reported == (replies[k].reported || replies[k].id == replyId)
              && r[k].(reported := replies[k].reported) == replies[k]
  {
    seq(|replies|, k requires 0 <= k < |replies| =>
      if replies[k].id == replyId then replies[k].(reported := true) else replies[k])
  }

  /** The projection `.slice('replies', n)` for a positive `n`: the first `n` replies. */
  function SliceReplies(thread: Thread, n: nat): (r: Thread)
    ensures r == thread.(replies := r.replies)
    ensures |r.replies| == Min(n, |thread.replies|)
    ensures forall k :: 0 <= k < |r.replies| ==> r.replies[k] == thread.replies[k]
  {
    thread.(replies := Take(thread.replies, n))
  }

  /** `getThread`: the first thread with that id, or null. */
  function GetThread(store: Store, id: Id): (r: Option<Thread>)
    ensures r.Some? <==> HasThread(store, id)
    ensures r.Some? ==> r.value.id == id && r.value in store
  {
    match Find(store, ById(id))
    case None => None
    case Some(i) => Some(store[i])
  }

  /** `getThreads(board, limit = 10, limitReplies = 3)`. The three checks reject in
      this order; since `reject` is not followed by `return`, the query still runs
      afterwards, but a promise settles once and the query writes nothing. The
      threads come in natural order: no sort is applied. Mongoose runs the `board`
      path's setters on the filter value, so the query looks for the trimmed board. */
  function GetThreads(store: Store, board: JsValue, limit: JsValue, limitReplies: JsValue)
    : (r: Settled<seq<ThreadView>>)
    ensures r.Rejected? <==> || !IsStrNotEmpty(board)
                             || !IsPositiveNumber(WithDefault(limit, 10))
                             || !IsPositiveNumber(WithDefault(limitReplies, 3))
    ensures !IsStrNotEmpty(board) ==> r == Rejected(ErrorObject(InvalidBoardName))
    ensures IsStrNotEmpty(board) && !IsPositiveNumber(WithDefault(limit, 10))
            ==> r == Rejected(ErrorObject(InvalidThreadLimit))
    ensures IsStrNotEmpty(board) && IsPositiveNumber(WithDefault(limit, 10))
            && !IsPositiveNumber(WithDefault(limitReplies, 3))
            ==> r == Rejected(ErrorObject(InvalidRepliesLimit))
    ensures r.Resolved? ==>
              var n, m := WithDefault(limit, 10).n, WithDefault(limitReplies, 3).n;
              var listed := OnBoard(store, Trim(board.s));
              && |r.value| == Min(n, |listed|)
              && forall k :: 0 <= k < |r.value| ==>
                   && r.value[k] == FilterThreadFields(SliceReplies(listed[k], m))
                   && |r.value[k].replies| <= m
  {
    var n, m := WithDefault(limit, 10), WithDefault(limitReplies, 3);
    if !IsStrNotEmpty(board) then Rejected(ErrorObject(InvalidBoardName))
    else if !IsPositiveNumber(n) then Rejected(ErrorObject(InvalidThreadLimit))
    else if !IsPositiveNumber(m) then Rejected(ErrorObject(InvalidRepliesLimit))
    else
      var listed := OnBoard(store, Trim(board.s));
      ListingShape(listed, n.n, m.n);
      Resolved(BoardListing(Take(listed, n.n), m.n))
  }

  /** The listing of the first `n` threads holds one view per listed thread, each
      cut to at most `m` replies. */
  lemma ListingShape(threads: seq<Thread>, n: nat, m: nat)
    ensures var r := BoardListing(Take(threads, n), m);
            && |r| == Min(n, |threads|)
            && forall k :: 0 <= k < |r| ==>
                 && r[k] == FilterThreadFields(SliceReplies(threads[k], m))
                 && |r[k].replies| <= m
  {
  }

  lemma BoardListingSnoc(threads: seq<Thread>, t: Thread, m: nat)
    ensures BoardListing(threads + [t], m) == BoardListing(threads, m) + [FilterThreadFields(SliceReplies(t, m))]
  {
    var a, b := BoardListing(threads + [t], m), BoardListing(threads, m) + [FilterThreadFields(SliceReplies(t, m))];
    assert |a| == |b|;
    forall k | 0 <= k < |a|
      ensures a[k] == b[k]
    {
      if k < |threads| {
        assert (threads + [t])[k] == threads[k];
      }
    }
  }

  lemma OnBoardStep(store: Store, i: nat, board: string)
    requires i < |store|
    ensures OnBoard(store[..i + 1], board)
            == OnBoard(store[..i], board) + (if store[i].board == board then [store[i]] else [])
  {
    assert store[..i + 1] == store[..i] + [store[i]];
    FilterSnoc(store[..i], store[i], BoardIs(board));
  }

  /** Once the scan has kept `n` threads, or reached the end, it has kept the first `n`. */
  lemma ScanComplete(store: Store, i: nat, board: string, n: nat)
    requires i <= |store| && |OnBoard(store[..i], board)| <= n
    requires i == |store| || |OnBoard(store[..i], board)| == n
    ensures Take(OnBoard(store, board), n) == OnBoard(store[..i], board)
  {
    assert store == store[..i] + store[i..];
    FilterAppend(store[..i], store[i..], BoardIs(board));
    if i == |store| {
      assert store[i..] == [];
      assert store[..i] == store;
    }
  }

  /** A listing of the first `n` threads of a board is what `getThreads` resolves with. */
  lemma ListingIsGetThreads(store: Store, board: string, n: nat, m: nat, views: seq<ThreadView>)
    requires board != [] && 0 < n <= MaxSafeInteger && 0 < m <= MaxSafeInteger
    requires views == BoardListing(Take(OnBoard(store, Trim(board)), n), m)
    ensures GetThreads(store, JsString(board), JsNumber(n), JsNumber(m)) == Resolved(views)
  {
  }

  /** The cursor behind `find({board}).limit(n).slice('replies', m)`: walk the
      collection in natural order, keep the threads of the trimmed board with their
      first `m` replies, and stop once `n` are kept. It yields exactly what
      `getThreads` resolves with. */
  method ScanBoard(store: Store, board: string, n: nat, m: nat) returns (views: seq<ThreadView>)
    requires board != [] && 0 < n <= MaxSafeInteger && 0 < m <= MaxSafeInteger
    ensures GetThreads(store, JsString(board), JsNumber(n), JsNumber(m)) == Resolved(views)
  {
    var key := Trim(board);
    views := [];
    var i := 0;
    while i < |store| && |views| < n
      invariant 0 <= i <= |store|
      invariant |OnBoard(store[..i], key)| <= n
      invariant views == BoardListing(OnBoard(store[..i], key), m)
    {
      OnBoardStep(store, i, key);
      if store[i].board == key {
        BoardListingSnoc(OnBoard(store[..i], key), store[i], m);
        views := views + [FilterThreadFields(SliceReplies(store[i], m))];
      }
      i := i + 1;
    }
    ScanComplete(store, i, key, n);
    ListingIsGetThreads(store, board, n, m, views);
  }

  /** The document `create` would insert, if its casts and validators pass: the
      password must be a string for bcrypt, board and text are cast to strings,
      trimmed and validated, and the id must not be taken (the `_id` index is unique).
      The dates are the load-time defaults; the password is stored hashed. */
  function CreatedThread(defaults: LoadDefaults, store: Store, board: JsValue, text: JsValue,
                         password: JsValue, newId: Id, salt: nat): (r: Option<Thread>)
    ensures r.Some? <==>
              && password.JsString? && CastString(board).Some? && CastString(text).Some?
              && BoardFits(Trim(CastString(board).value)) && TextFits(Trim(CastString(text).value))
              && !HasThread(store, newId)
    ensures r.Some? ==>
              var t := r.value;
              && t.id == newId && t.board == Trim(CastString(board).value)
              && t.text == Trim(CastString(text).value)
              && t.createdOn == t.bumpedOn == defaults.loadTime && !t.reported && t.replies == []
              && forall c :: ComparePassword(c, t.password) <==> c == password.s
  {
    if !password.JsString? then None
    else
      match (CastString(board), CastString(text))
      case (Some(b), Some(t)) =>
        if BoardFits(Trim(b)) && TextFits(Trim(t)) && !HasThread(store, newId) then
          Some(Thread(newId, Trim(b), Trim(t), HashPassword(password.s, salt),
                      defaults.loadTime, defaults.loadTime, false, []))
        else None
      case _ => None
  }

  /** `addThread(board, text, password)`. `newId` is the ObjectId Mongoose draws for
      the new document and `salt` the salt bcrypt draws. The guard rejects with a bare
      string, but no `return` follows it: the hash-and-create chain still runs, and
      writes the thread whenever `create` would accept it. */
  function AddThread(defaults: LoadDefaults, store: Store, board: JsValue, text: JsValue,
                     password: JsValue, newId: Id, salt: nat): (r: Step<Thread>)
    ensures r.outcome == Rejected(Bare(StringsOnly))
            <==> !IsStrNotEmpty(board) || !IsStrNotEmpty(text) || !IsStrNotEmpty(password)
    ensures IsStrNotEmpty(board) && IsStrNotEmpty(text) && IsStrNotEmpty(password) ==>
              (r.outcome.Resolved?
               <==> BoardFits(Trim(board.s)) && TextFits(Trim(text.s)) && !HasThread(store, newId))
    ensures r.outcome.Rejected? && r.outcome.reason != Bare(StringsOnly) ==> r.store == store
    ensures r.outcome == Rejected(Bare(StringsOnly)) ==>
              var created := CreatedThread(defaults, store, board, text, password, newId, salt);
              r.store == if created.Some? then store + [created.value] else store
    ensures r.outcome.Resolved? ==>
              var t := r.outcome.value;
              && r.store == store + [t]
              && t.id == newId && t.board == Trim(board.s) && t.text == Trim(text.s)
              && !t.reported && t.replies == []
              && t.createdOn == t.bumpedOn == defaults.loadTime
              && ComparePassword(password.s, t.password)
              && forall c :: ComparePassword(c, t.password) ==> c == password.s
    ensures r.store == store || (|r.store| == |store| + 1 && r.store[..|store|] == store)
  {
    var created := CreatedThread(defaults, store, board, text, password, newId, salt);
    var written := if created.Some? then store + [created.value] else store;
    if !IsStrNotEmpty(board) || !IsStrNotEmpty(text) || !IsStrNotEmpty(password) then
      Step(Rejected(Bare(StringsOnly)), written)
    else if created.None? then
      Step(Rejected(ErrorObject(AddThreadFailed)), store)
    else
      Step(Resolved(created.value), written)
  }

  /** `reportThread(threadId)`: `findByIdAndUpdate` with `{reported: true}`. */
  function ReportThread(store: Store, id: Id): (r: Step<Option<Thread>>)
    ensures r.outcome.Resolved? && |r.store| == |store|
    ensures r.outcome.value.None? <==> !HasThread(store, id)
    ensures r.outcome.value.None? ==> r.store == store
    ensures r.outcome.value.Some? ==>
              var t := r.outcome.value.value;
              t.id == id && t.reported && t in r.store
    ensures r.outcome.value.Some? ==>
              r.outcome.value.value == r.store[Find(store, ById(id)).value]
    ensures forall j :: 0 <= j < |store| && r.store[j] != store[j] ==>
              Find(store, ById(id)) == Some(j) && r.store[j] == store[j].(reported := true)
  {
    match Find(store, ById(id))
    case None => Step(Resolved(None), store)
    case Some(i) =>
      var t := store[i].(reported := true);
      assert store[i := t][i] == t;
      Step(Resolved(Some(t)), store[i := t])
  }

  /** `isThreadPassWord(threadId, password)`. When no thread has that id, the `else`
      branch reads `err.message` of an undeclared `err`; the ReferenceError lands in
      the outer `catch`, so the promise rejects. */
  function IsThreadPassword(store: Store, id: Id, candidate: string): (r: Settled<PasswordCheck>)
    ensures r.Rejected? <==> !HasThread(store, id)
    ensures r.Rejected? ==> r == Rejected(ErrorObject(GetReplyFailed))
    ensures r.Resolved? ==>
              && (r.value.isMatch <==> ComparePassword(candidate, GetThread(store, id).value.password))
              && r.value.thread == if r.value.isMatch then GetThread(store, id) else None
  {
    match GetThread(store, id)
    case None => Rejected(ErrorObject(GetReplyFailed))
    case Some(t) =>
      if ComparePassword(candidate, t.password) then Resolved(PasswordCheck(true, Some(t)))
      else Resolved(PasswordCheck(false, None))
  }

  /** `deleteThread(threadId, password)`: the password check, then `deleteOne({_id})`,
      which removes the first thread with that id. */
  function DeleteThread(store: Store, id: Id, password: string): (r: Step<bool>)
    ensures !HasThread(store, id) ==> r == Step(Rejected(ErrorObject(DeleteThreadFailed)), store)
    ensures HasThread(store, id) ==> r.outcome.Resolved?
    ensures r.outcome == Resolved(true)
            <==> HasThread(store, id) && ComparePassword(password, GetThread(store, id).value.password)
    ensures r.outcome != Resolved(true) ==> r.store == store
    ensures r.outcome == Resolved(true) ==>
              exists i :: 0 <= i < |store| && store[i].id == id && r.store == store[..i] + store[i + 1..]
  {
    match IsThreadPassword(store, id, password)
    case Rejected(_) => Step(Rejected(ErrorObject(DeleteThreadFailed)), store)
    case Resolved(check) =>
      if check.isMatch then
        match Find(store, ById(id))
        case Some(i) => Step(Resolved(true), store[..i] + store[i + 1..])
        case None => Step(Resolved(false), store)
      else Step(Resolved(false), store)
  }

  /** `getReplies(threadId)`: the thread with all its replies, projected. */
  function GetReplies(store: Store, id: Id): (r: Option<ThreadView>)
    ensures r.Some? <==> HasThread(store, id)
    ensures r.Some? ==>
              var t := GetThread(store, id).value;
              && r.value.id == id && r.value.text == t.text
              && r.value.createdOn == t.createdOn && r.value.bumpedOn == t.bumpedOn
              && r.value.replies == FilterRepliesFields(t.replies)
  {
    match GetThread(store, id)
    case None => None
    case Some(t) => Some(FilterThreadFields(t))
  }

  /** `getReply(threadId, replyId)`. The filter object handed to `findById` is cast
      to the ObjectId of its `_id`, so the reply id plays no part in the lookup; the
      `.slice('replies', 1)` projection keeps the first stored reply. */
  function GetReply(store: Store, threadId: Id, replyId: Id): (r: Option<Thread>)
    ensures r.Some? <==> HasThread(store, threadId) && GetThread(store, threadId).value.replies != []
    ensures r.Some? ==>
              var t := GetThread(store, threadId).value;
              r.value == t.(replies := [t.replies[0]])
  {
    match Find(store, ById(threadId))
    case None => None
    case Some(i) =>
      var t := SliceReplies(store[i], 1);
      if |t.replies| == 1 then Some(t) else None
  }

  /** `addReply(threadId, text, password)`: hash the password, then one
      `findByIdAndUpdate` that pushes the reply and sets `bumped_on` to `now`. The
      pushed reply takes the schema defaults (`_id`, `created_on`, `reported`) and its
      text goes through the `trim` setter; nothing validates it. */
  function AddReply(defaults: LoadDefaults, store: Store, threadId: Id, text: string,
                    password: string, salt: nat, now: Time): (r: Step<Option<Thread>>)
    ensures r.outcome.Resolved? && |r.store| == |store|
    ensures r.outcome.value.None? <==> !HasThread(store, threadId)
    ensures r.outcome.value.None? ==> r.store == store
    ensures r.outcome.value.Some? ==>
              var i := Find(store, ById(threadId)).value;
              var before, after := store[i], r.outcome.value.value;
              && r.store == store[i := after]
              && after.id == before.id && after.board == before.board && after.text == before.text
              && after.password == before.password && after.createdOn == before.createdOn
              && after.reported == before.reported
              && after.bumpedOn == now
              && |after.replies| == |before.replies| + 1
              && after.replies[..|before.replies|] == before.replies
              && var added := after.replies[|before.replies|];
                 && added.id == defaults.replyId && added.text == Trim(text)
                 && added.createdOn == defaults.loadTime && !added.reported
                 && ComparePassword(password, added.password)
                 && forall c :: ComparePassword(c, added.password) ==> c == password
  {
    var reply := Reply(defaults.replyId, Trim(text), HashPassword(password, salt), defaults.loadTime, false);
    match Find(store, ById(threadId))
    case None => Step(Resolved(None), store)
    case Some(i) =>
      var t := store[i].(replies := store[i].replies + [reply], bumpedOn := now);
      assert t.replies[..|store[i].replies|] == store[i].replies;
      Step(Resolved(Some(t)), store[i := t])
  }

  /** `reportReply(threadId, replyId)`: the thread is found by its id alone (the
      filter object is cast to its `_id`), every reply carrying `replyId` is flagged,
      and the updated thread comes back narrowed to its first reply. */
  function ReportReply(store: Store, threadId: Id, replyId: Id): (r: Step<Option<Thread>>)
    ensures r.outcome.Resolved? && |r.store| == |store|
    ensures r.outcome.value.None? <==> !HasThread(store, threadId)
    ensures r.outcome.value.None? ==> r.store == store
    ensures r.outcome.value.Some? ==>
              var i := Find(store, ById(threadId)).value;
              var before, after := store[i], r.store[i];
              && (forall j :: 0 <= j < |store| && j != i ==> r.store[j] == store[j])
              && after == before.(replies := after.replies)
              && |after.replies| == |before.replies|
              && (forall k :: 0 <= k < |after.replies| ==>
                    && after.replies[k].reported == (before.replies[k].reported || before.replies[k].id == replyId)
                    && after.replies[k].(reported := before.replies[k].reported) == before.replies[k])
              && r.outcome.value.value == after.(replies := Take(after.replies, 1))
  {
    match Find(store, ById(threadId))
    case None => Step(Resolved(None), store)
    case Some(i) =>
      var t := store[i].(replies := MarkReported(store[i].replies, replyId));
      Step(Resolved(Some(SliceReplies(t, 1))), store[i := t])
  }

  /** `isValidReplyPassWord(threadId, replyId, password)`: the candidate is compared
      with the hash of the first reply `getReply` returns. */
  function IsValidReplyPassword(store: Store, threadId: Id, replyId: Id, candidate: string)
    : (r: PasswordCheck)
    ensures r.isMatch <==> && HasThread(store, threadId)
                           && GetThread(store, threadId).value.replies != []
                           && ComparePassword(candidate, GetThread(store, threadId).value.replies[0].password)
    ensures r.thread == if r.isMatch then GetReply(store, threadId, replyId) else None
  {
    match GetReply(store, threadId, replyId)
    case None => PasswordCheck(false, None)
    case Some(t) =>
      if ComparePassword(candidate, t.replies[0].password) then PasswordCheck(true, Some(t))
      else PasswordCheck(false, None)
  }

  /** `deleteReply(threadId, replyId, password)`: the password check, then an
      `updateOne` with the filter `{_id, 'replies._id'}` that pulls every reply with
      that id. Its result is an object whatever it matched, so a passed check
      always resolves true. */
  function DeleteReply(store: Store, threadId: Id, replyId: Id, password: string): (r: Step<bool>)
    ensures r.outcome.Resolved? && |r.store| == |store|
    ensures r.outcome.value <==> IsValidReplyPassword(store, threadId, replyId, password).isMatch
    ensures !r.outcome.value ==> r.store == store
    ensures r.outcome.value ==>
              forall j :: 0 <= j < |store| ==>
                r.store[j] == if Find(store, ByIdWithReply(threadId, replyId)) == Some(j)
                              then store[j].(replies := Pull(store[j].replies, replyId))
                              else store[j]
  {
    var check := IsValidReplyPassword(store, threadId, replyId, password);
    if check.isMatch then
      match Find(store, ByIdWithReply(threadId, replyId))
      case None => Step(Resolved(true), store)
      case Some(i) => Step(Resolved(true), store[i := store[i].(replies := Pull(store[i].replies, replyId))])
    else Step(Resolved(false), store)
  }
}
