/** What holds of every collection the thread store can reach from an empty one,
    and how the operations relate to each other. */
module StoreInvariants {
  import opened Outcomes
  import opened JsValues
  import opened MongoHelper
  import opened ThreadSchema
  import opened ThreadStore

  /** No two threads share an id (the `_id` index is unique). */
  predicate UniqueIds(store: Store) {
    forall i, j :: 0 <= i < |store| && 0 <= j < |store| && store[i].id == store[j].id ==> i == j
  }

  /** Every reply carries the load-time `_id` and `created_on` defaults and a trimmed text. */
  predicate WellFormedReply(defaults: LoadDefaults, reply: Reply) {
    reply.id == defaults.replyId && reply.createdOn == defaults.loadTime && IsTrimmed(reply.text)
  }

  /** A thread as `create` and the updates leave it: created at load time, bumped no
      earlier, board and text trimmed and within the schema's constraints. */
  predicate WellFormedThread(defaults: LoadDefaults, thread: Thread) {
    && thread.createdOn == defaults.loadTime <= thread.bumpedOn
    && BoardFits(thread.board) && IsTrimmed(thread.board)
    && TextFits(thread.text) && IsTrimmed(thread.text)
    && forall k :: 0 <= k < |thread.replies| ==> WellFormedReply(defaults, thread.replies[k])
  }

  predicate Consistent(defaults: LoadDefaults, store: Store) {
    && UniqueIds(store)
    && forall i :: 0 <= i < |store| ==> WellFormedThread(defaults, store[i])
  }

  /** The report flag is one-way: a thread reported before is still reported after. */
  predicate StaysReported(before: Store, after: Store) {
    forall i, j :: 0 <= i < |before| && 0 <= j < |after| && before[i].id == after[j].id && before[i].reported
      ==> after[j].reported
  }

  /** With unique ids, the thread `getThread` finds is the one at the position of that id. */
  lemma FindUnique(store: Store, i: nat)
    requires UniqueIds(store) && i < |store|
    ensures Find(store, ById(store[i].id)) == Some(i)
    ensures GetThread(store, store[i].id) == Some(store[i])
  {
  }

  /** A document `create` accepts is well formed and carries a fresh id. */
  lemma CreatedThreadWellFormed(defaults: LoadDefaults, store: Store, board: JsValue,
                                text: JsValue, password: JsValue, newId: Id, salt: nat)
    requires CreatedThread(defaults, store, board, text, password, newId, salt).Some?
    ensures var t := CreatedThread(defaults, store, board, text, password, newId, salt).value;
            WellFormedThread(defaults, t) && t.id == newId && !HasThread(store, newId) && !t.reported
  {
  }

  /** Appending a well-formed thread with a fresh id keeps the collection consistent. */
  lemma AppendFresh(defaults: LoadDefaults, store: Store, t: Thread)
    requires Consistent(defaults, store) && WellFormedThread(defaults, t) && !HasThread(store, t.id)
    ensures Consistent(defaults, store + [t]) && StaysReported(store, store + [t])
  {
    assert forall i :: 0 <= i < |store| ==> store[i].id != t.id;
  }

  lemma AddThreadKeepsConsistent(defaults: LoadDefaults, store: Store, board: JsValue,
                                 text: JsValue, password: JsValue, newId: Id, salt: nat)
    requires Consistent(defaults, store)
    ensures var r := AddThread(defaults, store, board, text, password, newId, salt);
            Consistent(defaults, r.store) && StaysReported(store, r.store)
  {
    var created := CreatedThread(defaults, store, board, text, password, newId, salt);
    var r := AddThread(defaults, store, board, text, password, newId, salt);
    assert r.store == if created.Some? then store + [created.value] else store;
    if created.Some? {
      CreatedThreadWellFormed(defaults, store, board, text, password, newId, salt);
      AppendFresh(defaults, store, created.value);
    }
  }

  /** Replacing a thread by a well-formed one with the same id, no less reported,
      keeps the collection consistent. */
  lemma ReplaceKeeps(defaults: LoadDefaults, store: Store, i: nat, t: Thread)
    requires Consistent(defaults, store) && i < |store|
    requires t.id == store[i].id && WellFormedThread(defaults, t) && (store[i].reported ==> t.reported)
    ensures Consistent(defaults, store[i := t]) && StaysReported(store, store[i := t])
  {
  }

  /** Removing a thread keeps the collection consistent. */
  lemma RemoveKeeps(defaults: LoadDefaults, store: Store, i: nat)
    requires Consistent(defaults, store) && i < |store|
    ensures Consistent(defaults, store[..i] + store[i + 1..])
    ensures StaysReported(store, store[..i] + store[i + 1..])
  {
    var s := store[..i] + store[i + 1..];
    assert forall j :: 0 <= j < |s| ==> s[j] == store[if j < i then j else j + 1];
  }

  lemma ReportThreadKeepsConsistent(defaults: LoadDefaults, store: Store, id: Id)
    requires Consistent(defaults, store)
    ensures var r := ReportThread(store, id);
            Consistent(defaults, r.store) && StaysReported(store, r.store)
  {
    match Find(store, ById(id))
    case None =>
    case Some(i) => ReplaceKeeps(defaults, store, i, store[i].(reported := true));
  }

  lemma DeleteThreadKeepsConsistent(defaults: LoadDefaults, store: Store, id: Id, password: string)
    requires Consistent(defaults, store)
    ensures var r := DeleteThread(store, id, password);
            Consistent(defaults, r.store) && StaysReported(store, r.store)
  {
    var r := DeleteThread(store, id, password);
    if r.outcome == Resolved(true) {
      var i :| 0 <= i < |store| && store[i].id == id && r.store == store[..i] + store[i + 1..];
      RemoveKeeps(defaults, store, i);
    }
  }

  /** Pushing a well-formed reply and bumping no earlier than load time keeps a thread well formed. */
  lemma PushKeepsWellFormed(defaults: LoadDefaults, before: Thread, reply: Reply, now: Time)
    requires WellFormedThread(defaults, before) && WellFormedReply(defaults, reply)
    requires defaults.loadTime <= now
    ensures WellFormedThread(defaults, before.(replies := before.replies + [reply], bumpedOn := now))
  {
    var after := before.(replies := before.replies + [reply], bumpedOn := now);
    assert forall k :: 0 <= k < |after.replies| ==>
      after.replies[k] == if k < |before.replies| then before.replies[k] else reply;
  }

  lemma AddReplyKeepsConsistent(defaults: LoadDefaults, store: Store, threadId: Id, text: string,
                                password: string, salt: nat, now: Time)
    requires Consistent(defaults, store) && defaults.loadTime <= now
    ensures var r := AddReply(defaults, store, threadId, text, password, salt, now);
            Consistent(defaults, r.store) && StaysReported(store, r.store)
  {
    var reply := Reply(defaults.replyId, Trim(text), HashPassword(password, salt), defaults.loadTime, false);
    assert WellFormedReply(defaults, reply);
    match Find(store, ById(threadId))
    case None =>
    case Some(i) =>
      var after := store[i].(replies := store[i].replies + [reply], bumpedOn := now);
      PushKeepsWellFormed(defaults, store[i], reply, now);
      ReplaceKeeps(defaults, store, i, after);
      assert AddReply(defaults, store, threadId, text, password, salt, now).store == store[i := after];
  }

  lemma ReportReplyKeepsConsistent(defaults: LoadDefaults, store: Store, threadId: Id, replyId: Id)
    requires Consistent(defaults, store)
    ensures var r := ReportReply(store, threadId, replyId);
            Consistent(defaults, r.store) && StaysReported(store, r.store)
  {
    match Find(store, ById(threadId))
    case None =>
    case Some(i) =>
      ReplaceKeeps(defaults, store, i, store[i].(replies := MarkReported(store[i].replies, replyId)));
  }

  lemma DeleteReplyKeepsConsistent(defaults: LoadDefaults, store: Store, threadId: Id, replyId: Id,
                                   password: string)
    requires Consistent(defaults, store)
    ensures var r := DeleteReply(store, threadId, replyId, password);
            Consistent(defaults, r.store) && StaysReported(store, r.store)
  {
    var r := DeleteReply(store, threadId, replyId, password);
    if r.outcome.value {
      match Find(store, ByIdWithReply(threadId, replyId))
      case None =>
      case Some(i) =>
        var pulled := Pull(store[i].replies, replyId);
        ReplaceKeeps(defaults, store, i, store[i].(replies := pulled));
    }
  }

  /** A call of one of the methods that write to the collection. */
  datatype Command =
    | AddThreadCall(board: JsValue, text: JsValue, threadPassword: JsValue, newId: Id, threadSalt: nat)
    | ReportThreadCall(id: Id)
    | DeleteThreadCall(deleteId: Id, threadCandidate: string)
    | AddReplyCall(threadId: Id, replyText: string, replyPassword: string, replySalt: nat, now: Time)
    | ReportReplyCall(reportThreadId: Id, reportReplyId: Id)
    | DeleteReplyCall(deleteThreadId: Id, deleteReplyId: Id, replyCandidate: string)

  function Apply(defaults: LoadDefaults, store: Store, c: Command): Store {
    match c
    case AddThreadCall(b, t, p, id, salt) => AddThread(defaults, store, b, t, p, id, salt).store
    case ReportThreadCall(id) => ReportThread(store, id).store
    case DeleteThreadCall(id, p) => DeleteThread(store, id, p).store
    case AddReplyCall(id, t, p, salt, now) => AddReply(defaults, store, id, t, p, salt, now).store
    case ReportReplyCall(id, rid) => ReportReply(store, id, rid).store
    case DeleteReplyCall(id, rid, p) => DeleteReply(store, id, rid, p).store
  }

  /** The clock reads no earlier than the time the model was loaded. */
  predicate ClockAfterLoad(defaults: LoadDefaults, c: Command) {
    c.AddReplyCall? ==> defaults.loadTime <= c.now
  }

  /** Every write keeps the collection consistent and never clears a report flag. */
  lemma ApplyKeepsConsistent(defaults: LoadDefaults, store: Store, c: Command)
    requires Consistent(defaults, store) && ClockAfterLoad(defaults, c)
    ensures Consistent(defaults, Apply(defaults, store, c))
    ensures StaysReported(store, Apply(defaults, store, c))
  {
    match c
    case AddThreadCall(b, t, p, id, salt) => AddThreadKeepsConsistent(defaults, store, b, t, p, id, salt);
    case ReportThreadCall(id) => ReportThreadKeepsConsistent(defaults, store, id);
    case DeleteThreadCall(id, p) => DeleteThreadKeepsConsistent(defaults, store, id, p);
    case AddReplyCall(id, t, p, salt, now) => AddReplyKeepsConsistent(defaults, store, id, t, p, salt, now);
    case ReportReplyCall(id, rid) => ReportReplyKeepsConsistent(defaults, store, id, rid);
    case DeleteReplyCall(id, rid, p) => DeleteReplyKeepsConsistent(defaults, store, id, rid, p);
  }

  function Run(defaults: LoadDefaults, store: Store, calls: seq<Command>): Store
    decreases |calls|
  {
    if |calls| == 0 then store else Run(defaults, Apply(defaults, store, calls[0]), calls[1..])
  }

  /** Every collection reachable from the empty one by writes satisfies the invariant. */
  lemma {:induction false} RunKeepsConsistent(defaults: LoadDefaults, store: Store, calls: seq<Command>)
    requires Consistent(defaults, store)
    requires forall k :: 0 <= k < |calls| ==> ClockAfterLoad(defaults, calls[k])
    ensures Consistent(defaults, Run(defaults, store, calls))
    decreases |calls|
  {
    if |calls| > 0 {
      ApplyKeepsConsistent(defaults, store, calls[0]);
      RunKeepsConsistent(defaults, Apply(defaults, store, calls[0]), calls[1..]);
    }
  }

  lemma ReachableIsConsistent(defaults: LoadDefaults, calls: seq<Command>)
    requires forall k :: 0 <= k < |calls| ==> ClockAfterLoad(defaults, calls[k])
    ensures Consistent(defaults, Run(defaults, [], calls))
  {
    RunKeepsConsistent(defaults, [], calls);
  }
}
