/** models/Thread.js, the data part: the reply and thread schemas, the load-time
    defaults they capture, and the projections that shape threads for clients. */
module ThreadSchema {
  import opened JsValues
  import opened MongoHelper
  import opened Seqs

  /** An ObjectId, abstracted to a number. */
  type Id = nat

  /** A `Date`, as milliseconds since the epoch. */
  type Time = int

  /** A sub-document of a thread's `replies` array. */
  datatype Reply = Reply(
    id: Id,
    text: string,
    password: Digest,
    createdOn: Time,
    reported: bool)

  /** A document of the threads collection. */
  datatype Thread = Thread(
    id: Id,
    board: string,
    text: string,
    password: Digest,
    createdOn: Time,
    bumpedOn: Time,
    reported: bool,
    replies: seq<Reply>)

  /** The threads collection in natural order, the order an unsorted `find` returns. */
  type Store = seq<Thread>

  /** The values of the schemas' `default:` entries. They are expressions
      (`new ObjectId()`, `new Date()`), evaluated once when the module is loaded,
      so every reply receives the same `_id` and every document the same default
      date: the time the process loaded the model. */
  datatype LoadDefaults = LoadDefaults(replyId: Id, loadTime: Time)

  /** The `board` path's validators after its `trim` setter: required, two to thirty
      characters, matching `/^([A-z0-9-_]+)$/`. */
  predicate BoardFits(board: string) {
    2 <= |board| <= 30 && BoardMatch(board)
  }

  /** The `text` path's validators after its `trim` setter: required, one to five
      hundred characters. */
  predicate TextFits(text: string) {
    1 <= |text| <= 500
  }

  /** A reply as `filterRepliesFields` exposes it (the `getreplyKeys` fields). */
  datatype ReplyView = ReplyView(id: Id, text: string, createdOn: Time)

  /** A thread as `filterThreadFields` exposes it (the `getThreadKeys` fields). */
  datatype ThreadView = ThreadView(
    id: Id,
    text: string,
    createdOn: Time,
    bumpedOn: Time,
    replies: seq<ReplyView>)

  /** The fields of a reply a client may see: neither its password hash nor its flag. */
  predicate SameVisibleReply(a: Reply, b: Reply) {
    a.id == b.id && a.text == b.text && a.createdOn == b.createdOn
  }

  /** The fields of a thread a client may see: neither its password hash, its board,
      nor its flag, and of its replies only their visible fields. */
  predicate SameVisibleThread(a: Thread, b: Thread) {
    && a.id == b.id && a.text == b.text && a.createdOn == b.createdOn && a.bumpedOn == b.bumpedOn
    && |a.replies| == |b.replies|
    && forall k :: 0 <= k < |a.replies| ==> SameVisibleReply(a.replies[k], b.replies[k])
  }

  function FilterReplyFields(reply: Reply): ReplyView {
    ReplyView(reply.id, reply.text, reply.createdOn)
  }

  /** `filterRepliesFields`: each reply, in order, narrowed to its visible fields. */
  function FilterRepliesFields(replies: seq<Reply>): (r: seq<ReplyView>)
    ensures |r| == |replies|
    ensures forall k :: 0 <= k < |r| ==>
              r[k].id == replies[k].id && r[k].text == replies[k].text && r[k].createdOn == replies[k].createdOn
  {
    seq(|replies|, k requires 0 <= k < |replies| => FilterReplyFields(replies[k]))
  }

  /** `filterThreadFields`: the thread narrowed to its visible fields. */
  function FilterThreadFields(thread: Thread): (r: ThreadView)
    ensures && r.id == thread.id && r.text == thread.text
            && r.createdOn == thread.createdOn && r.bumpedOn == thread.bumpedOn
    ensures r.replies == FilterRepliesFields(thread.replies)
  {
    ThreadView(thread.id, thread.text, thread.createdOn, thread.bumpedOn,
               FilterRepliesFields(thread.replies))
  }

  /** `filterThreadsFields`: each thread, in order, narrowed to its visible fields. */
  function FilterThreadsFields(threads: seq<Thread>): (r: seq<ThreadView>)
    ensures |r| == |threads|
    ensures forall k :: 0 <= k < |r| ==> r[k] == FilterThreadFields(threads[k])
  {
    seq(|threads|, k requires 0 <= k < |threads| => FilterThreadFields(threads[k]))
  }

  /** Two collections that hold, position by position, threads a client cannot tell apart. */
  predicate SameVisibleStore(a: seq<Thread>, b: seq<Thread>) {
    |a| == |b| && forall k :: 0 <= k < |a| ==> SameVisibleThread(a[k], b[k])
  }

  /** Two reply lists project to the same list exactly when they agree, reply by
      reply, on the id, the text and the creation date. */
  lemma RepliesProjectionShowsExactlyVisibleFields(a: seq<Reply>, b: seq<Reply>)
    ensures FilterRepliesFields(a) == FilterRepliesFields(b)
            <==> |a| == |b| && forall k :: 0 <= k < |a| ==> SameVisibleReply(a[k], b[k])
  {
    var va, vb := FilterRepliesFields(a), FilterRepliesFields(b);
    if va == vb {
      forall k | 0 <= k < |a|
        ensures SameVisibleReply(a[k], b[k])
      {
        assert va[k] == vb[k];
      }
    }
    if |a| == |b| && forall k :: 0 <= k < |a| ==> SameVisibleReply(a[k], b[k]) {
      assert forall k :: 0 <= k < |va| ==> va[k] == vb[k];
    }
  }

  /** Two threads project to the same view exactly when they agree on their visible
      fields: the password hashes, the board and the report flags never reach a client,
      and everything else does. */
  lemma ProjectionShowsExactlyVisibleFields(a: Thread, b: Thread)
    ensures FilterThreadFields(a) == FilterThreadFields(b) <==> SameVisibleThread(a, b)
  {
    var va, vb := FilterThreadFields(a), FilterThreadFields(b);
    if va == vb {
      forall k | 0 <= k < |a.replies|
        ensures SameVisibleReply(a.replies[k], b.replies[k])
      {
        assert va.replies[k] == vb.replies[k];
      }
    }
    if SameVisibleThread(a, b) {
      assert va.replies == vb.replies;
    }
  }

  /** Two lists of threads project to the same listing exactly when they agree, thread
      by thread, on what a client may see. */
  lemma ThreadsProjectionShowsExactlyVisibleFields(a: seq<Thread>, b: seq<Thread>)
    ensures FilterThreadsFields(a) == FilterThreadsFields(b) <==> SameVisibleStore(a, b)
  {
    var va, vb := FilterThreadsFields(a), FilterThreadsFields(b);
    if va == vb {
      forall k | 0 <= k < |a|
        ensures SameVisibleThread(a[k], b[k])
      {
        assert va[k] == vb[k];
        ProjectionShowsExactlyVisibleFields(a[k], b[k]);
      }
    }
    if SameVisibleStore(a, b) {
      forall k | 0 <= k < |va|
        ensures va[k] == vb[k]
      {
        ProjectionShowsExactlyVisibleFields(a[k], b[k]);
      }
    }
  }

  /** The board validators accept exactly the names of two to thirty characters, each
      an ASCII letter or digit, `-`, `_`, or one of the six characters between `Z` and `a`. */
  lemma BoardFitsChars(board: string)
    ensures BoardFits(board)
            <==> 2 <= |board| <= 30 && forall k :: 0 <= k < |board| ==> BoardNameChar(board[k])
  {
    BoardMatchChars(board);
  }

  /** After the `trim` setter, the text validators accept exactly the texts that hold a
      character other than white space and are at most 500 characters long once trimmed. */
  lemma TextFitsAfterTrim(text: string)
    ensures TextFits(Trim(text))
            <==> (exists k :: 0 <= k < |text| && !IsJsSpace(text[k])) && |Trim(text)| <= 500
  {
  }

  /** Projecting the first `n` replies is taking the first `n` projected replies. */
  lemma FilterRepliesOfTake(replies: seq<Reply>, n: nat)
    ensures FilterRepliesFields(Take(replies, n)) == Take(FilterRepliesFields(replies), n)
  {
  }
}
