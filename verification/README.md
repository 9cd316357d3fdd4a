# Message board thread store, modelled in Dafny

This project models the data layer of a message board: the `Threads` Mongoose model
(`models/Thread.js`) and its helper class `MongoHelper` (`utils/mongoHelper.js`).
Threads live on named boards and carry replies. Each thread and each reply has a
bcrypt-hashed delete password and a `reported` flag. The model covers the static
methods of the model:
- listing a board;
- reading one thread, its replies, or one reply;
- adding, reporting and deleting threads and replies;
- the two password checks;
- the projections that hide passwords and flags from clients.

It also covers the validators of `MongoHelper` and the schema's `trim`, length and
pattern constraints.

The collection is a `seq<Thread>` in natural order, the order an unsorted `find`
returns. Every write is a pure function from a collection to a `Step`: the
promise's outcome (`Resolved` or `Rejected`, with the rejection reason) and the
collection afterwards. Values the program draws from its environment are
parameters:
- the new thread's ObjectId;
- bcrypt's salt;
- the clock reading for `bumped_on`;
- the values of the schema's `default:` expressions (`LoadDefaults`).

The last are evaluated once, when the module is loaded. So within one run of the
server every reply receives the same `_id`, and every default date is the load
time. The collection itself outlives a run; what changes across restarts is listed
under "Left out".

Modules, one per file:
- `Outcomes` (`outcomes.dfy`): `Option`, and the settled state of a promise.
- `JsValues` (`js_values.dfy`): JavaScript argument values, the `utils/utils.js`
  predicates the model relies on, `String.prototype.trim`, and Mongoose's string cast.
- `ObjectIds` (`object_id.dfy`): hex encoding and `new ObjectId(string)`.
- `MongoHelper` (`mongo_helper.dfy`): `boardMatch`, the validators, and
  `hashPassword`/`comparePassword` as an abstract pair.
- `Seqs` (`seqs.dfy`): filter, take and count on sequences.
- `ThreadSchema` (`thread_schema.dfy`): documents, schema constraints, and the field
  projections `filterRepliesFields`, `filterThreadFields`, `filterThreadsFields`.
- `ThreadStore` (`thread_store.dfy`): the static methods of the model, plus
  `ScanBoard`, a loop that computes the board listing as the cursor would.
- `StoreInvariants` (`store_invariants.dfy`): what every collection reachable from an
  empty one satisfies, preserved by every write.
- `StoreProperties` (`store_properties.dfy`): how reads and writes relate.
- `Scenarios` (`scenarios.dfy`): the walk-through of the unit tests on concrete values.

## Where the code differs from what the program says of itself

The model follows the code. The program's own test titles, assertion messages and
field names promise something else in these places:
- The functional test at tests/2_functional-tests.js:55 is titled "Viewing the 10
  most recent threads with 3 replies each". `getThreads` applies no sort, so threads
  come in natural order, not by `bumped_on` descending.
- The assertion message at tests/2_functional-tests.js:62 speaks of the "3 most
  recent replies". `.slice('replies', n)` with a positive `n` keeps the first `n`
  replies, the oldest ones.
- `addThread` rejects a non-string or empty argument, but has no `return` after
  that `reject`. The hashing and `create` chain still runs. With an empty password
  and a valid board and text, the promise rejects and the thread is still written.
- The fields `created_on` and `bumped_on` (models/Thread.js:35-37 and 88-95) name
  the moment of each write, and the reply `_id` (line 12) a fresh id per reply. Their
  `default:` expressions are evaluated once, at module load, so every thread gets
  the load time and every reply the same id, until the server restarts.
- For an unknown thread, `isThreadPassWord` reaches `err.message` with no `err` in
  scope. The thrown `ReferenceError` becomes the rejection
  `{error: "Unable to get reply"}`. `deleteThread` then rejects with
  `{error: "Unable to delete thread!"}` rather than resolving `false`.
- `getReply` and `reportReply` hand an object filter to `findById` and
  `findByIdAndUpdate`. Mongoose casts that object to its `_id`, so the reply id does
  not select the thread. `getReply` returns the thread narrowed to its first reply,
  whichever reply that is. `reportReply` flags every reply carrying the id.
- `deleteReply` resolves `true` whenever the password matches the first reply's
  hash. The result of `updateOne` is always an object.

## Model

| member | source | states |
|---|---|---|
| ThreadSchema.FilterRepliesFields | models/Thread.js:116-128 | each reply, in order and none dropped, becomes a view with its `_id`, `text` and `created_on` |
| ThreadSchema.RepliesProjectionShowsExactlyVisibleFields | models/Thread.js:116-128 | two reply lists project to the same list iff they have the same length and agree, reply by reply, on id, text and creation date; password and flag never show |
| ThreadSchema.FilterThreadFields | models/Thread.js:129-140 | the view keeps the thread's id, text, `created_on` and `bumped_on`, and its replies projected by `filterRepliesFields` |
| ThreadSchema.ThreadsProjectionShowsExactlyVisibleFields | models/Thread.js:141-149 | two collections project to the same list iff they have the same length and, thread by thread, agree on every visible field; board, password and flags never show |
| ThreadSchema.BoardFitsChars | models/Thread.js:47-66 | a board satisfies the schema iff it has 2 to 30 characters, each a letter, a digit or one of the pattern's other characters |
| ThreadSchema.TextFitsAfterTrim | models/Thread.js:67-82 | a text passes the setter and the schema iff it has a character that is not white space and its trimmed form has at most 500 characters |
| ThreadSchema.ProjectionShowsExactlyVisibleFields | models/Thread.js:106-140 | two threads project to the same view iff they agree on id, text, both dates and their replies' id, text and date; password, board and flags never show |
| ThreadSchema.FilterRepliesOfTake | models/Thread.js:116-128 | projecting the first `n` replies equals taking the first `n` projected replies |
| ThreadStore.GetThreads | models/Thread.js:157-178 | rejects iff the board is not a non-empty string or a limit (default 10 and 3) is not positive, with the message of the first failed check; in particular a valid board and limit with a non-positive reply limit is rejected with the reply-limit error. Otherwise it yields `min(limit, number on the board)` threads of the board in natural order, the board name being trimmed by the path's setter before the query compares it, each cut to its first `limitReplies` replies and projected |
| ThreadStore.ScanBoard | models/Thread.js:168-173 | walking the collection and stopping after `limit` threads of the board yields exactly what `getThreads` resolves with |
| ThreadStore.GetThread | models/Thread.js:179-189 | finds a thread iff one carries the id; the one found carries it and is in the collection |
| ThreadStore.Find | models/Thread.js:181 | a lookup returns the first document matching the filter, and none iff no document matches |
| ThreadStore.AddThread | models/Thread.js:190-214 | rejects with the bare "only strings" message iff an argument is not a non-empty string. When the guard passes, it resolves iff the trimmed board fits 2 to 30 characters of the board pattern, the trimmed text fits 1 to 500, and the id is free. A resolved thread is appended with the trimmed fields, no replies, not reported, both dates at load time, and a hash that accepts exactly its password. When the guard rejects, the collection is exactly what `create` would have produced: the created thread appended when board, text and id are acceptable, unchanged otherwise. Any other rejection writes nothing, and the collection grows by at most this thread |
| ThreadStore.CreatedThread | models/Thread.js:197-203 | `create` accepts iff the password is a string, board and text cast to strings whose trimmed forms fit the schema, and the id is free; the document holds the trimmed fields, the load-time dates, no replies, no flag, and a hash accepting exactly the password |
| ThreadStore.ReportThread | models/Thread.js:215-229 | resolves null iff no thread has the id; otherwise the first thread with the id, and only it, has its flag set, and the thread returned is that one as it is now stored |
| ThreadStore.IsThreadPassword | models/Thread.js:230-256 | rejects with "Unable to get reply" iff no thread has the id; otherwise `isMatch` iff the candidate matches the thread's hash, with the thread on a match and null otherwise |
| ThreadStore.DeleteThread | models/Thread.js:257-284 | rejects with "Unable to delete thread!" iff no thread has the id; resolves true iff the password matches, and then exactly that thread is removed; otherwise nothing changes |
| ThreadStore.GetReplies | models/Thread.js:285-300 | null iff no thread has the id; otherwise the first such thread's id, text, `created_on`, `bumped_on` and all its replies projected |
| ThreadStore.GetReply | models/Thread.js:301-321 | a thread comes back iff the id is found and the thread has a reply; it is that thread narrowed to its first reply |
| ThreadStore.AddReply | models/Thread.js:322-347 | null iff no thread has the id, and then nothing changes. Otherwise only that thread changes: its other fields are kept, `bumped_on` becomes the clock reading, and one reply is appended after the old ones. The new reply has the load-time id and date, the trimmed text, is not reported, and its hash accepts exactly its password |
| ThreadStore.ReportReply | models/Thread.js:356-375 | null iff no thread has the id; otherwise only that thread's replies carrying the reply id get their flag set, nothing else changes, and the thread is returned narrowed to its first reply |
| ThreadStore.IsValidReplyPassword | models/Thread.js:376-403 | `isMatch` iff the thread exists, has a reply, and the candidate matches its first reply's hash; the thread is returned, narrowed to that reply, only on a match |
| ThreadStore.DeleteReply | models/Thread.js:410-446 | resolves true iff the reply password check matches; then the first thread with the id that holds the reply loses every reply with that id, and nothing else changes; on false nothing changes |
| ThreadStore.Pull | models/Thread.js:418 | `$pull` keeps, in order, exactly the replies whose id differs, and removes as many as carry the id |
| ThreadStore.MarkReported | models/Thread.js:361-365 | each reply is flagged afterwards iff it was flagged before or carries the id, and no other field of any reply changes |
| ThreadStore.SliceReplies | models/Thread.js:170 | the thread keeps every field but its replies, of which it keeps the first `min(n, count)` in order |
| ThreadStore.OnBoard | models/Thread.js:168 | the threads of a board, an in-order selection of the collection holding all of them and nothing else |
| JsValues.Trim | models/Thread.js:67-82 | the `trim` setter's result is no longer than the input, has no leading or trailing white space, and is empty iff the input was all white space |
| JsValues.TrimIsCut | models/Thread.js:67-82 | that result is a contiguous slice of the input, and everything cut away before and after it is white space |
| JsValues.TrimIdempotent | models/Thread.js:67-82 | trimming twice is trimming once |
| JsValues.TrimmedIsFixed | models/Thread.js:47-66 | a string without surrounding white space is left as it is |
| JsValues.CastString | models/Thread.js:199-203 | a string is stored as itself; `true` and `false` as their names; a number as its decimal digits, minus sign first when negative; an object with a string `_id` or its own `toString` as that string; `null`, `undefined`, arrays and other objects cannot be stored in a `String` path |
| MongoHelper.BoardMatchChars | utils/mongoHelper.js:6 | `/^([A-z0-9-_]+)$/` accepts exactly the non-empty strings of ASCII letters, digits, `-`, `_` and the six characters between `Z` and `a` |
| MongoHelper.IsValidBoard | utils/mongoHelper.js:21-23 | true iff the value is a non-empty string of those characters |
| MongoHelper.IsValidText | utils/mongoHelper.js:25-27 | true iff the value is a non-empty string |
| MongoHelper.IsValidPassword | utils/mongoHelper.js:29-31 | true iff the value is a non-empty string |
| MongoHelper.IsValidObjectId | utils/mongoHelper.js:7-19 | true iff the value is a string of exactly 24 lowercase hex digits |
| MongoHelper.ValidObjectIdRoundTrip | utils/mongoHelper.js:9-12 | for a valid id, building an ObjectId and printing it gives back the string, and decoding the print gives back the bytes |
| ObjectIds.FromHexOfToHex | utils/mongoHelper.js:10 | decoding the hex print of any bytes gives back the bytes |
| ObjectIds.ToHexOfFromHex | utils/mongoHelper.js:10 | printing decoded hex gives back the input in lower case |
| MongoHelper.HashPassword | utils/mongoHelper.js:38-47 | the hash accepts the password it was made from and no other candidate |
| MongoHelper.ComparePassword | utils/mongoHelper.js:49-59 | a candidate matches a hash iff the hash was made from that candidate, under some salt |
| MongoHelper.HashAcceptsSameCandidates | utils/mongoHelper.js:38-59 | two hashes of one password accept the same candidates whatever the salts |
| StoreInvariants.AddThreadKeepsConsistent | models/Thread.js:190-214 | `addThread` keeps ids unique, every document well formed, and every reported thread reported |
| StoreInvariants.ReportThreadKeepsConsistent | models/Thread.js:215-229 | so does `reportThread` |
| StoreInvariants.DeleteThreadKeepsConsistent | models/Thread.js:257-284 | so does `deleteThread` |
| StoreInvariants.AddReplyKeepsConsistent | models/Thread.js:322-347 | so does `addReply`, given a clock no earlier than the load time |
| StoreInvariants.ReportReplyKeepsConsistent | models/Thread.js:356-375 | so does `reportReply` |
| StoreInvariants.DeleteReplyKeepsConsistent | models/Thread.js:410-446 | so does `deleteReply` |
| StoreInvariants.ApplyKeepsConsistent | models/Thread.js:9-103 | any single write keeps the schema's constraints, unique ids and report flags |
| StoreInvariants.RunKeepsConsistent | models/Thread.js:9-103 | any sequence of writes from a consistent collection ends in a consistent one |
| StoreInvariants.ReachableIsConsistent | models/Thread.js:9-103 | every collection reachable from an empty one within one run of the server: unique ids, trimmed and valid board and text, `created_on` at load time and no later than `bumped_on`, every reply with the shared load-time id and date and a trimmed text |
| StoreProperties.AddThreadThenGetThread | models/Thread.js:179-256 | after `addThread` resolves, `getThread` returns the new thread, and its password check matches exactly the password given |
| StoreProperties.AddThreadFromStrings | models/Thread.js:190-214 | non-empty strings whose trimmed board and text fit the schema, with a free id, make `addThread` resolve with the trimmed thread and append exactly it |
| StoreProperties.RejectedAddThreadStillWrites | models/Thread.js:190-214 | with an empty password and a valid board and text, the promise rejects with the "only strings" message yet the thread is appended |
| StoreProperties.RejectedAddThreadExample | models/Thread.js:190-214 | `addThread('testBoard', 'Add unit test thread', '')` rejects and leaves one thread in an empty collection |
| StoreProperties.CastableBoardStillWrites | models/Thread.js:190-214 | a board object that the string cast turns into a fitting name, such as `{_id: 'general'}`, is refused by the guard with the "only strings" message, yet the thread is appended under the trimmed cast name |
| StoreProperties.AddThreadRefusesObjects | tests/thread-unit-tests.js:97-135 | a board, text or password that is an array or an object the string cast cannot convert, such as the tests' `{$gt: 'hello'}`, is refused with the "only strings" message and nothing is written |
| StoreProperties.ReportThreadIdempotent | models/Thread.js:215-229 | reporting a thread twice gives the same result and collection as once |
| StoreProperties.DeleteThreadThenGetThread | tests/thread-unit-tests.js:258-282 | after a delete resolves true, `getThread` finds nothing and the collection is one shorter |
| StoreProperties.AddThreadThenDeleteThread | models/Thread.js:190-284 | deleting a just-added thread succeeds iff the candidate is its password, restoring the earlier collection; otherwise nothing changes |
| StoreProperties.AddReplyThenGetReply | models/Thread.js:301-347 | after `addReply`, `getReply` returns the thread narrowed to its first reply: the new reply when the thread had none, the old first reply otherwise |
| StoreProperties.AddReplyThenCheckPassword | models/Thread.js:376-403 | after `addReply`, the reply password check accepts exactly the new password when the thread had no replies, and otherwise exactly what the oldest reply's hash accepts, whatever reply id is given |
| StoreProperties.GetThreadsTrimsBoard | models/Thread.js:168 | a board name with white space around it lists exactly what the trimmed name lists |
| StoreProperties.ReportReplyAllOrNothing | models/Thread.js:356-375 | within one run, since every reply shares the load-time id, `reportReply` flags all replies of the thread or none |
| StoreProperties.DeleteLoadedReplyEmptiesThread | models/Thread.js:410-446 | within one run, deleting by the shared reply id, once the check passes, empties the thread's replies and changes nothing else |
| StoreProperties.DeleteAbsentReplyKeepsStore | models/Thread.js:410-446 | in any collection, including one written across restarts, deleting by a reply id no reply carries leaves the collection unchanged, whatever the password |
| StoreProperties.DeleteOtherReplyKeepsStore | models/Thread.js:410-446 | within one run, deleting by any reply id other than the load-time one leaves the collection unchanged |
| StoreProperties.ReportingIsInvisible | models/Thread.js:129-140 | reporting a thread or a reply leaves what `getReplies` shows for every id unchanged |
| Scenarios.CreateTestThread | tests/thread-unit-tests.js:137-150 | `addThread('testBoard', 'Add unit test thread', 'azerty')` on an empty collection resolves with the stored thread, which has no replies |
| Scenarios.ReplyToTestThread | tests/thread-unit-tests.js:285-299 | replying 'Add reply to unit test thread' with password 'azerty' to it gives a thread with that one reply and a new `bumped_on` |
| Scenarios.ReportTestReply | tests/thread-unit-tests.js:349-366 | reporting that reply flags it and returns the thread narrowed to it |
| Scenarios.DeleteTestReply | tests/thread-unit-tests.js:405-431 | deleting it with 'BadPassword resolves false and keeps it; with 'azerty' resolves true and removes it |
| Scenarios.ThreadLifecycle | tests/thread-unit-tests.js:245-282 | from the collection `CreateTestThread` leaves, deleting the thread with 'BadPassword' resolves false; with 'azerty' resolves true, after which `getThread` is null and a second delete rejects |

## Left out

- utils/utils.js is not part of this model. Its `isStrNotEmpty` is taken to mean "a string primitive with at least one character". Its `isPositiveNumber` is taken to mean "a number greater than zero". `isObject` and `isArray` hold of every document and reply list the store returns.
- ReachableIsConsistent: covers the collections written during one run of the server. MongoDB keeps the collection across restarts, and each load draws a new default reply `_id` and new default dates (models/Thread.js:12, 37, 90, 94). A collection written across restarts can hold replies with different ids and threads with different creation dates; restarts are not modelled.
- DeleteOtherReplyKeepsStore: holds within one run only. After a restart, a `deleteReply` by the id of an earlier run removes the replies that carry it. `DeleteAbsentReplyKeepsStore` states the restart-independent fact.
- ReportReplyAllOrNothing: within one run only; after a restart only the replies carrying the given id are flagged, as `MarkReported` states.
- DeleteLoadedReplyEmptiesThread: within one run only; after a restart only the replies carrying the given id are pulled, as `Pull` states.
- JsValues.CastString: an object that the cast turns into a string carries that string (`JsCastable`); how a `Date` or an `ObjectId` prints is not modelled. Numbers are the safe integers, so fractional numbers, `NaN`, the infinities and integers beyond 2^53 - 1 are not modelled. Within that range `String(n)` prints plain decimal digits; from 10^21 up JavaScript switches to exponent form, which lies outside the modelled range.
- ThreadStore.GetThreads: limits are safe integers as well, so a fractional or non-finite limit is not modelled.
- ThreadStore.ScanBoard: takes limits that are safe integers, the values a JavaScript number carries exactly.
- ThreadStore.AddReply: text and password are strings. The bcrypt rejection of a non-string password and the casting of a non-string text are left out, because only strings reach it.
- The same applies to the other methods: thread ids, reply ids, candidates and texts are well-typed values. Mongoose's `CastError` on a malformed id is not modelled.
- ThreadSchema.FilterThreadFields: ids stay numbers and dates stay millisecond counts. `toString()` of an ObjectId and `toISOString()` of a date are left out.
- MongoHelper.HashPassword: bcrypt is abstract. A hash accepts exactly its password. bcrypt's 72-byte truncation, its cost factor (`hashSaltRounds`) and its failure modes are left out.
- `getIsoDate` (utils/mongoHelper.js:33-36) reads the clock and formats it. It is not used by the modelled methods.
- The generation of ObjectIds and salts, and the clock, are parameters.
- StoreInvariants.AddReplyKeepsConsistent: assumes the clock reads no earlier than the load time.
- Backend failures (`StorageError` rejections from the driver) are not modelled. Every query succeeds.
- Concurrency: each call is atomic on the collection. The window between a password check and the delete that follows is not modelled.
- Mongoose validators do not run on updates, so reply texts pushed by `addReply` are not checked against the reply schema's length bounds. The model follows this and states no length bound for replies.
- String lengths count Dafny characters, not UTF-16 code units. A board or text outside the Basic Multilingual Plane is measured differently.
- `getThreadKeys` and `getreplyKeys` (models/Thread.js:106-115) list field names. They are folded into the view datatypes.
- The routes, the server, the middleware and the request validation schema are outside the data layer.
