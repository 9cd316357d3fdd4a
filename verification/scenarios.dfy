/** The walk-through the test suites follow, played on the model: create a thread,
    reply to it, report the reply, and try to delete it with a wrong and a right
    password. */
module Scenarios {
  import opened Outcomes
  import opened JsValues
  import opened MongoHelper
  import opened ThreadSchema
  import opened ThreadStore
  import opened StoreProperties

  /** The thread `addThread('testBoard', 'Add unit test thread', 'azerty')` stores. */
  function TestThread(defaults: LoadDefaults): Thread {
    Thread(1, "testBoard", "Add unit test thread", HashPassword("azerty", 11),
           defaults.loadTime, defaults.loadTime, false, [])
  }

  /** The reply `addReply(…, 'Add reply to unit test thread', 'azerty')` pushes. */
  function TestReply(defaults: LoadDefaults): Reply {
    Reply(defaults.replyId, "Add reply to unit test thread", HashPassword("azerty", 12),
          defaults.loadTime, false)
  }

  lemma CreateTestThread(defaults: LoadDefaults)
    ensures AddThread(defaults, [], JsString("testBoard"), JsString("Add unit test thread"),
                      JsString("azerty"), 1, 11)
            == Step(Resolved(TestThread(defaults)), [TestThread(defaults)])
  {
    TestValuesFit();
    AddThreadFromStrings(defaults, [], "testBoard", "Add unit test thread", "azerty", 1, 11);
  }

  lemma ReplyToTestThread(defaults: LoadDefaults, now: Time)
    ensures var t := TestThread(defaults).(replies := [TestReply(defaults)], bumpedOn := now);
            AddReply(defaults, [TestThread(defaults)], 1, "Add reply to unit test thread", "azerty", 12, now)
            == Step(Resolved(Some(t)), [t])
  {
    assert IsTrimmed("Add reply to unit test thread");
    TrimmedIsFixed("Add reply to unit test thread");
    assert Find([TestThread(defaults)], ById(1)) == Some(0);
  }

  lemma ReportTestReply(defaults: LoadDefaults, now: Time)
    ensures var t := TestThread(defaults).(replies := [TestReply(defaults)], bumpedOn := now);
            var flagged := t.(replies := [TestReply(defaults).(reported := true)]);
            ReportReply([t], 1, defaults.replyId) == Step(Resolved(Some(flagged)), [flagged])
  {
    var t := TestThread(defaults).(replies := [TestReply(defaults)], bumpedOn := now);
    assert Find([t], ById(1)) == Some(0);
    assert MarkReported(t.replies, defaults.replyId) == [TestReply(defaults).(reported := true)];
  }

  lemma DeleteTestReply(defaults: LoadDefaults, now: Time)
    ensures var flagged := TestThread(defaults).(replies := [TestReply(defaults).(reported := true)],
                                                 bumpedOn := now);
            && DeleteReply([flagged], 1, defaults.replyId, "BadPassword") == Step(Resolved(false), [flagged])
            && DeleteReply([flagged], 1, defaults.replyId, "azerty")
               == Step(Resolved(true), [flagged.(replies := [])])
  {
    var flagged := TestThread(defaults).(replies := [TestReply(defaults).(reported := true)], bumpedOn := now);
    assert Find([flagged], ById(1)) == Some(0);
    assert Matches(flagged, ByIdWithReply(1, defaults.replyId)) by {
      assert flagged.replies[0].id == defaults.replyId;
    }
    assert Find([flagged], ByIdWithReply(1, defaults.replyId)) == Some(0);
    var pulled := Pull(flagged.replies, defaults.replyId);
    assert pulled == [];
  }

  /** From the collection `CreateTestThread` leaves: a wrong password does not
      delete the thread, its own password does, and a second delete rejects. */
  lemma ThreadLifecycle(defaults: LoadDefaults)
    ensures var created := [TestThread(defaults)];
            var refused := DeleteThread(created, 1, "BadPassword");
            var deleted := DeleteThread(created, 1, "azerty");
            && refused == Step(Resolved(false), created)
            && deleted == Step(Resolved(true), [])
            && GetThread(deleted.store, 1) == None
            && DeleteThread(deleted.store, 1, "azerty") == Step(Rejected(ErrorObject(DeleteThreadFailed)), [])
  {
    var t := TestThread(defaults);
    assert Find([t], ById(1)) == Some(0);
    assert DeleteThread([t], 1, "azerty").store == [];
  }
}
