/**
 * What the reward handlers promise over sequences of requests: at most one credit per
 * (user, type, id) triple, fail-closed membership, every point backed by a task row,
 * and a read side that reflects each award.
 */
module PointsLedgerLaws {
  import opened Optional
  import opened Text
  import opened PointsLedger

  /** Each user's balance equals the number of task rows recorded for that user. */
  ghost predicate CreditsMatchRows(s: Store) {
    forall u :: Balance(s.points, u) == |UserTasks(s.tasks, u)|
  }

  /** Appending a row adds its `{type, id}` at the end of its own user's list and nowhere else. */
  lemma UserTasksAppendRow(tasks: seq<TaskRow>, row: TaskRow, u: string)
    ensures UserTasks(tasks + [row], u)
            == UserTasks(tasks, u) + (if row.userId == u then [CompletedTask(row.taskType, row.taskId)] else [])
  {
    assert (tasks + [row])[..|tasks|] == tasks;
  }

  /** The completed-task list follows row order: the rows of `a` are listed before those of `b`. */
  lemma {:induction false} UserTasksConcat(a: seq<TaskRow>, b: seq<TaskRow>, u: string)
    ensures UserTasks(a + b, u) == UserTasks(a, u) + UserTasks(b, u)
    decreases |b|
  {
    if |b| > 0 {
      var init := b[..|b| - 1];
      var last := b[|b| - 1];
      assert a + b == (a + init) + [last];
      assert b == init + [last];
      UserTasksAppendRow(a + init, last, u);
      UserTasksAppendRow(init, last, u);
      UserTasksConcat(a, init, u);
    } else {
      assert a + b == a;
    }
  }

  /** Recording a row and crediting its user together keep every balance backed by rows. */
  lemma RecordAndCreditKeepsMatch(s: Store, row: TaskRow)
    requires CreditsMatchRows(s)
    ensures CreditsMatchRows(Store(Credit(s.points, row.userId), s.tasks + [row]))
  {
    forall u ensures Balance(Credit(s.points, row.userId), u) == |UserTasks(s.tasks + [row], u)| {
      UserTasksAppendRow(s.tasks, row, u);
    }
  }

  /** A channel check never records a triple twice. */
  lemma ChannelStepKeepsTriplesUnique(s: Store, userId: Option<string>, channelId: string, isMember: bool, fault: ChannelFault)
    requires TriplesUnique(s.tasks)
    ensures TriplesUnique(ChannelStep(s, userId, channelId, isMember, fault).store.tasks)
  {
    if UserPresent(userId) && !HasTask(s.tasks, userId.value, ChannelTask, channelId) {
      AppendKeepsTriplesUnique(s.tasks, ChannelRow(userId.value, channelId));
    }
  }

  /** A story share never records a triple twice. */
  lemma StoryStepKeepsTriplesUnique(s: Store, userId: Option<string>, taskId: Option<string>, verify: bool,
                                    nowIso: string, fault: StoryFault)
    requires TriplesUnique(s.tasks)
    ensures TriplesUnique(StoryStep(s, userId, taskId, verify, nowIso, fault).store.tasks)
  {
    if UserPresent(userId) && !HasTask(s.tasks, userId.value, StoryTask, StoryTaskId(taskId, nowIso)) {
      AppendKeepsTriplesUnique(s.tasks, StoryRow(userId.value, StoryTaskId(taskId, nowIso)));
    }
  }

  /** Unless the balance upsert fails after the row insert, a channel check keeps every point backed by a row. */
  lemma ChannelStepKeepsCreditsMatched(s: Store, userId: Option<string>, channelId: string, isMember: bool, fault: ChannelFault)
    requires CreditsMatchRows(s)
    requires fault != ChannelUpsertFails
    ensures CreditsMatchRows(ChannelStep(s, userId, channelId, isMember, fault).store)
  {
    var o := ChannelStep(s, userId, channelId, isMember, fault);
    if o.store != s {
      RecordAndCreditKeepsMatch(s, ChannelRow(userId.value, channelId));
    }
  }

  /** With both writes in one transaction, a channel check keeps every point backed by a row whatever fails. */
  lemma AtomicChannelStepKeepsCreditsMatched(s: Store, userId: Option<string>, channelId: string, isMember: bool, fault: ChannelFault)
    requires CreditsMatchRows(s)
    ensures CreditsMatchRows(AtomicChannelStep(s, userId, channelId, isMember, fault).store)
  {
    var o := ChannelStep(s, userId, channelId, isMember, fault);
    if !o.reply.ChannelFailed? && o.store != s {
      RecordAndCreditKeepsMatch(s, ChannelRow(userId.value, channelId));
    }
  }

  /** A story share keeps every point backed by a row, whatever fails: its writes commit or roll back together. */
  lemma StoryStepKeepsCreditsMatched(s: Store, userId: Option<string>, taskId: Option<string>, verify: bool,
                                     nowIso: string, fault: StoryFault)
    requires CreditsMatchRows(s)
    ensures CreditsMatchRows(StoryStep(s, userId, taskId, verify, nowIso, fault).store)
  {
    var o := StoryStep(s, userId, taskId, verify, nowIso, fault);
    if o.reply == StoryAwarded {
      RecordAndCreditKeepsMatch(s, StoryRow(userId.value, StoryTaskId(taskId, nowIso)));
    }
  }

  /**
   * The channel handler's two writes are not atomic: when the balance upsert fails after
   * the row insert, the completion is recorded without its point, and every later request
   * for it is answered `alreadyRewarded` with the balance still 0.
   */
  lemma ChannelPartialWriteLosesPoint()
    ensures
      var o1 := ChannelStep(Store(map[], []), Some("42"), "chan1", true, ChannelUpsertFails);
      var o2 := ChannelStep(o1.store, Some("42"), "chan1", true, ChannelNoFault);
      && o1.reply == ChannelFailed
      && !CreditsMatchRows(o1.store)
      && o2.reply == AlreadyRewarded
      && Balance(o2.store.points, "42") == 0
  {
    var o1 := ChannelStep(Store(map[], []), Some("42"), "chan1", true, ChannelUpsertFails);
    assert o1.store.tasks == [ChannelRow("42", "chan1")];
    assert SameTask(o1.store.tasks[0], "42", ChannelTask, "chan1");
    UserTasksAppendRow([], ChannelRow("42", "chan1"), "42");
    assert |UserTasks(o1.store.tasks, "42")| == 1;
  }

  /** A recorded triple stays recorded through a channel check, with or without a transaction: it only appends rows. */
  lemma RecordedTaskStaysRecorded(s: Store, u: string, taskType: string, taskId: string,
                                  userId: Option<string>, channelId: string, isMember: bool, fault: ChannelFault)
    requires HasTask(s.tasks, u, taskType, taskId)
    ensures HasTask(ChannelStep(s, userId, channelId, isMember, fault).store.tasks, u, taskType, taskId)
    ensures HasTask(AtomicChannelStep(s, userId, channelId, isMember, fault).store.tasks, u, taskType, taskId)
  {
    var t := ChannelStep(s, userId, channelId, isMember, fault).store.tasks;
    var i :| 0 <= i < |s.tasks| && SameTask(s.tasks[i], u, taskType, taskId);
    assert t[i] == s.tasks[i];
  }

  /** A recorded triple stays recorded through a story share: it only appends rows. */
  lemma StoryKeepsRecordedTask(s: Store, u: string, taskType: string, taskId: string,
                               userId: Option<string>, storyId: Option<string>, verify: bool, nowIso: string, fault: StoryFault)
    requires HasTask(s.tasks, u, taskType, taskId)
    ensures HasTask(StoryStep(s, userId, storyId, verify, nowIso, fault).store.tasks, u, taskType, taskId)
  {
    var t := StoryStep(s, userId, storyId, verify, nowIso, fault).store.tasks;
    var i :| 0 <= i < |s.tasks| && SameTask(s.tasks[i], u, taskType, taskId);
    assert t[i] == s.tasks[i];
  }

  /**
   * Two channel checks in a row for the same user and channel credit at most one point;
   * after an award the second call is answered `alreadyRewarded` without consulting the
   * oracle and without writing.
   */
  lemma ChannelRepeatCreditsOnce(s: Store, u: string, channelId: string, member1: bool, member2: bool)
    requires u != ""
    ensures
      var o1 := ChannelStep(s, Some(u), channelId, member1, ChannelNoFault);
      var o2 := ChannelStep(o1.store, Some(u), channelId, member2, ChannelNoFault);
      && Balance(o2.store.points, u) <= Balance(s.points, u) + TaskReward
      && (o1.reply.ChannelAwarded? || o1.reply == AlreadyRewarded ==>
            o2.reply == AlreadyRewarded && o2.store == o1.store && !o2.askedOracle)
  {
    var o1 := ChannelStep(s, Some(u), channelId, member1, ChannelNoFault);
    if o1.reply.ChannelAwarded? {
      var last := |o1.store.tasks| - 1;
      assert SameTask(o1.store.tasks[last], u, ChannelTask, channelId);
    }
  }

  /**
   * Story intent, then verify, then verify again with the same task id: one point in
   * total; the first call writes nothing and the third is answered `alreadyCompleted`.
   */
  lemma StoryIntentVerifyVerify(s: Store, u: string, taskId: string, nowIso: string)
    requires u != "" && taskId != ""
    requires !HasTask(s.tasks, u, StoryTask, taskId)
    ensures
      var o1 := StoryStep(s, Some(u), Some(taskId), false, nowIso, StoryNoFault);
      var o2 := StoryStep(o1.store, Some(u), Some(taskId), true, nowIso, StoryNoFault);
      var o3 := StoryStep(o2.store, Some(u), Some(taskId), true, nowIso, StoryNoFault);
      && o1.reply == IntentRecorded && o1.store == s
      && o2.reply == StoryAwarded
      && o3.reply == AlreadyCompleted && o3.store == o2.store
      && Balance(o3.store.points, u) == Balance(s.points, u) + TaskReward
  {
    var o2 := StoryStep(s, Some(u), Some(taskId), true, nowIso, StoryNoFault);
    var last := |o2.store.tasks| - 1;
    assert SameTask(o2.store.tasks[last], u, StoryTask, taskId);
  }

  /**
   * After a channel award the points query shows the balance one higher and the channel
   * entry added to the list: at the end in the model's row order, and as one more element
   * of the multiset whatever order the read returns.
   */
  lemma QueryAfterChannelAward(s: Store, u: string, channelId: string)
    requires u != ""
    requires !HasTask(s.tasks, u, ChannelTask, channelId)
    ensures
      var o := ChannelStep(s, Some(u), channelId, true, ChannelNoFault);
      && o.reply == ChannelAwarded(TaskReward)
      && PointsQuery(o.store, Some(u), false)
         == UserPoints(ParseNumber(u), Balance(s.points, u) + TaskReward,
                       UserTasks(s.tasks, u) + [CompletedTask(ChannelTask, channelId)])
      && multiset(PointsQuery(o.store, Some(u), false).completedTasks)
         == multiset(UserTasks(s.tasks, u)) + multiset{CompletedTask(ChannelTask, channelId)}
  {
    UserTasksAppendRow(s.tasks, ChannelRow(u, channelId), u);
  }

  /** A user with no balance row and no task rows reads as 0 points and no completed tasks. */
  lemma QueryForNewUser(s: Store, u: string)
    requires u != ""
    requires u !in s.points
    requires forall i | 0 <= i < |s.tasks| :: s.tasks[i].userId != u
    ensures PointsQuery(s, Some(u), false) == UserPoints(ParseNumber(u), 0, [])
  {
    var listed := UserTasks(s.tasks, u);
    if listed != [] {
      UserTasksListsHasTask(s.tasks, u, listed[0]);
    }
  }

  /** The default story task id of an ISO 8601 timestamp is its calendar date, the text before 'T'. */
  lemma DefaultTaskIdIsDate(date: string, rest: string)
    requires 'T' !in date
    ensures DefaultTaskId(date + "T" + rest) == date
  {
    var s := date + "T" + rest;
    SplitHead(s, 'T');
    var b := Before(s, 'T');
    assert s[|date|] == 'T';
    assert b == s[..|date|];
    assert s[..|date|] == date;
  }
}
