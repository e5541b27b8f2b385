/**
 * The points ledger behind the reward routes. The store holds two tables:
 * `user_points`, at most one balance row per user (the user id is a unique key), and
 * `user_tasks`, one row per recorded task completion (indexed, but with no uniqueness
 * constraint). Three handlers use it: the channel-join check and the two-phase story
 * share write both tables; the points query only reads them.
 *
 * The store's failures, the membership oracle's verdict and the current time are
 * parameters of the handlers.
 */
module PointsLedger {
  import opened Optional
  import opened Text

  const ChannelTask := "channel"
  const StoryTask := "story"

  /** The points the channel and story handlers credit for one task. */
  const TaskReward: nat := 1

  /** A `user_tasks` row; the story handler leaves `points_awarded` unset. */
  datatype TaskRow = TaskRow(userId: string, taskType: string, taskId: string, pointsAwarded: Option<nat>)

  /** The two tables: balances keyed by user id, completions in insertion order. */
  datatype Store = Store(points: map<string, nat>, tasks: seq<TaskRow>)

  /** A user id field passes the handlers' `!userId` test: present and not empty. */
  predicate UserPresent(userId: Option<string>) {
    userId.Some? && userId.value != ""
  }

  /** The balance the store reports for `u`: its row's value, or 0 without a row. */
  function Balance(points: map<string, nat>, u: string): nat {
    if u in points then points[u] else 0
  }

  predicate SameTask(row: TaskRow, u: string, taskType: string, taskId: string) {
    row.userId == u && row.taskType == taskType && row.taskId == taskId
  }

  /** `SELECT ... FROM user_tasks WHERE user_id = ? AND task_type = ? AND task_id = ?` finds a row. */
  predicate HasTask(tasks: seq<TaskRow>, u: string, taskType: string, taskId: string) {
    exists i | 0 <= i < |tasks| :: SameTask(tasks[i], u, taskType, taskId)
  }

  /** No two rows record the same (user, type, id) triple. */
  ghost predicate TriplesUnique(tasks: seq<TaskRow>) {
    forall i, j | 0 <= i < j < |tasks| :: !SameTask(tasks[j], tasks[i].userId, tasks[i].taskType, tasks[i].taskId)
  }

  /**
   * The balance upsert `INSERT INTO user_points ... VALUES (?, 1) ON DUPLICATE KEY
   * UPDATE points = points + 1`: a new row at 1, or the existing row one higher.
   */
  function Credit(points: map<string, nat>, u: string): (r: map<string, nat>)
    ensures r.Keys == points.Keys + {u}
    ensures Balance(r, u) == Balance(points, u) + TaskReward
    ensures forall w | w != u :: Balance(r, w) == Balance(points, w)
  {
    if u in points then points[u := points[u] + 1] else points[u := 1]
  }

  // ---------------------------------------------------------------------------
  // Channel membership (checkChannelMembership)

  /** The `getChatMember` statuses that count as membership. */
  const MemberStatuses := ["member", "administrator", "creator"]

  /** What the messaging platform answers: the HTTP call may throw, or return `ok` and a status. */
  datatype ChatMemberReply = Unreachable | ChatMember(ok: bool, status: string)

  /** The chat id sent to the platform: `channelId` whether or not it starts with '@'. */
  function ChatId(channelId: string): (chatId: string)
    ensures chatId == channelId
  {
    if StartsWith(channelId, "@") then channelId else channelId
  }

  /**
   * `checkChannelMembership`: without a bot token the answer is false; in development
   * mode it is true; otherwise it asks the platform about (chat id, user id) and is true
   * only for an `ok` answer whose status is a member status. A thrown call is false.
   */
  function CheckChannelMembership(botToken: string, developmentMode: bool,
                                  getChatMember: (string, string) -> ChatMemberReply,
                                  userId: string, channelId: string): (member: bool)
    ensures botToken == "" ==> !member
    ensures botToken != "" && developmentMode ==> member
    ensures !developmentMode ==>
      (member <==> botToken != "" && getChatMember(channelId, userId).ChatMember?
                   && getChatMember(channelId, userId).ok
                   && getChatMember(channelId, userId).status in MemberStatuses)
  {
    if botToken == "" then false
    else if developmentMode then true
    else
      match getChatMember(ChatId(channelId), userId)
      case Unreachable => false
      case ChatMember(ok, status) => ok && status in MemberStatuses
  }

  // ---------------------------------------------------------------------------
  // Channel task (POST /api/channel-check)

  /** Where the store can fail during a channel check; each failure throws and answers 500. */
  datatype ChannelFault = ChannelNoFault | ChannelLookupFails | ChannelInsertFails | ChannelUpsertFails

  datatype ChannelReply =
    | ChannelMissingUserId           // 400 { error: 'Missing userId' }
    | AlreadyRewarded                // { success: true, isMember: true, alreadyRewarded: true }
    | NotMember                      // { success: false, isMember: false }
    | ChannelAwarded(pointsAwarded: nat)  // { success: true, isMember: true, pointsAwarded }
    | ChannelFailed                  // 500 { error: 'Failed to verify channel membership' }
  {
    function Status(): nat {
      match this
      case ChannelMissingUserId => 400
      case ChannelFailed => 500
      case _ => 200
    }

    predicate Success() { AlreadyRewarded? || ChannelAwarded? }
  }

  /** The new store, the reply, and whether the store was queried and the oracle consulted. */
  datatype ChannelOutcome = ChannelOutcome(store: Store, reply: ChannelReply, queriedStore: bool, askedOracle: bool)

  function ChannelRow(u: string, channelId: string): TaskRow {
    TaskRow(u, ChannelTask, channelId, Some(TaskReward))
  }

  /**
   * One channel-check request against store `s`: validate the user id, look the triple
   * up, consult the oracle, then insert a `user_tasks` row and upsert the balance as two
   * separate statements (no transaction).
   */
  function ChannelStep(s: Store, userId: Option<string>, channelId: string, isMember: bool, fault: ChannelFault): (o: ChannelOutcome)
    ensures !UserPresent(userId) ==> o.reply == ChannelMissingUserId && o.store == s && !o.queriedStore && !o.askedOracle
    ensures UserPresent(userId) ==> o.queriedStore && o.reply.Status() != 400
    ensures o.askedOracle <==> UserPresent(userId) && fault != ChannelLookupFails && !HasTask(s.tasks, userId.value, ChannelTask, channelId)
    ensures UserPresent(userId) && fault == ChannelLookupFails ==> o.reply == ChannelFailed && o.store == s
    ensures UserPresent(userId) && fault != ChannelLookupFails && HasTask(s.tasks, userId.value, ChannelTask, channelId) ==>
      o.reply == AlreadyRewarded && o.store == s
    ensures o.askedOracle && !isMember ==> o.reply == NotMember && o.store == s
    ensures o.askedOracle && isMember && fault == ChannelInsertFails ==> o.reply == ChannelFailed && o.store == s
    ensures o.askedOracle && isMember && fault == ChannelUpsertFails ==>
      o.reply == ChannelFailed && o.store == Store(s.points, s.tasks + [ChannelRow(userId.value, channelId)])
    ensures o.askedOracle && isMember && fault == ChannelNoFault ==>
      o.reply == ChannelAwarded(TaskReward)
      && o.store == Store(Credit(s.points, userId.value), s.tasks + [ChannelRow(userId.value, channelId)])
    ensures o.reply.Success() <==> o.reply == AlreadyRewarded || o.reply == ChannelAwarded(TaskReward)
    ensures o.reply.ChannelFailed? ==> UserPresent(userId) && fault != ChannelNoFault
    ensures !isMember ==> o.store == s
    ensures o.store.tasks == s.tasks || o.store.tasks == s.tasks + [ChannelRow(userId.value, channelId)]
    ensures o.store.tasks != s.tasks ==> isMember && UserPresent(userId) && !HasTask(s.tasks, userId.value, ChannelTask, channelId)
    ensures o.store.points != s.points ==>
      o.reply == ChannelAwarded(TaskReward) && o.store.points == Credit(s.points, userId.value) && o.store.tasks != s.tasks
    ensures o.reply.ChannelAwarded? ==> o.store.points != s.points
  {
    if !UserPresent(userId) then ChannelOutcome(s, ChannelMissingUserId, false, false)
    else
      var u := userId.value;
      if fault == ChannelLookupFails then ChannelOutcome(s, ChannelFailed, true, false)
      else if HasTask(s.tasks, u, ChannelTask, channelId) then ChannelOutcome(s, AlreadyRewarded, true, false)
      else if !isMember then ChannelOutcome(s, NotMember, true, true)
      else if fault == ChannelInsertFails then ChannelOutcome(s, ChannelFailed, true, true)
      else
        var recorded := s.tasks + [ChannelRow(u, channelId)];
        if fault == ChannelUpsertFails then ChannelOutcome(Store(s.points, recorded), ChannelFailed, true, true)
        else ChannelOutcome(Store(Credit(s.points, u), recorded), ChannelAwarded(TaskReward), true, true)
  }

  /** The channel check with both writes inside one transaction: any failure leaves the store as it was. */
  function AtomicChannelStep(s: Store, userId: Option<string>, channelId: string, isMember: bool, fault: ChannelFault): (o: ChannelOutcome)
    ensures o.reply == ChannelStep(s, userId, channelId, isMember, fault).reply
    ensures o.reply.ChannelFailed? ==> o.store == s
    ensures !o.reply.ChannelFailed? ==> o == ChannelStep(s, userId, channelId, isMember, fault)
    ensures o.askedOracle && isMember && fault == ChannelNoFault ==>
      o.reply == ChannelAwarded(TaskReward)
      && o.store == Store(Credit(s.points, userId.value), s.tasks + [ChannelRow(userId.value, channelId)])
  {
    var o := ChannelStep(s, userId, channelId, isMember, fault);
    if o.reply.ChannelFailed? then o.(store := s) else o
  }

  // ---------------------------------------------------------------------------
  // Story task (POST /api/story-share)

  /** Where the store can fail during a story share. */
  datatype StoryFault =
    | StoryNoFault
    | StoryLookupFails
    | ConnectionFails     // getConnection or beginTransaction
    | StoryInsertFails
    | StoryUpsertFails
    | CommitFails

  datatype StoryReply =
    | StoryMissingUserId   // 400 { error: 'Missing user_id' }
    | AlreadyCompleted     // { success: false, alreadyCompleted: true }
    | IntentRecorded       // { success: true, message: 'Story share intent recorded' }
    | StoryAwarded         // { success: true, message: 'Points awarded for sharing story' }
    | StoryFailed          // 500 { error: 'Failed to process story share' }
  {
    function Status(): nat {
      match this
      case StoryMissingUserId => 400
      case StoryFailed => 500
      case _ => 200
    }

    predicate Success() { IntentRecorded? || StoryAwarded? }
  }

  /** The new store, the reply, and whether the store was queried. */
  datatype StoryOutcome = StoryOutcome(store: Store, reply: StoryReply, queriedStore: bool)

  /** The story id used when the request gives none: the part of the ISO 8601 timestamp before 'T'. */
  function DefaultTaskId(nowIso: string): (id: string)
    ensures 'T' !in id
  {
    Split(nowIso, 'T')[0]
  }

  /** `taskId || new Date().toISOString().split('T')[0]`. */
  function StoryTaskId(taskId: Option<string>, nowIso: string): (id: string)
    ensures taskId.Some? && taskId.value != "" ==> id == taskId.value
    ensures taskId.None? || taskId.value == "" ==> id == DefaultTaskId(nowIso)
  {
    if taskId.Some? && taskId.value != "" then taskId.value else DefaultTaskId(nowIso)
  }

  function StoryRow(u: string, taskId: string): TaskRow {
    TaskRow(u, StoryTask, taskId, None)
  }

  /**
   * One story-share request: validate, resolve the story id, look the triple up; without
   * `verify` report the intent, with it insert the row and upsert the balance inside one
   * transaction, rolled back on any failure.
   */
  function StoryStep(s: Store, userId: Option<string>, taskId: Option<string>, verify: bool,
                     nowIso: string, fault: StoryFault): (o: StoryOutcome)
    ensures !UserPresent(userId) ==> o.reply == StoryMissingUserId && o.store == s && !o.queriedStore
    ensures UserPresent(userId) ==> o.queriedStore && o.reply.Status() != 400
    ensures !verify ==> o.store == s
    ensures o.reply != StoryAwarded ==> o.store == s
    ensures UserPresent(userId) && fault == StoryLookupFails ==> o.reply == StoryFailed
    ensures UserPresent(userId) && fault != StoryLookupFails && HasTask(s.tasks, userId.value, StoryTask, StoryTaskId(taskId, nowIso)) ==>
      o.reply == AlreadyCompleted
    ensures UserPresent(userId) && fault != StoryLookupFails && !HasTask(s.tasks, userId.value, StoryTask, StoryTaskId(taskId, nowIso)) ==>
      o.reply == (if !verify then IntentRecorded else if fault == StoryNoFault then StoryAwarded else StoryFailed)
    ensures o.reply == StoryAwarded <==>
      UserPresent(userId) && verify && fault == StoryNoFault
      && !HasTask(s.tasks, userId.value, StoryTask, StoryTaskId(taskId, nowIso))
    ensures o.reply == StoryAwarded ==>
      o.store == Store(Credit(s.points, userId.value), s.tasks + [StoryRow(userId.value, StoryTaskId(taskId, nowIso))])
    ensures o.reply.Success() <==> o.reply == IntentRecorded || o.reply == StoryAwarded
  {
    if !UserPresent(userId) then StoryOutcome(s, StoryMissingUserId, false)
    else
      var u := userId.value;
      var id := StoryTaskId(taskId, nowIso);
      if fault == StoryLookupFails then StoryOutcome(s, StoryFailed, true)
      else if HasTask(s.tasks, u, StoryTask, id) then StoryOutcome(s, AlreadyCompleted, true)
      else if !verify then StoryOutcome(s, IntentRecorded, true)
      else if fault != StoryNoFault then StoryOutcome(s, StoryFailed, true)
      else StoryOutcome(Store(Credit(s.points, u), s.tasks + [StoryRow(u, id)]), StoryAwarded, true)
  }

  // ---------------------------------------------------------------------------
  // Points query (GET /api/user-points)

  datatype CompletedTask = CompletedTask(taskType: string, taskId: string)

  datatype PointsReply =
    | PointsMissingUserId   // 400 { error: 'Missing user_id' }
    | PointsFailed          // 500 { error: 'Failed to fetch user points' }
    | UserPoints(userId: Option<int>, points: nat, completedTasks: seq<CompletedTask>)

  /** The `{type, id}` projection of the user's task rows, in insertion order (the read itself fixes no order). */
  function UserTasks(tasks: seq<TaskRow>, u: string): seq<CompletedTask> {
    if |tasks| == 0 then []
    else
      var last := tasks[|tasks| - 1];
      UserTasks(tasks[..|tasks| - 1], u) + (if last.userId == u then [CompletedTask(last.taskType, last.taskId)] else [])
  }

  /** A task is listed for `u` exactly when the store holds a row for that triple. */
  lemma {:induction false} UserTasksListsHasTask(tasks: seq<TaskRow>, u: string, t: CompletedTask)
    ensures t in UserTasks(tasks, u) <==> HasTask(tasks, u, t.taskType, t.taskId)
  {
    if |tasks| > 0 {
      var init := tasks[..|tasks| - 1];
      UserTasksListsHasTask(init, u, t);
      if HasTask(tasks, u, t.taskType, t.taskId) && !SameTask(tasks[|tasks| - 1], u, t.taskType, t.taskId) {
        var i :| 0 <= i < |tasks| && SameTask(tasks[i], u, t.taskType, t.taskId);
        assert init[i] == tasks[i];
      }
      if HasTask(init, u, t.taskType, t.taskId) {
        var i :| 0 <= i < |init| && SameTask(init[i], u, t.taskType, t.taskId);
        assert tasks[i] == init[i];
      }
    }
  }

  /**
   * The read side: a missing `user_id` is a 400, a failing read a 500; otherwise the
   * numeric user id, the balance (0 without a row) and the user's completed tasks.
   */
  function PointsQuery(s: Store, userParam: Option<string>, readFails: bool): (r: PointsReply)
    ensures r.PointsMissingUserId? <==> !UserPresent(userParam)
    ensures r.PointsFailed? <==> UserPresent(userParam) && readFails
    ensures r.UserPoints? ==>
      && r.userId == ParseNumber(userParam.value)
      && r.points == Balance(s.points, userParam.value)
      && (userParam.value !in s.points ==> r.points == 0)
      && r.completedTasks == UserTasks(s.tasks, userParam.value)
      && (forall t :: t in r.completedTasks <==> HasTask(s.tasks, userParam.value, t.taskType, t.taskId))
  {
    if !UserPresent(userParam) then PointsMissingUserId
    else if readFails then PointsFailed
    else
      var u := userParam.value;
      var listed := UserTasks(s.tasks, u);
      assert forall t :: t in listed <==> HasTask(s.tasks, u, t.taskType, t.taskId) by {
        forall t ensures t in listed <==> HasTask(s.tasks, u, t.taskType, t.taskId) {
          UserTasksListsHasTask(s.tasks, u, t);
        }
      }
      UserPoints(ParseNumber(u), if u in s.points then s.points[u] else 0, listed)
  }

  // ---------------------------------------------------------------------------
  // The store as an object the handlers update in place

  class Ledger {
    var points: map<string, nat>
    var tasks: seq<TaskRow>

    function State(): Store
      reads this
    {
      Store(points, tasks)
    }

    constructor ()
      ensures State() == Store(map[], [])
    {
      points := map[];
      tasks := [];
    }

    /** POST /api/channel-check with the oracle's verdict `isMember`. */
    method ChannelCheck(userId: Option<string>, channelId: string, isMember: bool, fault: ChannelFault)
      returns (reply: ChannelReply, queriedStore: bool, askedOracle: bool)
      modifies this
      ensures ChannelOutcome(State(), reply, queriedStore, askedOracle)
              == ChannelStep(old(State()), userId, channelId, isMember, fault)
      ensures old(TriplesUnique(tasks)) ==> TriplesUnique(tasks)
    {
      queriedStore, askedOracle := false, false;
      if !UserPresent(userId) {
        reply := ChannelMissingUserId;
        return;
      }
      var u := userId.value;
      queriedStore := true;
      if fault == ChannelLookupFails {
        reply := ChannelFailed;
        return;
      }
      if HasTask(tasks, u, ChannelTask, channelId) {
        reply := AlreadyRewarded;
        return;
      }
      askedOracle := true;
      if !isMember {
        reply := NotMember;
        return;
      }
      if fault == ChannelInsertFails {
        reply := ChannelFailed;
        return;
      }
      AppendKeepsTriplesUnique(tasks, ChannelRow(u, channelId));
      tasks := tasks + [ChannelRow(u, channelId)];
      if fault == ChannelUpsertFails {
        reply := ChannelFailed;
        return;
      }
      points := Credit(points, u);
      reply := ChannelAwarded(TaskReward);
    }

    /** The channel check run inside a transaction: a failure after the first write rolls it back. */
    method AtomicChannelCheck(userId: Option<string>, channelId: string, isMember: bool, fault: ChannelFault)
      returns (reply: ChannelReply, queriedStore: bool, askedOracle: bool)
      modifies this
      ensures ChannelOutcome(State(), reply, queriedStore, askedOracle)
              == AtomicChannelStep(old(State()), userId, channelId, isMember, fault)
    {
      var before := State();
      reply, queriedStore, askedOracle := ChannelCheck(userId, channelId, isMember, fault);
      if reply.ChannelFailed? {
        points, tasks := before.points, before.tasks;
      }
    }

    /** POST /api/story-share; `nowIso` is the current time as `toISOString` writes it. */
    method StoryShare(userId: Option<string>, taskId: Option<string>, verify: bool, nowIso: string, fault: StoryFault)
      returns (reply: StoryReply, queriedStore: bool)
      modifies this
      ensures StoryOutcome(State(), reply, queriedStore)
              == StoryStep(old(State()), userId, taskId, verify, nowIso, fault)
      ensures old(TriplesUnique(tasks)) ==> TriplesUnique(tasks)
    {
      queriedStore := false;
      if !UserPresent(userId) {
        reply := StoryMissingUserId;
        return;
      }
      var u := userId.value;
      var id := StoryTaskId(taskId, nowIso);
      queriedStore := true;
      if fault == StoryLookupFails {
        reply := StoryFailed;
        return;
      }
      if HasTask(tasks, u, StoryTask, id) {
        reply := AlreadyCompleted;
        return;
      }
      if !verify {
        reply := IntentRecorded;
        return;
      }
      if fault == ConnectionFails {
        reply := StoryFailed;
        return;
      }
      // beginTransaction
      var savedPoints, savedTasks := points, tasks;
      AppendKeepsTriplesUnique(tasks, StoryRow(u, id));
      if fault != StoryInsertFails {
        tasks := tasks + [StoryRow(u, id)];
        if fault != StoryUpsertFails {
          points := Credit(points, u);
        }
      }
      if fault != StoryNoFault {
        // rollback
        points, tasks := savedPoints, savedTasks;
        reply := StoryFailed;
        return;
      }
      // commit
      reply := StoryAwarded;
    }
  }

  /** Appending a row for a triple the table does not hold keeps every triple unique. */
  lemma AppendKeepsTriplesUnique(tasks: seq<TaskRow>, row: TaskRow)
    requires !HasTask(tasks, row.userId, row.taskType, row.taskId)
    ensures TriplesUnique(tasks) ==> TriplesUnique(tasks + [row])
  {
    var t := tasks + [row];
    if TriplesUnique(tasks) {
      forall i, j | 0 <= i < j < |t| ensures !SameTask(t[j], t[i].userId, t[i].taskType, t[i].taskId) {
        if j == |tasks| {
          assert t[i] == tasks[i];
        } else {
          assert t[i] == tasks[i] && t[j] == tasks[j];
        }
      }
    }
  }
}
