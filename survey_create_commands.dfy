/** The point commands a survey creation can be split into: the ledger debit and the `user.point`
    debit. Like the answer commands, each one's effect is a `Run` of the tables. */
module SurveyCreateCommands {
  import opened Types
  import opened Db
  import PointUtil
  import PointHistoryService

  /** SurveyCreateCommands.SavePointHistoryCommand.execute: savePointHistory with the negated
      create cost as operand. */
  function DebitPointHistorySpec(t: Tables, u: UserId, surveyCreatePoints: int, now: Time): (r: Run<Tables>)
    requires HasLedger(t, u)
  {
    match PointHistoryService.SavePointHistorySpec(t, u, -surveyCreatePoints, now)
    case Err(e) => Run(t, Some(e))
    case Ok(t') => Run(t', None)
  }

  method DebitPointHistory(db: Database, u: UserId, surveyCreatePoints: int, now: Time) returns (r: Outcome)
    requires HasLedger(db.State(), u)
    modifies db
    ensures var run := DebitPointHistorySpec(old(db.State()), u, surveyCreatePoints, now);
      db.State() == run.state && r == (if run.failure.Some? then Fail(run.failure.value) else Pass)
  {
    r := PointHistoryService.SavePointHistory(db, u, -surveyCreatePoints, now);
  }

  /** The debit is refused, with nothing appended, exactly when the balance is below the cost;
      otherwise exactly one row is appended, holding the balance minus the cost, which is not
      negative. */
  lemma DebitPointHistoryRule(t: Tables, u: UserId, surveyCreatePoints: int, now: Time)
    requires HasLedger(t, u)
    ensures var run := DebitPointHistorySpec(t, u, surveyCreatePoints, now);
      (run.failure.Some? <==> LatestPoint(t, u) < surveyCreatePoints)
      && (run.failure.Some? ==> run.failure.value == SURVEY_CREATE_POINT_NOT_ENOUGH && run.state == t)
      && (run.failure.None? ==>
            HasLedger(run.state, u)
            && run.state == t.(pointHistories := t.pointHistories[u := t.pointHistories[u] + [run.state.pointHistories[u][|t.pointHistories[u]|]]])
            && |run.state.pointHistories[u]| == |t.pointHistories[u]| + 1
            && LatestPoint(run.state, u) == LatestPoint(t, u) - surveyCreatePoints >= 0)
  {
    PointHistoryService.SavePointHistoryContract(t, u, -surveyCreatePoints, now);
  }

  /** SurveyCreateCommands.UpdateUserPointsCommand.execute: `user.point` drops by the cost and the
      user is saved, and only then is the point checked, against the debited value: the command
      throws SURVEY_CREATE_POINT_NOT_ENOUGH when the debited point is below the cost, with the
      debit already written. */
  function DebitUserPointsSpec(t: Tables, u: UserId, surveyCreatePoints: int): (r: Run<Tables>)
    requires u in t.users
  {
    var user := t.users[u].(point := t.users[u].point - surveyCreatePoints);
    var checked := PointUtil.ValidateUserPoint(surveyCreatePoints, user.point);
    Run(t.(users := t.users[u := user]), if checked.Fail? then Some(checked.error) else None)
  }

  method DebitUserPoints(db: Database, u: UserId, surveyCreatePoints: int) returns (r: Outcome)
    requires u in db.users
    modifies db
    ensures var run := DebitUserPointsSpec(old(db.State()), u, surveyCreatePoints);
      db.State() == run.state && r == (if run.failure.Some? then Fail(run.failure.value) else Pass)
  {
    var user := db.users[u];
    user := user.(point := user.point - surveyCreatePoints);
    db.SaveUser(u, user);
    r := PointUtil.ValidateUserPoint(surveyCreatePoints, user.point);
  }

  /** Whether or not it throws, the command has lowered the point by exactly the cost and touched
      nothing else; it throws exactly when the point was below twice the cost. */
  lemma DebitUserPointsWritesBeforeCheck(t: Tables, u: UserId, surveyCreatePoints: int)
    requires u in t.users
    ensures var run := DebitUserPointsSpec(t, u, surveyCreatePoints);
      u in run.state.users && run.state.users[u].point == t.users[u].point - surveyCreatePoints
      && run.state.users[u] == t.users[u].(point := run.state.users[u].point)
      && run.state == t.(users := t.users[u := run.state.users[u]])
      && (run.failure.Some? <==> t.users[u].point - surveyCreatePoints < surveyCreatePoints)
      && (run.failure.Some? ==> run.failure.value == SURVEY_CREATE_POINT_NOT_ENOUGH)
  {
  }

  /** Debiting the ledger and then the point field by the same cost keeps the two stores in
      agreement and the ledger non-negative, whenever the ledger debit is accepted. */
  lemma DebitsKeepInSync(t: Tables, u: UserId, surveyCreatePoints: int, now: Time)
    requires InSync(t) && LedgerNonNegative(t) && u in t.users
    requires DebitPointHistorySpec(t, u, surveyCreatePoints, now).failure.None?
    ensures var t1 := DebitPointHistorySpec(t, u, surveyCreatePoints, now).state;
      u in t1.users && InSync(DebitUserPointsSpec(t1, u, surveyCreatePoints).state)
      && LedgerNonNegative(DebitUserPointsSpec(t1, u, surveyCreatePoints).state)
  {
    DebitPointHistoryRule(t, u, surveyCreatePoints, now);
    PointHistoryService.SavePointHistoryKeepsLedgerNonNegative(t, u, -surveyCreatePoints, now);
    var t1 := DebitPointHistorySpec(t, u, surveyCreatePoints, now).state;
    var t2 := DebitUserPointsSpec(t1, u, surveyCreatePoints).state;
    forall v | v in t2.users
      ensures HasLedger(t2, v) && t2.users[v].point == LatestPoint(t2, v)
    {
      if v != u {
        assert t2.users[v] == t.users[v] && t2.pointHistories[v] == t.pointHistories[v];
      }
    }
  }
}
