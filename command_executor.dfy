/** CommandExecutor: runs a list of commands in list order; the first command that throws stops
    the run and its error propagates, and nothing is undone. The commands are those of the answer
    submission and the point commands of survey creation. */
module CommandExecutor {
  import opened Types
  import opened Db
  import opened AnsweredQuestionMapper
  import opened AnsweredQuestionService
  import A = AnsweredQuestionCreateCommands
  import S = SurveyCreateCommands

  /** A command with the arguments it was built with. */
  datatype Command =
    | ValidateUserCertificationCommand(surveyCertificationList: seq<int>, user: UserId, survey: SurveyId, now: Time)
    | SaveAnswerCommand(answers: seq<AnsweredQuestionDto>, user: UserId, survey: SurveyId)
    | SaveParticipationCommand(user: UserId, survey: SurveyId, surveyCertificationList: seq<int>)
    | CreditPointHistoryCommand(user: UserId, rewardPoints: int, now: Time)
    | CreditUserPointsCommand(user: UserId, rewardPoints: int)
    | DebitPointHistoryCommand(user: UserId, surveyCreatePoints: int, now: Time)
    | DebitUserPointsCommand(user: UserId, surveyCreatePoints: int)

  /** What a command needs of the tables: the survey it validates against, the user it credits or
      debits, and that user's ledger. */
  predicate Ready(t: Tables, c: Command)
  {
    match c
    case ValidateUserCertificationCommand(_, _, s, _) => s in t.surveys
    case SaveAnswerCommand(_, _, _) => true
    case SaveParticipationCommand(_, _, ids) => forall i :: 0 <= i < |ids| ==> 0 <= ids[i] <= 6
    case CreditPointHistoryCommand(u, _, _) => HasLedger(t, u)
    case CreditUserPointsCommand(u, _) => u in t.users
    case DebitPointHistoryCommand(u, _, _) => HasLedger(t, u)
    case DebitUserPointsCommand(u, _) => u in t.users
  }

  /** The users whose ledger has a row. */
  ghost function LedgerOwners(t: Tables): set<UserId>
  {
    set u | u in t.pointHistories && HasLedger(t, u)
  }

  /** No command removes a survey, a user or a ledger row. */
  ghost predicate Keeps(t: Tables, t': Tables)
  {
    t'.surveys == t.surveys && t'.users.Keys == t.users.Keys && LedgerOwners(t) <= LedgerOwners(t')
  }

  function ExecuteSpec(t: Tables, c: Command): (r: Run<Tables>)
    requires Ready(t, c)
  {
    if c.ValidateUserCertificationCommand? then ValidateEffect(t, c)
    else if c.SaveAnswerCommand? then SaveAnswerEffect(t, c)
    else if c.SaveParticipationCommand? then SaveParticipationEffect(t, c)
    else if c.CreditPointHistoryCommand? || c.DebitPointHistoryCommand? then LedgerEffect(t, c)
    else PointEffect(t, c)
  }

  // One function per kind of command, each defined only for its own kind, so that reasoning
  // about a command of one kind never has to look inside the others.

  function ValidateEffect(t: Tables, c: Command): Run<Tables>
    requires c.ValidateUserCertificationCommand? && Ready(t, c)
  {
    A.ValidateUserCertificationSpec(t, c.surveyCertificationList, c.user, c.survey, c.now)
  }

  /** SaveAnswerCommand.execute, starting from a reward of zero: the tables after the answer loop
      and its final check. */
  function SaveAnswerEffect(t: Tables, c: Command): Run<Tables>
    requires c.SaveAnswerCommand?
  {
    var run := A.SaveAnswerSpec(t, c.user, c.survey, c.answers, 0);
    Run(run.state.tables, run.failure)
  }

  function SaveParticipationEffect(t: Tables, c: Command): Run<Tables>
    requires c.SaveParticipationCommand? && Ready(t, c)
  {
    A.SaveParticipationSpec(t, c.user, c.survey, c.surveyCertificationList)
  }

  function LedgerEffect(t: Tables, c: Command): Run<Tables>
    requires (c.CreditPointHistoryCommand? || c.DebitPointHistoryCommand?) && Ready(t, c)
  {
    if c.CreditPointHistoryCommand? then A.CreditPointHistorySpec(t, c.user, c.rewardPoints, c.now)
    else S.DebitPointHistorySpec(t, c.user, c.surveyCreatePoints, c.now)
  }

  function PointEffect(t: Tables, c: Command): Run<Tables>
    requires (c.CreditUserPointsCommand? || c.DebitUserPointsCommand?) && Ready(t, c)
  {
    if c.CreditUserPointsCommand? then A.CreditUserPointsSpec(t, c.user, c.rewardPoints)
    else S.DebitUserPointsSpec(t, c.user, c.surveyCreatePoints)
  }

  /** command.execute(), dispatched on the kind of command. */
  method Execute(db: Database, c: Command) returns (r: Outcome)
    requires Ready(db.State(), c)
    modifies db
    ensures var run := ExecuteSpec(old(db.State()), c);
      db.State() == run.state && r == (if run.failure.Some? then Fail(run.failure.value) else Pass)
  {
    match c
    case ValidateUserCertificationCommand(ids, u, s, now) =>
      var checked := ValidateEligibility(db.State(), ids, u, s, now);
      r := checked;
    case SaveAnswerCommand(answers, u, s) =>
      var reward;
      reward, r := A.ExecuteSaveAnswer(db, u, s, answers, 0);
    case SaveParticipationCommand(u, s, ids) =>
      A.SaveParticipation(db, u, s, ids);
      r := Pass;
    case CreditPointHistoryCommand(u, reward, now) =>
      r := A.CreditPointHistory(db, u, reward, now);
    case CreditUserPointsCommand(u, reward) =>
      A.CreditUserPoints(db, u, reward);
      r := Pass;
    case DebitPointHistoryCommand(u, cost, now) =>
      r := S.DebitPointHistory(db, u, cost, now);
    case DebitUserPointsCommand(u, cost) =>
      r := S.DebitUserPoints(db, u, cost);
  }

  /** No command removes a survey, a user or a ledger row. */
  lemma ExecuteKeeps(t: Tables, c: Command)
    requires Ready(t, c)
    ensures Keeps(t, ExecuteSpec(t, c).state)
  {
    if c.CreditPointHistoryCommand? || c.DebitPointHistoryCommand? {
      LedgerEffectKeeps(t, c);
    } else if c.CreditUserPointsCommand? || c.DebitUserPointsCommand? {
      PointEffectKeeps(t, c);
    } else {
      OtherEffectKeeps(t, c);
    }
  }

  lemma LedgerEffectKeeps(t: Tables, c: Command)
    requires (c.CreditPointHistoryCommand? || c.DebitPointHistoryCommand?) && Ready(t, c)
    ensures Keeps(t, LedgerEffect(t, c).state)
  {
    var operand := if c.CreditPointHistoryCommand? then c.rewardPoints else -c.surveyCreatePoints;
    SavePointHistoryKeeps(t, c.user, operand, c.now);
  }

  /** savePointHistory only ever appends a ledger row. */
  lemma SavePointHistoryKeeps(t: Tables, u: UserId, operand: int, now: Time)
    requires HasLedger(t, u)
    ensures PointHistoryService.SavePointHistorySpec(t, u, operand, now).Ok? ==>
      Keeps(t, PointHistoryService.SavePointHistorySpec(t, u, operand, now).value)
  {
    if PointHistoryService.SavePointHistorySpec(t, u, operand, now).Ok? {
      var t' := PointHistoryService.SavePointHistorySpec(t, u, operand, now).value;
      forall v | v in LedgerOwners(t)
        ensures v in LedgerOwners(t')
      {
        assert HasLedger(t', v);
      }
    }
  }

  lemma PointEffectKeeps(t: Tables, c: Command)
    requires (c.CreditUserPointsCommand? || c.DebitUserPointsCommand?) && Ready(t, c)
    ensures Keeps(t, PointEffect(t, c).state)
  {
  }

  lemma OtherEffectKeeps(t: Tables, c: Command)
    requires (c.ValidateUserCertificationCommand? || c.SaveAnswerCommand? || c.SaveParticipationCommand?) && Ready(t, c)
    ensures Keeps(t, ExecuteSpec(t, c).state)
  {
  }

  lemma ReadyKept(t: Tables, t': Tables, c: Command)
    requires Ready(t, c) && Keeps(t, t')
    ensures Ready(t', c)
  {
    if c.CreditPointHistoryCommand? || c.DebitPointHistoryCommand? {
      assert c.user in LedgerOwners(t);
    }
  }

  predicate AllReady(t: Tables, cmds: seq<Command>)
  {
    forall i :: 0 <= i < |cmds| ==> Ready(t, cmds[i])
  }

  lemma AllReadyKept(t: Tables, t': Tables, cmds: seq<Command>)
    requires AllReady(t, cmds) && Keeps(t, t')
    ensures AllReady(t', cmds)
  {
    forall i | 0 <= i < |cmds|
      ensures Ready(t', cmds[i])
    {
      ReadyKept(t, t', cmds[i]);
    }
  }

  /** executeCommands on the tables: the first command, then, unless it threw, the rest from
      where it left the tables. */
  function RunAllSpec(t: Tables, cmds: seq<Command>): (r: Run<Tables>)
    requires AllReady(t, cmds)
    decreases |cmds|
  {
    if cmds == [] then Run(t, None)
    else
      var first := ExecuteSpec(t, cmds[0]);
      if first.failure.Some? then first
      else
        ExecuteKeeps(t, cmds[0]);
        AllReadyKept(t, first.state, cmds[1..]);
        RunAllSpec(first.state, cmds[1..])
  }

  method ExecuteCommands(db: Database, cmds: seq<Command>) returns (r: Outcome)
    requires AllReady(db.State(), cmds)
    modifies db
    ensures var run := RunAllSpec(old(db.State()), cmds);
      db.State() == run.state && r == (if run.failure.Some? then Fail(run.failure.value) else Pass)
  {
    ghost var t0 := db.State();
    for i := 0 to |cmds|
      invariant AllReady(db.State(), cmds[i..])
      invariant RunAllSpec(t0, cmds) == RunAllSpec(db.State(), cmds[i..])
    {
      ghost var before := db.State();
      assert cmds[i..][0] == cmds[i] && cmds[i..][1..] == cmds[i + 1..];
      ExecuteKeeps(before, cmds[i]);
      r := Execute(db, cmds[i]);
      if r.Fail? {
        return;
      }
      AllReadyKept(before, db.State(), cmds[i + 1..]);
    }
    r := Pass;
  }

  /** Running a + b is running a, then, unless a threw, running b from where a left the tables:
      the commands run in order, a thrown error skips every later command, and the writes of the
      commands that ran stay in place. */
  lemma {:induction false} RunAllAppend(t: Tables, a: seq<Command>, b: seq<Command>)
    requires AllReady(t, a + b)
    ensures AllReady(t, a) && AllReady(RunAllSpec(t, a).state, b)
    ensures RunAllSpec(t, a + b)
         == if RunAllSpec(t, a).failure.Some? then RunAllSpec(t, a) else RunAllSpec(RunAllSpec(t, a).state, b)
    decreases |a|
  {
    assert forall i :: 0 <= i < |a| ==> a[i] == (a + b)[i];
    assert forall i :: 0 <= i < |b| ==> b[i] == (a + b)[|a| + i];
    if a == [] {
      assert a + b == b;
    } else {
      var first := ExecuteSpec(t, a[0]);
      assert (a + b)[0] == a[0] && (a + b)[1..] == a[1..] + b;
      ExecuteKeeps(t, a[0]);
      AllReadyKept(t, first.state, a[1..] + b);
      if first.failure.None? {
        RunAllAppend(first.state, a[1..], b);
        assert RunAllSpec(t, a) == RunAllSpec(first.state, a[1..]);
      } else {
        assert RunAllSpec(t, a) == first;
        assert forall i :: 0 <= i < |b| ==> b[i] == (a[1..] + b)[|a| - 1 + i];
      }
    }
  }

  /** One command in front of others. */
  lemma RunAllCons(t: Tables, c: Command, rest: seq<Command>)
    requires AllReady(t, [c] + rest)
    ensures Ready(t, c)
    ensures var first := ExecuteSpec(t, c);
      AllReady(first.state, rest)
      && RunAllSpec(t, [c] + rest) == if first.failure.Some? then first else RunAllSpec(first.state, rest)
  {
    var cmds := [c] + rest;
    assert cmds[0] == c && cmds[1..] == rest;
    assert Ready(t, cmds[0]);
    assert forall i :: 0 <= i < |rest| ==> rest[i] == cmds[i + 1];
    ExecuteKeeps(t, c);
    AllReadyKept(t, ExecuteSpec(t, c).state, rest);
  }

  /** A single command. */
  lemma RunAllOne(t: Tables, c: Command)
    requires Ready(t, c)
    ensures AllReady(t, [c]) && RunAllSpec(t, [c]) == ExecuteSpec(t, c)
  {
    assert [c] == [c] + [];
    RunAllCons(t, c, []);
  }

  /** Nothing is rolled back: a credit of the point field followed by a ledger debit the balance
      cannot cover throws, and the credit stays written. */
  lemma NoRollback(t: Tables, u: UserId, rewardPoints: int, surveyCreatePoints: int, now: Time)
    requires u in t.users && HasLedger(t, u) && LatestPoint(t, u) < surveyCreatePoints
    ensures RunAllSpec(t, [CreditUserPointsCommand(u, rewardPoints), DebitPointHistoryCommand(u, surveyCreatePoints, now)])
         == Run(t.(users := t.users[u := t.users[u].(point := t.users[u].point + rewardPoints)]), Some(SURVEY_CREATE_POINT_NOT_ENOUGH))
  {
    var credit := CreditUserPointsCommand(u, rewardPoints);
    var debit := DebitPointHistoryCommand(u, surveyCreatePoints, now);
    var t1 := t.(users := t.users[u := t.users[u].(point := t.users[u].point + rewardPoints)]);
    assert [credit, debit] == [credit] + [debit];
    assert Ready(t, credit) && ExecuteSpec(t, credit) == Run(t1, None);
    assert Ready(t1, debit) && ExecuteSpec(t1, debit) == Run(t1, Some(SURVEY_CREATE_POINT_NOT_ENOUGH)) by {
      assert LatestPoint(t1, u) == LatestPoint(t, u);
    }
    assert RunAllSpec(t, [credit] + [debit]) == RunAllSpec(t1, [debit]) by {
      RunAllCons(t, credit, [debit]);
    }
    RunAllOne(t1, debit);
  }

  /** The first two answer commands: the eligibility checks, then the answer loop with its
      at-least-one check, or the first check's error with nothing written. */
  lemma AnswerCommandsFront(t: Tables, certs: seq<int>, u: UserId, s: SurveyId, answers: seq<AnsweredQuestionDto>, now: Time)
    requires s in t.surveys
    ensures var eligible := ValidateEligibility(t, certs, u, s, now);
      var saved := A.SaveAnswerSpec(t, u, s, answers, 0);
      RunAllSpec(t, [ValidateUserCertificationCommand(certs, u, s, now), SaveAnswerCommand(answers, u, s)])
      == if eligible.Fail? then Run(t, Some(eligible.error)) else Run(saved.state.tables, saved.failure)
  {
    var validate := ValidateUserCertificationCommand(certs, u, s, now);
    var save := SaveAnswerCommand(answers, u, s);
    assert [validate, save] == [validate] + [save];
    RunAllCons(t, validate, [save]);
    RunAllOne(t, save);
  }

  /** The participation rows after the answers. */
  function WithParticipation(t: Tables, u: UserId, s: SurveyId, certs: seq<int>): (t2: Tables)
    requires forall i :: 0 <= i < |certs| ==> 0 <= certs[i] <= 6
    ensures t2.users == t.users && t2.pointHistories == t.pointHistories
  {
    t.(participations := t.participations + ParticipationService.ParticipationRows(u, GetCertificationTypeList(certs), s))
  }

  /** The two credits, ledger first. */
  lemma CreditCommands(t: Tables, u: UserId, rewardPoints: int, now: Time)
    requires u in t.users && HasLedger(t, u)
    ensures RunAllSpec(t, [CreditPointHistoryCommand(u, rewardPoints, now), CreditUserPointsCommand(u, rewardPoints)])
         == CreditBoth(t, u, rewardPoints, now)
  {
    var ledger := CreditPointHistoryCommand(u, rewardPoints, now);
    var point := CreditUserPointsCommand(u, rewardPoints);
    assert [ledger, point] == [ledger] + [point];
    RunAllCons(t, ledger, [point]);
    var credited := ExecuteSpec(t, ledger);
    if credited.failure.None? {
      RunAllOne(credited.state, point);
    }
  }

  /** The last three answer commands: the participation rows, the ledger credit, and, when the
      ledger accepts it, the credit of the point field. */
  lemma AnswerCommandsBack(t: Tables, u: UserId, s: SurveyId, certs: seq<int>, rewardPoints: int, now: Time)
    requires forall i :: 0 <= i < |certs| ==> 0 <= certs[i] <= 6
    requires u in t.users && HasLedger(t, u)
    ensures var t2 := WithParticipation(t, u, s, certs);
      HasLedger(t2, u) && u in t2.users
      && RunAllSpec(t, [SaveParticipationCommand(u, s, certs), CreditPointHistoryCommand(u, rewardPoints, now),
                        CreditUserPointsCommand(u, rewardPoints)])
      == CreditBoth(t2, u, rewardPoints, now)
  {
    var participate := SaveParticipationCommand(u, s, certs);
    var ledger := CreditPointHistoryCommand(u, rewardPoints, now);
    var point := CreditUserPointsCommand(u, rewardPoints);
    assert [participate, ledger, point] == [participate] + [ledger, point];
    RunAllCons(t, participate, [ledger, point]);
    assert ExecuteSpec(t, participate) == Run(WithParticipation(t, u, s, certs), None);
    CreditCommands(WithParticipation(t, u, s, certs), u, rewardPoints, now);
  }

  /** The ledger credit and then, unless it threw, the credit of the point field. */
  function CreditBoth(t: Tables, u: UserId, rewardPoints: int, now: Time): Run<Tables>
    requires u in t.users && HasLedger(t, u)
  {
    var credited := A.CreditPointHistorySpec(t, u, rewardPoints, now);
    if credited.failure.Some? then credited else A.CreditUserPointsSpec(credited.state, u, rewardPoints)
  }

  /** The two credits as createAnswer writes them at its end. */
  lemma CreditBothMatchesCreateAnswer(t: Tables, u: UserId, rewardPoints: int, now: Time)
    requires u in t.users && HasLedger(t, u)
    ensures var spec := CreditSpec(t, u, rewardPoints, now);
      (spec.Ok? ==> CreditBoth(t, u, rewardPoints, now) == Run(spec.value.0, None))
      && (spec.Err? ==> CreditBoth(t, u, rewardPoints, now) == Run(t, Some(spec.error)))
  {
  }

  /** A list of the five answer commands in createAnswer's order. The repository has the command
      classes and the executor but no code that builds this list; a caller builds it before
      anything runs, so the two credit commands carry the reward computed from the request alone
      (the sum of the declared types' rewards over the non-empty answers), not a value read back
      from the answer command. */
  function AnswerCommands(t: Tables, u: UserId, req: AnsweredQuestionRequest, now: Time): (cmds: seq<Command>)
    requires req.surveyId in t.surveys
    ensures |cmds| == 5
  {
    var s := req.surveyId;
    var certs := SurveyCertificationList(t, s);
    var reward := AnswersReward(req.answers);
    [ValidateUserCertificationCommand(certs, u, s, now), SaveAnswerCommand(req.answers, u, s),
     SaveParticipationCommand(u, s, certs), CreditPointHistoryCommand(u, reward, now),
     CreditUserPointsCommand(u, reward)]
  }

  /** What the five answer commands do, stage by stage. */
  function AnswerCommandsEffect(t: Tables, u: UserId, req: AnsweredQuestionRequest, now: Time): Run<Tables>
    requires u in t.users && HasLedger(t, u) && req.surveyId in t.surveys
  {
    var s := req.surveyId;
    var certs := SurveyCertificationList(t, s);
    var eligible := ValidateEligibility(t, certs, u, s, now);
    var saved := A.SaveAnswerSpec(t, u, s, req.answers, 0);
    if eligible.Fail? then Run(t, Some(eligible.error))
    else if saved.failure.Some? then Run(saved.state.tables, saved.failure)
    else
      assert OnlyAnswersChanged(t, saved.state.tables);
      CreditBoth(WithParticipation(saved.state.tables, u, s, certs), u, saved.state.rewardPoints, now)
  }

  lemma AnswerCommandsRun(t: Tables, u: UserId, req: AnsweredQuestionRequest, now: Time)
    requires u in t.users && HasLedger(t, u) && req.surveyId in t.surveys
    ensures AllReady(t, AnswerCommands(t, u, req, now))
    ensures RunAllSpec(t, AnswerCommands(t, u, req, now)) == AnswerCommandsEffect(t, u, req, now)
  {
    var s := req.surveyId;
    var certs := SurveyCertificationList(t, s);
    var saved := A.SaveAnswerSpec(t, u, s, req.answers, 0);
    var reward := AnswersReward(req.answers);
    var front := [ValidateUserCertificationCommand(certs, u, s, now), SaveAnswerCommand(req.answers, u, s)];
    var back := [SaveParticipationCommand(u, s, certs), CreditPointHistoryCommand(u, reward, now),
                 CreditUserPointsCommand(u, reward)];
    assert AnswerCommands(t, u, req, now) == front + back;
    RunAllAppend(t, front, back);
    AnswerCommandsFront(t, certs, u, s, req.answers, now);
    if RunAllSpec(t, front).failure.None? {
      SaveAnswersRunTotals(Progress(t, 0, false), u, s, req.answers);
      AnswerCommandsBack(saved.state.tables, u, s, certs, reward, now);
    }
  }

  lemma AnswerCommandsEffectMatchesCreateAnswer(t: Tables, u: UserId, req: AnsweredQuestionRequest, now: Time)
    requires u in t.users && HasLedger(t, u) && req.surveyId in t.surveys
    ensures var spec := CreateAnswerSpec(t, u, req, now);
      var run := AnswerCommandsEffect(t, u, req, now);
      (spec.Ok? ==> run == Run(spec.value.0, None))
      && (spec.Err? ==> run.failure == Some(spec.error))
  {
    var s := req.surveyId;
    var certs := SurveyCertificationList(t, s);
    var eligible := ValidateEligibility(t, certs, u, s, now);
    var spec := CreateAnswerSpec(t, u, req, now);
    var effect := AnswerCommandsEffect(t, u, req, now);
    if eligible.Fail? {
      assert spec == Err(eligible.error) && effect == Run(t, Some(eligible.error));
      return;
    }
    var loop := SaveAnswersRun(Progress(t, 0, false), u, s, req.answers);
    var saved := A.SaveAnswerSpec(t, u, s, req.answers, 0);
    if loop.failure.Some? {
      assert saved == loop;
      assert spec == Err(loop.failure.value) && effect == Run(loop.state.tables, loop.failure);
      return;
    }
    if !loop.state.isAnswered {
      assert saved.failure == Some(ANSWER_AT_LEAST_ONE_QUESTION);
      assert spec == Err(ANSWER_AT_LEAST_ONE_QUESTION) && effect.failure == Some(ANSWER_AT_LEAST_ONE_QUESTION);
      return;
    }
    assert saved == loop;
    var t2 := WithParticipation(loop.state.tables, u, s, certs);
    assert effect == CreditBoth(t2, u, loop.state.rewardPoints, now);
    assert spec == SubmitAnswersSpec(t, u, s, req.answers, certs, now);
    SubmitAnswersAsCredits(t, u, s, req.answers, certs, now);
  }

  /** Once the answers are saved, createAnswer's remaining writes are the two credits. */
  lemma SubmitAnswersAsCredits(t: Tables, u: UserId, s: SurveyId, answers: seq<AnsweredQuestionDto>,
                               certs: seq<int>, now: Time)
    requires u in t.users && HasLedger(t, u)
    requires forall i :: 0 <= i < |certs| ==> 0 <= certs[i] <= 6
    requires SaveAnswersRun(Progress(t, 0, false), u, s, answers).failure.None?
    requires SaveAnswersRun(Progress(t, 0, false), u, s, answers).state.isAnswered
    ensures var loop := SaveAnswersRun(Progress(t, 0, false), u, s, answers);
      var t2 := WithParticipation(loop.state.tables, u, s, certs);
      var spec := SubmitAnswersSpec(t, u, s, answers, certs, now);
      u in t2.users && HasLedger(t2, u)
      && (spec.Ok? ==> CreditBoth(t2, u, loop.state.rewardPoints, now) == Run(spec.value.0, None))
      && (spec.Err? ==> CreditBoth(t2, u, loop.state.rewardPoints, now).failure == Some(spec.error))
  {
    var loop := SaveAnswersRun(Progress(t, 0, false), u, s, answers);
    var t2 := WithParticipation(loop.state.tables, u, s, certs);
    assert SubmitAnswersSpec(t, u, s, answers, certs, now) == CreditSpec(t2, u, loop.state.rewardPoints, now);
    CreditBothMatchesCreateAnswer(t2, u, loop.state.rewardPoints, now);
  }

  /** The answer submission as commands — validate, save the answers, save the participation,
      credit the ledger and credit the point field by the reward computed from the request — ends where
      createAnswer ends when createAnswer succeeds, and throws the error createAnswer throws when
      it fails (createAnswer then also undoes the writes; the executor does not). */
  lemma AnswerCommandsMatchCreateAnswer(t: Tables, u: UserId, req: AnsweredQuestionRequest, now: Time)
    requires u in t.users && HasLedger(t, u) && req.surveyId in t.surveys
    ensures AllReady(t, AnswerCommands(t, u, req, now))
    ensures var spec := CreateAnswerSpec(t, u, req, now);
      var run := RunAllSpec(t, AnswerCommands(t, u, req, now));
      (spec.Ok? ==> run == Run(spec.value.0, None))
      && (spec.Err? ==> run.failure == Some(spec.error))
  {
    AnswerCommandsRun(t, u, req, now);
    AnswerCommandsEffectMatchesCreateAnswer(t, u, req, now);
  }
}
