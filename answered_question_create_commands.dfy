/** The commands an answer submission can be split into. Each command's effect on the tables is a
    `Run`: the tables after the command and the error it threw, if any. A command that throws after
    writing leaves its writes in place; undoing them is the business of an enclosing transaction. */
module AnsweredQuestionCreateCommands {
  import opened Types
  import opened Db
  import opened AnsweredQuestionMapper
  import opened AnsweredQuestionService
  import PointHistoryService
  import PointUtil
  import ParticipationService

  /** ValidateUserCertificationCommand.execute: the certification check, then the request checks;
      it writes nothing. */
  function ValidateUserCertificationSpec(t: Tables, surveyCertificationList: seq<int>, u: UserId, s: SurveyId, now: Time): (r: Run<Tables>)
    requires s in t.surveys
    ensures r.state == t
    ensures r.failure.None? <==> ValidateEligibility(t, surveyCertificationList, u, s, now).Pass?
    ensures r.failure.Some? ==> r.failure.value == ValidateEligibility(t, surveyCertificationList, u, s, now).error
  {
    var checked := ValidateEligibility(t, surveyCertificationList, u, s, now);
    Run(t, if checked.Fail? then Some(checked.error) else None)
  }

  /** SaveAnswerCommand.execute on the tables: the answer loop, starting from the reward already
      held by the command, then ANSWER_AT_LEAST_ONE_QUESTION when every answer was empty. */
  function SaveAnswerSpec(t: Tables, u: UserId, s: SurveyId, answers: seq<AnsweredQuestionDto>, rewardPoints0: int): (r: Run<Progress>)
    ensures r.state == SaveAnswersRun(Progress(t, rewardPoints0, false), u, s, answers).state
  {
    var run := SaveAnswersRun(Progress(t, rewardPoints0, false), u, s, answers);
    if run.failure.None? && !run.state.isAnswered then Run(run.state, Some(ANSWER_AT_LEAST_ONE_QUESTION)) else run
  }

  /** The loop and the final check of SaveAnswerCommand.execute, given the reward the command
      holds; returns the reward it holds afterwards. */
  method ExecuteSaveAnswer(db: Database, u: UserId, s: SurveyId, answers: seq<AnsweredQuestionDto>, rewardPoints0: int)
    returns (rewardPoints: int, r: Outcome)
    modifies db
    ensures var run := SaveAnswerSpec(old(db.State()), u, s, answers, rewardPoints0);
      db.State() == run.state.tables && rewardPoints == run.state.rewardPoints
      && r == (if run.failure.Some? then Fail(run.failure.value) else Pass)
  {
    var isAnswered, failure;
    rewardPoints, isAnswered, failure := SaveAnswers(db, u, s, answers, rewardPoints0);
    if failure.Some? {
      return rewardPoints, Fail(failure.value);
    }
    if !isAnswered {
      return rewardPoints, Fail(ANSWER_AT_LEAST_ONE_QUESTION);
    }
    r := Pass;
  }

  /** SaveAnswerCommand: the request, the respondent and the survey are fixed when the command is
      built; `rewardPoints` accumulates over executions and is read back by the caller. */
  class SaveAnswerCommand {
    const answers: seq<AnsweredQuestionDto>
    const user: UserId
    const survey: SurveyId
    var rewardPoints: int

    constructor (answers: seq<AnsweredQuestionDto>, user: UserId, survey: SurveyId)
      ensures this.answers == answers && this.user == user && this.survey == survey
      ensures rewardPoints == 0
    {
      this.answers, this.user, this.survey := answers, user, survey;
      rewardPoints := 0;
    }

    method Execute(db: Database) returns (r: Outcome)
      modifies this, db
      ensures var run := SaveAnswerSpec(old(db.State()), user, survey, answers, old(rewardPoints));
        db.State() == run.state.tables && rewardPoints == run.state.rewardPoints
        && r == (if run.failure.Some? then Fail(run.failure.value) else Pass)
    {
      var reward;
      reward, r := ExecuteSaveAnswer(db, user, survey, answers, rewardPoints);
      rewardPoints := reward;
    }
  }

  /** A fresh command that completes has summed the rewards of the non-empty answers and stored
      RowCount rows; it completes exactly when every answer is acceptable and one is non-empty. */
  lemma SaveAnswerCompletes(t: Tables, u: UserId, s: SurveyId, answers: seq<AnsweredQuestionDto>)
    ensures var run := SaveAnswerSpec(t, u, s, answers, 0);
      (run.failure.None? <==>
         (forall i :: 0 <= i < |answers| ==> AnswerAcceptable(t, s, answers[i]))
         && exists i :: 0 <= i < |answers| && !ValidateEmptyAnswer(answers[i]))
      && (run.failure.None? ==>
            run.state.rewardPoints == AnswersReward(answers)
            && |run.state.tables.answeredQuestions| == |t.answeredQuestions| + RowCount(answers))
  {
    SaveAnswersRunSummary(Progress(t, 0, false), u, s, answers);
  }

  /** One single-choice answer: reward 1 and exactly one stored row. */
  lemma SaveOneSingleChoiceAnswer(t: Tables, u: UserId, s: SurveyId, dto: AnsweredQuestionDto)
    requires dto.questionType == SINGLE_CHOICE && dto.singleChoice.Some? && dto.multipleChoices.None?
    requires AnswerAcceptable(t, s, dto)
    ensures var run := SaveAnswerSpec(t, u, s, [dto], 0);
      run.failure.None? && run.state.rewardPoints == 1
      && |run.state.tables.answeredQuestions| == |t.answeredQuestions| + 1
  {
    SaveAnswerCompletes(t, u, s, [dto]);
    PointUtil.SingleChoicePoints();
    assert [dto][..0] == [];
    assert !ValidateEmptyAnswer([dto][0]);
  }

  /** SaveParticipationCommand.execute: the respondent's rows for the converted list. */
  function SaveParticipationSpec(t: Tables, u: UserId, s: SurveyId, surveyCertificationList: seq<int>): (r: Run<Tables>)
    requires forall i :: 0 <= i < |surveyCertificationList| ==> 0 <= surveyCertificationList[i] <= 6
    ensures r.failure.None?
    ensures r.state == t.(participations := t.participations
                            + ParticipationService.ParticipationRows(u, GetCertificationTypeList(surveyCertificationList), s))
  {
    Run(t.(participations := t.participations + ParticipationService.ParticipationRows(u, GetCertificationTypeList(surveyCertificationList), s)), None)
  }

  method SaveParticipation(db: Database, u: UserId, s: SurveyId, surveyCertificationList: seq<int>)
    requires forall i :: 0 <= i < |surveyCertificationList| ==> 0 <= surveyCertificationList[i] <= 6
    modifies db
    ensures db.State() == SaveParticipationSpec(old(db.State()), u, s, surveyCertificationList).state
  {
    ParticipationService.CreateParticipation(db, u, GetCertificationTypeList(surveyCertificationList), s);
  }

  /** A list holding NONE gives the respondent exactly one row, of type NONE; a non-empty list
      always gives at least one row, all for this respondent and survey. */
  lemma SaveParticipationRows(t: Tables, u: UserId, s: SurveyId, surveyCertificationList: seq<int>)
    requires forall i :: 0 <= i < |surveyCertificationList| ==> 0 <= surveyCertificationList[i] <= 6
    ensures var added := SaveParticipationSpec(t, u, s, surveyCertificationList).state.participations[|t.participations|..];
      (NONE.Id() in surveyCertificationList ==> added == [Ids.ParticipationId(NONE, s, u)])
      && (surveyCertificationList != [] ==> added != [])
      && (forall p :: p in added ==> p.user == u && p.survey == s)
  {
    var types := GetCertificationTypeList(surveyCertificationList);
    var added := SaveParticipationSpec(t, u, s, surveyCertificationList).state.participations[|t.participations|..];
    assert added == ParticipationService.ParticipationRows(u, types, s);
    ParticipationService.ParticipationRowsCarryUserAndSurvey(u, types, s);
  }

  /** AnsweredQuestionCreateCommands.SavePointHistoryCommand.execute: savePointHistory with the
      reward as operand. */
  function CreditPointHistorySpec(t: Tables, u: UserId, rewardPoints: int, now: Time): (r: Run<Tables>)
    requires HasLedger(t, u)
  {
    match PointHistoryService.SavePointHistorySpec(t, u, rewardPoints, now)
    case Err(e) => Run(t, Some(e))
    case Ok(t') => Run(t', None)
  }

  method CreditPointHistory(db: Database, u: UserId, rewardPoints: int, now: Time) returns (r: Outcome)
    requires HasLedger(db.State(), u)
    modifies db
    ensures var run := CreditPointHistorySpec(old(db.State()), u, rewardPoints, now);
      db.State() == run.state && r == (if run.failure.Some? then Fail(run.failure.value) else Pass)
  {
    r := PointHistoryService.SavePointHistory(db, u, rewardPoints, now);
  }

  /** A non-negative reward is never refused on a ledger without negative balances: exactly one row
      is appended, holding the old balance plus the reward, and nothing else changes. */
  lemma CreditPointHistoryAppendsOne(t: Tables, u: UserId, rewardPoints: int, now: Time)
    requires HasLedger(t, u) && LedgerNonNegative(t) && rewardPoints >= 0
    ensures var run := CreditPointHistorySpec(t, u, rewardPoints, now);
      run.failure.None? && HasLedger(run.state, u)
      && run.state == t.(pointHistories := run.state.pointHistories)
      && run.state.pointHistories == t.pointHistories[u := run.state.pointHistories[u]]
      && |run.state.pointHistories[u]| == |t.pointHistories[u]| + 1
      && run.state.pointHistories[u][..|t.pointHistories[u]|] == t.pointHistories[u]
      && LatestPoint(run.state, u) == LatestPoint(t, u) + rewardPoints
  {
    PointHistoryService.CreditNeverRefused(t, u, rewardPoints, now);
    var t' := CreditPointHistorySpec(t, u, rewardPoints, now).state;
    assert t'.pointHistories[u][..|t.pointHistories[u]|] == t.pointHistories[u];
  }

  /** AnsweredQuestionCreateCommands.UpdateUserPointsCommand.execute: `user.point` grows by the
      reward, with no bound check, and the user is saved. */
  function CreditUserPointsSpec(t: Tables, u: UserId, rewardPoints: int): (r: Run<Tables>)
    requires u in t.users
    ensures r.failure.None?
    ensures u in r.state.users && r.state.users[u].point == t.users[u].point + rewardPoints
    ensures r.state.users[u] == t.users[u].(point := r.state.users[u].point)
    ensures r.state == t.(users := t.users[u := r.state.users[u]])
  {
    Run(t.(users := t.users[u := t.users[u].(point := t.users[u].point + rewardPoints)]), None)
  }

  method CreditUserPoints(db: Database, u: UserId, rewardPoints: int)
    requires u in db.users
    modifies db
    ensures db.State() == CreditUserPointsSpec(old(db.State()), u, rewardPoints).state
  {
    var user := db.users[u];
    db.SaveUser(u, user.(point := user.point + rewardPoints));
  }

  /** Crediting the ledger and then the point field by the same reward keeps the two stores in
      agreement, and keeps every ledger balance non-negative. */
  lemma CreditsKeepInSync(t: Tables, u: UserId, rewardPoints: int, now: Time)
    requires InSync(t) && LedgerNonNegative(t) && u in t.users && rewardPoints >= 0
    ensures var t1 := CreditPointHistorySpec(t, u, rewardPoints, now).state;
      u in t1.users && InSync(CreditUserPointsSpec(t1, u, rewardPoints).state)
      && LedgerNonNegative(CreditUserPointsSpec(t1, u, rewardPoints).state)
  {
    CreditPointHistoryAppendsOne(t, u, rewardPoints, now);
    var t1 := CreditPointHistorySpec(t, u, rewardPoints, now).state;
    PointHistoryService.SavePointHistoryKeepsLedgerNonNegative(t, u, rewardPoints, now);
    var entry := t1.pointHistories[u][|t1.pointHistories[u]| - 1];
    BothBalancesMoved(t, CreditUserPointsSpec(t1, u, rewardPoints).state, u, rewardPoints, entry);
  }

  /** A respondent at the initial 50 points who earns one single-choice reward holds 51 in both
      stores. */
  lemma FiftyPlusOneSingleChoiceReward(t: Tables, u: UserId, now: Time)
    requires InSync(t) && LedgerNonNegative(t) && u in t.users && t.users[u].point == PointUtil.USER_INITIAL_POINT
    ensures var reward := PointUtil.CalculateSurveyMaxRewardPoints(SINGLE_CHOICE);
      var t2 := CreditUserPointsSpec(CreditPointHistorySpec(t, u, reward, now).state, u, reward).state;
      t2.users[u].point == 51 && LatestPoint(t2, u) == 51
  {
    PointUtil.SingleChoicePoints();
    CreditsKeepInSync(t, u, 1, now);
    CreditPointHistoryAppendsOne(t, u, 1, now);
  }
}
