/** AnsweredQuestionService.createAnswer: a respondent's submission to a survey. The eligibility
    checks (certifications, then one submission per user, not the author, inside the time
    window), then each answer in order (a required answer may not be empty, its bank must exist
    and be a question of the survey; it is stored as one row, or one row per selected choice),
    then at least one answer must be non-empty; finally the respondent's participation rows, the
    ledger credit and the `user.point` credit. The method is @Transactional: an error leaves the
    tables as they were. */
module AnsweredQuestionService {
  import opened Types
  import opened Ids
  import opened Db
  import opened Strings
  import opened AnsweredQuestionMapper
  import PointUtil
  import PointHistoryService
  import ParticipationService
  import SurveyMapper
  import UserCertificationService

  datatype AnsweredQuestionRequest = AnsweredQuestionRequest(surveyId: SurveyId, answers: seq<AnsweredQuestionDto>)

  /** validateEmptyAnswer: no text after trimming, no single choice and no selected choice. */
  predicate ValidateEmptyAnswer(dto: AnsweredQuestionDto)
  {
    (dto.longAnswer.None? || TrimShortLongAnswer(dto.longAnswer.value, dto.isRequired) == [])
    && (dto.shortAnswer.None? || TrimShortLongAnswer(dto.shortAnswer.value, dto.isRequired) == [])
    && dto.singleChoice.None?
    && (dto.multipleChoices.None? || dto.multipleChoices.value == [])
  }

  /** An answer is empty exactly when its texts are absent or blank (white space and control
      characters only) and no choice is made. */
  lemma EmptyAnswerMeansBlank(dto: AnsweredQuestionDto)
    ensures ValidateEmptyAnswer(dto) <==>
      (dto.longAnswer.None? || IsBlank(dto.longAnswer.value))
      && (dto.shortAnswer.None? || IsBlank(dto.shortAnswer.value))
      && dto.singleChoice.None?
      && (dto.multipleChoices.None? || |dto.multipleChoices.value| == 0)
  {
  }

  /** getQuestionBankRewardPoints: the per-type reward of the type the client sent, or nothing for
      an empty answer. */
  function GetQuestionBankRewardPoints(dto: AnsweredQuestionDto): (r: nat)
    ensures ValidateEmptyAnswer(dto) ==> r == 0
    ensures !ValidateEmptyAnswer(dto) ==> r == PointUtil.CalculateSurveyMaxRewardPoints(dto.questionType)
  {
    if !ValidateEmptyAnswer(dto) then PointUtil.CalculateSurveyMaxRewardPoints(dto.questionType) else 0
  }

  /** validateUserCompletedCertification: a survey whose list holds NONE's id admits everybody;
      otherwise the user must hold every listed certification. */
  function ValidateUserCompletedCertification(surveyCertificationList: seq<int>, userCertificationList: set<int>): (r: Outcome)
    ensures r.Pass? <==> (NONE.Id() in surveyCertificationList
                          || forall i :: 0 <= i < |surveyCertificationList| ==> surveyCertificationList[i] in userCertificationList)
    ensures r.Fail? ==> r.error == CERTIFICATION_NOT_COMPLETED
  {
    if NONE.Id() in surveyCertificationList then Pass
    else if forall i :: 0 <= i < |surveyCertificationList| ==> surveyCertificationList[i] in userCertificationList then Pass
    else Fail(CERTIFICATION_NOT_COMPLETED)
  }

  /** validateCreateAnswerRequest: one submission per user, not by the author, and `now` inside
      the survey's window, both ends included; the first broken rule is reported. */
  function ValidateCreateAnswerRequest(t: Tables, u: UserId, s: SurveyId, now: Time): (r: Outcome)
    requires s in t.surveys
    ensures r == Fail(ANSWER_ALREADY_SUBMITTED) <==> HasAnswered(t.answeredQuestions, u, s)
    ensures r == Fail(CREATOR_CANNOT_ANSWER) <==> !HasAnswered(t.answeredQuestions, u, s) && u == t.surveys[s].authorId
    ensures r == Fail(SURVEY_NOT_STARTED) <==>
      !HasAnswered(t.answeredQuestions, u, s) && u != t.surveys[s].authorId && now < t.surveys[s].startedDate
    ensures r == Fail(SURVEY_ALREADY_ENDED) <==>
      !HasAnswered(t.answeredQuestions, u, s) && u != t.surveys[s].authorId && t.surveys[s].startedDate <= now
      && now > t.surveys[s].endedDate
    ensures r.Pass? <==>
      !HasAnswered(t.answeredQuestions, u, s) && u != t.surveys[s].authorId
      && t.surveys[s].startedDate <= now <= t.surveys[s].endedDate
  {
    var survey := t.surveys[s];
    if HasAnswered(t.answeredQuestions, u, s) then Fail(ANSWER_ALREADY_SUBMITTED)
    else if u == survey.authorId then Fail(CREATOR_CANNOT_ANSWER)
    else if now < survey.startedDate then Fail(SURVEY_NOT_STARTED)
    else if now > survey.endedDate then Fail(SURVEY_ALREADY_ENDED)
    else Pass
  }

  /** The eligibility checks in order: certifications first, then the request rules. It reads the
      tables and changes nothing. */
  function ValidateEligibility(t: Tables, surveyCertificationList: seq<int>, u: UserId, s: SurveyId, now: Time): (r: Outcome)
    requires s in t.surveys
    ensures ValidateUserCompletedCertification(surveyCertificationList, UserCertificationIds(t.userCertifications, u)).Fail?
            ==> r == Fail(CERTIFICATION_NOT_COMPLETED)
    ensures ValidateUserCompletedCertification(surveyCertificationList, UserCertificationIds(t.userCertifications, u)).Pass?
            ==> r == ValidateCreateAnswerRequest(t, u, s, now)
  {
    var certified := ValidateUserCompletedCertification(surveyCertificationList, UserCertificationIds(t.userCertifications, u));
    if certified.Fail? then certified else ValidateCreateAnswerRequest(t, u, s, now)
  }

  /** The certification ids of the survey's own (author) participation rows. */
  function SurveyCertificationList(t: Tables, s: SurveyId): (ids: seq<int>)
    requires s in t.surveys
    ensures forall i :: 0 <= i < |ids| ==> 0 <= ids[i] <= 6
  {
    SurveyMapper.ParticipationIdsValid(t.participations, s, t.surveys[s].authorId);
    ParticipationCertificationIds(t.participations, s, t.surveys[s].authorId)
  }

  /** The certification check agrees with the types the survey reports: a user passes exactly when
      they hold a certification of every type the survey lists (a survey listed as NONE reports
      no type, and everybody passes). */
  lemma CertificationCheckMatchesReportedTypes(t: Tables, s: SurveyId, u: UserId)
    requires s in t.surveys
    ensures ValidateUserCompletedCertification(SurveyCertificationList(t, s), UserCertificationIds(t.userCertifications, u)).Pass?
        <==> forall c :: c in SurveyMapper.SurveyCertificationTypes(t, s, t.surveys[s].authorId)
               ==> Ids.UserCertificationId(u, c) in t.userCertifications
  {
    var ids := SurveyCertificationList(t, s);
    var reported := SurveyMapper.SurveyCertificationTypes(t, s, t.surveys[s].authorId);
    SurveyMapper.ParticipationIdsValid(t.participations, s, t.surveys[s].authorId);
    if NONE.Id() !in ids {
      assert |reported| == |ids|;
      forall i | 0 <= i < |ids|
        ensures ids[i] in UserCertificationIds(t.userCertifications, u) <==> Ids.UserCertificationId(u, reported[i]) in t.userCertifications
      {
        UserCertificationService.HeldHasRow(t.userCertifications, u, reported[i]);
      }
      if forall c :: c in reported ==> Ids.UserCertificationId(u, c) in t.userCertifications {
        forall i | 0 <= i < |ids|
          ensures ids[i] in UserCertificationIds(t.userCertifications, u)
        {
          assert reported[i] in reported;
        }
      }
    }
  }

  /** getCertificationTypeList: the participation rows a respondent gets. A list with NONE's id
      gives exactly [NONE]; any other list is converted id by id. */
  function GetCertificationTypeList(surveyCertificationList: seq<int>): (r: seq<CertificationType>)
    requires forall i :: 0 <= i < |surveyCertificationList| ==> 0 <= surveyCertificationList[i] <= 6
    ensures NONE.Id() in surveyCertificationList ==> r == [NONE]
    ensures NONE.Id() !in surveyCertificationList ==>
      |r| == |surveyCertificationList| && forall i :: 0 <= i < |r| ==> r[i].Id() == surveyCertificationList[i]
    ensures surveyCertificationList != [] ==> r != []
  {
    if NONE.Id() in surveyCertificationList then [NONE]
    else SurveyMapper.GetConvertedCertificationTypes(surveyCertificationList)
  }

  /** What the answer loop carries: the tables, the reward summed so far and whether a non-empty
      answer was seen. */
  datatype Progress = Progress(tables: Tables, rewardPoints: int, isAnswered: bool)

  predicate NoMultipleChoices(dto: AnsweredQuestionDto)
  {
    dto.multipleChoices.None? || dto.multipleChoices.value == []
  }

  /** The rows stored for one answer, given the next free answer id. */
  function AnswerRows(dto: AnsweredQuestionDto, u: UserId, s: SurveyId, firstId: nat): (rows: seq<AnsweredQuestion>)
    ensures NoMultipleChoices(dto) ==> |rows| == 1
    ensures !NoMultipleChoices(dto) ==> |rows| == |dto.multipleChoices.value|
    ensures forall i :: 0 <= i < |rows| ==>
      rows[i].id.user == u && rows[i].id.survey == s && rows[i].id.questionBank == dto.questionBankId
      && rows[i].id.answerId == firstId + i
  {
    var q := QuestionId(s, dto.questionBankId);
    if NoMultipleChoices(dto) then [ToAnsweredQuestion(dto, u, q, firstId)]
    else MultipleChoiceRows(u, q, dto.multipleChoices.value, firstId)
  }

  /** The tables after one answer's rows are saved. */
  function SaveAnswerRows(t: Tables, u: UserId, s: SurveyId, dto: AnsweredQuestionDto): Tables
  {
    var rows := AnswerRows(dto, u, s, t.nextAnswerId);
    t.(answeredQuestions := t.answeredQuestions + rows, nextAnswerId := t.nextAnswerId + |rows|)
  }

  /** One answer: the required check, the bank lookup, the survey-membership check, then the rows
      and the reward. */
  function SaveOneAnswer(p: Progress, u: UserId, s: SurveyId, dto: AnsweredQuestionDto): Result<Progress>
  {
    if dto.isRequired && ValidateEmptyAnswer(dto) then Err(NOT_ANSWER_TO_REQUIRED_QUESTION)
    else if dto.questionBankId !in p.tables.questionBanks then Err(QUESTION_BANK_NOT_FOUND)
    else if QuestionId(s, dto.questionBankId) !in p.tables.questions then Err(NOT_SURVEY_QUESTION)
    else Ok(Progress(SaveAnswerRows(p.tables, u, s, dto),
                     p.rewardPoints + GetQuestionBankRewardPoints(dto),
                     p.isAnswered || !ValidateEmptyAnswer(dto)))
  }

  /** Only the answer table and its id counter differ. */
  predicate OnlyAnswersChanged(t: Tables, t': Tables)
  {
    t' == t.(answeredQuestions := t'.answeredQuestions, nextAnswerId := t'.nextAnswerId)
  }

  /** The answer loop over a list, stopping at the first error with the writes made so far. */
  function SaveAnswersRun(p0: Progress, u: UserId, s: SurveyId, answers: seq<AnsweredQuestionDto>): (r: Run<Progress>)
    ensures OnlyAnswersChanged(p0.tables, r.state.tables)
    decreases |answers|
  {
    if answers == [] then Run(p0, None)
    else
      var n := |answers|;
      var front := SaveAnswersRun(p0, u, s, answers[..n - 1]);
      if front.failure.Some? then front
      else match SaveOneAnswer(front.state, u, s, answers[n - 1])
        case Err(e) => Run(front.state, Some(e))
        case Ok(p) => Run(p, None)
  }

  /** One more answer: the run over the first k + 1 answers from the run over the first k. */
  lemma SaveAnswersRunStep(p0: Progress, u: UserId, s: SurveyId, answers: seq<AnsweredQuestionDto>, k: nat)
    requires k < |answers|
    ensures var front := SaveAnswersRun(p0, u, s, answers[..k]);
      SaveAnswersRun(p0, u, s, answers[..k + 1])
      == if front.failure.Some? then front
         else match SaveOneAnswer(front.state, u, s, answers[k])
           case Err(e) => Run(front.state, Some(e))
           case Ok(p) => Run(p, None)
  {
    assert answers[..k + 1][..k] == answers[..k];
  }

  /** The loop's step from the progress `before` over the first i answers: an accepted answer
      extends the run, a refused one ends the whole run there. */
  lemma SaveAnswersAdvance(p0: Progress, u: UserId, s: SurveyId, answers: seq<AnsweredQuestionDto>, i: nat, before: Progress)
    requires i < |answers| && SaveAnswersRun(p0, u, s, answers[..i]) == Run(before, None)
    ensures var r := SaveOneAnswer(before, u, s, answers[i]);
      (r.Ok? ==> SaveAnswersRun(p0, u, s, answers[..i + 1]) == Run(r.value, None))
      && (r.Err? ==> SaveAnswersRun(p0, u, s, answers) == Run(before, Some(r.error)))
  {
    SaveAnswersRunStep(p0, u, s, answers, i);
    if SaveOneAnswer(before, u, s, answers[i]).Err? {
      SaveAnswersRunStops(p0, u, s, answers, i + 1);
    }
  }

  /** Once the loop has thrown, later answers change nothing. */
  lemma {:induction false} SaveAnswersRunStops(p0: Progress, u: UserId, s: SurveyId, answers: seq<AnsweredQuestionDto>, k: nat)
    requires k <= |answers|
    requires SaveAnswersRun(p0, u, s, answers[..k]).failure.Some?
    ensures SaveAnswersRun(p0, u, s, answers) == SaveAnswersRun(p0, u, s, answers[..k])
    decreases |answers| - k
  {
    if k < |answers| {
      var n := |answers|;
      assert answers[..n - 1][..k] == answers[..k];
      SaveAnswersRunStops(p0, u, s, answers[..n - 1], k);
    } else {
      assert answers[..k] == answers;
    }
  }

  /** Stores one answer's rows: a single row, or one row per selected choice in list order. */
  method SaveAnswerRowsOf(db: Database, u: UserId, s: SurveyId, dto: AnsweredQuestionDto)
    modifies db
    ensures db.State() == SaveAnswerRows(old(db.State()), u, s, dto)
  {
    var q := QuestionId(s, dto.questionBankId);
    if NoMultipleChoices(dto) {
      db.SaveAnsweredQuestion(ToAnsweredQuestion(dto, u, q, db.nextAnswerId));
    } else {
      var choices := dto.multipleChoices.value;
      ghost var firstId := db.nextAnswerId;
      for j := 0 to |choices|
        invariant db.State() == old(db.State()).(answeredQuestions := old(db.answeredQuestions) + MultipleChoiceRows(u, q, choices[..j], firstId),
                                                 nextAnswerId := firstId + j)
      {
        assert choices[..j + 1][..j] == choices[..j];
        db.SaveAnsweredQuestion(ToAnsweredQuestionWithMultipleChoices(u, q, choices[j], db.nextAnswerId));
      }
      assert choices[..|choices|] == choices;
    }
  }

  /** The body of the answer loop for one answer, in the source's order: the required check, the
      isAnswered flag, the bank lookup, the survey-membership check, the rows, the reward. */
  method SaveOneAnswerOf(db: Database, u: UserId, s: SurveyId, dto: AnsweredQuestionDto, rewardPoints: int, isAnswered: bool)
    returns (rewardPoints': int, isAnswered': bool, failure: Option<ErrorMessage>)
    modifies db
    ensures var r := SaveOneAnswer(Progress(old(db.State()), rewardPoints, isAnswered), u, s, dto);
      (r.Err? ==> failure == Some(r.error) && db.State() == old(db.State()))
      && (r.Ok? ==> failure.None? && r.value == Progress(db.State(), rewardPoints', isAnswered'))
  {
    rewardPoints', isAnswered', failure := rewardPoints, isAnswered, None;
    if dto.isRequired && ValidateEmptyAnswer(dto) {
      failure := Some(NOT_ANSWER_TO_REQUIRED_QUESTION);
      return;
    }
    if !isAnswered' && !ValidateEmptyAnswer(dto) {
      isAnswered' := true;
    }
    if dto.questionBankId !in db.questionBanks {
      failure := Some(QUESTION_BANK_NOT_FOUND);
      return;
    }
    if QuestionId(s, dto.questionBankId) !in db.questions {
      failure := Some(NOT_SURVEY_QUESTION);
      return;
    }
    SaveAnswerRowsOf(db, u, s, dto);
    rewardPoints' := rewardPoints + GetQuestionBankRewardPoints(dto);
  }

  /** The answer loop of createAnswer and of SaveAnswerCommand.execute. `rewardPoints0` is the
      reward the loop starts from. On an error the rows of the answers before it stay written and
      the reward summed up to it is returned; `isAnswered` is meaningful only without an error. */
  method SaveAnswers(db: Database, u: UserId, s: SurveyId, answers: seq<AnsweredQuestionDto>, rewardPoints0: int)
    returns (rewardPoints: int, isAnswered: bool, failure: Option<ErrorMessage>)
    modifies db
    ensures var run := SaveAnswersRun(Progress(old(db.State()), rewardPoints0, false), u, s, answers);
      db.State() == run.state.tables && rewardPoints == run.state.rewardPoints && failure == run.failure
      && (failure.None? ==> isAnswered == run.state.isAnswered)
  {
    ghost var p0 := Progress(db.State(), rewardPoints0, false);
    rewardPoints, isAnswered, failure := rewardPoints0, false, None;
    var i := 0;
    while i < |answers|
      invariant 0 <= i <= |answers|
      invariant SaveAnswersRun(p0, u, s, answers[..i]) == Run(Progress(db.State(), rewardPoints, isAnswered), None)
    {
      SaveAnswersAdvance(p0, u, s, answers, i, Progress(db.State(), rewardPoints, isAnswered));
      var reward', answered', f := SaveOneAnswerOf(db, u, s, answers[i], rewardPoints, isAnswered);
      if f.Some? {
        failure := f;
        return;
      }
      rewardPoints, isAnswered := reward', answered';
      i := i + 1;
    }
    assert answers[..|answers|] == answers;
  }

  /** createAnswer on the tables: the reward on success, the first error otherwise. The ledger
      credit cannot be refused when the ledger holds no negative balance, but is propagated as the
      source does. */
  function CreateAnswerSpec(t: Tables, u: UserId, req: AnsweredQuestionRequest, now: Time): Result<(Tables, int)>
    requires u in t.users && HasLedger(t, u)
  {
    var s := req.surveyId;
    if s !in t.surveys then Err(SURVEY_NOT_FOUND)
    else
      var certs := SurveyCertificationList(t, s);
      var eligible := ValidateEligibility(t, certs, u, s, now);
      if eligible.Fail? then Err(eligible.error)
      else SubmitAnswersSpec(t, u, s, req.answers, certs, now)
  }

  /** What createAnswer does once the user is found eligible: the answer loop, the participation
      rows for the survey's certification types, the ledger row and the point field. */
  function SubmitAnswersSpec(t: Tables, u: UserId, s: SurveyId, answers: seq<AnsweredQuestionDto>,
                             certs: seq<int>, now: Time): Result<(Tables, int)>
    requires u in t.users && HasLedger(t, u)
    requires forall i :: 0 <= i < |certs| ==> 0 <= certs[i] <= 6
  {
    var run := SaveAnswersRun(Progress(t, 0, false), u, s, answers);
    if run.failure.Some? then Err(run.failure.value)
    else if !run.state.isAnswered then Err(ANSWER_AT_LEAST_ONE_QUESTION)
    else
      var t1 := run.state.tables;
      var reward := run.state.rewardPoints;
      var t2 := t1.(participations := t1.participations + ParticipationService.ParticipationRows(u, GetCertificationTypeList(certs), s));
      CreditSpec(t2, u, reward, now)
  }

  /** createAnswer's last two writes: the ledger row, then the point field, both by the reward. */
  function CreditSpec(t: Tables, u: UserId, reward: int, now: Time): Result<(Tables, int)>
    requires u in t.users && HasLedger(t, u)
  {
    match PointHistoryService.SavePointHistorySpec(t, u, reward, now)
    case Err(e) => Err(e)
    case Ok(t3) => Ok((t3.(users := t3.users[u := t3.users[u].(point := t3.users[u].point + reward)]), reward))
  }

  method CreateAnswer(db: Database, u: UserId, req: AnsweredQuestionRequest, now: Time) returns (r: Result<int>)
    requires u in db.users && HasLedger(db.State(), u)
    modifies db
    ensures var spec := CreateAnswerSpec(old(db.State()), u, req, now);
      (spec.Err? ==> r == Err(spec.error) && db.State() == old(db.State()))
      && (spec.Ok? ==> r == Ok(spec.value.1) && db.State() == spec.value.0)
  {
    var s := req.surveyId;
    if s !in db.surveys {
      return Err(SURVEY_NOT_FOUND);
    }
    var certs := ParticipationCertificationIds(db.participations, s, db.surveys[s].authorId);
    var certified := ValidateUserCompletedCertification(certs, UserCertificationIds(db.userCertifications, u));
    if certified.Fail? {
      return Err(certified.error);
    }
    var allowed := ValidateCreateAnswerRequest(db.State(), u, s, now);
    if allowed.Fail? {
      return Err(allowed.error);
    }
    assert certs == SurveyCertificationList(db.State(), s);
    r := SubmitAnswers(db, u, s, req.answers, certs, now);
  }

  /** The writes of createAnswer; any refusal rolls all of them back. */
  method SubmitAnswers(db: Database, u: UserId, s: SurveyId, answers: seq<AnsweredQuestionDto>,
                       certs: seq<int>, now: Time) returns (r: Result<int>)
    requires u in db.users && HasLedger(db.State(), u)
    requires forall i :: 0 <= i < |certs| ==> 0 <= certs[i] <= 6
    modifies db
    ensures var spec := SubmitAnswersSpec(old(db.State()), u, s, answers, certs, now);
      (spec.Err? ==> r == Err(spec.error) && db.State() == old(db.State()))
      && (spec.Ok? ==> r == Ok(spec.value.1) && db.State() == spec.value.0)
  {
    var snapshot := db.State();
    ghost var run := SaveAnswersRun(Progress(snapshot, 0, false), u, s, answers);
    var rewardPoints, isAnswered, failure := SaveAnswers(db, u, s, answers, 0);
    if failure.Some? {
      db.Restore(snapshot);
      return Err(failure.value);
    }
    if !isAnswered {
      db.Restore(snapshot);
      return Err(ANSWER_AT_LEAST_ONE_QUESTION);
    }
    ParticipationService.CreateParticipation(db, u, GetCertificationTypeList(certs), s);
    r := Credit(db, u, rewardPoints, now);
    if r.Err? {
      db.Restore(snapshot);
    }
  }

  /** The ledger row and then the point field, both by the reward. */
  method Credit(db: Database, u: UserId, rewardPoints: int, now: Time) returns (r: Result<int>)
    requires u in db.users && HasLedger(db.State(), u)
    modifies db
    ensures var spec := CreditSpec(old(db.State()), u, rewardPoints, now);
      (spec.Err? ==> r == Err(spec.error)) && (spec.Ok? ==> r == Ok(spec.value.1) && db.State() == spec.value.0)
  {
    var saved := PointHistoryService.SavePointHistory(db, u, rewardPoints, now);
    if saved.Fail? {
      return Err(saved.error);
    }
    var user := db.users[u];
    db.SaveUser(u, user.(point := user.point + rewardPoints));
    return Ok(rewardPoints);
  }

  /** The reward of a list of answers: the per-answer rewards summed. */
  function AnswersReward(answers: seq<AnsweredQuestionDto>): nat
  {
    if answers == [] then 0 else AnswersReward(answers[..|answers| - 1]) + GetQuestionBankRewardPoints(answers[|answers| - 1])
  }

  /** The number of rows a list of answers is stored as: one per answer without a selection, one
      per selected choice otherwise. */
  function RowCount(answers: seq<AnsweredQuestionDto>): nat
  {
    if answers == [] then 0
    else
      var dto := answers[|answers| - 1];
      RowCount(answers[..|answers| - 1]) + (if NoMultipleChoices(dto) then 1 else |dto.multipleChoices.value|)
  }

  /** An answer the loop stores rather than throws on: a required one is not empty, and its bank
      exists and is a question of the survey. */
  predicate AnswerAcceptable(t: Tables, s: SurveyId, dto: AnsweredQuestionDto)
  {
    !(dto.isRequired && ValidateEmptyAnswer(dto))
    && dto.questionBankId in t.questionBanks && QuestionId(s, dto.questionBankId) in t.questions
  }

  /** The loop completes exactly when every answer is acceptable; it then adds the summed reward,
      records whether some answer was non-empty, and appends RowCount rows, each keyed by the
      respondent, the survey and a bank of an answer. */
  lemma SaveAnswersRunSummary(p0: Progress, u: UserId, s: SurveyId, answers: seq<AnsweredQuestionDto>)
    ensures var run := SaveAnswersRun(p0, u, s, answers);
      (run.failure.None? <==> forall i :: 0 <= i < |answers| ==> AnswerAcceptable(p0.tables, s, answers[i]))
      && (run.failure.None? ==>
            run.state.rewardPoints == p0.rewardPoints + AnswersReward(answers)
            && (run.state.isAnswered <==> p0.isAnswered || exists i :: 0 <= i < |answers| && !ValidateEmptyAnswer(answers[i]))
            && |run.state.tables.answeredQuestions| == |p0.tables.answeredQuestions| + RowCount(answers)
            && run.state.tables.answeredQuestions[..|p0.tables.answeredQuestions|] == p0.tables.answeredQuestions
            && forall j :: |p0.tables.answeredQuestions| <= j < |run.state.tables.answeredQuestions| ==>
                 run.state.tables.answeredQuestions[j].id.user == u && run.state.tables.answeredQuestions[j].id.survey == s)
  {
    SaveAnswersRunAccepts(p0, u, s, answers);
    SaveAnswersRunTotals(p0, u, s, answers);
    SaveAnswersRunRows(p0, u, s, answers);
  }

  /** The last step of a run that completed: the run over all but the last answer completed too,
      and the last answer was stored. */
  lemma SaveAnswersRunLast(p0: Progress, u: UserId, s: SurveyId, answers: seq<AnsweredQuestionDto>)
    requires answers != [] && SaveAnswersRun(p0, u, s, answers).failure.None?
    ensures var front := SaveAnswersRun(p0, u, s, answers[..|answers| - 1]);
      front.failure.None?
      && SaveOneAnswer(front.state, u, s, answers[|answers| - 1]) == Ok(SaveAnswersRun(p0, u, s, answers).state)
  {
  }

  lemma {:induction false} SaveAnswersRunAccepts(p0: Progress, u: UserId, s: SurveyId, answers: seq<AnsweredQuestionDto>)
    ensures SaveAnswersRun(p0, u, s, answers).failure.None?
        <==> forall i :: 0 <= i < |answers| ==> AnswerAcceptable(p0.tables, s, answers[i])
    decreases |answers|
  {
    if answers != [] {
      var n := |answers|;
      var front := answers[..n - 1];
      SaveAnswersRunAccepts(p0, u, s, front);
      var fr := SaveAnswersRun(p0, u, s, front);
      assert forall i :: 0 <= i < n - 1 ==> front[i] == answers[i];
      if fr.failure.None? {
        assert fr.state.tables.questionBanks == p0.tables.questionBanks && fr.state.tables.questions == p0.tables.questions;
        assert SaveOneAnswer(fr.state, u, s, answers[n - 1]).Ok? <==> AnswerAcceptable(p0.tables, s, answers[n - 1]);
      }
    }
  }

  /** Some answer of the list is non-empty. */
  predicate SomeNonEmpty(answers: seq<AnsweredQuestionDto>)
  {
    exists i :: 0 <= i < |answers| && !ValidateEmptyAnswer(answers[i])
  }

  lemma SomeNonEmptySplit(answers: seq<AnsweredQuestionDto>)
    requires answers != []
    ensures SomeNonEmpty(answers) <==> SomeNonEmpty(answers[..|answers| - 1]) || !ValidateEmptyAnswer(answers[|answers| - 1])
  {
    var n := |answers|;
    var front := answers[..n - 1];
    if SomeNonEmpty(answers) {
      var i :| 0 <= i < n && !ValidateEmptyAnswer(answers[i]);
      if i < n - 1 {
        assert front[i] == answers[i];
      }
    }
    if SomeNonEmpty(front) {
      var i :| 0 <= i < n - 1 && !ValidateEmptyAnswer(front[i]);
      assert answers[i] == front[i];
    }
  }

  lemma {:induction false} SaveAnswersRunTotals(p0: Progress, u: UserId, s: SurveyId, answers: seq<AnsweredQuestionDto>)
    ensures var run := SaveAnswersRun(p0, u, s, answers);
      run.failure.None? ==>
        run.state.rewardPoints == p0.rewardPoints + AnswersReward(answers)
        && (run.state.isAnswered <==> p0.isAnswered || SomeNonEmpty(answers))
    decreases |answers|
  {
    if answers != [] && SaveAnswersRun(p0, u, s, answers).failure.None? {
      var n := |answers|;
      var front, last := answers[..n - 1], answers[n - 1];
      SaveAnswersRunLast(p0, u, s, answers);
      SaveAnswersRunTotals(p0, u, s, front);
      SomeNonEmptySplit(answers);
    }
  }

  lemma {:induction false} SaveAnswersRunRows(p0: Progress, u: UserId, s: SurveyId, answers: seq<AnsweredQuestionDto>)
    ensures var run := SaveAnswersRun(p0, u, s, answers);
      var before, after := p0.tables.answeredQuestions, run.state.tables.answeredQuestions;
      run.failure.None? ==>
        |after| == |before| + RowCount(answers) && after[..|before|] == before
        && forall j :: |before| <= j < |after| ==> after[j].id.user == u && after[j].id.survey == s
    decreases |answers|
  {
    if answers != [] && SaveAnswersRun(p0, u, s, answers).failure.None? {
      var n := |answers|;
      var front, last := answers[..n - 1], answers[n - 1];
      SaveAnswersRunLast(p0, u, s, answers);
      SaveAnswersRunRows(p0, u, s, front);
      var fr := SaveAnswersRun(p0, u, s, front);
      var rows := AnswerRows(last, u, s, fr.state.tables.nextAnswerId);
      var after := SaveAnswersRun(p0, u, s, answers).state.tables.answeredQuestions;
      assert after == fr.state.tables.answeredQuestions + rows;
      assert after[..|p0.tables.answeredQuestions|] == p0.tables.answeredQuestions;
    }
  }

  /** After a successful loop in which some answer was non-empty, the respondent has answered the
      survey. */
  lemma AnsweredAfterSave(p0: Progress, u: UserId, s: SurveyId, answers: seq<AnsweredQuestionDto>)
    requires p0.isAnswered == false
    requires SaveAnswersRun(p0, u, s, answers).failure.None? && SaveAnswersRun(p0, u, s, answers).state.isAnswered
    ensures HasAnswered(SaveAnswersRun(p0, u, s, answers).state.tables.answeredQuestions, u, s)
  {
    SaveAnswersRunSummary(p0, u, s, answers);
    var i :| 0 <= i < |answers| && !ValidateEmptyAnswer(answers[i]);
    RowCountPositive(answers, i);
    var rows := SaveAnswersRun(p0, u, s, answers).state.tables.answeredQuestions;
    var j := |p0.tables.answeredQuestions|;
    assert rows[j].id.user == u && rows[j].id.survey == s;
  }

  lemma {:induction false} RowCountPositive(answers: seq<AnsweredQuestionDto>, i: nat)
    requires i < |answers|
    ensures RowCount(answers) > 0
  {
    var n := |answers|;
    if i < n - 1 {
      RowCountPositive(answers[..n - 1], i);
    }
  }

  /** A user without negative ledger balances, whose point field matches the ledger, is in sync
      after both stores move by the same delta. */
  lemma BothBalancesMoved(t: Tables, t': Tables, u: UserId, delta: int, entry: PointHistory)
    requires InSync(t) && u in t.users
    requires entry.point == LatestPoint(t, u) + delta
    requires t'.users == t.users[u := t.users[u].(point := t.users[u].point + delta)]
    requires t'.pointHistories == t.pointHistories[u := t.pointHistories[u] + [entry]]
    ensures InSync(t')
  {
  }

  /** On success both balance stores grow by the returned reward, which is the summed reward of
      the non-empty answers; the ledger gains exactly one row. */
  lemma CreateAnswerCreditsBoth(t: Tables, u: UserId, req: AnsweredQuestionRequest, now: Time)
    requires u in t.users && HasLedger(t, u)
    requires CreateAnswerSpec(t, u, req, now).Ok?
    ensures var (t', reward) := CreateAnswerSpec(t, u, req, now).value;
      reward == AnswersReward(req.answers)
      && u in t'.users && t'.users[u].point == t.users[u].point + reward
      && HasLedger(t', u) && LatestPoint(t', u) == LatestPoint(t, u) + reward
      && |t'.pointHistories[u]| == |t.pointHistories[u]| + 1
      && t'.pointHistories[u][..|t.pointHistories[u]|] == t.pointHistories[u]
  {
    SaveAnswersRunSummary(Progress(t, 0, false), u, req.surveyId, req.answers);
  }

  /** A successful submission keeps the tables consistent: the two balance stores still agree, no
      ledger row is negative, and ids stay below their counters. */
  lemma CreateAnswerKeepsValid(t: Tables, u: UserId, req: AnsweredQuestionRequest, now: Time)
    requires Valid(t) && u in t.users
    requires CreateAnswerSpec(t, u, req, now).Ok?
    ensures Valid(CreateAnswerSpec(t, u, req, now).value.0)
  {
    var s := req.surveyId;
    var certs := SurveyCertificationList(t, s);
    assert CreateAnswerSpec(t, u, req, now) == SubmitAnswersSpec(t, u, s, req.answers, certs, now);
    SubmitAnswersKeepsValid(t, u, s, req.answers, certs, now);
  }

  lemma SubmitAnswersKeepsValid(t: Tables, u: UserId, s: SurveyId, answers: seq<AnsweredQuestionDto>,
                                certs: seq<int>, now: Time)
    requires Valid(t) && u in t.users
    requires forall i :: 0 <= i < |certs| ==> 0 <= certs[i] <= 6
    requires SubmitAnswersSpec(t, u, s, answers, certs, now).Ok?
    ensures Valid(SubmitAnswersSpec(t, u, s, answers, certs, now).value.0)
  {
    var run := SaveAnswersRun(Progress(t, 0, false), u, s, answers);
    var t1 := run.state.tables;
    var reward := run.state.rewardPoints;
    var t2 := t1.(participations := t1.participations + ParticipationService.ParticipationRows(u, GetCertificationTypeList(certs), s));
    assert OnlyAnswersChanged(t, t1);
    ValidFrame(t, t2);
    assert SubmitAnswersSpec(t, u, s, answers, certs, now) == CreditSpec(t2, u, reward, now);
    CreditKeepsValid(t2, u, reward, now);
  }

  /** Appending a ledger row for the reward and raising the point field by it keeps the tables
      consistent. */
  lemma CreditKeepsValid(t: Tables, u: UserId, reward: int, now: Time)
    requires Valid(t) && u in t.users
    requires CreditSpec(t, u, reward, now).Ok?
    ensures Valid(CreditSpec(t, u, reward, now).value.0)
  {
    var t' := PointHistoryService.SavePointHistorySpec(t, u, reward, now).value;
    var t'' := t'.(users := t'.users[u := t'.users[u].(point := t'.users[u].point + reward)]);
    assert LedgerNonNegative(t'') by {
      PointHistoryService.SavePointHistoryKeepsLedgerNonNegative(t, u, reward, now);
    }
    var entry := PointHistory(PointHistoryId(now, u), LatestPoint(t, u) + reward);
    assert t' == t.(pointHistories := t.pointHistories[u := t.pointHistories[u] + [entry]]);
    BothBalancesMoved(t, t'', u, reward, entry);
  }

  /** When the ledger holds no negative balance, a submission to an existing survey succeeds
      exactly when the user is eligible, every answer is acceptable and one of them is non-empty. */
  lemma CreateAnswerAccepts(t: Tables, u: UserId, req: AnsweredQuestionRequest, now: Time)
    requires u in t.users && HasLedger(t, u) && LedgerNonNegative(t)
    requires req.surveyId in t.surveys
    ensures CreateAnswerSpec(t, u, req, now).Ok? <==>
      ValidateEligibility(t, SurveyCertificationList(t, req.surveyId), u, req.surveyId, now).Pass?
      && (forall i :: 0 <= i < |req.answers| ==> AnswerAcceptable(t, req.surveyId, req.answers[i]))
      && (exists i :: 0 <= i < |req.answers| && !ValidateEmptyAnswer(req.answers[i]))
  {
    var s := req.surveyId;
    SaveAnswersRunSummary(Progress(t, 0, false), u, s, req.answers);
    var run := SaveAnswersRun(Progress(t, 0, false), u, s, req.answers);
    if ValidateEligibility(t, SurveyCertificationList(t, s), u, s, now).Pass? && run.failure.None? && run.state.isAnswered {
      var t1 := run.state.tables;
      var t2 := t1.(participations := t1.participations + ParticipationService.ParticipationRows(u, GetCertificationTypeList(SurveyCertificationList(t, s)), s));
      assert LedgerNonNegative(t2);
      PointHistoryService.CreditNeverRefused(t2, u, run.state.rewardPoints, now);
    }
  }

  /** The question types the client declared on its non-empty answers, in order. */
  function DeclaredAnsweredTypes(answers: seq<AnsweredQuestionDto>): (r: seq<QuestionType>)
    ensures |r| <= |answers|
  {
    if answers == [] then []
    else
      var dto := answers[|answers| - 1];
      DeclaredAnsweredTypes(answers[..|answers| - 1]) + (if ValidateEmptyAnswer(dto) then [] else [dto.questionType])
  }

  /** The reward is priced on the question types the client sends, not on the stored banks: it is
      exactly the maximum reward of a survey made of the declared types of the non-empty answers. */
  lemma {:induction false} AnswersRewardIsDeclaredMaxReward(answers: seq<AnsweredQuestionDto>)
    ensures AnswersReward(answers) == PointUtil.GetSurveyMaxRewardPoints(DeclaredAnsweredTypes(answers))
  {
    if answers != [] {
      var front := answers[..|answers| - 1];
      var dto := answers[|answers| - 1];
      AnswersRewardIsDeclaredMaxReward(front);
      var tail := if ValidateEmptyAnswer(dto) then [] else [dto.questionType];
      PointUtil.SumPointsAppend(DeclaredAnsweredTypes(front), tail, PointUtil.CalculateSurveyMaxRewardPoints);
      if tail != [] {
        assert tail[..0] == [];
      }
    }
  }

  /** A user who has submitted cannot submit to the same survey again: the second attempt is
      refused with ANSWER_ALREADY_SUBMITTED (their own participation rows do not change the
      survey's certification list, so the certification check still passes). */
  lemma SecondSubmissionRefused(t: Tables, u: UserId, req: AnsweredQuestionRequest, req2: AnsweredQuestionRequest, now: Time, now2: Time)
    requires u in t.users && HasLedger(t, u)
    requires CreateAnswerSpec(t, u, req, now).Ok?
    requires req2.surveyId == req.surveyId
    ensures var t' := CreateAnswerSpec(t, u, req, now).value.0;
      u in t'.users && HasLedger(t', u) && CreateAnswerSpec(t', u, req2, now2) == Err(ANSWER_ALREADY_SUBMITTED)
  {
    var s := req.surveyId;
    var author := t.surveys[s].authorId;
    var newRows := ParticipationService.ParticipationRows(u, GetCertificationTypeList(SurveyCertificationList(t, s)), s);
    var t' := CreateAnswerSpec(t, u, req, now).value.0;
    SubmittedTables(t, u, req, now);
    assert u != author;
    ParticipationService.ParticipationRowsCarryUserAndSurvey(u, GetCertificationTypeList(SurveyCertificationList(t, s)), s);
    OtherUsersRowsInvisible(newRows, s, author, u);
    ParticipationCertificationIdsAppend(t.participations, newRows, s, author);
    assert SurveyCertificationList(t', s) == SurveyCertificationList(t, s);
  }

  /** The tables a successful submission leaves: the surveys and certifications are untouched,
      the user's participation rows are appended and the user counts as having answered. */
  lemma SubmittedTables(t: Tables, u: UserId, req: AnsweredQuestionRequest, now: Time)
    requires u in t.users && HasLedger(t, u)
    requires CreateAnswerSpec(t, u, req, now).Ok?
    ensures var t' := CreateAnswerSpec(t, u, req, now).value.0;
      var s := req.surveyId;
      s in t.surveys && u != t.surveys[s].authorId
      && u in t'.users && HasLedger(t', u)
      && t'.surveys == t.surveys && t'.userCertifications == t.userCertifications
      && t'.participations == t.participations
         + ParticipationService.ParticipationRows(u, GetCertificationTypeList(SurveyCertificationList(t, s)), s)
      && HasAnswered(t'.answeredQuestions, u, s)
  {
    var s := req.surveyId;
    var run := SaveAnswersRun(Progress(t, 0, false), u, s, req.answers);
    AnsweredAfterSave(Progress(t, 0, false), u, s, req.answers);
    assert run.state.tables.participations == t.participations;
  }

  /** Rows of one user say nothing about another user's certification list. */
  lemma {:induction false} OtherUsersRowsInvisible(rows: seq<ParticipationId>, s: SurveyId, author: UserId, u: UserId)
    requires u != author
    requires forall p :: p in rows ==> p.user == u
    ensures ParticipationCertificationIds(rows, s, author) == []
    decreases |rows|
  {
    if rows != [] {
      assert rows[|rows| - 1] in rows;
      assert forall p :: p in rows[..|rows| - 1] ==> p in rows;
      OtherUsersRowsInvisible(rows[..|rows| - 1], s, author, u);
    }
  }

  /** One answered single-choice question earns exactly one point and is stored as one row; a
      respondent at the initial 50 points ends at 51. */
  lemma OneSingleChoiceAnswerEarnsOne(t: Tables, u: UserId, s: SurveyId, dto: AnsweredQuestionDto, now: Time)
    requires u in t.users && HasLedger(t, u)
    requires dto.questionType == SINGLE_CHOICE && dto.singleChoice.Some? && dto.multipleChoices.None?
    requires CreateAnswerSpec(t, u, AnsweredQuestionRequest(s, [dto]), now).Ok?
    ensures var (t', reward) := CreateAnswerSpec(t, u, AnsweredQuestionRequest(s, [dto]), now).value;
      reward == 1 && |t'.answeredQuestions| == |t.answeredQuestions| + 1
      && (t.users[u].point == PointUtil.USER_INITIAL_POINT ==> t'.users[u].point == 51)
  {
    var req := AnsweredQuestionRequest(s, [dto]);
    CreateAnswerCreditsBoth(t, u, req, now);
    SaveAnswersRunSummary(Progress(t, 0, false), u, s, req.answers);
    PointUtil.SingleChoicePoints();
    assert [dto][..0] == [];
    assert AnswersReward([dto]) == 1;
    assert RowCount([dto]) == 1;
  }
}
