/** SurveyService and SurveyTransactionService: creating a survey (validation, the two debits,
    the survey row, its questions and the author's participation rows), deleting it with a
    refund, patching it, and listing open surveys a page at a time. Every state-changing call is
    @Transactional: a refusal leaves every table as it was. */
module SurveyService {
  import opened Types
  import opened Ids
  import opened Db
  import opened Strings
  import Domain
  import PointUtil
  import PointHistoryService
  import QuestionService
  import ParticipationService
  import SurveyMapper

  /** How far in the past, in seconds, a start date may lie. */
  const START_DATE_TOLERANCE: int := 5
  /** The least number of seconds the throttle wants between an author's creations. */
  const RECENT_CREATION_SECONDS: int := 30
  /** Surveys per page of the list endpoint. */
  const PAGE_SIZE: nat := 8

  /** The create cost of a request: the per-type cost summed over its questions. */
  function CreateCost(req: SurveyMapper.SurveyRequest): nat
  {
    PointUtil.SurveyCreatePoints(QuestionService.RequestTypes(req.questions))
  }

  /** validateSurveyDates: a start more than five seconds in the past is refused first, then a
      start after the end. A start equal to the end is accepted. */
  function ValidateSurveyDates(startedDate: Time, endedDate: Time, now: Time): (r: Outcome)
    ensures r == Pass <==> now - START_DATE_TOLERANCE <= startedDate <= endedDate
    ensures r == Fail(STARTEDDATE_ISBEFORE_CURRENTDATE) <==> startedDate < now - START_DATE_TOLERANCE
    ensures r == Fail(STARTEDDATE_ISAFTER_ENDEDDATE) <==> now - START_DATE_TOLERANCE <= startedDate && endedDate < startedDate
  {
    if startedDate < now - START_DATE_TOLERANCE then Fail(STARTEDDATE_ISBEFORE_CURRENTDATE)
    else if startedDate > endedDate then Fail(STARTEDDATE_ISAFTER_ENDEDDATE)
    else Pass
  }

  /** validateUserPoint on the tables: refused when the point field is below the cost; otherwise
      the field is lowered by the cost and the user saved. */
  function ValidateUserPointSpec(t: Tables, u: UserId, cost: int): (r: Result<Tables>)
    requires u in t.users
    ensures r.Err? <==> t.users[u].point < cost
    ensures r.Err? ==> r.error == SURVEY_CREATE_POINT_NOT_ENOUGH
    ensures r.Ok? ==> u in r.value.users && r.value.users[u].point == t.users[u].point - cost >= 0
  {
    var user := t.users[u];
    if user.point - cost < 0 then Err(SURVEY_CREATE_POINT_NOT_ENOUGH)
    else Ok(t.(users := t.users[u := user.(point := user.point - cost)]))
  }

  method ValidateUserPoint(db: Database, u: UserId, cost: int) returns (r: Outcome)
    requires u in db.users
    modifies db
    ensures var spec := ValidateUserPointSpec(old(db.State()), u, cost);
      (spec.Err? ==> r == Fail(spec.error) && db.State() == old(db.State()))
      && (spec.Ok? ==> r == Pass && db.State() == spec.value)
  {
    var user := db.users[u];
    if user.point - cost < 0 {
      return Fail(SURVEY_CREATE_POINT_NOT_ENOUGH);
    }
    db.SaveUser(u, user.(point := user.point - cost));
    r := Pass;
  }

  /** The surveys of author u with an id below n, in id order (findUserCreatedSurveysByAuthorID
      before its ordering). */
  function AuthorSurveyIds(surveys: map<SurveyId, SurveyRow>, u: UserId, n: nat): (r: seq<SurveyId>)
    ensures forall i :: 0 <= i < |r| ==> r[i] < n && r[i] in surveys && surveys[r[i]].authorId == u
    ensures forall s :: s < n && s in surveys && surveys[s].authorId == u ==> s in r
  {
    if n == 0 then []
    else AuthorSurveyIds(surveys, u, n - 1) + (if n - 1 in surveys && surveys[n - 1].authorId == u then [n - 1] else [])
  }

  /** The position, among the given surveys, of one created earliest: the one that ends up last
      in a list ordered by createdDate, newest first. */
  function OldestIndex(surveys: map<SurveyId, SurveyRow>, ids: seq<SurveyId>): (k: nat)
    requires ids != [] && forall i :: 0 <= i < |ids| ==> ids[i] in surveys
    ensures k < |ids|
    ensures forall i :: 0 <= i < |ids| ==> surveys[ids[k]].createdDate <= surveys[ids[i]].createdDate
  {
    if |ids| == 1 then 0
    else
      var k := OldestIndex(surveys, ids[..|ids| - 1]);
      if surveys[ids[|ids| - 1]].createdDate < surveys[ids[k]].createdDate then |ids| - 1 else k
  }

  /** validateRecentSurveyCreation on the survey table (ids below n): an author with no survey
      passes; otherwise the createdDate of the last element of the newest-first list, which is the
      author's OLDEST survey, must lie at least 30 seconds before now. */
  function ValidateRecentSurveyCreation(surveys: map<SurveyId, SurveyRow>, n: nat, u: UserId, now: Time): (r: Outcome)
    ensures r.Fail? ==> r.error == USER_CREATE_SURVEY_RECENT
  {
    var ids := AuthorSurveyIds(surveys, u, n);
    if ids == [] then Pass
    else
      var oldest := surveys[ids[OldestIndex(surveys, ids)]];
      if now - oldest.createdDate < RECENT_CREATION_SECONDS then Fail(USER_CREATE_SURVEY_RECENT) else Pass
  }

  /** The throttle refuses exactly when the author has surveys and every one of them was
      created less than 30 seconds ago. */
  lemma ThrottleRule(t: Tables, u: UserId, now: Time)
    requires IdsValid(t)
    ensures ValidateRecentSurveyCreation(t.surveys, t.nextSurveyId, u, now).Fail?
        <==> (exists s :: s in t.surveys && t.surveys[s].authorId == u)
             && (forall s :: s in t.surveys && t.surveys[s].authorId == u ==> now - t.surveys[s].createdDate < RECENT_CREATION_SECONDS)
  {
    var ids := AuthorSurveyIds(t.surveys, u, t.nextSurveyId);
    if ids != [] {
      var k := OldestIndex(t.surveys, ids);
      var oldest := t.surveys[ids[k]];
      forall s | s in t.surveys && t.surveys[s].authorId == u
        ensures oldest.createdDate <= t.surveys[s].createdDate
      {
        var i :| 0 <= i < |ids| && ids[i] == s;
      }
    }
  }

  /** What the throttle as written lets through: an author whose oldest survey is 30 seconds old
      or more may create again even though another of their surveys was created this instant. */
  lemma ThrottleReadsOldestSurvey(t: Tables, u: UserId, now: Time, earliest: SurveyId, latest: SurveyId)
    requires IdsValid(t)
    requires earliest in t.surveys && t.surveys[earliest].authorId == u
    requires now - t.surveys[earliest].createdDate >= RECENT_CREATION_SECONDS
    requires latest in t.surveys && t.surveys[latest].authorId == u && t.surveys[latest].createdDate == now
    ensures ValidateRecentSurveyCreation(t.surveys, t.nextSurveyId, u, now) == Pass
  {
    ThrottleRule(t, u, now);
  }

  /** validateCreateSurvey: the dates, then the point field (lowered when it suffices), then the
      throttle, which reads the surveys only. */
  function ValidateCreateSurvey(t: Tables, u: UserId, req: SurveyMapper.SurveyRequest, now: Time): (r: Result<Tables>)
    requires u in t.users
    ensures r.Ok? <==> ValidateSurveyDates(req.startedDate, req.endedDate, now) == Pass && CreateCost(req) <= t.users[u].point
                       && ValidateRecentSurveyCreation(t.surveys, t.nextSurveyId, u, now) == Pass
    ensures r.Ok? ==> r.value == t.(users := t.users[u := t.users[u].(point := t.users[u].point - CreateCost(req))])
  {
    var dates := ValidateSurveyDates(req.startedDate, req.endedDate, now);
    var debited := ValidateUserPointSpec(t, u, CreateCost(req));
    // The point save touches the users table only, so the throttle reads the surveys of t.
    var recent := ValidateRecentSurveyCreation(t.surveys, t.nextSurveyId, u, now);
    if dates.Fail? then Err(dates.error)
    else if debited.Err? then Err(debited.error)
    else if recent.Fail? then Err(recent.error)
    else debited
  }

  /** surveyRepository.save of the request's row under the next survey id. */
  function InsertedSurvey(t: Tables, u: UserId, req: SurveyMapper.SurveyRequest, now: Time): Tables
  {
    t.(surveys := t.surveys[t.nextSurveyId := SurveyMapper.ToSurvey(req, u, now)], nextSurveyId := t.nextSurveyId + 1)
  }

  /** What follows a successful ledger debit: the survey row saved under the next id, its
      questions created and one participation row per given certification type. */
  function SaveSurveyEffect(t: Tables, u: UserId, req: SurveyMapper.SurveyRequest,
                            certificationTypes: seq<CertificationType>, now: Time): (r: (Tables, SurveyId))
  {
    var t2 := QuestionService.CreateQuestionSpec(InsertedSurvey(t, u, req, now), req.questions, t.nextSurveyId);
    (t2.(participations := t2.participations + ParticipationService.ParticipationRows(u, certificationTypes, t.nextSurveyId)), t.nextSurveyId)
  }

  /** validateCreateSurvey followed by the ledger debit by the create cost: the tables the saves
      start from. */
  function DebitForSurvey(t: Tables, u: UserId, req: SurveyMapper.SurveyRequest, now: Time): (r: Result<Tables>)
    requires u in t.users && HasLedger(t, u)
  {
    match ValidateCreateSurvey(t, u, req, now)
    case Err(e) => Err(e)
    case Ok(t1) => PointHistoryService.SavePointHistorySpec(t1, u, -(CreateCost(req) as int), now)
  }

  /** createSurveyTransactional: validation, then the ledger debit by the create cost, then the
      saves. Any refusal rolls everything back, including the point field written by
      validateUserPoint. */
  function CreateSurveyTransactionalSpec(t: Tables, u: UserId, req: SurveyMapper.SurveyRequest,
                                         certificationTypes: seq<CertificationType>, now: Time): (r: Result<(Tables, SurveyId)>)
    requires u in t.users && HasLedger(t, u)
  {
    match DebitForSurvey(t, u, req, now)
    case Err(e) => Err(e)
    case Ok(t2) => Ok(SaveSurveyEffect(t2, u, req, certificationTypes, now))
  }

  /** validateCreateSurvey as the service runs it: on a throttle refusal the lowered point field
      is still written, and only the caller's rollback undoes it. */
  method ValidateCreate(db: Database, u: UserId, req: SurveyMapper.SurveyRequest, now: Time) returns (r: Outcome)
    requires u in db.users
    modifies db
    ensures var spec := ValidateCreateSurvey(old(db.State()), u, req, now);
      (spec.Err? ==> r == Fail(spec.error))
      && (spec.Ok? ==> r == Pass && db.State() == spec.value)
  {
    var dates := ValidateSurveyDates(req.startedDate, req.endedDate, now);
    if dates.Fail? {
      return dates;
    }
    r := ValidateUserPoint(db, u, CreateCost(req));
    if r.Fail? {
      return;
    }
    r := ValidateRecentSurveyCreation(db.surveys, db.nextSurveyId, u, now);
  }

  /** The saves after the debit: the survey row, its questions, the participation rows. */
  method SaveSurvey(db: Database, u: UserId, req: SurveyMapper.SurveyRequest,
                    certificationTypes: seq<CertificationType>, now: Time) returns (id: SurveyId)
    modifies db
    ensures (db.State(), id) == SaveSurveyEffect(old(db.State()), u, req, certificationTypes, now)
  {
    ghost var t0 := db.State();
    id := db.InsertSurvey(SurveyMapper.ToSurvey(req, u, now));
    assert db.State() == InsertedSurvey(t0, u, req, now);
    QuestionService.CreateQuestion(db, req.questions, id);
    ghost var t2 := db.State();
    assert t2 == QuestionService.CreateQuestionSpec(InsertedSurvey(t0, u, req, now), req.questions, id);
    ParticipationService.CreateParticipation(db, u, certificationTypes, id);
  }

  method CreateSurveyTransactional(db: Database, u: UserId, req: SurveyMapper.SurveyRequest,
                                   certificationTypes: seq<CertificationType>, now: Time) returns (r: Result<SurveyId>)
    requires u in db.users && HasLedger(db.State(), u)
    modifies db
    ensures var spec := CreateSurveyTransactionalSpec(old(db.State()), u, req, certificationTypes, now);
      (spec.Err? ==> r == Err(spec.error) && db.State() == old(db.State()))
      && (spec.Ok? ==> r == Ok(spec.value.1) && db.State() == spec.value.0)
  {
    var snapshot := db.State();
    var validated := ValidateCreate(db, u, req, now);
    if validated.Fail? {
      db.Restore(snapshot);
      return Err(validated.error);
    }
    ghost var t1 := db.State();
    assert ValidateCreateSurvey(snapshot, u, req, now) == Ok(t1);
    var cost: int := CreateCost(req);
    var saved := PointHistoryService.SavePointHistory(db, u, -cost, now);
    if saved.Fail? {
      db.Restore(snapshot);
      return Err(saved.error);
    }
    ghost var t2 := db.State();
    assert DebitForSurvey(snapshot, u, req, now) == Ok(t2);
    var id := SaveSurvey(db, u, req, certificationTypes, now);
    r := Ok(id);
  }

  /** The participation list createSurvey writes: the request's list, or [NONE] when it is empty. */
  function CertificationTypesOrNone(certificationTypes: seq<CertificationType>): (r: seq<CertificationType>)
    ensures r != []
    ensures (NONE in r) <==> (NONE in certificationTypes || certificationTypes == [])
  {
    if certificationTypes == [] then [NONE] else certificationTypes
  }

  /** createSurvey: the same steps as createSurveyTransactional, writing participation rows for
      the request's certification types with an empty list replaced by [NONE]. */
  function CreateSurveySpec(t: Tables, u: UserId, req: SurveyMapper.SurveyRequest, now: Time): (r: Result<(Tables, SurveyId)>)
    requires u in t.users && HasLedger(t, u)
  {
    CreateSurveyTransactionalSpec(t, u, req, CertificationTypesOrNone(req.certificationTypes), now)
  }

  method CreateSurvey(db: Database, u: UserId, req: SurveyMapper.SurveyRequest, now: Time) returns (r: Result<SurveyId>)
    requires u in db.users && HasLedger(db.State(), u)
    modifies db
    ensures var spec := CreateSurveySpec(old(db.State()), u, req, now);
      (spec.Err? ==> r == Err(spec.error) && db.State() == old(db.State()))
      && (spec.Ok? ==> r == Ok(spec.value.1) && db.State() == spec.value.0)
  {
    var certificationTypes := if req.certificationTypes == [] then [NONE] else req.certificationTypes;
    r := CreateSurveyTransactional(db, u, req, certificationTypes, now);
  }

  /** Every participation row belongs to a survey id already handed out. */
  predicate ParticipationsBelowNextId(t: Tables)
  {
    forall i :: 0 <= i < |t.participations| ==> t.participations[i].survey < t.nextSurveyId
  }

  /** The saves after the debit: the new survey gets the next id, the row built from the request,
      exactly the requested question types in order and the given participation rows; no other
      survey's questions, no user, no ledger and no answer changes, and the ids stay valid. */
  lemma SaveSurveyEffectFrame(t: Tables, u: UserId, req: SurveyMapper.SurveyRequest,
                              certificationTypes: seq<CertificationType>, now: Time)
    requires IdsValid(t)
    ensures var (t', id) := SaveSurveyEffect(t, u, req, certificationTypes, now);
      id == t.nextSurveyId && id !in t.surveys && IdsValid(t') && t'.nextSurveyId == id + 1
      && t'.surveys == t.surveys[id := SurveyMapper.ToSurvey(req, u, now)]
      && t'.users == t.users && t'.pointHistories == t.pointHistories
      && t'.answeredQuestions == t.answeredQuestions && t'.userCertifications == t.userCertifications
      && t'.participations == t.participations + ParticipationService.ParticipationRows(u, certificationTypes, id)
      && SurveyQuestionTypes(t', id) == QuestionService.RequestTypes(req.questions)
      && (forall s :: s != id ==> SurveyQuestionTypes(t', s) == SurveyQuestionTypes(t, s))
  {
    var id := t.nextSurveyId;
    var t1 := InsertedSurvey(t, u, req, now);
    var t2 := QuestionService.CreateQuestionSpec(t1, req.questions, id);
    assert IdsValid(t1);
    QuestionService.CreateQuestionFrame(t1, req.questions, id);
    QuestionService.CreateQuestionOwnTypes(t1, req.questions, id);
    SurveyBankIdsEmpty(t.questions, id, t.nextBankId);
    assert SurveyQuestionTypes(t1, id) == [];
    forall s | s != id
      ensures SurveyQuestionTypes(t2, s) == SurveyQuestionTypes(t, s)
    {
      QuestionService.CreateQuestionOtherTypes(t1, req.questions, id, s);
      assert SurveyQuestionTypes(t1, s) == SurveyQuestionTypes(t, s);
    }
  }

  /** An accepted validation and debit: the point field and the ledger are both lowered by the
      create cost, the ledger by exactly one new row, and nothing else changes. */
  lemma DebitForSurveyAccepted(t: Tables, u: UserId, req: SurveyMapper.SurveyRequest, now: Time)
    requires u in t.users && HasLedger(t, u)
    requires DebitForSurvey(t, u, req, now).Ok?
    ensures var t2 := DebitForSurvey(t, u, req, now).value;
      u in t2.users && HasLedger(t2, u)
      && t2.users == t.users[u := t.users[u].(point := t.users[u].point - CreateCost(req))]
      && LatestPoint(t2, u) == LatestPoint(t, u) - CreateCost(req) >= 0
      && |t2.pointHistories[u]| == |t.pointHistories[u]| + 1
      && t2.pointHistories == t.pointHistories[u := t2.pointHistories[u]]
      && t2 == t.(users := t2.users, pointHistories := t2.pointHistories)
  {
    var t1 := ValidateCreateSurvey(t, u, req, now).value;
    PointHistoryService.SavePointHistoryContract(t1, u, -(CreateCost(req) as int), now);
  }

  /** Under InSync the ledger debit never refuses once the point field was accepted, so
      createSurveyTransactional refuses exactly when the dates, the point field or the throttle
      refuse it, checked in that order. */
  lemma CreateSurveyRefusals(t: Tables, u: UserId, req: SurveyMapper.SurveyRequest,
                             certificationTypes: seq<CertificationType>, now: Time)
    requires u in t.users && HasLedger(t, u) && InSync(t)
    ensures var r := CreateSurveyTransactionalSpec(t, u, req, certificationTypes, now);
      var dates := ValidateSurveyDates(req.startedDate, req.endedDate, now);
      var recent := ValidateRecentSurveyCreation(t.surveys, t.nextSurveyId, u, now);
      (dates.Fail? ==> r == Err(dates.error))
      && (dates == Pass && t.users[u].point < CreateCost(req) ==> r == Err(SURVEY_CREATE_POINT_NOT_ENOUGH))
      && (dates == Pass && CreateCost(req) <= t.users[u].point && recent.Fail? ==> r == Err(USER_CREATE_SURVEY_RECENT))
      && (r.Ok? <==> dates == Pass && CreateCost(req) <= t.users[u].point && recent == Pass)
  {
    var v := ValidateCreateSurvey(t, u, req, now);
    if v.Ok? {
      assert HasLedger(v.value, u) && LatestPoint(v.value, u) == t.users[u].point;
      PointHistoryService.SavePointHistoryContract(v.value, u, -(CreateCost(req) as int), now);
    }
  }

  /** An accepted creation lowers both balance stores by exactly the create cost: the point
      field, and the ledger, which gains exactly one row; no other user and no other ledger
      changes. */
  lemma CreateSurveyDebitsBoth(t: Tables, u: UserId, req: SurveyMapper.SurveyRequest,
                               certificationTypes: seq<CertificationType>, now: Time)
    requires u in t.users && HasLedger(t, u) && IdsValid(t)
    requires CreateSurveyTransactionalSpec(t, u, req, certificationTypes, now).Ok?
    ensures var t' := CreateSurveyTransactionalSpec(t, u, req, certificationTypes, now).value.0;
      u in t'.users && HasLedger(t', u)
      && t'.users[u].point == t.users[u].point - CreateCost(req)
      && LatestPoint(t', u) == LatestPoint(t, u) - CreateCost(req) >= 0
      && |t'.pointHistories[u]| == |t.pointHistories[u]| + 1
      && t'.users == t.users[u := t'.users[u]]
      && t'.pointHistories == t.pointHistories[u := t'.pointHistories[u]]
  {
    DebitForSurveyAccepted(t, u, req, now);
    var t2 := DebitForSurvey(t, u, req, now).value;
    assert IdsValid(t2);
    SaveSurveyEffectFrame(t2, u, req, certificationTypes, now);
  }

  /** An accepted validation and debit keeps the tables valid. */
  lemma DebitForSurveyKeepsValid(t: Tables, u: UserId, req: SurveyMapper.SurveyRequest, now: Time)
    requires u in t.users && HasLedger(t, u) && Valid(t)
    requires DebitForSurvey(t, u, req, now).Ok?
    ensures Valid(DebitForSurvey(t, u, req, now).value)
  {
    var t2 := DebitForSurvey(t, u, req, now).value;
    assert LedgerNonNegative(t2) by {
      var t1 := ValidateCreateSurvey(t, u, req, now).value;
      assert LedgerNonNegative(t1) && HasLedger(t1, u);
      PointHistoryService.SavePointHistoryKeepsLedgerNonNegative(t1, u, -(CreateCost(req) as int), now);
    }
    DebitForSurveyAccepted(t, u, req, now);
    forall v | v in t2.users
      ensures HasLedger(t2, v) && t2.users[v].point == LatestPoint(t2, v)
    {
      if v != u {
        assert t2.users[v] == t.users[v] && t2.pointHistories[v] == t.pointHistories[v];
      }
    }
  }

  /** An accepted creation keeps every ledger row non-negative, the two balance stores equal
      and the ids valid. */
  lemma CreateSurveyKeepsValid(t: Tables, u: UserId, req: SurveyMapper.SurveyRequest,
                               certificationTypes: seq<CertificationType>, now: Time)
    requires u in t.users && HasLedger(t, u) && Valid(t)
    requires CreateSurveyTransactionalSpec(t, u, req, certificationTypes, now).Ok?
    ensures Valid(CreateSurveyTransactionalSpec(t, u, req, certificationTypes, now).value.0)
  {
    DebitForSurveyKeepsValid(t, u, req, now);
    var t2 := DebitForSurvey(t, u, req, now).value;
    SaveSurveyEffectFrame(t2, u, req, certificationTypes, now);
    var t' := SaveSurveyEffect(t2, u, req, certificationTypes, now).0;
    assert InSync(t') by {
      forall v | v in t'.users
        ensures HasLedger(t', v) && t'.users[v].point == LatestPoint(t', v)
      {
        assert HasLedger(t2, v);
      }
    }
  }

  /** An accepted creation adds exactly one survey, under the next id, holding the request's row
      and exactly the requested question types in order; every other survey keeps its row and
      its questions, and the given participation rows are appended. */
  lemma CreateSurveyContents(t: Tables, u: UserId, req: SurveyMapper.SurveyRequest,
                             certificationTypes: seq<CertificationType>, now: Time)
    requires u in t.users && HasLedger(t, u) && IdsValid(t)
    requires CreateSurveyTransactionalSpec(t, u, req, certificationTypes, now).Ok?
    ensures var r := CreateSurveyTransactionalSpec(t, u, req, certificationTypes, now).value;
      r.1 == t.nextSurveyId && r.1 !in t.surveys && IdsValid(r.0)
      && r.0.surveys == t.surveys[r.1 := SurveyMapper.ToSurvey(req, u, now)]
      && SurveyQuestionTypes(r.0, r.1) == QuestionService.RequestTypes(req.questions)
      && (forall s :: s != r.1 ==> SurveyQuestionTypes(r.0, s) == SurveyQuestionTypes(t, s))
      && r.0.participations == t.participations + ParticipationService.ParticipationRows(u, certificationTypes, r.1)
  {
    DebitForSurveyAccepted(t, u, req, now);
    var t2 := DebitForSurvey(t, u, req, now).value;
    assert IdsValid(t2);
    SaveSurveyEffectFrame(t2, u, req, certificationTypes, now);
    forall s | s != t.nextSurveyId
      ensures SurveyQuestionTypes(t2, s) == SurveyQuestionTypes(t, s)
    {
    }
  }

  /** A table with no row of survey s records no certification for s. */
  lemma {:induction false} NoRowsNoCertifications(rows: seq<ParticipationId>, s: SurveyId, u: UserId)
    requires forall i :: 0 <= i < |rows| ==> rows[i].survey != s
    ensures ParticipationCertificationIds(rows, s, u) == []
    decreases |rows|
  {
    if rows != [] {
      NoRowsNoCertifications(rows[..|rows| - 1], s, u);
    }
  }

  /** The certification round trip of createSurvey: reading back the new survey's certification
      types gives the requested list, except that a list holding NONE reads back as no
      certification at all. In particular an empty list, written as [NONE], reads back empty. */
  lemma CreateSurveyCertificationRoundTrip(t: Tables, u: UserId, req: SurveyMapper.SurveyRequest, now: Time)
    requires u in t.users && HasLedger(t, u) && IdsValid(t) && ParticipationsBelowNextId(t)
    requires CreateSurveySpec(t, u, req, now).Ok?
    ensures var r := CreateSurveySpec(t, u, req, now).value;
      SurveyMapper.SurveyCertificationTypes(r.0, r.1, u)
      == if NONE in req.certificationTypes then [] else req.certificationTypes
  {
    var certs := CertificationTypesOrNone(req.certificationTypes);
    CreateSurveyContents(t, u, req, certs, now);
    var r := CreateSurveySpec(t, u, req, now).value;
    NoRowsNoCertifications(t.participations, r.1, u);
    AppendedCertificationTypes(t.participations, u, certs, r.1);
    if NONE !in certs {
      assert certs == req.certificationTypes;
    }
  }

  /** Participation rows appended for a survey that had none read back as their types, or as no
      certification when NONE is among them. */
  lemma AppendedCertificationTypes(ps: seq<ParticipationId>, u: UserId, certs: seq<CertificationType>, s: SurveyId)
    requires ParticipationCertificationIds(ps, s, u) == []
    ensures var all := ps + ParticipationService.ParticipationRows(u, certs, s);
      SurveyMapper.SurveyCertificationTypesOf(all, s, u) == if NONE in certs then [] else certs
  {
    var rows := ParticipationService.ParticipationRows(u, certs, s);
    ParticipationCertificationIdsAppend(ps, rows, s, u);
    ParticipationService.ParticipationIdsOfOwnRows(u, certs, s);
    var ids := ParticipationCertificationIds(ps + rows, s, u);
    assert ids == seq(|certs|, i requires 0 <= i < |certs| => certs[i].Id());
    SurveyMapper.ConvertedCertificationTypesRoundTrip(certs, ids);
  }

  /** The refund a deletion pays: the create cost of the survey's current question banks. */
  function RefundPoints(t: Tables, s: SurveyId): nat
    requires IdsValid(t)
  {
    PointUtil.SurveyCreatePoints(SurveyQuestionTypes(t, s))
  }

  /** The refund of deleteSurvey: the point field raised by the refund and saved, then the
      ledger credited by the same amount. */
  function RefundForSurvey(t: Tables, u: UserId, s: SurveyId, now: Time): (r: Result<Tables>)
    requires u in t.users && HasLedger(t, u) && IdsValid(t)
  {
    var cost := RefundPoints(t, s);
    var t1 := t.(users := t.users[u := t.users[u].(point := t.users[u].point + cost)]);
    PointHistoryService.SavePointHistorySpec(t1, u, cost, now)
  }

  /** The tables without survey s: its participation rows, its questions and its row removed. */
  function RemoveSurveyEffect(t: Tables, s: SurveyId): Tables
  {
    t.(participations := ParticipationService.RemoveSurveyRows(t.participations, s),
       questions := map q | q in t.questions && q.survey != s :: t.questions[q],
       surveys := t.surveys - {s})
  }

  /** deleteSurvey: SURVEY_NOT_FOUND, then AUTHOR_NOT_MATCHING for anyone but the author, then
      SURVEY_ALREADY_STARTED strictly inside the open window; otherwise the refund, and the
      survey's participation rows, questions and row are removed. */
  function DeleteSurveySpec(t: Tables, u: UserId, s: SurveyId, now: Time): (r: Result<Tables>)
    requires u in t.users && HasLedger(t, u) && IdsValid(t)
  {
    if s !in t.surveys then Err(SURVEY_NOT_FOUND)
    else if t.surveys[s].authorId != u then Err(AUTHOR_NOT_MATCHING)
    else if t.surveys[s].startedDate < now && now < t.surveys[s].endedDate then Err(SURVEY_ALREADY_STARTED)
    else match RefundForSurvey(t, u, s, now)
      case Err(e) => Err(e)
      case Ok(t2) => Ok(RemoveSurveyEffect(t2, s))
  }

  method DeleteSurvey(db: Database, u: UserId, s: SurveyId, now: Time) returns (r: Outcome)
    requires u in db.users && HasLedger(db.State(), u) && IdsValid(db.State())
    modifies db
    ensures var spec := DeleteSurveySpec(old(db.State()), u, s, now);
      (spec.Err? ==> r == Fail(spec.error) && db.State() == old(db.State()))
      && (spec.Ok? ==> r == Pass && db.State() == spec.value)
  {
    var snapshot := db.State();
    if s !in db.surveys {
      return Fail(SURVEY_NOT_FOUND);
    }
    var survey := db.surveys[s];
    if survey.authorId != u {
      return Fail(AUTHOR_NOT_MATCHING);
    }
    if survey.startedDate < now && now < survey.endedDate {
      return Fail(SURVEY_ALREADY_STARTED);
    }
    var cost := PointUtil.SurveyCreatePoints(SurveyQuestionTypes(db.State(), s));
    var user := db.users[u];
    db.SaveUser(u, user.(point := user.point + cost));
    var saved := PointHistoryService.SavePointHistory(db, u, cost, now);
    if saved.Fail? {
      db.Restore(snapshot);
      return Fail(saved.error);
    }
    ghost var t2 := db.State();
    assert RefundForSurvey(snapshot, u, s, now) == Ok(t2);
    ParticipationService.DeleteParticipation(db, s);
    QuestionService.DeleteQuestion(db, s);
    db.DeleteSurvey(s);
    assert db.State() == RemoveSurveyEffect(t2, s);
    r := Pass;
  }

  /** On a non-negative ledger the credit is never refused, so deleteSurvey refuses exactly a
      missing survey, a caller who is not the author, and a survey strictly inside its open
      window, in that order; at either end of the window the deletion goes through. */
  lemma DeleteSurveyRefusals(t: Tables, u: UserId, s: SurveyId, now: Time)
    requires u in t.users && HasLedger(t, u) && IdsValid(t) && LedgerNonNegative(t)
    ensures var r := DeleteSurveySpec(t, u, s, now);
      (r.Ok? <==> s in t.surveys && t.surveys[s].authorId == u
                  && (now <= t.surveys[s].startedDate || t.surveys[s].endedDate <= now))
      && (s !in t.surveys ==> r == Err(SURVEY_NOT_FOUND))
      && (s in t.surveys && t.surveys[s].authorId != u ==> r == Err(AUTHOR_NOT_MATCHING))
      && (s in t.surveys && t.surveys[s].authorId == u && t.surveys[s].startedDate < now < t.surveys[s].endedDate
          ==> r == Err(SURVEY_ALREADY_STARTED))
  {
    var cost := RefundPoints(t, s);
    var t1 := t.(users := t.users[u := t.users[u].(point := t.users[u].point + cost)]);
    assert LedgerNonNegative(t1);
    PointHistoryService.CreditNeverRefused(t1, u, cost, now);
  }

  /** An accepted refund raises both balance stores by exactly the refund, the ledger by one new
      row, and changes nothing else. */
  lemma RefundForSurveyAccepted(t: Tables, u: UserId, s: SurveyId, now: Time)
    requires u in t.users && HasLedger(t, u) && IdsValid(t)
    requires RefundForSurvey(t, u, s, now).Ok?
    ensures var t2 := RefundForSurvey(t, u, s, now).value;
      u in t2.users && HasLedger(t2, u)
      && t2.users == t.users[u := t.users[u].(point := t.users[u].point + RefundPoints(t, s))]
      && LatestPoint(t2, u) == LatestPoint(t, u) + RefundPoints(t, s)
      && |t2.pointHistories[u]| == |t.pointHistories[u]| + 1
      && t2.pointHistories == t.pointHistories[u := t2.pointHistories[u]]
      && t2 == t.(users := t2.users, pointHistories := t2.pointHistories)
  {
    var cost := RefundPoints(t, s);
    var t1 := t.(users := t.users[u := t.users[u].(point := t.users[u].point + cost)]);
    PointHistoryService.SavePointHistoryContract(t1, u, cost, now);
  }

  /** An accepted deletion raises both balance stores by the create cost of the survey's
      questions; no other user or ledger changes. */
  lemma DeleteSurveyRefundsBoth(t: Tables, u: UserId, s: SurveyId, now: Time)
    requires u in t.users && HasLedger(t, u) && IdsValid(t)
    requires DeleteSurveySpec(t, u, s, now).Ok?
    ensures var t' := DeleteSurveySpec(t, u, s, now).value;
      u in t'.users && HasLedger(t', u)
      && t'.users[u].point == t.users[u].point + PointUtil.SurveyCreatePoints(SurveyQuestionTypes(t, s))
      && LatestPoint(t', u) == LatestPoint(t, u) + PointUtil.SurveyCreatePoints(SurveyQuestionTypes(t, s))
      && |t'.pointHistories[u]| == |t.pointHistories[u]| + 1
      && t'.users == t.users[u := t'.users[u]]
      && t'.pointHistories == t.pointHistories[u := t'.pointHistories[u]]
  {
    RefundForSurveyAccepted(t, u, s, now);
  }

  /** Removing a survey leaves no row, question or participation row of it and keeps every other
      survey's questions and certifications. */
  lemma RemoveSurveyEffectFrame(t: Tables, s: SurveyId)
    requires IdsValid(t)
    ensures var t' := RemoveSurveyEffect(t, s);
      IdsValid(t') && s !in t'.surveys && t'.surveys == t.surveys - {s}
      && SurveyQuestionTypes(t', s) == []
      && (forall s' :: s' != s ==> SurveyQuestionTypes(t', s') == SurveyQuestionTypes(t, s'))
      && (forall v :: ParticipationCertificationIds(t'.participations, s, v) == [])
      && (forall s', v :: s' != s ==> ParticipationCertificationIds(t'.participations, s', v)
                                      == ParticipationCertificationIds(t.participations, s', v))
  {
    QuestionService.DeleteQuestionOnlyThatSurvey(t, s);
    forall v
      ensures ParticipationCertificationIds(RemoveSurveyEffect(t, s).participations, s, v) == []
    {
      ParticipationService.DeleteParticipationOnlyThatSurvey(t.participations, s, v);
    }
    forall s', v | s' != s
      ensures ParticipationCertificationIds(RemoveSurveyEffect(t, s).participations, s', v)
           == ParticipationCertificationIds(t.participations, s', v)
    {
      ParticipationService.DeleteParticipationOnlyThatSurvey(t.participations, s, v);
    }
  }

  /** An accepted deletion removes the survey with its questions and participation rows, and
      keeps the tables valid. */
  lemma DeleteSurveyRemoves(t: Tables, u: UserId, s: SurveyId, now: Time)
    requires u in t.users && HasLedger(t, u) && Valid(t)
    requires DeleteSurveySpec(t, u, s, now).Ok?
    ensures var t' := DeleteSurveySpec(t, u, s, now).value;
      Valid(t') && t'.surveys == t.surveys - {s}
      && SurveyQuestionTypes(t', s) == []
      && (forall s' :: s' != s ==> SurveyQuestionTypes(t', s') == SurveyQuestionTypes(t, s'))
      && (forall v :: ParticipationCertificationIds(t'.participations, s, v) == [])
  {
    RefundForSurveyAccepted(t, u, s, now);
    var cost := RefundPoints(t, s);
    var t1 := t.(users := t.users[u := t.users[u].(point := t.users[u].point + cost)]);
    assert LedgerNonNegative(t1);
    PointHistoryService.SavePointHistoryKeepsLedgerNonNegative(t1, u, cost, now);
    var t2 := RefundForSurvey(t, u, s, now).value;
    assert IdsValid(t2);
    forall v | v in t2.users
      ensures HasLedger(t2, v) && t2.users[v].point == LatestPoint(t2, v)
    {
      if v != u {
        assert t2.users[v] == t.users[v] && t2.pointHistories[v] == t.pointHistories[v];
      }
    }
    RemoveSurveyEffectFrame(t2, s);
    forall s' | s' != s
      ensures SurveyQuestionTypes(t2, s') == SurveyQuestionTypes(t, s')
    {
    }
  }

  /** The author deleting their survey outside its open window, on valid tables, gets its
      refund into both balance stores and removes exactly that survey row. */
  lemma DeleteOwnSurveyOutsideWindow(t: Tables, u: UserId, s: SurveyId, now: Time)
    requires u in t.users && HasLedger(t, u) && Valid(t)
    requires s in t.surveys && t.surveys[s].authorId == u
    requires now <= t.surveys[s].startedDate || t.surveys[s].endedDate <= now
    ensures DeleteSurveySpec(t, u, s, now).Ok?
    ensures var t' := DeleteSurveySpec(t, u, s, now).value;
      u in t'.users && HasLedger(t', u)
      && t'.users[u].point == t.users[u].point + RefundPoints(t, s)
      && LatestPoint(t', u) == LatestPoint(t, u) + RefundPoints(t, s)
      && t'.surveys == t.surveys - {s}
  {
    DeleteSurveyRefusals(t, u, s, now);
    DeleteSurveyRefundsBoth(t, u, s, now);
  }

  /** What deleting a freshly created survey relies on: the new survey belongs to the creator,
      keeps the requested dates, is refunded exactly its create cost, and removing it gives back
      the old survey table. */
  lemma CreatedSurveyFacts(t: Tables, u: UserId, req: SurveyMapper.SurveyRequest,
                           certificationTypes: seq<CertificationType>, now: Time)
    requires u in t.users && HasLedger(t, u) && Valid(t)
    requires CreateSurveyTransactionalSpec(t, u, req, certificationTypes, now).Ok?
    ensures var r := CreateSurveyTransactionalSpec(t, u, req, certificationTypes, now).value;
      u in r.0.users && HasLedger(r.0, u) && Valid(r.0)
      && r.1 in r.0.surveys && r.0.surveys[r.1].authorId == u
      && r.0.surveys[r.1].startedDate == req.startedDate && r.0.surveys[r.1].endedDate == req.endedDate
      && RefundPoints(r.0, r.1) == CreateCost(req)
      && r.0.users[u].point == t.users[u].point - CreateCost(req)
      && LatestPoint(r.0, u) == LatestPoint(t, u) - CreateCost(req)
      && r.0.surveys - {r.1} == t.surveys
  {
    var r := CreateSurveyTransactionalSpec(t, u, req, certificationTypes, now).value;
    assert Valid(r.0) by {
      CreateSurveyKeepsValid(t, u, req, certificationTypes, now);
    }
    assert u in r.0.users && HasLedger(r.0, u)
        && r.0.users[u].point == t.users[u].point - CreateCost(req)
        && LatestPoint(r.0, u) == LatestPoint(t, u) - CreateCost(req) by {
      CreateSurveyDebitsBoth(t, u, req, certificationTypes, now);
    }
    assert r.1 in r.0.surveys && r.0.surveys[r.1] == SurveyMapper.ToSurvey(req, u, now)
        && RefundPoints(r.0, r.1) == CreateCost(req) && r.0.surveys - {r.1} == t.surveys by {
      CreateSurveyContents(t, u, req, certificationTypes, now);
      RemoveFreshKey(t.surveys, r.1, SurveyMapper.ToSurvey(req, u, now));
    }
  }

  /** Removing a key that was just added to a map it was not in gives the map back. */
  lemma RemoveFreshKey<K, V>(m: map<K, V>, k: K, v: V)
    requires k !in m
    ensures m[k := v] - {k} == m
  {
  }

  /** Creating a survey and deleting it again outside its open window gives the whole create
      cost back: both balance stores end where they started, and the survey table is as before. */
  lemma CreateThenDeleteRefunds(t: Tables, u: UserId, req: SurveyMapper.SurveyRequest,
                                certificationTypes: seq<CertificationType>, now: Time, later: Time)
    requires u in t.users && HasLedger(t, u) && Valid(t)
    requires CreateSurveyTransactionalSpec(t, u, req, certificationTypes, now).Ok?
    requires later <= req.startedDate || req.endedDate <= later
    ensures var r := CreateSurveyTransactionalSpec(t, u, req, certificationTypes, now).value;
      u in r.0.users && HasLedger(r.0, u) && IdsValid(r.0)
      && DeleteSurveySpec(r.0, u, r.1, later).Ok?
      && var t2 := DeleteSurveySpec(r.0, u, r.1, later).value;
         u in t2.users && HasLedger(t2, u)
         && t2.users[u].point == t.users[u].point && LatestPoint(t2, u) == LatestPoint(t, u)
         && t2.surveys == t.surveys
  {
    CreatedSurveyFacts(t, u, req, certificationTypes, now);
    var r := CreateSurveyTransactionalSpec(t, u, req, certificationTypes, now).value;
    DeleteCreatedSurvey(t, r.0, u, r.1, CreateCost(req), later);
  }

  /** Deleting, outside its open interval, a survey whose creation cost `cost` and added only
      that survey gives back the balances and the survey table from before the creation. */
  lemma DeleteCreatedSurvey(t: Tables, t1: Tables, u: UserId, s: SurveyId, cost: int, later: Time)
    requires u in t.users && HasLedger(t, u)
    requires u in t1.users && HasLedger(t1, u) && Valid(t1)
    requires s in t1.surveys && t1.surveys[s].authorId == u
    requires later <= t1.surveys[s].startedDate || t1.surveys[s].endedDate <= later
    requires RefundPoints(t1, s) == cost
    requires t1.users[u].point == t.users[u].point - cost && LatestPoint(t1, u) == LatestPoint(t, u) - cost
    requires t1.surveys - {s} == t.surveys
    ensures DeleteSurveySpec(t1, u, s, later).Ok?
    ensures var t2 := DeleteSurveySpec(t1, u, s, later).value;
      u in t2.users && HasLedger(t2, u)
      && t2.users[u].point == t.users[u].point && LatestPoint(t2, u) == LatestPoint(t, u)
      && t2.surveys == t.surveys
  {
    DeleteOwnSurveyOutsideWindow(t1, u, s, later);
  }

  // ---- updateSurvey ----

  /** The update request: the survey to patch, its new title, description and dates, and the
      question patches. Both dates are required: the validation reads them unconditionally. */
  datatype UpdateSurveyRequest = UpdateSurveyRequest(
    surveyId: SurveyId,
    title: string,
    description: string,
    startedDate: Time,
    endedDate: Time,
    questions: seq<QuestionService.QuestionBankUpdateRequest>)

  /** validateUpdateSurvey, in the source's order: a survey that has already ended, a survey that
      started more than five seconds ago, a new start after the new end, a new start more than
      five seconds in the past. */
  function ValidateUpdateSurvey(row: SurveyRow, req: UpdateSurveyRequest, now: Time): (r: Outcome)
    ensures r == Pass <==> (now <= row.endedDate && now - START_DATE_TOLERANCE <= row.startedDate
                            && req.startedDate <= req.endedDate && now - START_DATE_TOLERANCE <= req.startedDate)
    ensures r == Fail(SURVEY_ALREADY_ENDED) <==> row.endedDate < now
    ensures r == Fail(SURVEY_ALREADY_STARTED) <==> now <= row.endedDate && row.startedDate < now - START_DATE_TOLERANCE
    ensures r.Fail? && now <= row.endedDate && now - START_DATE_TOLERANCE <= row.startedDate ==>
      r.error == (if req.endedDate < req.startedDate then STARTEDDATE_ISAFTER_ENDEDDATE else STARTEDDATE_ISBEFORE_CURRENTDATE)
  {
    if row.endedDate < now then Fail(SURVEY_ALREADY_ENDED)
    else if row.startedDate < now - START_DATE_TOLERANCE then Fail(SURVEY_ALREADY_STARTED)
    else if req.endedDate < req.startedDate then Fail(STARTEDDATE_ISAFTER_ENDEDDATE)
    else if req.startedDate < now - START_DATE_TOLERANCE then Fail(STARTEDDATE_ISBEFORE_CURRENTDATE)
    else Pass
  }

  /** The survey row after the entity setters: trimmed title, trimmed description, then both dates. */
  function PatchedSurvey(row: SurveyRow, req: UpdateSurveyRequest): Result<SurveyRow>
  {
    match Domain.ChangeTitleSpec(row, Trim(req.title))
    case Err(e) => Err(e)
    case Ok(r1) =>
      match Domain.ChangeDescriptionSpec(r1, Trim(req.description))
      case Err(e) => Err(e)
      case Ok(r2) => Ok(r2.(startedDate := req.startedDate, endedDate := req.endedDate))
  }

  /** updateSurvey: the survey must exist and belong to the caller and the request must pass
      validateUpdateSurvey; then the row is patched and updateQuestion runs on the survey's
      questions. Any refusal rolls back every change. */
  function UpdateSurveySpec(t: Tables, u: UserId, req: UpdateSurveyRequest, now: Time): (r: Result<Tables>)
  {
    var s := req.surveyId;
    if s !in t.surveys then Err(SURVEY_NOT_FOUND)
    else if t.surveys[s].authorId != u then Err(AUTHOR_NOT_MATCHING)
    else match ValidateUpdateSurvey(t.surveys[s], req, now)
      case Fail(e) => Err(e)
      case Pass =>
        match PatchedSurvey(t.surveys[s], req)
        case Err(e) => Err(e)
        case Ok(row) => QuestionService.UpdateQuestionSpec(t.(surveys := t.surveys[s := row]), s, req.questions)
  }

  method UpdateSurvey(db: Database, u: UserId, req: UpdateSurveyRequest, now: Time) returns (r: Outcome)
    modifies db
    ensures var spec := UpdateSurveySpec(old(db.State()), u, req, now);
      (spec.Err? ==> r == Fail(spec.error) && db.State() == old(db.State()))
      && (spec.Ok? ==> r == Pass && db.State() == spec.value)
  {
    var snapshot := db.State();
    var s := req.surveyId;
    if s !in db.surveys {
      return Fail(SURVEY_NOT_FOUND);
    }
    var row := db.surveys[s];
    if row.authorId != u {
      return Fail(AUTHOR_NOT_MATCHING);
    }
    var valid := ValidateUpdateSurvey(row, req, now);
    if valid.Fail? {
      return Fail(valid.error);
    }
    var survey := new Domain.Survey(s, row);
    var changed := survey.ChangeTitle(Trim(req.title));
    if changed.Fail? {
      return Fail(changed.error);
    }
    changed := survey.ChangeDescription(Trim(req.description));
    if changed.Fail? {
      return Fail(changed.error);
    }
    survey.ChangeStartedDate(req.startedDate);
    survey.ChangeEndedDate(req.endedDate);
    assert PatchedSurvey(row, req) == Ok(survey.Row());
    db.UpdateSurvey(s, survey.Row());
    var updated := QuestionService.UpdateQuestion(db, s, req.questions);
    if updated.Fail? {
      db.Restore(snapshot);
      return Fail(updated.error);
    }
    r := Pass;
  }

  /** The entity setters accept the patch exactly when the trimmed title and description fit
      their columns, and then the row carries the request's text and dates and nothing else new. */
  lemma PatchedSurveyResult(row: SurveyRow, req: UpdateSurveyRequest)
    ensures PatchedSurvey(row, req).Ok? <==>
      JavaLength(Trim(req.title)) <= Domain.TITLE_MAX_LENGTH && JavaLength(Trim(req.description)) <= Domain.DESCRIPTION_MAX_LENGTH
    ensures PatchedSurvey(row, req).Ok? ==>
      PatchedSurvey(row, req).value == row.(title := Trim(req.title), description := Trim(req.description),
                                            startedDate := req.startedDate, endedDate := req.endedDate)
  {
    if JavaLength(Trim(req.title)) <= Domain.TITLE_MAX_LENGTH {
      var r1 := row.(title := Trim(req.title));
      assert Domain.ChangeTitleSpec(row, Trim(req.title)) == Ok(r1);
    }
  }

  /** The question patches are judged on the bank and question tables alone, so patching the
      survey row first does not change which of them are acceptable. */
  lemma AcceptableIgnoresSurveyRow(t: Tables, s: SurveyId, row: SurveyRow, items: seq<QuestionService.QuestionBankUpdateRequest>)
    ensures (forall i :: 0 <= i < |items| ==> QuestionService.UpdateAcceptable(t.(surveys := t.surveys[s := row]), s, items[i]))
        <==> (forall i :: 0 <= i < |items| ==> QuestionService.UpdateAcceptable(t, s, items[i]))
  {
  }

  /** An update goes through exactly when the survey exists, belongs to the caller, passes
      validateUpdateSurvey, its trimmed title and description fit their columns and every
      question patch names a bank of this survey with a positive number, if any. */
  lemma UpdateSurveyAccepts(t: Tables, u: UserId, req: UpdateSurveyRequest, now: Time)
    ensures var s := req.surveyId;
      UpdateSurveySpec(t, u, req, now).Ok? <==>
        s in t.surveys && t.surveys[s].authorId == u && ValidateUpdateSurvey(t.surveys[s], req, now) == Pass
        && JavaLength(Trim(req.title)) <= Domain.TITLE_MAX_LENGTH && JavaLength(Trim(req.description)) <= Domain.DESCRIPTION_MAX_LENGTH
        && forall i :: 0 <= i < |req.questions| ==> QuestionService.UpdateAcceptable(t, s, req.questions[i])
    ensures req.surveyId !in t.surveys ==> UpdateSurveySpec(t, u, req, now) == Err(SURVEY_NOT_FOUND)
    ensures req.surveyId in t.surveys && t.surveys[req.surveyId].authorId != u ==>
      UpdateSurveySpec(t, u, req, now) == Err(AUTHOR_NOT_MATCHING)
  {
    var s := req.surveyId;
    if s in t.surveys && t.surveys[s].authorId == u && ValidateUpdateSurvey(t.surveys[s], req, now) == Pass {
      var patched := PatchedSurvey(t.surveys[s], req);
      PatchedSurveyResult(t.surveys[s], req);
      if patched.Ok? {
        var t1 := t.(surveys := t.surveys[s := patched.value]);
        assert UpdateSurveySpec(t, u, req, now) == QuestionService.UpdateQuestionSpec(t1, s, req.questions);
        QuestionService.UpdateQuestionAccepts(t1, s, req.questions);
        AcceptableIgnoresSurveyRow(t, s, patched.value, req.questions);
      } else {
        assert UpdateSurveySpec(t, u, req, now) == Err(patched.error);
      }
    }
  }

  /** An accepted update rewrites the survey's title, description and dates and keeps its author
      and creation instant; every other survey, the users, the ledger, the participations, the
      answers and the certifications are as before, and no question or bank is added or removed. */
  lemma UpdateSurveyChanges(t: Tables, u: UserId, req: UpdateSurveyRequest, now: Time)
    requires UpdateSurveySpec(t, u, req, now).Ok?
    ensures var t' := UpdateSurveySpec(t, u, req, now).value; var s := req.surveyId;
      s in t.surveys && s in t'.surveys && t'.surveys.Keys == t.surveys.Keys
      && t'.surveys[s] == t.surveys[s].(title := Trim(req.title), description := Trim(req.description),
                                        startedDate := req.startedDate, endedDate := req.endedDate)
      && (forall s' :: s' in t.surveys && s' != s ==> t'.surveys[s'] == t.surveys[s'])
      && t'.users == t.users && t'.pointHistories == t.pointHistories
      && t'.participations == t.participations && t'.answeredQuestions == t.answeredQuestions
      && t'.userCertifications == t.userCertifications && t'.nextSurveyId == t.nextSurveyId
      && t'.questions.Keys == t.questions.Keys && t'.questionBanks.Keys == t.questionBanks.Keys
  {
    var s := req.surveyId;
    var row := PatchedSurvey(t.surveys[s], req).value;
    QuestionService.UpdateQuestionFrame(t.(surveys := t.surveys[s := row]), s, req.questions);
  }

  /** An accepted update keeps every table invariant. */
  lemma UpdateSurveyKeepsValid(t: Tables, u: UserId, req: UpdateSurveyRequest, now: Time)
    requires Valid(t) && UpdateSurveySpec(t, u, req, now).Ok?
    ensures Valid(UpdateSurveySpec(t, u, req, now).value)
  {
    var s := req.surveyId;
    var t1 := t.(surveys := t.surveys[s := PatchedSurvey(t.surveys[s], req).value]);
    var t' := UpdateSurveySpec(t, u, req, now).value;
    assert t' == QuestionService.UpdateQuestionSpec(t1, s, req.questions).value;
    assert IdsValid(t') by {
      assert IdsValid(t1);
      QuestionService.UpdateQuestionKeepsIds(t1, s, req.questions);
    }
    assert t'.users == t.users && t'.pointHistories == t.pointHistories by {
      UpdateSurveyChanges(t, u, req, now);
    }
  }

  /** A patch that changes no question type leaves what deleting any survey would refund as it
      was. (A patch that does change a type changes the refund: the refund is priced on the
      current types, not on what was paid.) */
  lemma UpdateSurveyKeepsRefund(t: Tables, u: UserId, req: UpdateSurveyRequest, now: Time, s': SurveyId)
    requires IdsValid(t) && UpdateSurveySpec(t, u, req, now).Ok?
    requires forall i :: 0 <= i < |req.questions| ==> req.questions[i].questionType.None?
    ensures IdsValid(UpdateSurveySpec(t, u, req, now).value)
    ensures RefundPoints(UpdateSurveySpec(t, u, req, now).value, s') == RefundPoints(t, s')
  {
    var s := req.surveyId;
    var t1 := t.(surveys := t.surveys[s := PatchedSurvey(t.surveys[s], req).value]);
    var t' := UpdateSurveySpec(t, u, req, now).value;
    assert IdsValid(t1);
    QuestionService.UpdateQuestionKeepsIds(t1, s, req.questions);
    QuestionService.UpdateQuestionFrame(t1, s, req.questions);
    QuestionService.UpdateQuestionKeepsTypes(t1, s, req.questions);
    SurveyBankIdsFrame(t'.questions, t.questions, s', t.nextBankId);
    var ids := SurveyBankIds(t.questions, s', t.nextBankId);
    BankTypesFrame(t'.questionBanks, t.questionBanks, ids);
  }

  /** Applying the setters' patch to a row that already carries it gives the same row. */
  lemma PatchedSurveyIdempotent(row: SurveyRow, req: UpdateSurveyRequest)
    requires PatchedSurvey(row, req).Ok?
    ensures PatchedSurvey(PatchedSurvey(row, req).value, req) == PatchedSurvey(row, req)
  {
    PatchedSurveyResult(row, req);
    var row' := PatchedSurvey(row, req).value;
    TrimIdempotent(req.title);
    TrimIdempotent(req.description);
    PatchedSurveyResult(row', req);
  }

  /** Sending the same request again with no question patches leaves the tables as they are,
      since the row already holds the trimmed text and the dates; it is refused as
      SURVEY_ALREADY_ENDED only when the accepted end date, which may lie up to five seconds in the
      past, is before now. */
  lemma UpdateSurveyRowIdempotent(t: Tables, u: UserId, req: UpdateSurveyRequest, now: Time)
    requires UpdateSurveySpec(t, u, req, now).Ok? && req.questions == []
    ensures var t' := UpdateSurveySpec(t, u, req, now).value;
      UpdateSurveySpec(t', u, req, now) == if req.endedDate < now then Err(SURVEY_ALREADY_ENDED) else Ok(t')
  {
    var s := req.surveyId;
    var row := PatchedSurvey(t.surveys[s], req).value;
    var t' := t.(surveys := t.surveys[s := row]);
    assert ValidateUpdateSurvey(t.surveys[s], req, now) == Pass;
    assert UpdateSurveySpec(t, u, req, now) == Ok(t');
    assert row.startedDate == req.startedDate && row.endedDate == req.endedDate
        && row.authorId == t.surveys[s].authorId by {
      PatchedSurveyResult(t.surveys[s], req);
    }
    assert ValidateUpdateSurvey(row, req, now) == if req.endedDate < now then Fail(SURVEY_ALREADY_ENDED) else Pass;
    if now <= req.endedDate {
      PatchedSurveyIdempotent(t.surveys[s], req);
      assert t'.surveys[s := row] == t'.surveys;
    }
  }

  // ---- getAllSurvey ----

  /** findAllInDescendingOrder over the ids below n: the surveys whose end date lies after now,
      newest first. A survey's id and its creation instant grow together, so id order stands for
      createdDate order. */
  function OpenSurveyIds(surveys: map<SurveyId, SurveyRow>, now: Time, n: nat): (r: seq<SurveyId>)
    ensures forall i :: 0 <= i < |r| ==> r[i] < n && r[i] in surveys && surveys[r[i]].endedDate > now
    ensures forall s :: s < n && s in surveys && surveys[s].endedDate > now ==> s in r
    ensures forall i, j :: 0 <= i < j < |r| ==> r[i] > r[j]
  {
    if n == 0 then []
    else (if n - 1 in surveys && surveys[n - 1].endedDate > now then [n - 1] else []) + OpenSurveyIds(surveys, now, n - 1)
  }

  /** Spring's page count for a page size of eight: zero for no element, otherwise the ceiling. */
  function TotalPages(total: nat): (r: nat)
    ensures (r - 1) * PAGE_SIZE < total <= r * PAGE_SIZE || (total == 0 && r == 0)
  {
    (total + PAGE_SIZE - 1) / PAGE_SIZE
  }

  /** The ids on the one-based page `page`: the slice of at most eight starting at (page-1)*8,
      empty past the end. */
  function PageSlice(ids: seq<SurveyId>, page: int): (r: seq<SurveyId>)
    requires page >= 1
    ensures |r| == if (page - 1) * PAGE_SIZE >= |ids| then 0
                   else if (page - 1) * PAGE_SIZE + PAGE_SIZE <= |ids| then PAGE_SIZE
                   else |ids| - (page - 1) * PAGE_SIZE
    ensures forall j :: 0 <= j < |r| ==> (page - 1) * PAGE_SIZE + j < |ids| && r[j] == ids[(page - 1) * PAGE_SIZE + j]
  {
    var start := (page - 1) * PAGE_SIZE;
    if start >= |ids| then []
    else ids[start..if start + PAGE_SIZE <= |ids| then start + PAGE_SIZE else |ids|]
  }

  /** getAllSurvey(page): a page below one is INVALID_REQUEST; a page past the last, when there are
      open surveys at all, is PAGE_NOT_FOUND; otherwise the page's surveys, mapped to their page
      entries, in the list envelope. A read-only transaction: the tables are not changed. */
  function GetAllSurveySpec(t: Tables, page: int, now: Time): (r: Result<SurveyMapper.SurveyListPage>)
    requires IdsValid(t)
  {
    if page < 1 then Err(INVALID_REQUEST)
    else
      var ids := OpenSurveyIds(t.surveys, now, t.nextSurveyId);
      var pages := TotalPages(|ids|);
      if |ids| != 0 && pages < page then Err(PAGE_NOT_FOUND)
      else
        var content := PageSlice(ids, page);
        Ok(SurveyMapper.ToSurveyListPageDto(
             seq(|content|, j requires 0 <= j < |content| => SurveyMapper.ToSurveyPageDto(t, content[j])),
             page - 1, |ids|, pages))
  }

  /** getAllSurvey refuses exactly a page below one (INVALID_REQUEST) and a page past the last
      while some survey is open (PAGE_NOT_FOUND). With no open survey every page from one on is an
      empty page. */
  lemma GetAllSurveyRefusals(t: Tables, page: int, now: Time)
    requires IdsValid(t)
    ensures var ids := OpenSurveyIds(t.surveys, now, t.nextSurveyId); var r := GetAllSurveySpec(t, page, now);
      (r == Err(INVALID_REQUEST) <==> page < 1)
      && (r == Err(PAGE_NOT_FOUND) <==> page >= 1 && |ids| > 0 && |ids| <= (page - 1) * PAGE_SIZE)
      && (r.Ok? && ids == [] ==> r.value.surveys == [])
  {
    var ids := OpenSurveyIds(t.surveys, now, t.nextSurveyId);
    if page >= 1 && |ids| > 0 {
      var pages := TotalPages(|ids|);
      assert pages < page <==> |ids| <= (page - 1) * PAGE_SIZE by {
        if pages < page {
          assert pages <= page - 1;
          assert pages * PAGE_SIZE <= (page - 1) * PAGE_SIZE;
        } else {
          assert page - 1 <= pages - 1;
          assert (page - 1) * PAGE_SIZE <= (pages - 1) * PAGE_SIZE;
        }
      }
    }
  }

  /** An accepted page reports the requested page number and the totals, holds at most eight
      entries, and its entries are open surveys, newest first, each one the survey at its
      position in the whole list. */
  lemma GetAllSurveyPageContents(t: Tables, page: int, now: Time)
    requires IdsValid(t) && GetAllSurveySpec(t, page, now).Ok?
    ensures var ids := OpenSurveyIds(t.surveys, now, t.nextSurveyId); var r := GetAllSurveySpec(t, page, now).value;
      r.page == page && r.totalSurveys == |ids| && r.totalPages == TotalPages(|ids|)
      && |r.surveys| == |PageSlice(ids, page)| <= PAGE_SIZE
      && (forall j :: 0 <= j < |r.surveys| ==>
            (page - 1) * PAGE_SIZE + j < |ids| && r.surveys[j].surveyId == ids[(page - 1) * PAGE_SIZE + j]
            && r.surveys[j].surveyId in t.surveys && r.surveys[j].endedDate > now)
      && (forall j, k :: 0 <= j < k < |r.surveys| ==> r.surveys[j].surveyId > r.surveys[k].surveyId)
  {
  }

  /** Position i of the newest-first list is entry j of the one-based page `page`. */
  lemma PagePosition(i: nat) returns (page: int, j: int)
    ensures page >= 1 && 0 <= j < PAGE_SIZE && (page - 1) * PAGE_SIZE + j == i
  {
    page, j := i / PAGE_SIZE + 1, i % PAGE_SIZE;
  }

  /** The open survey at position j past a page's start is the page's j-th entry. */
  lemma ListedAt(t: Tables, page: int, now: Time, j: int, s: SurveyId)
    requires IdsValid(t) && page >= 1 && 0 <= j < PAGE_SIZE
    requires (page - 1) * PAGE_SIZE + j < |OpenSurveyIds(t.surveys, now, t.nextSurveyId)|
    requires OpenSurveyIds(t.surveys, now, t.nextSurveyId)[(page - 1) * PAGE_SIZE + j] == s
    ensures GetAllSurveySpec(t, page, now).Ok?
    ensures var r := GetAllSurveySpec(t, page, now).value; j < |r.surveys| && r.surveys[j].surveyId == s
  {
    GetAllSurveyRefusals(t, page, now);
  }

  /** Every open survey is listed, on the page its position in the newest-first list falls on. */
  lemma OpenSurveyIsListed(t: Tables, s: SurveyId, now: Time) returns (page: int)
    requires IdsValid(t) && s in t.surveys && t.surveys[s].endedDate > now
    ensures page >= 1 && GetAllSurveySpec(t, page, now).Ok?
    ensures exists j :: 0 <= j < |GetAllSurveySpec(t, page, now).value.surveys| && GetAllSurveySpec(t, page, now).value.surveys[j].surveyId == s
  {
    var ids := OpenSurveyIds(t.surveys, now, t.nextSurveyId);
    var i :| 0 <= i < |ids| && ids[i] == s;
    var j;
    page, j := PagePosition(i);
    ListedAt(t, page, now, j, s);
    assert GetAllSurveySpec(t, page, now).value.surveys[j].surveyId == s;
  }

}
