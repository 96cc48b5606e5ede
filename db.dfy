/** The persistent state the services work on: one table per repository, held as maps and
    sequences, and a `Database` object whose fields are those tables. The repository calls the
    services make (save, delete, find) are the methods of `Database`; a @Transactional service
    method takes a snapshot with `State()` and puts it back with `Restore` when it throws. */
module Db {
  import opened Types
  import opened Ids

  datatype User = User(password: string, phoneNumber: string, profileImage: string, address: string, point: int)

  /** One ledger row: the user's balance right after a transaction. */
  datatype PointHistory = PointHistory(id: PointHistoryId, point: int)

  /** A survey row; createdDate is the instant the auditing listener stamped when it was saved. */
  datatype SurveyRow = SurveyRow(
    authorId: UserId,
    title: string,
    description: string,
    startedDate: Time,
    endedDate: Time,
    createdDate: Time)

  datatype QuestionBank = QuestionBank(title: string, description: string, questionType: QuestionType)

  /** The (survey, question bank) link row with its per-survey attributes. */
  datatype QuestionRow = QuestionRow(questionNo: int, isRequired: bool)

  datatype AnsweredQuestion = AnsweredQuestion(
    id: AnsweredQuestionId,
    singleChoice: Option<int>,
    multipleChoice: Option<int>,
    shortAnswer: Option<string>,
    longAnswer: Option<string>)

  datatype UserCertification = UserCertification(certificationDate: Time, expirationDate: Time)

  /** Every table at one instant. Survey, bank and answer ids are handed out from counters, so a
      smaller id means an earlier save. Ledger rows are kept per user, oldest first. */
  datatype Tables = Tables(
    users: map<UserId, User>,
    pointHistories: map<UserId, seq<PointHistory>>,
    surveys: map<SurveyId, SurveyRow>,
    nextSurveyId: SurveyId,
    questionBanks: map<BankId, QuestionBank>,
    nextBankId: BankId,
    questions: map<QuestionId, QuestionRow>,
    questionOptions: map<BankId, seq<string>>,
    participations: seq<ParticipationId>,
    answeredQuestions: seq<AnsweredQuestion>,
    nextAnswerId: nat,
    userCertifications: map<UserCertificationId, UserCertification>)

  /** The user has at least one ledger row (registration writes the first one). */
  predicate HasLedger(t: Tables, u: UserId)
  {
    u in t.pointHistories && |t.pointHistories[u]| > 0
  }

  /** The point of the user's newest ledger row. */
  function LatestPoint(t: Tables, u: UserId): int
    requires HasLedger(t, u)
  {
    var h := t.pointHistories[u];
    h[|h| - 1].point
  }

  /** No ledger row holds a negative balance. */
  predicate LedgerNonNegative(t: Tables)
  {
    forall u, i :: u in t.pointHistories && 0 <= i < |t.pointHistories[u]| ==> t.pointHistories[u][i].point >= 0
  }

  /** The two balance stores agree: every user's point field equals the newest ledger balance. */
  predicate InSync(t: Tables)
  {
    forall u :: u in t.users ==> HasLedger(t, u) && t.users[u].point == LatestPoint(t, u)
  }

  /** Ids handed out so far are below the counters, and every question links a stored bank. */
  predicate IdsValid(t: Tables)
  {
    (forall s :: s in t.surveys ==> s < t.nextSurveyId)
    && (forall b :: b in t.questionBanks ==> b < t.nextBankId)
    && (forall q :: q in t.questions ==> q.survey < t.nextSurveyId && q.questionBank in t.questionBanks)
  }

  predicate Valid(t: Tables)
  {
    LedgerNonNegative(t) && InSync(t) && IdsValid(t)
  }

  /** The banks linked to survey s whose ids are below n, in id (that is, creation) order. */
  function SurveyBankIds(questions: map<QuestionId, QuestionRow>, s: SurveyId, n: nat): (r: seq<BankId>)
    ensures forall i :: 0 <= i < |r| ==> r[i] < n && QuestionId(s, r[i]) in questions
  {
    if n == 0 then []
    else SurveyBankIds(questions, s, n - 1) + (if QuestionId(s, n - 1) in questions then [n - 1] else [])
  }

  /** findAllBySurveyId misses no bank of the survey and lists none twice: every bank below n that
      is linked to s is listed, and the ids strictly increase. */
  lemma {:induction false} SurveyBankIdsComplete(questions: map<QuestionId, QuestionRow>, s: SurveyId, n: nat)
    ensures var r := SurveyBankIds(questions, s, n);
      (forall b :: 0 <= b < n && QuestionId(s, b) in questions ==> b in r)
      && (forall i, j :: 0 <= i < j < |r| ==> r[i] < r[j])
  {
    if n > 0 {
      SurveyBankIdsComplete(questions, s, n - 1);
    }
  }

  /** The question types of the given banks, in order. */
  function BankTypes(banks: map<BankId, QuestionBank>, ids: seq<BankId>): (r: seq<QuestionType>)
    requires forall i :: 0 <= i < |ids| ==> ids[i] in banks
    ensures |r| == |ids|
    ensures forall i :: 0 <= i < |ids| ==> r[i] == banks[ids[i]].questionType
  {
    if ids == [] then [] else BankTypes(banks, ids[..|ids| - 1]) + [banks[ids[|ids| - 1]].questionType]
  }

  /** questionBankRepository.findAllBySurveyId, reduced to the question types of the survey's banks. */
  function SurveyQuestionTypes(t: Tables, s: SurveyId): seq<QuestionType>
    requires IdsValid(t)
  {
    BankTypes(t.questionBanks, SurveyBankIds(t.questions, s, t.nextBankId))
  }

  /** answeredQuestionRepository.existsByUserIdAndSurveyId. */
  predicate HasAnswered(answers: seq<AnsweredQuestion>, u: UserId, s: SurveyId)
  {
    exists i :: 0 <= i < |answers| && answers[i].id.user == u && answers[i].id.survey == s
  }

  /** surveyRepository.findCertificationTypeBySurveyIdAndAuthorId: the certification ids of the
      participation rows of (survey, user), in table order. */
  function ParticipationCertificationIds(rows: seq<ParticipationId>, s: SurveyId, u: UserId): seq<int>
  {
    if rows == [] then []
    else
      var last := rows[|rows| - 1];
      ParticipationCertificationIds(rows[..|rows| - 1], s, u)
      + (if last.survey == s && last.user == u then [last.certificationType.Id()] else [])
  }

  /** userCertificationRepository.findUserCertificationTypeByUserId, as a set of ids. */
  function UserCertificationIds(certs: map<UserCertificationId, UserCertification>, u: UserId): set<int>
  {
    set k | k in certs && k.user == u :: k.certificationType.Id()
  }

  /** Filtering a joined table is joining the filtered parts. */
  lemma {:induction false} ParticipationCertificationIdsAppend(a: seq<ParticipationId>, b: seq<ParticipationId>, s: SurveyId, u: UserId)
    ensures ParticipationCertificationIds(a + b, s, u)
         == ParticipationCertificationIds(a, s, u) + ParticipationCertificationIds(b, s, u)
    decreases |b|
  {
    if b == [] {
      assert a + b == a;
    } else {
      assert (a + b)[..|a + b| - 1] == a + b[..|b| - 1];
      ParticipationCertificationIdsAppend(a, b[..|b| - 1], s, u);
    }
  }

  /** Adding or removing rows of other surveys does not change a survey's bank list. */
  lemma {:induction false} SurveyBankIdsFrame(q1: map<QuestionId, QuestionRow>, q2: map<QuestionId, QuestionRow>, s: SurveyId, n: nat)
    requires forall b: BankId :: b < n ==> (QuestionId(s, b) in q1 <==> QuestionId(s, b) in q2)
    ensures SurveyBankIds(q1, s, n) == SurveyBankIds(q2, s, n)
  {
    if n > 0 {
      SurveyBankIdsFrame(q1, q2, s, n - 1);
    }
  }

  /** A survey with no question rows below n has no banks. */
  lemma {:induction false} SurveyBankIdsEmpty(q: map<QuestionId, QuestionRow>, s: SurveyId, n: nat)
    requires forall b: BankId :: b < n ==> QuestionId(s, b) !in q
    ensures SurveyBankIds(q, s, n) == []
  {
    if n > 0 {
      SurveyBankIdsEmpty(q, s, n - 1);
    }
  }

  /** Types of joined id lists are the joined types. */
  lemma BankTypesAppend(banks: map<BankId, QuestionBank>, a: seq<BankId>, b: seq<BankId>)
    requires forall i :: 0 <= i < |a| ==> a[i] in banks
    requires forall i :: 0 <= i < |b| ==> b[i] in banks
    ensures BankTypes(banks, a + b) == BankTypes(banks, a) + BankTypes(banks, b)
  {
  }

  /** Only the banks listed matter to BankTypes. */
  lemma BankTypesFrame(b1: map<BankId, QuestionBank>, b2: map<BankId, QuestionBank>, ids: seq<BankId>)
    requires forall i :: 0 <= i < |ids| ==> ids[i] in b1 && ids[i] in b2 && b1[ids[i]].questionType == b2[ids[i]].questionType
    ensures BankTypes(b1, ids) == BankTypes(b2, ids)
  {
  }

  /** Consistency reads only the balances, the surveys and the question tables: writes to the
      answers, the participations, the options or the certifications keep it. */
  lemma ValidFrame(a: Tables, b: Tables)
    requires Valid(a)
    requires a.users == b.users && a.pointHistories == b.pointHistories && a.surveys == b.surveys
    requires a.nextSurveyId == b.nextSurveyId && a.questionBanks == b.questionBanks
    requires a.nextBankId == b.nextBankId && a.questions == b.questions
    ensures Valid(b)
  {
  }

  function EmptyTables(): Tables
  {
    Tables(map[], map[], map[], 0, map[], 0, map[], map[], [], [], 0, map[])
  }

  class Database {
    var users: map<UserId, User>
    var pointHistories: map<UserId, seq<PointHistory>>
    var surveys: map<SurveyId, SurveyRow>
    var nextSurveyId: SurveyId
    var questionBanks: map<BankId, QuestionBank>
    var nextBankId: BankId
    var questions: map<QuestionId, QuestionRow>
    var questionOptions: map<BankId, seq<string>>
    var participations: seq<ParticipationId>
    var answeredQuestions: seq<AnsweredQuestion>
    var nextAnswerId: nat
    var userCertifications: map<UserCertificationId, UserCertification>

    function State(): Tables
      reads this
    {
      Tables(users, pointHistories, surveys, nextSurveyId, questionBanks, nextBankId, questions,
             questionOptions, participations, answeredQuestions, nextAnswerId, userCertifications)
    }

    constructor ()
      ensures State() == EmptyTables()
    {
      users, pointHistories, surveys, nextSurveyId := map[], map[], map[], 0;
      questionBanks, nextBankId, questions, questionOptions := map[], 0, map[], map[];
      participations, answeredQuestions, nextAnswerId, userCertifications := [], [], 0, map[];
    }

    /** Transaction rollback: every table goes back to the snapshot. */
    method Restore(t: Tables)
      modifies this
      ensures State() == t
    {
      RestoreUserTables(t);
      RestoreSurveyTables(t);
      RestoreQuestionTables(t);
      RestoreAnswerTables(t);
    }

    /** The user-side tables of a rollback: users, ledger and certifications. */
    method RestoreUserTables(t: Tables)
      modifies this
      ensures State() == old(State()).(users := t.users, pointHistories := t.pointHistories,
                                       userCertifications := t.userCertifications)
    {
      users, pointHistories, userCertifications := t.users, t.pointHistories, t.userCertifications;
    }

    /** The survey-side tables of a rollback: surveys and banks. */
    method RestoreSurveyTables(t: Tables)
      modifies this
      ensures State() == old(State()).(surveys := t.surveys, nextSurveyId := t.nextSurveyId,
                                       questionBanks := t.questionBanks)
    {
      surveys, nextSurveyId, questionBanks := t.surveys, t.nextSurveyId, t.questionBanks;
    }

    /** The question-side tables of a rollback: the bank counter, questions and options. */
    method RestoreQuestionTables(t: Tables)
      modifies this
      ensures State() == old(State()).(nextBankId := t.nextBankId, questions := t.questions,
                                       questionOptions := t.questionOptions)
    {
      nextBankId, questions, questionOptions := t.nextBankId, t.questions, t.questionOptions;
    }

    /** The answer-side tables of a rollback: participations and answers. */
    method RestoreAnswerTables(t: Tables)
      modifies this
      ensures State() == old(State()).(participations := t.participations, answeredQuestions := t.answeredQuestions,
                                       nextAnswerId := t.nextAnswerId)
    {
      participations, answeredQuestions, nextAnswerId := t.participations, t.answeredQuestions, t.nextAnswerId;
    }

    /** userRepository.save of a changed user. */
    method SaveUser(u: UserId, user: User)
      modifies this
      ensures State() == old(State()).(users := old(users)[u := user])
    {
      users := users[u := user];
    }

    method DeleteUser(u: UserId)
      modifies this
      ensures State() == old(State()).(users := old(users) - {u})
    {
      users := users - {u};
    }

    /** pointHistoryRepository.save: a new newest row of the user's ledger. */
    method AppendPointHistory(u: UserId, entry: PointHistory)
      requires u in pointHistories
      modifies this
      ensures State() == old(State()).(pointHistories := old(pointHistories)[u := old(pointHistories)[u] + [entry]])
    {
      pointHistories := pointHistories[u := pointHistories[u] + [entry]];
    }

    /** surveyRepository.save of a new survey; the id is the next free one. */
    method InsertSurvey(row: SurveyRow) returns (id: SurveyId)
      modifies this
      ensures id == old(nextSurveyId)
      ensures State() == old(State()).(surveys := old(surveys)[id := row], nextSurveyId := id + 1)
    {
      id := nextSurveyId;
      surveys := surveys[id := row];
      nextSurveyId := id + 1;
    }

    method UpdateSurvey(id: SurveyId, row: SurveyRow)
      modifies this
      ensures State() == old(State()).(surveys := old(surveys)[id := row])
    {
      surveys := surveys[id := row];
    }

    method DeleteSurvey(id: SurveyId)
      modifies this
      ensures State() == old(State()).(surveys := old(surveys) - {id})
    {
      surveys := surveys - {id};
    }

    /** questionBankRepository.save of a new bank; the id is the next free one. */
    method InsertQuestionBank(bank: QuestionBank) returns (id: BankId)
      modifies this
      ensures id == old(nextBankId)
      ensures State() == old(State()).(questionBanks := old(questionBanks)[id := bank], nextBankId := id + 1)
    {
      id := nextBankId;
      questionBanks := questionBanks[id := bank];
      nextBankId := id + 1;
    }

    method UpdateQuestionBank(id: BankId, bank: QuestionBank)
      modifies this
      ensures State() == old(State()).(questionBanks := old(questionBanks)[id := bank])
    {
      questionBanks := questionBanks[id := bank];
    }

    method SaveQuestion(id: QuestionId, row: QuestionRow)
      modifies this
      ensures State() == old(State()).(questions := old(questions)[id := row])
    {
      questions := questions[id := row];
    }

    /** questionRepository.deleteAll(findAllBySurveyId(s)): drops every question row of survey s. */
    method DeleteQuestionsOfSurvey(s: SurveyId)
      modifies this
      ensures State() == old(State()).(questions := map q | q in old(questions) && q.survey != s :: old(questions)[q])
    {
      questions := map q | q in questions && q.survey != s :: questions[q];
    }

    /** Records the option list the option service is handed for a bank. */
    method SaveQuestionOptions(id: BankId, options: seq<string>)
      modifies this
      ensures State() == old(State()).(questionOptions := old(questionOptions)[id := options])
    {
      questionOptions := questionOptions[id := options];
    }

    method SaveParticipation(p: ParticipationId)
      modifies this
      ensures State() == old(State()).(participations := old(participations) + [p])
    {
      participations := participations + [p];
    }

    method SetParticipations(rows: seq<ParticipationId>)
      modifies this
      ensures State() == old(State()).(participations := rows)
    {
      participations := rows;
    }

    /** answeredQuestionRepository.save; the row's answerId is a fresh one. */
    method SaveAnsweredQuestion(row: AnsweredQuestion)
      requires row.id.answerId == nextAnswerId
      modifies this
      ensures State() == old(State()).(answeredQuestions := old(answeredQuestions) + [row], nextAnswerId := old(nextAnswerId) + 1)
    {
      answeredQuestions := answeredQuestions + [row];
      nextAnswerId := nextAnswerId + 1;
    }

    method SaveUserCertification(id: UserCertificationId, row: UserCertification)
      modifies this
      ensures State() == old(State()).(userCertifications := old(userCertifications)[id := row])
    {
      userCertifications := userCertifications[id := row];
    }

    method SetUserCertifications(certs: map<UserCertificationId, UserCertification>)
      modifies this
      ensures State() == old(State()).(userCertifications := certs)
    {
      userCertifications := certs;
    }
  }
}
