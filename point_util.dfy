/** The reward calculator (PointUtil): what each question type costs to create and
    pays out when answered, and the sums over a survey's questions. */
module PointUtil {
  import opened Types
  import opened Ids
  import Db
  import PointHistoryService

  /** The point amounts of EnumTypeEntity.PointTransactionType. Only the single-choice pair is
      pinned down (a single-choice survey costs 2 and pays 1); the others stay arbitrary. */
  const SINGLE_CHOICE_CONSUME: nat := 2
  const MULTIPLE_CHOICES_CONSUME: nat
  const SHORT_ANSWER_CONSUME: nat
  const LONG_ANSWER_CONSUME: nat

  const SINGLE_CHOICE_REWARD: nat := 1
  const MULTIPLE_CHOICES_REWARD: nat
  const SHORT_ANSWER_REWARD: nat
  const LONG_ANSWER_REWARD: nat

  /** The balance written to a new user's first ledger entry (PointHistory.USER_INITIAL_POINT). */
  const USER_INITIAL_POINT: int := 50

  /** calculateSurveyCreatePoints: the create cost of one question of the given type. */
  function CalculateSurveyCreatePoints(questionType: QuestionType): (r: nat)
    ensures questionType == SINGLE_CHOICE ==> r == 2
  {
    match questionType
    case SINGLE_CHOICE => SINGLE_CHOICE_CONSUME
    case MULTIPLE_CHOICES => MULTIPLE_CHOICES_CONSUME
    case SHORT_ANSWER => SHORT_ANSWER_CONSUME
    case LONG_ANSWER => LONG_ANSWER_CONSUME
  }

  /** calculateSurveyMaxRewardPoints: what answering one question of the given type pays. */
  function CalculateSurveyMaxRewardPoints(questionType: QuestionType): (r: nat)
    ensures questionType == SINGLE_CHOICE ==> r == 1
  {
    match questionType
    case SINGLE_CHOICE => SINGLE_CHOICE_REWARD
    case MULTIPLE_CHOICES => MULTIPLE_CHOICES_REWARD
    case SHORT_ANSWER => SHORT_ANSWER_REWARD
    case LONG_ANSWER => LONG_ANSWER_REWARD
  }

  /** The numbers the tests rely on: a single-choice question costs 2 and pays 1. */
  lemma SingleChoicePoints()
    ensures CalculateSurveyCreatePoints(SINGLE_CHOICE) == 2
    ensures CalculateSurveyMaxRewardPoints(SINGLE_CHOICE) == 1
  {
  }

  /** The sum, in list order, of a per-type point amount over a list of question types
      (the stream().mapToInt(...).sum() of the source). */
  function SumPoints<T>(types: seq<T>, points: T -> nat): nat
  {
    if types == [] then 0 else SumPoints(types[..|types| - 1], points) + points(types[|types| - 1])
  }

  /** The create cost of a whole survey: the sum of the per-question cost. */
  function SurveyCreatePoints(types: seq<QuestionType>): nat
  {
    SumPoints(types, CalculateSurveyCreatePoints)
  }

  /** getSurveyMaxRewardPoints: the reward for answering every question of a survey. */
  function GetSurveyMaxRewardPoints(types: seq<QuestionType>): nat
  {
    SumPoints(types, CalculateSurveyMaxRewardPoints)
  }

  /** A sum over two lists joined is the sum of the two sums. */
  lemma {:induction false} SumPointsAppend<T>(a: seq<T>, b: seq<T>, points: T -> nat)
    ensures SumPoints(a + b, points) == SumPoints(a, points) + SumPoints(b, points)
    decreases |b|
  {
    if b == [] {
      assert a + b == a;
    } else {
      var b' := b[..|b| - 1];
      assert (a + b)[..|a + b| - 1] == a + b';
      SumPointsAppend(a, b', points);
    }
  }

  /** Taking one question out of a list takes its amount out of the sum. */
  lemma SumPointsRemoveAt<T>(b: seq<T>, k: nat, points: T -> nat)
    requires k < |b|
    ensures SumPoints(b, points) == SumPoints(b[..k] + b[k + 1..], points) + points(b[k])
  {
    assert b == b[..k] + ([b[k]] + b[k + 1..]);
    SumPointsAppend(b[..k], [b[k]] + b[k + 1..], points);
    SumPointsAppend([b[k]], b[k + 1..], points);
    SumPointsAppend(b[..k], b[k + 1..], points);
    assert [b[k]][..0] == [];
  }

  /** The sum does not depend on the order of the questions. */
  lemma {:induction false} SumPointsPermutation<T>(a: seq<T>, b: seq<T>, points: T -> nat)
    requires multiset(a) == multiset(b)
    ensures SumPoints(a, points) == SumPoints(b, points)
    decreases |a|
  {
    if a != [] {
      var a' := a[..|a| - 1];
      var x := a[|a| - 1];
      assert a == a' + [x];
      assert x in multiset(b);
      var k :| 0 <= k < |b| && b[k] == x;
      var b' := b[..k] + b[k + 1..];
      assert b == b[..k] + [x] + b[k + 1..];
      assert multiset(a') == multiset(a) - multiset{x};
      assert multiset(b') == multiset(b) - multiset{x};
      SumPointsPermutation(a', b', points);
      SumPointsRemoveAt(b, k, points);
    }
  }

  /** A survey with no questions costs nothing and pays nothing. */
  lemma NoQuestionsNoPoints()
    ensures SurveyCreatePoints([]) == 0 && GetSurveyMaxRewardPoints([]) == 0
  {
  }

  /** A survey of n single-choice questions costs 2n and pays n. */
  lemma {:induction false} SingleChoiceSurveyPoints(n: nat)
    ensures SurveyCreatePoints(seq(n, _ => SINGLE_CHOICE)) == 2 * n
    ensures GetSurveyMaxRewardPoints(seq(n, _ => SINGLE_CHOICE)) == n
  {
    if n > 0 {
      var s := seq(n, _ => SINGLE_CHOICE);
      assert s[..n - 1] == seq(n - 1, _ => SINGLE_CHOICE);
      SingleChoiceSurveyPoints(n - 1);
    }
  }

  /** The balance rule of validateUserPoint: a cost is refused exactly when it would take the
      given total below zero. */
  function ValidateUserPoint(surveyCreatePoint: int, userTotalPoint: int): (r: Outcome)
    ensures r == Fail(SURVEY_CREATE_POINT_NOT_ENOUGH) <==> userTotalPoint < surveyCreatePoint
    ensures r == Pass <==> surveyCreatePoint <= userTotalPoint
  {
    if userTotalPoint - surveyCreatePoint < 0 then Fail(SURVEY_CREATE_POINT_NOT_ENOUGH) else Pass
  }

  /** validateUserPoint(surveyCreatePoint, userId): the rule applied to the user's ledger total,
      read through PointHistoryService; being a function, it changes nothing. */
  function ValidateUserPointOfUser(t: Db.Tables, surveyCreatePoint: int, userId: UserId): (r: Outcome)
    requires Db.HasLedger(t, userId)
    ensures r == Fail(SURVEY_CREATE_POINT_NOT_ENOUGH) <==> Db.LatestPoint(t, userId) < surveyCreatePoint
    ensures r == Pass <==> surveyCreatePoint <= Db.LatestPoint(t, userId)
  {
    ValidateUserPoint(surveyCreatePoint, PointHistoryService.GetUserTotalPoint(t, userId))
  }

  /** getSurveyMaxRewardPoints(surveyId): the reward summed over the survey's question banks. */
  function GetSurveyMaxRewardPointsOf(t: Db.Tables, surveyId: SurveyId): (r: nat)
    requires Db.IdsValid(t)
    ensures (forall q :: q in t.questions ==> q.survey != surveyId) ==> r == 0
  {
    NoQuestionsNoBanks(t.questions, surveyId, t.nextBankId);
    GetSurveyMaxRewardPoints(Db.SurveyQuestionTypes(t, surveyId))
  }

  lemma NoQuestionsNoBanks(questions: map<QuestionId, Db.QuestionRow>, s: SurveyId, n: nat)
    ensures (forall q :: q in questions ==> q.survey != s) ==> Db.SurveyBankIds(questions, s, n) == []
  {
    if forall q :: q in questions ==> q.survey != s {
      Db.SurveyBankIdsEmpty(questions, s, n);
    }
  }

  predicate NoRepeats(a: seq<BankId>)
  {
    forall i, j :: 0 <= i < j < |a| ==> a[i] != a[j]
  }

  /** Taking the k-th element out of a list without repeats leaves a list without repeats that
      holds every other element. */
  lemma RemoveAtNoRepeats(b: seq<BankId>, k: nat)
    requires NoRepeats(b) && k < |b|
    ensures var b' := b[..k] + b[k + 1..];
      NoRepeats(b') && (forall y :: y in b' <==> y in b && y != b[k])
      && multiset(b) == multiset(b') + multiset{b[k]}
  {
    var b' := b[..k] + b[k + 1..];
    assert b == b[..k] + [b[k]] + b[k + 1..];
    forall i, j | 0 <= i < j < |b'|
      ensures b'[i] != b'[j]
    {
      var i' := if i < k then i else i + 1;
      var j' := if j < k then j else j + 1;
      assert b'[i] == b[i'] && b'[j] == b[j'] && i' < j';
    }
    forall y
      ensures y in b' <==> y in b && y != b[k]
    {
      if y in b' {
        var i :| 0 <= i < |b'| && b'[i] == y;
        var m := if i < k then i else i + 1;
        assert b[m] == y && m != k;
      }
      if y in b && y != b[k] {
        var m :| 0 <= m < |b| && b[m] == y;
        if m < k {
          assert b'[m] == y;
        } else {
          assert b'[m - 1] == y;
        }
      }
    }
  }

  /** Two lists without repeats that hold the same elements are permutations of each other. */
  lemma {:induction false} SameElementsNoRepeats(a: seq<BankId>, b: seq<BankId>)
    requires NoRepeats(a) && NoRepeats(b)
    requires forall x :: x in a <==> x in b
    ensures multiset(a) == multiset(b)
    decreases |a|
  {
    if |b| > 0 {
      assert b[0] in b;
    }
    if a != [] {
      var x := a[|a| - 1];
      assert a[..|a| - 1] + a[|a|..] == a[..|a| - 1];
      RemoveAtNoRepeats(a, |a| - 1);
      assert x in b;
      var k :| 0 <= k < |b| && b[k] == x;
      RemoveAtNoRepeats(b, k);
      SameElementsNoRepeats(a[..|a| - 1], b[..k] + b[k + 1..]);
    }
  }

  /** Summing the per-type amount of the banks' types does not depend on the order of the banks. */
  lemma {:induction false} BankSumPermutation(banks: map<BankId, Db.QuestionBank>, a: seq<BankId>, b: seq<BankId>,
                                              points: QuestionType -> nat)
    requires forall i :: 0 <= i < |a| ==> a[i] in banks
    requires forall i :: 0 <= i < |b| ==> b[i] in banks
    requires multiset(a) == multiset(b)
    ensures SumPoints(Db.BankTypes(banks, a), points) == SumPoints(Db.BankTypes(banks, b), points)
  {
    BankTypesSum(banks, a, points);
    BankTypesSum(banks, b, points);
    SumPointsPermutation(a, b, BankPoints(banks, points));
  }

  /** The amount of a bank's type, for a bank that exists. */
  function BankAmount(banks: map<BankId, Db.QuestionBank>, points: QuestionType -> nat, id: BankId): nat
  {
    if id in banks then points(banks[id].questionType) else 0
  }

  function BankPoints(banks: map<BankId, Db.QuestionBank>, points: QuestionType -> nat): BankId -> nat
  {
    id => BankAmount(banks, points, id)
  }

  /** Summing the per-type amount over the banks' types is summing, bank by bank, the amount of
      each bank's type. */
  lemma {:induction false} BankTypesSum(banks: map<BankId, Db.QuestionBank>, ids: seq<BankId>, points: QuestionType -> nat)
    requires forall i :: 0 <= i < |ids| ==> ids[i] in banks
    ensures SumPoints(Db.BankTypes(banks, ids), points) == SumPoints(ids, BankPoints(banks, points))
  {
    if ids != [] {
      BankTypesSum(banks, ids[..|ids| - 1], points);
    }
  }

  /** The survey's reward does not depend on the order its banks are listed in: every list that
      holds each of the survey's banks exactly once (the source lists them by question number)
      sums to the same reward. */
  lemma MaxRewardInAnyBankOrder(t: Db.Tables, surveyId: SurveyId, banks: seq<BankId>)
    requires Db.IdsValid(t)
    requires NoRepeats(banks)
    requires forall b :: b in banks <==> QuestionId(surveyId, b) in t.questions
    ensures forall i :: 0 <= i < |banks| ==> banks[i] in t.questionBanks
    ensures GetSurveyMaxRewardPoints(Db.BankTypes(t.questionBanks, banks)) == GetSurveyMaxRewardPointsOf(t, surveyId)
  {
    assert forall i :: 0 <= i < |banks| ==> banks[i] in t.questionBanks by {
      forall i | 0 <= i < |banks|
        ensures banks[i] in t.questionBanks
      {
        assert banks[i] in banks;
      }
    }
    var listed := Db.SurveyBankIds(t.questions, surveyId, t.nextBankId);
    Db.SurveyBankIdsComplete(t.questions, surveyId, t.nextBankId);
    forall x
      ensures x in banks <==> x in listed
    {
      if QuestionId(surveyId, x) in t.questions {
        assert x in t.questionBanks;
      }
    }
    assert NoRepeats(listed);
    SameElementsNoRepeats(banks, listed);
    BankSumPermutation(t.questionBanks, banks, listed, CalculateSurveyMaxRewardPoints);
  }
}
