/** The composite primary keys of the domain (ParticipationId, AnsweredQuestionId, QuestionId,
    UserCertificationId, PointHistoryId) with their equals and hashCode.

    A referenced entity (Survey, User, QuestionBank) is identified by its id: the persistence
    context holds one object per id, and those entities do not override equals, so two
    references are equal exactly when they name the same row. In equals, the argument is
    `Some(other)` for another key of the same class and `None` for null or an object of any
    other class. */
module Ids {
  import opened Types

  /** Java's 32-bit int arithmetic: x wrapped into [-2^31, 2^31). */
  function Int32(x: int): (r: int)
    ensures -0x8000_0000 <= r < 0x8000_0000
    ensures (r - x) % 0x1_0000_0000 == 0
  {
    (x + 0x8000_0000) % 0x1_0000_0000 - 0x8000_0000
  }

  /** Objects.hash(a, b, ...): start at 1, then r = 31 * r + hash(e) for each element, in int arithmetic. */
  function ObjectsHash(hashes: seq<int>): int
  {
    if hashes == [] then 1
    else Int32(31 * ObjectsHash(hashes[..|hashes| - 1]) + hashes[|hashes| - 1])
  }

  /** Stand-in for the hash of a referenced entity or a value field, fixed by what it names. */
  function FieldHash(x: int): int
  {
    Int32(x)
  }

  /** Participation key: equality and hash use the survey and the user; the certification type is ignored. */
  datatype ParticipationId = ParticipationId(certificationType: CertificationType, survey: SurveyId, user: UserId)
  {
    predicate Equals(that: Option<ParticipationId>)
    {
      that.Some? && survey == that.value.survey && user == that.value.user
    }

    function HashCode(): int
    {
      ObjectsHash([FieldHash(survey), FieldHash(user)])
    }
  }

  /** Answer key: a fresh random answerId per row, but equality and hash use only
      the user, the survey and the question bank. */
  datatype AnsweredQuestionId = AnsweredQuestionId(answerId: nat, user: UserId, survey: SurveyId, questionBank: BankId)
  {
    predicate Equals(that: Option<AnsweredQuestionId>)
    {
      that.Some? && user == that.value.user && survey == that.value.survey
      && questionBank == that.value.questionBank
    }

    function HashCode(): int
    {
      ObjectsHash([FieldHash(user), FieldHash(survey), FieldHash(questionBank)])
    }
  }

  /** Question key: one question per (survey, question bank). */
  datatype QuestionId = QuestionId(survey: SurveyId, questionBank: BankId)
  {
    predicate Equals(that: Option<QuestionId>)
    {
      that.Some? && survey == that.value.survey && questionBank == that.value.questionBank
    }

    function HashCode(): int
    {
      ObjectsHash([FieldHash(survey), FieldHash(questionBank)])
    }
  }

  /** User-certification key: one certification per (user, certification type). */
  datatype UserCertificationId = UserCertificationId(user: UserId, certificationType: CertificationType)
  {
    predicate Equals(that: Option<UserCertificationId>)
    {
      that.Some? && user == that.value.user && certificationType == that.value.certificationType
    }

    function HashCode(): int
    {
      ObjectsHash([FieldHash(user), FieldHash(certificationType.Id())])
    }
  }

  /** Ledger-entry key: one entry per (transaction instant, user). */
  datatype PointHistoryId = PointHistoryId(transactionDate: Time, user: UserId)
  {
    predicate Equals(that: Option<PointHistoryId>)
    {
      that.Some? && transactionDate == that.value.transactionDate && user == that.value.user
    }

    function HashCode(): int
    {
      ObjectsHash([FieldHash(transactionDate), FieldHash(user)])
    }
  }

  /** ParticipationId.equals is an equivalence, false against null or another class, decided by
      (survey, user) alone, and hashCode agrees with it. */
  lemma ParticipationIdContract(a: ParticipationId, b: ParticipationId, c: ParticipationId)
    ensures a.Equals(Some(a)) && !a.Equals(None)
    ensures a.Equals(Some(b)) <==> b.Equals(Some(a))
    ensures a.Equals(Some(b)) && b.Equals(Some(c)) ==> a.Equals(Some(c))
    ensures a.Equals(Some(b)) <==> (a.survey, a.user) == (b.survey, b.user)
    ensures a.Equals(Some(b)) ==> a.HashCode() == b.HashCode()
  {
  }

  /** Two participation rows of one user in one survey compare equal whatever certification they record. */
  lemma ParticipationIdIgnoresCertification(p: ParticipationId, c: CertificationType)
    ensures p.Equals(Some(p.(certificationType := c)))
    ensures p.(certificationType := c).HashCode() == p.HashCode()
  {
  }

  lemma AnsweredQuestionIdContract(a: AnsweredQuestionId, b: AnsweredQuestionId, c: AnsweredQuestionId)
    ensures a.Equals(Some(a)) && !a.Equals(None)
    ensures a.Equals(Some(b)) <==> b.Equals(Some(a))
    ensures a.Equals(Some(b)) && b.Equals(Some(c)) ==> a.Equals(Some(c))
    ensures a.Equals(Some(b)) <==> (a.user, a.survey, a.questionBank) == (b.user, b.survey, b.questionBank)
    ensures a.Equals(Some(b)) ==> a.HashCode() == b.HashCode()
  {
  }

  /** The fan-out rows of one multiple-choice answer differ only in answerId, so their keys compare
      equal and hash alike although the rows are distinct. */
  lemma FanOutRowsCompareEqual(a: AnsweredQuestionId, otherAnswerId: nat)
    ensures a.Equals(Some(a.(answerId := otherAnswerId)))
    ensures a.(answerId := otherAnswerId).HashCode() == a.HashCode()
    ensures otherAnswerId != a.answerId ==> a.(answerId := otherAnswerId) != a
  {
  }

  lemma QuestionIdContract(a: QuestionId, b: QuestionId, c: QuestionId)
    ensures a.Equals(Some(a)) && !a.Equals(None)
    ensures a.Equals(Some(b)) <==> b.Equals(Some(a))
    ensures a.Equals(Some(b)) && b.Equals(Some(c)) ==> a.Equals(Some(c))
    ensures a.Equals(Some(b)) <==> a == b
    ensures a.Equals(Some(b)) ==> a.HashCode() == b.HashCode()
  {
  }

  lemma UserCertificationIdContract(a: UserCertificationId, b: UserCertificationId, c: UserCertificationId)
    ensures a.Equals(Some(a)) && !a.Equals(None)
    ensures a.Equals(Some(b)) <==> b.Equals(Some(a))
    ensures a.Equals(Some(b)) && b.Equals(Some(c)) ==> a.Equals(Some(c))
    ensures a.Equals(Some(b)) <==> a == b
    ensures a.Equals(Some(b)) ==> a.HashCode() == b.HashCode()
  {
  }

  lemma PointHistoryIdContract(a: PointHistoryId, b: PointHistoryId, c: PointHistoryId)
    ensures a.Equals(Some(a)) && !a.Equals(None)
    ensures a.Equals(Some(b)) <==> b.Equals(Some(a))
    ensures a.Equals(Some(b)) && b.Equals(Some(c)) ==> a.Equals(Some(c))
    ensures a.Equals(Some(b)) <==> a == b
    ensures a.Equals(Some(b)) ==> a.HashCode() == b.HashCode()
  {
  }

  /** Objects.hash of two values is 31 * (31 + h1) + h2 in int arithmetic. */
  lemma ObjectsHashOfTwo(h1: int, h2: int)
    ensures ObjectsHash([h1, h2]) == Int32(31 * Int32(31 + h1) + h2)
  {
    assert [h1][..0] == [];
    assert ObjectsHash([h1]) == Int32(31 * 1 + h1);
    assert [h1, h2][..1] == [h1];
  }
}
