/** AnsweredQuestionMapper: one answer of a submission to the answer rows that are stored. */
module AnsweredQuestionMapper {
  import opened Types
  import opened Ids
  import opened Db
  import opened Strings

  /** One answer of a submission. `isRequired` and `questionType` are supplied by the client. */
  datatype AnsweredQuestionDto = AnsweredQuestionDto(
    questionBankId: BankId,
    singleChoice: Option<int>,
    multipleChoices: Option<seq<int>>,
    shortAnswer: Option<string>,
    longAnswer: Option<string>,
    isRequired: bool,
    questionType: QuestionType)

  /** StringUtil.trimShortLongAnswer, taken to trim the answer whether or not it is required. */
  function TrimShortLongAnswer(answer: string, isRequired: bool): (r: string)
    ensures |r| <= |answer|
    ensures r == [] <==> IsBlank(answer)
    ensures IsTrimmedFrom(r, answer)
  {
    TrimEmptyIffBlank(answer);
    TrimCutsBlankEnds(answer);
    Trim(answer)
  }

  /** A text answer through trimShortLongAnswer; an absent one stays absent. */
  function TrimAnswer(answer: Option<string>, isRequired: bool): (r: Option<string>)
    ensures r.None? <==> answer.None?
    ensures answer.Some? ==> r.value == TrimShortLongAnswer(answer.value, isRequired)
  {
    if answer.None? then None else Some(TrimShortLongAnswer(answer.value, isRequired))
  }

  /** toAnsweredQuestion: a row for the given user and the given (survey, bank) question, with the
      single choice as sent and the short and long answers trimmed; the multiple choice is unset.
      `answerId` is the fresh id the row's key receives. */
  function ToAnsweredQuestion(dto: AnsweredQuestionDto, user: UserId, question: QuestionId, answerId: nat): (row: AnsweredQuestion)
    ensures row.id.user == user && row.id.survey == question.survey && row.id.questionBank == question.questionBank
    ensures row.id.answerId == answerId
    ensures row.singleChoice == dto.singleChoice && row.multipleChoice.None?
    ensures row.shortAnswer == TrimAnswer(dto.shortAnswer, dto.isRequired)
    ensures row.longAnswer == TrimAnswer(dto.longAnswer, dto.isRequired)
  {
    AnsweredQuestion(AnsweredQuestionId(answerId, user, question.survey, question.questionBank),
                     dto.singleChoice, None,
                     TrimAnswer(dto.shortAnswer, dto.isRequired), TrimAnswer(dto.longAnswer, dto.isRequired))
  }

  /** toAnsweredQuestionWithMultipleChoices: a row holding one selected choice and nothing else. */
  function ToAnsweredQuestionWithMultipleChoices(user: UserId, question: QuestionId, choice: int, answerId: nat): (row: AnsweredQuestion)
    ensures row.id.user == user && row.id.survey == question.survey && row.id.questionBank == question.questionBank
    ensures row.id.answerId == answerId
    ensures row.multipleChoice == Some(choice)
    ensures row.singleChoice.None? && row.shortAnswer.None? && row.longAnswer.None?
  {
    AnsweredQuestion(AnsweredQuestionId(answerId, user, question.survey, question.questionBank), None, Some(choice), None, None)
  }

  /** The rows of one selection list, one per choice in list order, with consecutive fresh ids. */
  function MultipleChoiceRows(user: UserId, question: QuestionId, choices: seq<int>, firstId: nat): (rows: seq<AnsweredQuestion>)
    ensures |rows| == |choices|
    ensures forall i :: 0 <= i < |rows| ==> rows[i] == ToAnsweredQuestionWithMultipleChoices(user, question, choices[i], firstId + i)
  {
    if choices == [] then []
    else
      var n := |choices|;
      MultipleChoiceRows(user, question, choices[..n - 1], firstId) + [ToAnsweredQuestionWithMultipleChoices(user, question, choices[n - 1], firstId + n - 1)]
  }

  /** Fan-out rows for one user and question compare equal under AnsweredQuestionId.equals, since
      the fresh answer id is not part of the comparison. */
  lemma MultipleChoiceRowsCompareEqual(user: UserId, question: QuestionId, choices: seq<int>, firstId: nat, i: nat, j: nat)
    requires i < |choices| && j < |choices|
    ensures var rows := MultipleChoiceRows(user, question, choices, firstId);
      rows[i].id.Equals(Some(rows[j].id)) && rows[i].id.HashCode() == rows[j].id.HashCode()
      && (i != j ==> rows[i].id != rows[j].id)
  {
    var rows := MultipleChoiceRows(user, question, choices, firstId);
    AnsweredQuestionIdContract(rows[i].id, rows[j].id, rows[j].id);
  }
}
