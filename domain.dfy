/** The Survey and Question entities: objects loaded from their rows whose guarded setters change
    fields in place; the persistence context writes the changed row back on commit. */
module Domain {
  import opened Types
  import opened Ids
  import opened Db
  import opened Strings

  const TITLE_MAX_LENGTH: nat := 100
  const DESCRIPTION_MAX_LENGTH: nat := 255

  /** changeTitle on a row: a title whose String.length() exceeds 100 is refused and nothing changes. */
  function ChangeTitleSpec(row: SurveyRow, title: string): (r: Result<SurveyRow>)
    ensures r == Err(MAX_SIZE_EXCEEDED) <==> JavaLength(title) > TITLE_MAX_LENGTH
    ensures r.Ok? ==> r.value.title == title && r.value.(title := row.title) == row
  {
    if JavaLength(title) > TITLE_MAX_LENGTH then Err(MAX_SIZE_EXCEEDED) else Ok(row.(title := title))
  }

  /** changeDescription on a row: a description whose String.length() exceeds 255 is refused and
      nothing changes. */
  function ChangeDescriptionSpec(row: SurveyRow, description: string): (r: Result<SurveyRow>)
    ensures r == Err(MAX_SIZE_EXCEEDED) <==> JavaLength(description) > DESCRIPTION_MAX_LENGTH
    ensures r.Ok? ==> r.value.description == description && r.value.(description := row.description) == row
  {
    if JavaLength(description) > DESCRIPTION_MAX_LENGTH then Err(MAX_SIZE_EXCEEDED) else Ok(row.(description := description))
  }

  /** Java counts UTF-16 code units: 60 emoji are 120 units, so such a title is refused although it
      has only 60 characters. */
  lemma SixtyEmojiTitleRefused(row: SurveyRow)
    ensures ChangeTitleSpec(row, seq(60, _ => '\U{1F600}')) == Err(MAX_SIZE_EXCEEDED)
  {
    JavaLengthOfSupplementary(seq(60, _ => '\U{1F600}'));
  }

  /** changeQuestionNo on a row: a number that is not positive is refused and nothing changes. */
  function ChangeQuestionNoSpec(row: QuestionRow, questionNo: int): (r: Result<QuestionRow>)
    ensures r == Err(POSITIVE_VALUE_REQUIRED) <==> questionNo <= 0
    ensures r.Ok? ==> r.value == QuestionRow(questionNo, row.isRequired)
  {
    if questionNo <= 0 then Err(POSITIVE_VALUE_REQUIRED) else Ok(row.(questionNo := questionNo))
  }

  class Survey {
    const surveyId: SurveyId
    /** Set once by the builder; the column is not updatable. */
    const authorId: UserId
    var title: string
    var description: string
    var startedDate: Time
    var endedDate: Time
    const createdDate: Time

    /** The row the persistence context flushes for this object. */
    function Row(): SurveyRow
      reads this
    {
      SurveyRow(authorId, title, description, startedDate, endedDate, createdDate)
    }

    /** Loading the survey with the given id and row. */
    constructor (surveyId: SurveyId, row: SurveyRow)
      ensures this.surveyId == surveyId && Row() == row
    {
      this.surveyId := surveyId;
      authorId := row.authorId;
      title := row.title;
      description := row.description;
      startedDate := row.startedDate;
      endedDate := row.endedDate;
      createdDate := row.createdDate;
    }

    method ChangeTitle(title: string) returns (r: Outcome)
      modifies this
      ensures var spec := ChangeTitleSpec(old(Row()), title);
        (spec.Err? ==> r == Fail(spec.error) && Row() == old(Row()))
        && (spec.Ok? ==> r == Pass && Row() == spec.value)
    {
      if JavaLength(title) > TITLE_MAX_LENGTH {
        return Fail(MAX_SIZE_EXCEEDED);
      }
      this.title := title;
      r := Pass;
    }

    method ChangeDescription(description: string) returns (r: Outcome)
      modifies this
      ensures var spec := ChangeDescriptionSpec(old(Row()), description);
        (spec.Err? ==> r == Fail(spec.error) && Row() == old(Row()))
        && (spec.Ok? ==> r == Pass && Row() == spec.value)
    {
      if JavaLength(description) > DESCRIPTION_MAX_LENGTH {
        return Fail(MAX_SIZE_EXCEEDED);
      }
      this.description := description;
      r := Pass;
    }

    /** No check against the end date happens here. */
    method ChangeStartedDate(startedDate: Time)
      modifies this
      ensures Row() == old(Row()).(startedDate := startedDate)
    {
      this.startedDate := startedDate;
    }

    /** No check against the start date happens here. */
    method ChangeEndedDate(endedDate: Time)
      modifies this
      ensures Row() == old(Row()).(endedDate := endedDate)
    {
      this.endedDate := endedDate;
    }
  }

  class Question {
    const questionId: QuestionId
    var questionNo: int
    var isRequired: bool

    function Row(): QuestionRow
      reads this
    {
      QuestionRow(questionNo, isRequired)
    }

    /** The builder: the key is made of exactly the given survey and bank. */
    constructor (questionBank: BankId, survey: SurveyId, questionNo: int, isRequired: bool)
      ensures questionId == QuestionId(survey, questionBank)
      ensures Row() == QuestionRow(questionNo, isRequired)
    {
      questionId := QuestionId(survey, questionBank);
      this.questionNo := questionNo;
      this.isRequired := isRequired;
    }

    method ChangeQuestionNo(questionNo: int) returns (r: Outcome)
      modifies this
      ensures var spec := ChangeQuestionNoSpec(old(Row()), questionNo);
        (spec.Err? ==> r == Fail(spec.error) && Row() == old(Row()))
        && (spec.Ok? ==> r == Pass && Row() == spec.value)
    {
      if questionNo <= 0 {
        return Fail(POSITIVE_VALUE_REQUIRED);
      }
      this.questionNo := questionNo;
      r := Pass;
    }

    method ChangeIsRequired(isRequired: bool)
      modifies this
      ensures Row() == old(Row()).(isRequired := isRequired)
    {
      this.isRequired := isRequired;
    }
  }
}
