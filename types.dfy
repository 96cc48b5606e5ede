/** Enumerations, identifiers, errors and result wrappers shared by the whole model
    (the enums of EnumTypeEntity and the constants of ErrorMessage). */
module Types {

  /** Database identifiers (the source's Long ids). */
  type UserId = nat
  type SurveyId = nat
  type BankId = nat

  /** Wall-clock instants, in whole seconds (the source reads LocalDateTime.now in Asia/Seoul). */
  type Time = int

  datatype Option<+T> = None | Some(value: T)

  datatype QuestionType = SINGLE_CHOICE | MULTIPLE_CHOICES | SHORT_ANSWER | LONG_ANSWER

  /** Certification kinds; the stored id of each is its position in the enum. */
  datatype CertificationType =
    | NONE | KAKAO | NAVER | GOOGLE | WEBMAIL | DRIVER_LICENSE | IDENTITY_CARD
  {
    /** The integer id the repositories store and return for this kind. */
    function Id(): (id: int)
      ensures 0 <= id <= 6
      ensures id == 0 <==> this == NONE
    {
      match this
      case NONE => 0
      case KAKAO => 1
      case NAVER => 2
      case GOOGLE => 3
      case WEBMAIL => 4
      case DRIVER_LICENSE => 5
      case IDENTITY_CARD => 6
    }
  }

  /** The inverse of Id on 0..6 (what the certification-type converter does). */
  function CertificationFromId(id: int): (c: Option<CertificationType>)
    ensures c.Some? <==> 0 <= id <= 6
  {
    if id == 0 then Some(NONE)
    else if id == 1 then Some(KAKAO)
    else if id == 2 then Some(NAVER)
    else if id == 3 then Some(GOOGLE)
    else if id == 4 then Some(WEBMAIL)
    else if id == 5 then Some(DRIVER_LICENSE)
    else if id == 6 then Some(IDENTITY_CARD)
    else None
  }

  /** Id and CertificationFromId are mutually inverse, so ids 0..6 name the seven kinds one-to-one. */
  lemma CertificationIdRoundTrip(c: CertificationType, id: int)
    ensures CertificationFromId(c.Id()) == Some(c)
    ensures CertificationFromId(id).Some? ==> CertificationFromId(id).value.Id() == id
  {
  }

  lemma CertificationIdInjective(a: CertificationType, b: CertificationType)
    ensures a.Id() == b.Id() <==> a == b
  {
    CertificationIdRoundTrip(a, 0);
    CertificationIdRoundTrip(b, 0);
  }

  /** The error messages the core raises (each surfaces as a typed HTTP error). */
  datatype ErrorMessage =
    | INVALID_REQUEST
    | PAGE_NOT_FOUND
    | SURVEY_NOT_FOUND
    | SURVEY_CREATE_POINT_NOT_ENOUGH
    | STARTEDDATE_ISBEFORE_CURRENTDATE
    | STARTEDDATE_ISAFTER_ENDEDDATE
    | USER_CREATE_SURVEY_RECENT
    | AUTHOR_NOT_MATCHING
    | SURVEY_ALREADY_STARTED
    | SURVEY_ALREADY_ENDED
    | SURVEY_NOT_STARTED
    | CERTIFICATION_NOT_COMPLETED
    | ANSWER_ALREADY_SUBMITTED
    | CREATOR_CANNOT_ANSWER
    | NOT_ANSWER_TO_REQUIRED_QUESTION
    | QUESTION_BANK_NOT_FOUND
    | QUESTION_NOT_FOUND
    | NOT_SURVEY_QUESTION
    | ANSWER_AT_LEAST_ONE_QUESTION
    | MAX_SIZE_EXCEEDED
    | POSITIVE_VALUE_REQUIRED

  /** A check that passes or throws one typed error. */
  datatype Outcome = Pass | Fail(error: ErrorMessage) {
    predicate IsFailure() { Fail? }
    function PropagateFailure(): Outcome requires Fail? { this }
  }

  /** A computation that returns a value or throws one typed error. */
  datatype Result<+T> = Ok(value: T) | Err(error: ErrorMessage) {
    predicate IsFailure() { Err? }
    function PropagateFailure<U>(): Result<U> requires Err? { Err(error) }
    function Extract(): T requires Ok? { value }
  }

  /** A sequence of steps that stops at the first thrown error: the state reached (with the
      writes of the steps that ran) and the error, if one was thrown. */
  datatype Run<+S> = Run(state: S, failure: Option<ErrorMessage>)
}
