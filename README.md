# The Survey: point economy, surveys and answers, in Dafny

This project models the server core of The Survey, a survey platform. In it, users pay points to publish surveys and earn points by answering other users' surveys. The model covers:

- **Point economy.** The per-question-type create costs and answer rewards (`PointUtil`). The append-only point ledger (`PointHistoryService`). The user's own `point` field, which the services keep beside the ledger.
- **Surveys.** `SurveyService` creates, deletes, updates and pages surveys. `SurveyTransactionService` runs the transactional create with its date, point and throttle checks. `QuestionService` creates, updates and deletes questions, and `ParticipationService` saves and removes the certification rows attached to a survey.
- **Answers.** `AnsweredQuestionService.createAnswer` checks eligibility, stores one row per answer (one per selected choice for a multiple-choice answer) and pays the reward into both balance stores. The repository also has the command classes for this flow and a `CommandExecutor` that runs a list of commands in order without rolling back, but no code builds such a list. The model assembles its own five-command list in createAnswer's order and compares it with createAnswer.
- **Certifications and profiles.** `UserCertificationService` grants, and expires, certifications valid for two years. `UserService` updates profiles and deletes users.
- **Entities and ids.** The guarded setters of `Survey` and `Question`, and the `equals`/`hashCode` contracts of the five composite ids in 32-bit Java arithmetic.
- **Mappers.** `SurveyMapper` and `AnsweredQuestionMapper`, including the `NONE` convention for "no certification required".
- **Web error handler.** The web client's `responseErrorHandle`, which turns an error response into the error screen and logs the user out on an expired session.

How the model is organised:

- **Repositories.** The JPA repositories are one value, `Db.Tables`, with one field per table plus the id counters. `Db.Database` holds that value and applies the writes.
- **Services.** Every service operation is a method on the database, proved against a pure specification function of the tables. The lemmas beside each specification state what the source promises: a refusal exactly in the documented cases, both balance stores moving together, nothing else changing, and round trips and idempotence where the code gives them.
- **Transactions.** `@Transactional` is modelled as a snapshot of the tables that is restored when the method throws.
- **Entities.** `Survey` and `Question` are classes loaded from a row, changed by their setters and written back.
- **Inputs.** The clock (`now`, in seconds) and the authenticated user are parameters.

Source files that sit around the core and are not part of this model:

- `StringUtil`: `Strings.Trim` is Java's `String.trim`, and answers are trimmed whether or not they are required.
- `CertificationTypeConverter` and `EnumTypeEntity`: an id is the kind's position in the enum.
- `QuestionOptionService`: option rows are written but not inspected.
- The static `PointUtil.validateUserPoint(int, int)` used by `SurveyCreateCommands.UpdateUserPointsCommand`: the model applies the shown rule, "refuse when the balance minus the cost is negative".

## Model

| member | source | states |
|---|---|---|
| Types.CertificationType.Id | api/src/main/java/com/thesurvey/api/service/AnsweredQuestionService.java:192-193 | The stored id of a certification kind lies in 0..6 and is 0 exactly for NONE, the id every "no certification needed" check looks for. |
| Types.CertificationFromId | api/src/main/java/com/thesurvey/api/service/mapper/SurveyMapper.java:116-117 | Converting a stored id back to a kind succeeds exactly on 0..6. |
| Types.CertificationIdRoundTrip | api/src/main/java/com/thesurvey/api/service/mapper/SurveyMapper.java:116-117 | Id and the conversion back are mutually inverse: a kind survives a store-and-read, and an id that converts reads back as itself. |
| Types.CertificationIdInjective | api/src/main/java/com/thesurvey/api/service/AnsweredQuestionService.java:197 | Two kinds share an id only if they are the same kind, so comparing id lists compares certifications. |
| Strings.Trim | api/src/main/java/com/thesurvey/api/service/mapper/SurveyMapper.java:68-69 | String.trim: the result is no longer than the input and neither starts nor ends with a character at or below U+0020. |
| Strings.TrimCutsBlankEnds | api/src/main/java/com/thesurvey/api/service/mapper/SurveyMapper.java:68-69 | The trimmed text is the input with a blank prefix and a blank suffix cut off: a slice of the input whose removed ends hold only characters at or below U+0020. |
| Strings.JavaLength | api/src/main/java/com/thesurvey/api/domain/Survey.java:82 | String.length() counts UTF-16 code units: at least one and at most two per character. |
| Strings.JavaLengthIsCharCount | api/src/main/java/com/thesurvey/api/domain/Survey.java:82 | The Java length equals the number of characters exactly when no character lies above U+FFFF. |
| Strings.JavaLengthOfSupplementary | api/src/main/java/com/thesurvey/api/domain/Survey.java:82 | A text made only of characters above U+FFFF has a Java length of twice its character count. |
| Strings.TrimEmptyIffBlank | api/src/main/java/com/thesurvey/api/service/AnsweredQuestionService.java:178-187 | Trimming leaves nothing exactly when every character of the text is white space or a control character; this is what makes a text answer count as empty. |
| Strings.TrimIdempotent | api/src/main/java/com/thesurvey/api/service/UserService.java:68-71 | Trimming an already trimmed text changes nothing, so a stored address is a fixed point of the trim. |
| Ids.Int32 | api/src/main/java/com/thesurvey/api/domain/ParticipationId.java:55-57 | Java int arithmetic: the result lies in [-2^31, 2^31) and agrees with the exact value modulo 2^32. |
| Ids.ObjectsHashOfTwo | api/src/main/java/com/thesurvey/api/domain/ParticipationId.java:55-57 | Objects.hash of two fields is 31 * (31 + h1) + h2 in 32-bit arithmetic. |
| Ids.ParticipationIdContract | api/src/main/java/com/thesurvey/api/domain/ParticipationId.java:43-57 | ParticipationId.equals is reflexive, symmetric and transitive, false against null or another class, holds exactly when survey and user agree, and equal keys have equal hashCodes. |
| Ids.ParticipationIdIgnoresCertification | api/src/main/java/com/thesurvey/api/domain/ParticipationId.java:43-57 | Two participation keys that differ only in certification type compare equal and hash alike. |
| Ids.AnsweredQuestionIdContract | api/src/main/java/com/thesurvey/api/domain/AnsweredQuestionId.java:41-56 | AnsweredQuestionId.equals is an equivalence decided by user, survey and question bank, false against null, and consistent with hashCode. |
| Ids.FanOutRowsCompareEqual | api/src/main/java/com/thesurvey/api/domain/AnsweredQuestionId.java:19-56 | Keys that differ only in the random answerId compare equal and hash alike, although they name different rows. |
| Ids.QuestionIdContract | api/src/main/java/com/thesurvey/api/domain/QuestionId.java:33-48 | QuestionId.equals is an equivalence that holds exactly for the same (survey, question bank) pair, false against null, and consistent with hashCode. |
| Ids.UserCertificationIdContract | api/src/main/java/com/thesurvey/api/domain/UserCertificationId.java:36-51 | UserCertificationId.equals is an equivalence that holds exactly for the same (user, certification type) pair, false against null, and consistent with hashCode. |
| Ids.PointHistoryIdContract | api/src/main/java/com/thesurvey/api/domain/PointHistoryId.java:33-48 | PointHistoryId.equals is an equivalence that holds exactly for the same (transaction date, user) pair, false against null, and consistent with hashCode. |
| Db.SurveyBankIds | api/src/main/java/com/thesurvey/api/repository/QuestionBankRepository.java:16-17 | The banks listed for a survey are linked to it by a question row and were created before the counter's current value. |
| Db.SurveyBankIdsComplete | api/src/main/java/com/thesurvey/api/repository/QuestionBankRepository.java:16-17 | findAllBySurveyId misses none of the survey's banks and lists none twice: every linked bank is listed, and the listed ids strictly increase. |
| Db.BankTypes | api/src/main/java/com/thesurvey/api/service/QuestionService.java:43-47 | The types reported for a list of banks are those banks' stored types, one per bank, in order. |
| Db.Database.Restore | api/src/main/java/com/thesurvey/api/service/SurveyTransactionService.java:36-50 | A rollback puts every table back to the snapshot taken when the transaction began. |
| Domain.ChangeTitleSpec | api/src/main/java/com/thesurvey/api/domain/Survey.java:81-86 | A title whose Java length (UTF-16 code units) exceeds 100 is refused with MAX_SIZE_EXCEEDED; otherwise only the title changes. |
| Domain.SixtyEmojiTitleRefused | api/src/main/java/com/thesurvey/api/domain/Survey.java:81-86 | A title of 60 emoji (120 UTF-16 units) is refused, although it has only 60 characters. |
| Domain.ChangeDescriptionSpec | api/src/main/java/com/thesurvey/api/domain/Survey.java:88-93 | A description whose Java length (UTF-16 code units) exceeds 255 is refused with MAX_SIZE_EXCEEDED; otherwise only the description changes. |
| Domain.ChangeQuestionNoSpec | api/src/main/java/com/thesurvey/api/domain/Question.java:46-51 | A question number that is not positive is refused with POSITIVE_VALUE_REQUIRED; otherwise only the number changes. |
| Domain.Survey.constructor | api/src/main/java/com/thesurvey/api/domain/Survey.java:68-79 | A loaded survey carries the given id and row. |
| Domain.Survey.ChangeTitle | api/src/main/java/com/thesurvey/api/domain/Survey.java:81-86 | The setter refuses a long title and leaves the entity unchanged, or stores the title. |
| Domain.Survey.ChangeDescription | api/src/main/java/com/thesurvey/api/domain/Survey.java:88-93 | The setter refuses a long description and leaves the entity unchanged, or stores the description. |
| Domain.Survey.ChangeStartedDate | api/src/main/java/com/thesurvey/api/domain/Survey.java:95-97 | The start date is replaced, with no check against the end date. |
| Domain.Survey.ChangeEndedDate | api/src/main/java/com/thesurvey/api/domain/Survey.java:99-101 | The end date is replaced, with no check against the start date. |
| Domain.Question.constructor | api/src/main/java/com/thesurvey/api/domain/Question.java:36-44 | The builder keys the question by exactly the given survey and bank. |
| Domain.Question.ChangeQuestionNo | api/src/main/java/com/thesurvey/api/domain/Question.java:46-51 | The setter refuses a number that is not positive and leaves the entity unchanged, or stores the number. |
| Domain.Question.ChangeIsRequired | api/src/main/java/com/thesurvey/api/domain/Question.java:53-55 | The required flag is replaced. |
| PointUtil.CalculateSurveyCreatePoints | api/src/main/java/com/thesurvey/api/util/PointUtil.java:27-44 | The create cost is a fixed amount per question type. The switch covers all four types, so INVALID_QUESTION_TYPE cannot arise. A single-choice question costs 2. |
| PointUtil.CalculateSurveyMaxRewardPoints | api/src/main/java/com/thesurvey/api/util/PointUtil.java:46-63 | The reward is a fixed amount per question type. The switch covers all four types, so INVALID_QUESTION_TYPE cannot arise. A single-choice question pays 1. |
| PointUtil.SingleChoicePoints | api/src/test/java/com/thesurvey/api/service/SurveyServiceConcurrencyTest.java:161 | A single-choice question costs 2 points to create and pays 1 point when answered. |
| PointUtil.SumPointsAppend | api/src/main/java/com/thesurvey/api/util/PointUtil.java:69-75 | The points of two joined question lists are the two sums added. |
| PointUtil.SumPointsPermutation | api/src/main/java/com/thesurvey/api/util/PointUtil.java:69-75 | The points of a survey do not depend on the order of its questions. |
| PointUtil.NoQuestionsNoPoints | api/src/main/java/com/thesurvey/api/util/PointUtil.java:69-75 | A survey without questions costs nothing and pays nothing. |
| PointUtil.GetSurveyMaxRewardPointsOf | api/src/main/java/com/thesurvey/api/util/PointUtil.java:69-75 | The reward summed over the survey's question banks; a survey with no question rows pays 0. |
| PointUtil.MaxRewardInAnyBankOrder | api/src/main/java/com/thesurvey/api/util/PointUtil.java:69-75 | Any list holding each of the survey's banks exactly once, including the source's questionNo order, gives the same reward as the model's id order. |
| PointUtil.SingleChoiceSurveyPoints | api/src/main/java/com/thesurvey/api/util/PointUtil.java:69-75 | A survey of n single-choice questions costs 2n to create and pays n when fully answered. |
| PointUtil.ValidateUserPoint | api/src/main/java/com/thesurvey/api/util/PointUtil.java:79-81 | A cost is refused with SURVEY_CREATE_POINT_NOT_ENOUGH exactly when it exceeds the balance, and accepted exactly when the balance covers it. |
| PointUtil.ValidateUserPointOfUser | api/src/main/java/com/thesurvey/api/util/PointUtil.java:77-82 | The same rule applied to the user's newest ledger balance. |
| PointHistoryService.FindPointByUserId | api/src/main/java/com/thesurvey/api/service/PointHistoryService.java:35-38 | The ledger query lists the user's balances newest first, one per ledger row. |
| PointHistoryService.GetUserTotalPoint | api/src/main/java/com/thesurvey/api/service/PointHistoryService.java:35-38 | A user's total is the balance of the newest ledger row. |
| PointHistoryService.SavePointHistory | api/src/main/java/com/thesurvey/api/service/PointHistoryService.java:21-33 | A refused transaction leaves every table alone; an accepted one leaves the tables its specification gives. |
| PointHistoryService.SavePointHistoryContract | api/src/main/java/com/thesurvey/api/service/PointHistoryService.java:21-33 | A transaction is refused exactly when it would take the balance below zero. Otherwise it appends one row for (now, user) holding the old balance plus the operand. Older rows, other users' ledgers and the other tables are unchanged. |
| PointHistoryService.SavePointHistoryKeepsLedgerNonNegative | api/src/main/java/com/thesurvey/api/service/PointHistoryService.java:23-25 | An accepted transaction keeps every ledger balance non-negative. |
| PointHistoryService.CreditNeverRefused | api/src/main/java/com/thesurvey/api/service/PointHistoryService.java:23-25 | A credit is never refused on a ledger without negative balances. |
| PointHistoryService.RepeatDebitCount | api/src/main/java/com/thesurvey/api/service/PointHistoryService.java:21-33 | Repeated debits of a positive cost C against a balance B go through exactly B / C times and leave B mod C, however many attempts follow. |
| PointHistoryService.FiftyPointsBuyTwentyFiveDebitsOfTwo | api/src/test/java/com/thesurvey/api/service/SurveyServiceConcurrencyTest.java:190-193 | From the initial 50 points, 25 debits of 2 go through and the balance ends at 0. |
| ParticipationService.ParticipationRows | api/src/main/java/com/thesurvey/api/service/ParticipationService.java:24-31 | One participation row per given certification type, in list order, each for the given user and survey. |
| ParticipationService.RemoveSurveyRows | api/src/main/java/com/thesurvey/api/service/ParticipationService.java:33-37 | Exactly the rows of the given survey are dropped. |
| ParticipationService.CreateParticipation | api/src/main/java/com/thesurvey/api/service/ParticipationService.java:24-31 | The rows are appended to the participation table and nothing else changes. |
| ParticipationService.DeleteParticipation | api/src/main/java/com/thesurvey/api/service/ParticipationService.java:33-37 | Only the participation table changes, losing exactly the survey's rows. |
| ParticipationService.ParticipationRowsCarryUserAndSurvey | api/src/main/java/com/thesurvey/api/service/ParticipationService.java:24-31 | Every saved row names the given user and survey, an empty list saves none, and the saved rows read back as the given types' ids in order. |
| ParticipationService.ParticipationIdsOfOwnRows | api/src/main/java/com/thesurvey/api/service/ParticipationService.java:24-31 | The certification ids read back for (survey, user) are the ids of the given types, in order. |
| ParticipationService.DeleteParticipationOnlyThatSurvey | api/src/main/java/com/thesurvey/api/service/ParticipationService.java:33-37 | After the deletion the survey has no certification rows, and every other survey reads back as before. |
| SurveyMapper.ToSurvey | api/src/main/java/com/thesurvey/api/service/mapper/SurveyMapper.java:64-73 | The new row has the author, the trimmed title and description, the request's dates and the save instant as createdDate. |
| SurveyMapper.GetConvertedCertificationTypes | api/src/main/java/com/thesurvey/api/service/mapper/SurveyMapper.java:110-118 | A stored list holding NONE's id is reported as no certification. Any other list converts id by id. NONE is never reported. |
| SurveyMapper.ConvertedCertificationTypesRoundTrip | api/src/main/java/com/thesurvey/api/service/mapper/SurveyMapper.java:110-118 | Ids written for a list of kinds read back as that list, or as the empty list when it holds NONE. |
| SurveyMapper.ParticipationIdsValid | api/src/main/java/com/thesurvey/api/service/mapper/SurveyMapper.java:111-112 | Every certification id read from participation rows is a valid id. |
| SurveyMapper.ToSurveyPageDto | api/src/main/java/com/thesurvey/api/service/mapper/SurveyMapper.java:75-90 | The page entry copies the survey's fields. Its reward is the summed per-type reward of the survey's questions. |
| SurveyMapper.ToSurveyListPageDto | api/src/main/java/com/thesurvey/api/service/mapper/SurveyMapper.java:92-100 | The reported page number is the zero-based index plus one; the surveys and counts are passed through. |
| AnsweredQuestionMapper.TrimShortLongAnswer | api/src/main/java/com/thesurvey/api/service/mapper/AnsweredQuestionMapper.java:19-22 | The stored text is the answer with its blank ends cut off. It is empty exactly when the answer is blank. |
| AnsweredQuestionMapper.TrimAnswer | api/src/main/java/com/thesurvey/api/service/mapper/AnsweredQuestionMapper.java:19-22 | An absent text stays absent; a present one is trimmed. |
| AnsweredQuestionMapper.ToAnsweredQuestion | api/src/main/java/com/thesurvey/api/service/mapper/AnsweredQuestionMapper.java:12-24 | The row is keyed by the user, the survey and the bank of the question. It carries the single choice and the trimmed texts, and no multiple choice. |
| AnsweredQuestionMapper.ToAnsweredQuestionWithMultipleChoices | api/src/main/java/com/thesurvey/api/service/mapper/AnsweredQuestionMapper.java:26-33 | The row is keyed by user, survey and bank and holds the one selected choice and nothing else. |
| AnsweredQuestionMapper.MultipleChoiceRows | api/src/main/java/com/thesurvey/api/service/AnsweredQuestionService.java:117-121 | One row per selected choice, in list order. |
| AnsweredQuestionMapper.MultipleChoiceRowsCompareEqual | api/src/main/java/com/thesurvey/api/service/AnsweredQuestionService.java:117-123 | Any two fan-out rows of one answer have keys that compare equal and hash alike, yet distinct rows have distinct keys. |
| AnsweredQuestionService.EmptyAnswerMeansBlank | api/src/main/java/com/thesurvey/api/service/AnsweredQuestionService.java:178-187 | An answer is empty exactly when both texts are absent or blank, there is no single choice and the selection list is absent or empty. |
| AnsweredQuestionService.GetQuestionBankRewardPoints | api/src/main/java/com/thesurvey/api/service/AnsweredQuestionService.java:210-215 | An empty answer earns nothing. A non-empty one earns the reward of the type the client sent. |
| AnsweredQuestionService.ValidateUserCompletedCertification | api/src/main/java/com/thesurvey/api/service/AnsweredQuestionService.java:190-201 | A list with NONE's id admits everybody. Otherwise the user passes exactly when they hold every listed id. The only refusal is CERTIFICATION_NOT_COMPLETED. |
| AnsweredQuestionService.ValidateCreateAnswerRequest | api/src/main/java/com/thesurvey/api/service/AnsweredQuestionService.java:151-176 | Each refusal holds exactly when its rule is the first one broken, in this order: ANSWER_ALREADY_SUBMITTED, CREATOR_CANNOT_ANSWER, SURVEY_NOT_STARTED, SURVEY_ALREADY_ENDED. It passes exactly for a first, non-author submission inside the window, both ends included. |
| AnsweredQuestionService.ValidateEligibility | api/src/main/java/com/thesurvey/api/service/AnsweredQuestionService.java:80-83 | A missing certification is reported first; otherwise the request rules decide. |
| AnsweredQuestionService.SurveyCertificationList | api/src/main/java/com/thesurvey/api/service/AnsweredQuestionService.java:80-81 | The survey's certification list consists of valid ids. |
| AnsweredQuestionService.CertificationCheckMatchesReportedTypes | api/src/main/java/com/thesurvey/api/service/AnsweredQuestionService.java:190-201 | The certification check passes exactly when the user holds every type the survey reports. |
| AnsweredQuestionService.GetCertificationTypeList | api/src/main/java/com/thesurvey/api/service/AnsweredQuestionService.java:203-208 | A list with NONE's id gives exactly [NONE]; any other list converts id by id; a non-empty list never gives an empty one. |
| AnsweredQuestionService.AnswerRows | api/src/main/java/com/thesurvey/api/service/AnsweredQuestionService.java:110-124 | An answer without selections is stored as one row, one with selections as one row per choice. Each row is for this user, survey and bank, under consecutive fresh ids. |
| AnsweredQuestionService.SaveAnswersRun | api/src/main/java/com/thesurvey/api/service/AnsweredQuestionService.java:87-127 | The answer loop writes only the answer table and its id counter. |
| AnsweredQuestionService.SaveAnswersRunStops | api/src/main/java/com/thesurvey/api/service/AnsweredQuestionService.java:87-127 | Once the loop has thrown, the remaining answers change nothing. |
| AnsweredQuestionService.SaveAnswerRowsOf | api/src/main/java/com/thesurvey/api/service/AnsweredQuestionService.java:111-124 | The answer's rows are appended in order. |
| AnsweredQuestionService.SaveOneAnswerOf | api/src/main/java/com/thesurvey/api/service/AnsweredQuestionService.java:88-125 | One pass of the loop body: a refusal writes nothing; otherwise the rows, the reward and the flag are as specified. |
| AnsweredQuestionService.SaveAnswers | api/src/main/java/com/thesurvey/api/service/AnsweredQuestionService.java:85-127 | The loop leaves exactly the tables, reward and error of the specified run. |
| AnsweredQuestionService.CreateAnswer | api/src/main/java/com/thesurvey/api/service/AnsweredQuestionService.java:68-141 | A refused submission leaves every table as it was; an accepted one leaves the specified tables and returns the reward. |
| AnsweredQuestionService.SubmitAnswers | api/src/main/java/com/thesurvey/api/service/AnsweredQuestionService.java:85-140 | The writes of a submission, all rolled back on any refusal. |
| AnsweredQuestionService.SaveAnswersRunSummary | api/src/main/java/com/thesurvey/api/service/AnsweredQuestionService.java:85-127 | The loop goes through exactly when every answer is acceptable. It then adds the rewards of the non-empty answers and sets the flag exactly when one answer is non-empty. It appends RowCount rows of this user and survey and keeps the old rows. |
| AnsweredQuestionService.SaveAnswersRunAccepts | api/src/main/java/com/thesurvey/api/service/AnsweredQuestionService.java:88-108 | The loop goes through exactly when every answer is acceptable (a required one non-empty, its bank existing and part of the survey). |
| AnsweredQuestionService.SaveAnswersRunTotals | api/src/main/java/com/thesurvey/api/service/AnsweredQuestionService.java:92-94 | After a completed loop the reward is the sum of the non-empty answers' rewards, and the flag says whether one answer was non-empty. |
| AnsweredQuestionService.SaveAnswersRunRows | api/src/main/java/com/thesurvey/api/service/AnsweredQuestionService.java:111-124 | A completed loop appends exactly RowCount rows, all for this user and survey, behind the old rows. |
| AnsweredQuestionService.AnsweredAfterSave | api/src/main/java/com/thesurvey/api/service/AnsweredQuestionService.java:151-157 | After a completed loop with a non-empty answer, the user counts as having answered the survey. |
| AnsweredQuestionService.CreateAnswerCreditsBoth | api/src/main/java/com/thesurvey/api/service/AnsweredQuestionService.java:133-140 | On success the returned reward is the summed reward of the answers, and both the point field and the ledger grow by it, the ledger by one row. |
| AnsweredQuestionService.CreateAnswerKeepsValid | api/src/main/java/com/thesurvey/api/service/AnsweredQuestionService.java:68-141 | A successful submission keeps both balance stores in agreement, every ledger balance non-negative and every id below its counter. |
| AnsweredQuestionService.SubmitAnswersKeepsValid | api/src/main/java/com/thesurvey/api/service/AnsweredQuestionService.java:85-140 | The writes of a successful submission keep the tables consistent. |
| AnsweredQuestionService.CreditKeepsValid | api/src/main/java/com/thesurvey/api/service/AnsweredQuestionService.java:136-138 | Crediting the ledger and the point field by the same reward keeps the tables consistent. |
| AnsweredQuestionService.CreateAnswerAccepts | api/src/main/java/com/thesurvey/api/service/AnsweredQuestionService.java:68-141 | On a ledger without negative balances, a submission to an existing survey succeeds exactly when the user is eligible, every answer is acceptable and at least one answer is non-empty. |
| AnsweredQuestionService.AnswersRewardIsDeclaredMaxReward | api/src/main/java/com/thesurvey/api/service/AnsweredQuestionService.java:210-215 | The reward is priced on the types the client declares, not on the stored banks. It equals the maximum reward of a survey made of the declared types of the non-empty answers. |
| AnsweredQuestionService.SecondSubmissionRefused | api/src/main/java/com/thesurvey/api/service/AnsweredQuestionService.java:151-157 | After one successful submission, any second one by the same user to the same survey is refused with ANSWER_ALREADY_SUBMITTED. |
| AnsweredQuestionService.OtherUsersRowsInvisible | api/src/main/java/com/thesurvey/api/service/AnsweredQuestionService.java:80-81 | The respondent's participation rows never enter the author's certification list. |
| AnsweredQuestionService.OneSingleChoiceAnswerEarnsOne | api/src/test/java/com/thesurvey/api/service/AnsweredQuestionConcurrencyTest.java:213-216 | One answered single-choice question earns 1 point and is stored as one row; a respondent at 50 points ends at 51. |
| AnsweredQuestionCreateCommands.ValidateUserCertificationSpec | api/src/main/java/com/thesurvey/api/service/command/AnsweredQuestionCreateCommands/ValidateUserCertificationCommand.java:30-75 | The command writes nothing and fails exactly when the eligibility checks fail, with their error. |
| AnsweredQuestionCreateCommands.SaveAnswerSpec | api/src/main/java/com/thesurvey/api/service/command/AnsweredQuestionCreateCommands/SaveAnswerCommand.java:37-77 | The command runs the same answer loop as createAnswer, starting from the reward it already holds. |
| AnsweredQuestionCreateCommands.ExecuteSaveAnswer | api/src/main/java/com/thesurvey/api/service/command/AnsweredQuestionCreateCommands/SaveAnswerCommand.java:37-77 | The loop and the at-least-one check leave exactly the specified tables, reward and outcome. |
| AnsweredQuestionCreateCommands.SaveAnswerCommand.constructor | api/src/main/java/com/thesurvey/api/service/command/AnsweredQuestionCreateCommands/SaveAnswerCommand.java:23-35 | A new command holds its request, user and survey, and a reward of 0. |
| AnsweredQuestionCreateCommands.SaveAnswerCommand.Execute | api/src/main/java/com/thesurvey/api/service/command/AnsweredQuestionCreateCommands/SaveAnswerCommand.java:37-77 | execute() updates the command's reward field and the tables as specified. |
| AnsweredQuestionCreateCommands.SaveAnswerCompletes | api/src/main/java/com/thesurvey/api/service/command/AnsweredQuestionCreateCommands/SaveAnswerCommand.java:37-95 | A fresh command completes exactly when every answer is acceptable and one is non-empty. It then holds the summed reward of the non-empty answers and has stored RowCount rows. |
| AnsweredQuestionCreateCommands.SaveOneSingleChoiceAnswer | api/src/main/java/com/thesurvey/api/service/command/AnsweredQuestionCreateCommands/SaveAnswerCommand.java:90-95 | One acceptable single-choice answer completes with reward 1 and one stored row. |
| AnsweredQuestionCreateCommands.SaveParticipationSpec | api/src/main/java/com/thesurvey/api/service/command/AnsweredQuestionCreateCommands/SaveParticipationCommand.java:21-32 | The command never fails and appends the respondent's rows for the converted list. |
| AnsweredQuestionCreateCommands.SaveParticipation | api/src/main/java/com/thesurvey/api/service/command/AnsweredQuestionCreateCommands/SaveParticipationCommand.java:21-32 | The participation table changes as specified. |
| AnsweredQuestionCreateCommands.SaveParticipationRows | api/src/main/java/com/thesurvey/api/service/command/AnsweredQuestionCreateCommands/SaveParticipationCommand.java:27-32 | A list holding NONE's id adds exactly one NONE row. A non-empty list adds at least one row. Every added row is for this user and survey. |
| AnsweredQuestionCreateCommands.CreditPointHistory | api/src/main/java/com/thesurvey/api/service/command/AnsweredQuestionCreateCommands/SavePointHistoryCommand.java:15-18 | The ledger changes as savePointHistory with the reward as operand. |
| AnsweredQuestionCreateCommands.CreditPointHistoryAppendsOne | api/src/main/java/com/thesurvey/api/service/command/AnsweredQuestionCreateCommands/SavePointHistoryCommand.java:15-18 | A non-negative reward is never refused. Exactly one row is appended, holding the old balance plus the reward, and nothing else changes. |
| AnsweredQuestionCreateCommands.CreditUserPointsSpec | api/src/main/java/com/thesurvey/api/service/command/AnsweredQuestionCreateCommands/UpdateUserPointsCommand.java:15-19 | The point field grows by the reward with no bound check, and nothing else changes. |
| AnsweredQuestionCreateCommands.CreditUserPoints | api/src/main/java/com/thesurvey/api/service/command/AnsweredQuestionCreateCommands/UpdateUserPointsCommand.java:15-19 | The user table changes as specified. |
| AnsweredQuestionCreateCommands.CreditsKeepInSync | api/src/main/java/com/thesurvey/api/service/command/AnsweredQuestionCreateCommands/UpdateUserPointsCommand.java:15-19 | Crediting the ledger and then the point field by the same reward keeps the two stores equal and the ledger non-negative. |
| AnsweredQuestionCreateCommands.FiftyPlusOneSingleChoiceReward | api/src/test/java/com/thesurvey/api/service/AnsweredQuestionConcurrencyTest.java:214 | A respondent at 50 points who earns one single-choice reward holds 51 in both stores. |
| SurveyCreateCommands.DebitPointHistory | api/src/main/java/com/thesurvey/api/service/command/SurveyCreateCommands/SavePointHistoryCommand.java:15-18 | The ledger changes as savePointHistory with the negated cost. |
| SurveyCreateCommands.DebitPointHistoryRule | api/src/main/java/com/thesurvey/api/service/command/SurveyCreateCommands/SavePointHistoryCommand.java:15-18 | The debit is refused exactly when the balance is below the cost, and then writes nothing. Otherwise it appends one row lowering the balance by the cost, and the balance stays non-negative. |
| SurveyCreateCommands.DebitUserPoints | api/src/main/java/com/thesurvey/api/service/command/SurveyCreateCommands/UpdateUserPointsCommand.java:16-21 | The user table changes as specified and the outcome is the check's. |
| SurveyCreateCommands.DebitUserPointsWritesBeforeCheck | api/src/main/java/com/thesurvey/api/service/command/SurveyCreateCommands/UpdateUserPointsCommand.java:16-21 | The point is lowered by the cost and saved whether or not the check then throws. The check throws exactly when the lowered point is below the cost. |
| SurveyCreateCommands.DebitsKeepInSync | api/src/main/java/com/thesurvey/api/service/command/SurveyCreateCommands/UpdateUserPointsCommand.java:16-21 | An accepted ledger debit followed by the point debit keeps the two stores equal and the ledger non-negative. |
| CommandExecutor.Execute | api/src/main/java/com/thesurvey/api/service/command/CommandExecutor.java:14-18 | command.execute() leaves exactly the tables and outcome that the command's specification gives. |
| CommandExecutor.ExecuteKeeps | api/src/main/java/com/thesurvey/api/service/command/CommandExecutor.java:14-18 | No command removes a survey, a user or a ledger. |
| CommandExecutor.ExecuteCommands | api/src/main/java/com/thesurvey/api/service/command/CommandExecutor.java:14-18 | The commands run in list order. The first throw stops the run, and the writes of the commands that ran stay. |
| CommandExecutor.RunAllAppend | api/src/main/java/com/thesurvey/api/service/command/CommandExecutor.java:14-18 | Running a + b is running a, then b from where a stopped, unless a threw. |
| CommandExecutor.RunAllCons | api/src/main/java/com/thesurvey/api/service/command/CommandExecutor.java:14-18 | Running c :: rest is running c, then rest unless c threw. |
| CommandExecutor.RunAllOne | api/src/main/java/com/thesurvey/api/service/command/CommandExecutor.java:14-18 | Running one command is executing it. |
| CommandExecutor.NoRollback | api/src/main/java/com/thesurvey/api/service/command/CommandExecutor.java:14-18 | A credit of the point field followed by a ledger debit that the balance cannot cover throws, and the credit stays written. |
| CommandExecutor.AnswerCommandsFront | api/src/main/java/com/thesurvey/api/service/command/CommandExecutor.java:14-18 | The validation and answer commands give the validation error with nothing written, or the answer loop's tables and error. |
| CommandExecutor.AnswerCommands | api/src/main/java/com/thesurvey/api/service/command/AnsweredQuestionCreateCommands/SavePointHistoryCommand.java:9-18 | The model's own list of the five answer commands, in createAnswer's order. Like `SavePointHistoryCommand` here and `UpdateUserPointsCommand` (UpdateUserPointsCommand.java:9-19), the two credit commands take their reward when they are built. The model passes the reward computed from the request alone. |
| CommandExecutor.AnswerCommandsMatchCreateAnswer | api/src/main/java/com/thesurvey/api/service/command/CommandExecutor.java:14-18 | Run in order by the executor, the five answer commands, built before anything runs with the reward computed from the request, reach createAnswer's tables when it succeeds and its error when it fails. |
| QuestionService.CreateQuestion | api/src/main/java/com/thesurvey/api/service/QuestionService.java:80-95 | The tables after the loop are those of the specification. |
| QuestionService.CreateOneQuestionTypes | api/src/main/java/com/thesurvey/api/service/QuestionService.java:83-93 | One item extends its survey's question list by its type and no other survey's list. |
| QuestionService.CreateQuestionFrame | api/src/main/java/com/thesurvey/api/service/QuestionService.java:80-95 | createQuestion hands out one bank id per item, keeps ids valid and changes only the bank, question and option tables. |
| QuestionService.CreateQuestionOwnTypes | api/src/main/java/com/thesurvey/api/service/QuestionService.java:80-95 | The survey's question types grow by the requested types, in order. |
| QuestionService.CreateQuestionOtherTypes | api/src/main/java/com/thesurvey/api/service/QuestionService.java:80-95 | No other survey's question list changes. |
| QuestionService.PatchedBank | api/src/main/java/com/thesurvey/api/service/QuestionService.java:115-121 | The bank gets the trimmed title and description always, and the type only when one is sent. |
| QuestionService.PatchedRow | api/src/main/java/com/thesurvey/api/service/QuestionService.java:123-128 | The flag and number are replaced only when sent. A number that is not positive is refused with POSITIVE_VALUE_REQUIRED. |
| QuestionService.UpdateQuestion | api/src/main/java/com/thesurvey/api/service/QuestionService.java:97-135 | A refusal leaves the tables as they were; success leaves the tables of the specification. |
| QuestionService.UpdateQuestionStopsAtError | api/src/main/java/com/thesurvey/api/service/QuestionService.java:101-133 | Once an item is refused, the whole list is refused with that error. |
| QuestionService.UpdateOneQuestionFrame | api/src/main/java/com/thesurvey/api/service/QuestionService.java:101-133 | An item is accepted exactly when acceptable. It changes only its bank, its question row of this survey and the options, and adds no row. |
| QuestionService.UpdateQuestionFrame | api/src/main/java/com/thesurvey/api/service/QuestionService.java:97-135 | An accepted patch adds or removes no bank or question and changes no other table. |
| QuestionService.UpdateQuestionAccepts | api/src/main/java/com/thesurvey/api/service/QuestionService.java:97-135 | updateQuestion goes through exactly when every item names an existing bank that has a question in this survey and sends no non-positive number. |
| QuestionService.UpdateQuestionKeepsTypes | api/src/main/java/com/thesurvey/api/service/QuestionService.java:119-121 | Patches that send no type leave every bank's type unchanged. |
| QuestionService.UpdateQuestionKeepsIds | api/src/main/java/com/thesurvey/api/service/QuestionService.java:97-135 | A patch keeps every id below its counter. |
| QuestionService.DeleteQuestion | api/src/main/java/com/thesurvey/api/service/QuestionService.java:137-143 | Only the survey's question rows are removed. |
| QuestionService.DeleteQuestionOnlyThatSurvey | api/src/main/java/com/thesurvey/api/service/QuestionService.java:137-143 | The survey is left without questions and every other survey's questions read back as before. |
| UserCertificationService.RequestedTypes | api/src/main/java/com/thesurvey/api/service/UserCertificationService.java:47-75 | The types whose flag is set; NONE is never among them. |
| UserCertificationService.SaveUserCertificationIf | api/src/main/java/com/thesurvey/api/service/UserCertificationService.java:93-100 | A row is saved only when the flag is set and the type is not among those held at the start. |
| UserCertificationService.UpdateUserCertification | api/src/main/java/com/thesurvey/api/service/UserCertificationService.java:39-79 | Only the certification table changes, as specified. |
| UserCertificationService.HeldHasRow | api/src/main/java/com/thesurvey/api/service/UserCertificationService.java:44-45 | A type's id is in the user's id list exactly when the (user, type) row exists. |
| UserCertificationService.UpdateGrantsRequested | api/src/main/java/com/thesurvey/api/service/UserCertificationService.java:39-79 | Every requested type that was not held gets a new row dated now and expiring two years later. Rows already held are untouched and nothing else appears. |
| UserCertificationService.UpdateHeldIds | api/src/main/java/com/thesurvey/api/service/UserCertificationService.java:39-79 | The user then holds exactly the old types plus the requested ones. NONE is never added, and other users are unchanged. |
| UserCertificationService.UpdateIdempotent | api/src/main/java/com/thesurvey/api/service/UserCertificationService.java:93-100 | Repeating an update with the same flags, at any time, changes nothing. |
| UserCertificationService.DeleteExpiredCertificates | api/src/main/java/com/thesurvey/api/service/UserCertificationService.java:85-91 | Only the certification table changes, as specified. |
| UserCertificationService.DeleteExpiredExactly | api/src/main/java/com/thesurvey/api/service/UserCertificationService.java:85-91 | Exactly the rows whose expiration is at or before now are removed, the others are unchanged, and a second run at the same instant removes nothing. |
| UserService.UpdateUserProfileSpec | api/src/main/java/com/thesurvey/api/service/UserService.java:47-76 | A profile update never changes the point. |
| UserService.UpdateUserProfile | api/src/main/java/com/thesurvey/api/service/UserService.java:47-76 | The returned user is the patched profile and it replaces the stored one. |
| UserService.UpdateUserProfileKeepsValid | api/src/main/java/com/thesurvey/api/service/UserService.java:53-73 | A profile patch keeps the tables consistent. Only this user's row changes, and its point still equals the newest ledger balance. |
| UserService.UpdateUserProfileIdempotent | api/src/main/java/com/thesurvey/api/service/UserService.java:53-71 | Sending the same patch twice gives the profile of the first time. |
| UserService.DeleteUser | api/src/main/java/com/thesurvey/api/service/UserService.java:78-84 | Only the user row is removed. |
| UserService.DeleteUserKeepsValid | api/src/main/java/com/thesurvey/api/service/UserService.java:78-84 | The user is gone, every other user is unchanged, the ledger stays and the tables stay consistent. |
| SurveyService.ValidateSurveyDates | api/src/main/java/com/thesurvey/api/service/SurveyTransactionService.java:71-83 | A start more than 5 seconds in the past is refused first, then a start after the end. Each refusal holds exactly in its case, and a start equal to the end passes. |
| SurveyService.ValidateUserPointSpec | api/src/main/java/com/thesurvey/api/service/SurveyTransactionService.java:61-67 | The check refuses exactly when the point field is below the cost. Otherwise it lowers the field by the cost, which leaves it non-negative. |
| SurveyService.ValidateUserPoint | api/src/main/java/com/thesurvey/api/service/SurveyTransactionService.java:61-67 | A refusal writes nothing; otherwise the lowered point is saved. |
| SurveyService.AuthorSurveyIds | api/src/main/java/com/thesurvey/api/service/SurveyTransactionService.java:86 | Exactly the author's surveys are listed. |
| SurveyService.OldestIndex | api/src/main/java/com/thesurvey/api/service/SurveyTransactionService.java:90 | The position picked holds a survey created no later than any other of the list. |
| SurveyService.ValidateRecentSurveyCreation | api/src/main/java/com/thesurvey/api/service/SurveyTransactionService.java:85-96 | The only refusal is USER_CREATE_SURVEY_RECENT. |
| SurveyService.ThrottleRule | api/src/main/java/com/thesurvey/api/service/SurveyTransactionService.java:85-96 | The throttle refuses exactly when the author has surveys and every one of them is less than 30 seconds old. |
| SurveyService.ThrottleReadsOldestSurvey | api/src/main/java/com/thesurvey/api/service/SurveyTransactionService.java:90 | An author whose oldest survey is 30 seconds old may create again, even though another survey was created this instant. |
| SurveyService.ValidateCreateSurvey | api/src/main/java/com/thesurvey/api/service/SurveyTransactionService.java:52-59 | Validation passes exactly when the dates pass, the point covers the cost and the throttle passes. On success the point field is lowered by the cost and nothing else changes. |
| SurveyService.ValidateCreate | api/src/main/java/com/thesurvey/api/service/SurveyTransactionService.java:52-59 | On success the tables are those of the specification, with the same error on refusal. |
| SurveyService.SaveSurvey | api/src/main/java/com/thesurvey/api/service/SurveyTransactionService.java:46-48 | The survey row, its questions and the participation rows are written as specified. |
| SurveyService.CreateSurveyTransactional | api/src/main/java/com/thesurvey/api/service/SurveyTransactionService.java:36-50 | A refusal leaves every table as it was; success leaves the specified tables and returns the new id. |
| SurveyService.CertificationTypesOrNone | api/src/main/java/com/thesurvey/api/service/SurveyService.java:162-164 | The written list is never empty and holds NONE exactly when the request's does or is empty. |
| SurveyService.CreateSurvey | api/src/main/java/com/thesurvey/api/service/SurveyService.java:155-176 | A refusal leaves every table as it was; success leaves the specified tables and returns the new id. |
| SurveyService.SaveSurveyEffectFrame | api/src/main/java/com/thesurvey/api/service/SurveyTransactionService.java:46-48 | The saves add the survey under the next id, give it the requested question types and append its participation rows. No other survey's questions change, and users, ledger and answers stay as they were. |
| SurveyService.DebitForSurveyAccepted | api/src/main/java/com/thesurvey/api/service/SurveyTransactionService.java:40-45 | An accepted validation and debit lower both the point field and the ledger by the cost, the ledger by one row, and change nothing else. |
| SurveyService.CreateSurveyRefusals | api/src/main/java/com/thesurvey/api/service/SurveyTransactionService.java:36-59 | Bad dates, too few points and the throttle refuse creation in that order, and creation goes through exactly when none applies. |
| SurveyService.CreateSurveyDebitsBoth | api/src/main/java/com/thesurvey/api/service/SurveyTransactionService.java:36-50 | A created survey lowers both balance stores by the create cost and no other user's. |
| SurveyService.DebitForSurveyKeepsValid | api/src/main/java/com/thesurvey/api/service/SurveyTransactionService.java:40-45 | The validation and debit keep the tables consistent. |
| SurveyService.CreateSurveyKeepsValid | api/src/main/java/com/thesurvey/api/service/SurveyTransactionService.java:36-50 | A creation keeps the balance stores equal, the ledger non-negative and ids valid. |
| SurveyService.CreateSurveyContents | api/src/main/java/com/thesurvey/api/service/SurveyTransactionService.java:46-48 | The new survey gets the next id, the mapped row and the requested types. Every other survey's questions are unchanged, and the participation rows are appended. |
| SurveyService.CreateSurveyCertificationRoundTrip | api/src/main/java/com/thesurvey/api/service/SurveyService.java:162-174 | After createSurvey the survey reports the requested certification types. A request with none, or with NONE, reports an empty list. |
| SurveyService.DeleteSurvey | api/src/main/java/com/thesurvey/api/service/SurveyService.java:178-204 | A refusal leaves every table as it was; success leaves the specified tables. |
| SurveyService.DeleteSurveyRefusals | api/src/main/java/com/thesurvey/api/service/SurveyService.java:178-190 | SURVEY_NOT_FOUND, AUTHOR_NOT_MATCHING and SURVEY_ALREADY_STARTED are checked in that order. The deletion goes through exactly for the author outside the open interval, whose ends are allowed. |
| SurveyService.RefundForSurveyAccepted | api/src/main/java/com/thesurvey/api/service/SurveyService.java:192-199 | The refund raises the point field and the ledger by the create cost of the survey's questions, the ledger by one row. |
| SurveyService.DeleteSurveyRefundsBoth | api/src/main/java/com/thesurvey/api/service/SurveyService.java:192-199 | A deletion raises both balance stores by the create cost of the survey's current questions. |
| SurveyService.RemoveSurveyEffectFrame | api/src/main/java/com/thesurvey/api/service/SurveyService.java:200-202 | The survey row, its questions and its participation rows go, and every other survey is unchanged. |
| SurveyService.DeleteSurveyRemoves | api/src/main/java/com/thesurvey/api/service/SurveyService.java:178-204 | A deletion removes the survey with its questions and participation rows and keeps the tables consistent. |
| SurveyService.DeleteOwnSurveyOutsideWindow | api/src/main/java/com/thesurvey/api/service/SurveyService.java:178-204 | The author deleting outside the open interval always succeeds, is refunded in both stores and removes exactly that survey. |
| SurveyService.CreatedSurveyFacts | api/src/main/java/com/thesurvey/api/service/SurveyTransactionService.java:36-50 | A created survey belongs to its author with the requested dates, and its refund equals the cost paid. |
| SurveyService.CreateThenDeleteRefunds | api/src/main/java/com/thesurvey/api/service/SurveyService.java:178-204 | Creating a survey and deleting it outside its open interval returns both balance stores and the survey table to where they were. |
| SurveyService.ValidateUpdateSurvey | api/src/main/java/com/thesurvey/api/service/SurveyService.java:233-257 | An ended survey is refused first, then a survey started more than 5 seconds ago, then an end before the start, then a start in the past. It passes exactly when none applies. |
| SurveyService.UpdateSurvey | api/src/main/java/com/thesurvey/api/service/SurveyService.java:206-231 | A refusal leaves every table as it was; success leaves the specified tables. |
| SurveyService.PatchedSurveyResult | api/src/main/java/com/thesurvey/api/service/SurveyService.java:218-227 | The setters accept exactly when the trimmed title and description fit, and then set title, description and both dates. |
| SurveyService.UpdateSurveyAccepts | api/src/main/java/com/thesurvey/api/service/SurveyService.java:206-231 | An update goes through exactly when the survey exists, the user is its author, the dates validate, the texts fit and every question patch is acceptable. A missing survey gives SURVEY_NOT_FOUND and another author AUTHOR_NOT_MATCHING. |
| SurveyService.UpdateSurveyChanges | api/src/main/java/com/thesurvey/api/service/SurveyService.java:206-231 | An update changes only that survey's row, to the patched values, and the question tables. No row is added or removed. |
| SurveyService.UpdateSurveyKeepsValid | api/src/main/java/com/thesurvey/api/service/SurveyService.java:206-231 | An update keeps the tables consistent. |
| SurveyService.UpdateSurveyKeepsRefund | api/src/main/java/com/thesurvey/api/service/SurveyService.java:192-195 | An update that sends no question type leaves every survey's refund unchanged. |
| SurveyService.PatchedSurveyIdempotent | api/src/main/java/com/thesurvey/api/service/SurveyService.java:218-227 | Applying the setters' patch twice gives the row of applying it once. |
| SurveyService.UpdateSurveyRowIdempotent | api/src/main/java/com/thesurvey/api/service/SurveyService.java:233-257 | Repeating a survey-only update at the same instant changes nothing, unless its end date has already passed. |
| SurveyService.OpenSurveyIds | api/src/main/java/com/thesurvey/api/service/SurveyService.java:86-87 | Exactly the surveys not yet ended are listed, newest first. |
| SurveyService.TotalPages | api/src/main/java/com/thesurvey/api/service/SurveyService.java:86-88 | The page count for 8 per page is 0 for no survey, otherwise the ceiling. |
| SurveyService.PageSlice | api/src/main/java/com/thesurvey/api/service/SurveyService.java:86-87 | Page p holds the entries from position 8(p-1) onward, at most 8 of them, and none past the end. |
| SurveyService.GetAllSurveyRefusals | api/src/main/java/com/thesurvey/api/service/SurveyService.java:79-95 | A page below 1 gives INVALID_REQUEST. A page past the last non-empty one gives PAGE_NOT_FOUND. With no open survey, every page is empty. |
| SurveyService.GetAllSurveyPageContents | api/src/main/java/com/thesurvey/api/service/SurveyService.java:79-95 | A listed page reports its number, the totals and at most 8 open surveys. They are the ones at the page's positions in the newest-first list, in that order. |
| SurveyService.OpenSurveyIsListed | api/src/main/java/com/thesurvey/api/service/SurveyService.java:79-95 | Every open survey appears on some page. |
| WebResponse.Screen | web/src/utils/responseErrorHandle.ts:6-42 | The label is the body, except for an expired session and a server error. Only a 400 has no route, and only 400 and 500 have no button. An expired session leads to the login page. |
| WebResponse.HeaderStore.SetLoggedIn | web/src/utils/responseErrorHandle.ts:21 | The store shows the given login state. |
| WebResponse.ResponseErrorHandle | web/src/utils/responseErrorHandle.ts:6-42 | The result is the screen's [label, button, route]. The store logs out exactly on an expired session and is otherwise unchanged. |
| WebResponse.CertificationMissingKeepsSession | web/src/utils/responseErrorHandle.ts:16-19 | A 401 carrying the certification message keeps the session and leads to the certification list. |
| WebResponse.LogoutOnlyOnUnauthorized | web/src/utils/responseErrorHandle.ts:16-26 | Only a 401 logs out. Among 401s, exactly the ones that log out lead to the login page. |
| WebResponse.ForbiddenAndOtherStatuses | web/src/utils/responseErrorHandle.ts:27-38 | A 403 keeps the message and leads back to the survey list; any other status, or no response, leads home. |

## Left out

- Distributed locks (Redisson, `@Lockable` and `LockAspect`), caching and concurrency: each operation is modelled as one atomic step on the tables. The concurrency tests are matched only in their end states, through `FiftyPointsBuyTwentyFiveDebitsOfTwo` and `OneSingleChoiceAnswerEarnsOne`.
- HTTP controllers, Spring Security, authentication and sessions: the authenticated user's id is a parameter.
- Logging: it has no effect on state.
- Clock and time zone: `now` is a parameter in whole seconds. `createdDate` order is the order of survey ids, and ledger rows are ordered by position.
- Bank order: `Db.SurveyBankIds` lists a survey's banks by id, while `findAllBySurveyId` orders them by questionNo. Every use is a sum, and `PointUtil.MaxRewardInAnyBankOrder` shows that the order does not change it.
- Session principal: the services read the user row by id. The source reads and writes `point` on the authenticated principal object (`UserUtil.java:21`), which lives in the session. A rollback restores the users table but not that object. So when `validateUserPoint` has lowered the principal's point and the 30-second throttle then throws (`SurveyService.java:263-273`), the next create in the same session starts from the lowered point. `Db.InSync` and the lemmas that preserve it (`CreateSurveyKeepsValid` and the others) hold only if the principal is reloaded from the users table on every request.
- Empty ledger: the source's `get(0)` on an empty ledger throws. The model requires `Db.HasLedger` instead. Registration writes the first ledger row (`AuthenticationService.java:63-68`), and `Db.InSync` gives every user a ledger row, so in a consistent state the requirement always holds.
- Integer width: points and ids are unbounded integers. Only the hash codes use 32-bit `int` arithmetic.
- Hash codes of referenced entities and enum fields: Java's values depend on the object (the identity hash). `Ids.FieldHash`, the id wrapped to 32 bits, stands in for them. The hashCode contracts rely only on equal fields hashing alike.
- The create costs and rewards of MULTIPLE_CHOICES, SHORT_ANSWER and LONG_ANSWER are left as unnamed constants. Only the SINGLE_CHOICE values (2 and 1) and the initial 50 points are fixed, and the lemmas hold for any values of the others.
- INVALID_QUESTION_TYPE in `PointUtil`: the switch covers every enum value, so this error cannot occur.
- Read-only endpoints and the DTOs they build:
  - `SurveyService`: `getSurveyBySurveyIdWithRelatedQuestion`, `getUserCreatedSurveys`, `getUserCreatedSurveyResult`.
  - `AnsweredQuestionService`: the answer getters.
  - `QuestionService`: `getQuestionBankInfoDtoListBySurveyId`, `getQuestionNoByQuestionBankId`.
  - `UserService`: `getUserByName`, `getUserProfile`.
  - `UserCertificationService`: `getUserCertifications`.
  - `SurveyMapper`: `toSurveyResponseDto` and the result DTOs.
- The `SaveSurvey`, `SaveQuestions` and survey-side `SaveParticipation` commands: `createSurvey` does not use them; its steps are modelled directly.
- The answer-side `FetchSurvey` command (FetchSurveyCommand.java:20-24): it only looks the survey up and throws SURVEY_NOT_FOUND when it is missing. The model's command list takes the survey as found, and the not-found refusal is modelled in `AnsweredQuestionService.CreateAnswer`.
- `AnsweredQuestionService.deleteAnswer`: `deleteSurvey` does not call it, so a deleted survey's answer rows stay in the answer table, as in the source.
- `ParticipationService.deleteParticipation` takes a `UUID` in the source; the model passes the survey id that `deleteSurvey` has.
- `SurveyService.ValidateUpdateSurvey` requires both dates of the update request: in the source a missing date makes the date comparison throw a NullPointerException.
- `SurveyService.UpdateSurveyKeepsRefund` covers only patches that send no question type. A type change alters the refund, because the refund is priced from the survey's current questions.
- `AnsweredQuestionCreateCommands.SaveAnswerCommand.Execute` keeps the reward in a field of the command, as the source does. No other command reads that field: the credit commands take their reward as a constructor argument (SavePointHistoryCommand.java:13, UpdateUserPointsCommand.java:13).
- `CommandExecutor.AnswerCommands` is the model's own assembly. The source has the command classes and `CommandExecutor`, whose list is injected by the framework (CommandExecutor.java:12), but no code builds the answer commands, and createAnswer does not use them. The model builds the credit commands with the reward computed from the request (`AnswersReward`); a caller that built them with the answer command's field before running it would credit 0.
- `CommandExecutor.AnswerCommandsMatchCreateAnswer` holds for that assembly only. It says nothing about a list built differently, for example with the credit commands' reward read from the answer command before the list runs.
- `WebResponse.Response`: the response body is taken as text, and the Redux store is reduced to the header slice's login flag.
- Hibernate entity identity and dirty checking: an entity is written back explicitly when its transaction commits.
