/** SurveyMapper: a create request to a survey row, and survey rows to the page entries and page
    envelope the list endpoint returns. */
module SurveyMapper {
  import opened Types
  import opened Db
  import opened Strings
  import PointUtil
  import QuestionService

  /** A create request. Every field is required by the request's validation. */
  datatype SurveyRequest = SurveyRequest(
    title: string,
    description: string,
    startedDate: Time,
    endedDate: Time,
    certificationTypes: seq<CertificationType>,
    questions: seq<QuestionService.QuestionRequest>)

  /** One entry of a survey page. */
  datatype SurveyPage = SurveyPage(
    surveyId: SurveyId,
    authorId: UserId,
    title: string,
    description: string,
    startedDate: Time,
    createdDate: Time,
    endedDate: Time,
    certificationTypes: seq<CertificationType>,
    rewardPoints: nat)

  /** The page envelope: the entries, the one-based page number and the totals. */
  datatype SurveyListPage = SurveyListPage(surveys: seq<SurveyPage>, page: int, totalSurveys: nat, totalPages: nat)

  /** toSurvey: the author and the dates are copied, the title trimmed and the description trimmed
      (twice in the source, which is trimming once). `createdDate` is the instant the auditing
      listener stamps on save. */
  function ToSurvey(req: SurveyRequest, authorId: UserId, createdDate: Time): (row: SurveyRow)
    ensures row.authorId == authorId && row.startedDate == req.startedDate && row.endedDate == req.endedDate
    ensures row.title == Trim(req.title) && row.description == Trim(req.description)
    ensures row.createdDate == createdDate
  {
    TrimIdempotent(req.description);
    SurveyRow(authorId, Trim(req.title), Trim(Trim(req.description)), req.startedDate, req.endedDate, createdDate)
  }

  /** getConvertedCertificationTypes: a stored list containing NONE's id is reported as no
      certification at all; any other list is converted id by id. */
  function GetConvertedCertificationTypes(ids: seq<int>): (r: seq<CertificationType>)
    requires forall i :: 0 <= i < |ids| ==> 0 <= ids[i] <= 6
    ensures NONE.Id() in ids ==> r == []
    ensures NONE.Id() !in ids ==> |r| == |ids| && forall i :: 0 <= i < |ids| ==> r[i].Id() == ids[i]
    ensures NONE !in r
  {
    if NONE.Id() in ids then []
    else
      var r := seq(|ids|, i requires 0 <= i < |ids| => CertificationFromId(ids[i]).value);
      assert forall i :: 0 <= i < |ids| ==> r[i].Id() == ids[i] by {
        forall i | 0 <= i < |ids|
          ensures r[i].Id() == ids[i]
        {
          CertificationIdRoundTrip(NONE, ids[i]);
        }
      }
      r
  }

  /** Converting the ids of a list of types gives the list back, unless it holds NONE, which
      reads back as no certification at all. */
  lemma ConvertedCertificationTypesRoundTrip(certs: seq<CertificationType>, ids: seq<int>)
    requires |ids| == |certs| && forall i :: 0 <= i < |certs| ==> ids[i] == certs[i].Id()
    ensures forall i :: 0 <= i < |ids| ==> 0 <= ids[i] <= 6
    ensures GetConvertedCertificationTypes(ids) == if NONE in certs then [] else certs
  {
    assert forall i :: 0 <= i < |ids| ==> 0 <= ids[i] <= 6 by {
      forall i | 0 <= i < |ids|
        ensures 0 <= ids[i] <= 6
      {
        assert ids[i] == certs[i].Id();
      }
    }
    if NONE in certs {
      var i :| 0 <= i < |certs| && certs[i] == NONE;
      assert ids[i] == NONE.Id();
    } else {
      assert forall i :: 0 <= i < |ids| ==> ids[i] != NONE.Id() by {
        forall i | 0 <= i < |ids|
          ensures ids[i] != NONE.Id()
        {
          assert certs[i] != NONE;
        }
      }
      var back := GetConvertedCertificationTypes(ids);
      forall i | 0 <= i < |certs|
        ensures back[i] == certs[i]
      {
        CertificationIdInjective(back[i], certs[i]);
      }
    }
  }

  /** Every id a participation row records is a valid certification id. */
  lemma {:induction false} ParticipationIdsValid(rows: seq<Ids.ParticipationId>, s: SurveyId, u: UserId)
    ensures forall i :: 0 <= i < |ParticipationCertificationIds(rows, s, u)| ==> 0 <= ParticipationCertificationIds(rows, s, u)[i] <= 6
    decreases |rows|
  {
    if rows != [] {
      var front, last := rows[..|rows| - 1], rows[|rows| - 1];
      ParticipationIdsValid(front, s, u);
      assert ParticipationCertificationIds(rows, s, u)
          == ParticipationCertificationIds(front, s, u) + (if last.survey == s && last.user == u then [last.certificationType.Id()] else []);
    }
  }

  /** The certification types reported for survey s of the given author. */
  function SurveyCertificationTypes(t: Tables, s: SurveyId, authorId: UserId): seq<CertificationType>
  {
    SurveyCertificationTypesOf(t.participations, s, authorId)
  }

  function SurveyCertificationTypesOf(ps: seq<Ids.ParticipationId>, s: SurveyId, authorId: UserId): seq<CertificationType>
  {
    ParticipationIdsValid(ps, s, authorId);
    GetConvertedCertificationTypes(ParticipationCertificationIds(ps, s, authorId))
  }

  /** toSurveyPageDto: the row's fields, its certification types and the reward a respondent can
      earn at most, which is the sum of the per-type rewards of its questions. */
  function ToSurveyPageDto(t: Tables, s: SurveyId): (page: SurveyPage)
    requires IdsValid(t) && s in t.surveys
    ensures var row := t.surveys[s];
      page.surveyId == s && page.authorId == row.authorId && page.title == row.title
      && page.description == row.description && page.startedDate == row.startedDate
      && page.endedDate == row.endedDate && page.createdDate == row.createdDate
    ensures page.rewardPoints == PointUtil.GetSurveyMaxRewardPoints(SurveyQuestionTypes(t, s))
  {
    var row := t.surveys[s];
    SurveyPage(s, row.authorId, row.title, row.description, row.startedDate, row.createdDate, row.endedDate,
               SurveyCertificationTypes(t, s, row.authorId), PointUtil.GetSurveyMaxRewardPointsOf(t, s))
  }

  /** toSurveyListPageDto: the reported page number is the zero-based pageable index plus one. */
  function ToSurveyListPageDto(surveys: seq<SurveyPage>, pageIndex: nat, totalElements: nat, totalPages: nat): (r: SurveyListPage)
    ensures r.page == pageIndex + 1 && r.page >= 1
    ensures r.surveys == surveys && r.totalSurveys == totalElements && r.totalPages == totalPages
  {
    SurveyListPage(surveys, pageIndex + 1, totalElements, totalPages)
  }
}
