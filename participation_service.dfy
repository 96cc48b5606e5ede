/** ParticipationService: one participation row per certification type of a (user, survey), and
    bulk removal of a survey's rows. */
module ParticipationService {
  import opened Types
  import opened Ids
  import opened Db

  /** The rows createParticipation saves, in list order. */
  function ParticipationRows(u: UserId, certificationTypes: seq<CertificationType>, s: SurveyId): (rows: seq<ParticipationId>)
    ensures |rows| == |certificationTypes|
    ensures forall i :: 0 <= i < |rows| ==> rows[i] == ParticipationId(certificationTypes[i], s, u)
  {
    if certificationTypes == [] then []
    else
      var n := |certificationTypes|;
      ParticipationRows(u, certificationTypes[..n - 1], s) + [ParticipationId(certificationTypes[n - 1], s, u)]
  }

  /** The participation table without the rows of survey s, order kept. */
  function RemoveSurveyRows(rows: seq<ParticipationId>, s: SurveyId): (r: seq<ParticipationId>)
    ensures forall p :: p in r <==> p in rows && p.survey != s
    ensures |r| <= |rows|
  {
    if rows == [] then []
    else
      var n := |rows|;
      RemoveSurveyRows(rows[..n - 1], s) + (if rows[n - 1].survey != s then [rows[n - 1]] else [])
  }

  method CreateParticipation(db: Database, u: UserId, certificationTypes: seq<CertificationType>, s: SurveyId)
    modifies db
    ensures db.State() == old(db.State()).(participations := old(db.participations) + ParticipationRows(u, certificationTypes, s))
  {
    for i := 0 to |certificationTypes|
      invariant db.State() == old(db.State()).(participations := old(db.participations) + ParticipationRows(u, certificationTypes[..i], s))
    {
      assert certificationTypes[..i + 1][..i] == certificationTypes[..i];
      db.SaveParticipation(ParticipationId(certificationTypes[i], s, u));
    }
    assert certificationTypes[..|certificationTypes|] == certificationTypes;
  }

  method DeleteParticipation(db: Database, s: SurveyId)
    modifies db
    ensures db.State() == old(db.State()).(participations := RemoveSurveyRows(old(db.participations), s))
  {
    db.SetParticipations(RemoveSurveyRows(db.participations, s));
  }

  /** Each saved row carries the given user and survey; an empty list saves nothing. */
  lemma ParticipationRowsCarryUserAndSurvey(u: UserId, certificationTypes: seq<CertificationType>, s: SurveyId)
    ensures forall p :: p in ParticipationRows(u, certificationTypes, s) ==> p.user == u && p.survey == s
    ensures certificationTypes == [] ==> ParticipationRows(u, certificationTypes, s) == []
    ensures ParticipationCertificationIds(ParticipationRows(u, certificationTypes, s), s, u)
         == seq(|certificationTypes|, i requires 0 <= i < |certificationTypes| => certificationTypes[i].Id())
  {
    var rows := ParticipationRows(u, certificationTypes, s);
    forall p | p in rows
      ensures p.user == u && p.survey == s
    {
      var i :| 0 <= i < |rows| && rows[i] == p;
    }
    ParticipationIdsOfOwnRows(u, certificationTypes, s);
  }

  lemma {:induction false} ParticipationIdsOfOwnRows(u: UserId, certificationTypes: seq<CertificationType>, s: SurveyId)
    ensures ParticipationCertificationIds(ParticipationRows(u, certificationTypes, s), s, u)
         == seq(|certificationTypes|, i requires 0 <= i < |certificationTypes| => certificationTypes[i].Id())
    decreases |certificationTypes|
  {
    if certificationTypes != [] {
      var n := |certificationTypes|;
      var rows := ParticipationRows(u, certificationTypes, s);
      assert rows[..n - 1] == ParticipationRows(u, certificationTypes[..n - 1], s);
      ParticipationIdsOfOwnRows(u, certificationTypes[..n - 1], s);
    }
  }

  /** Rows of other surveys are not touched, and none of survey s is left. */
  lemma DeleteParticipationOnlyThatSurvey(rows: seq<ParticipationId>, s: SurveyId, u: UserId)
    ensures ParticipationCertificationIds(RemoveSurveyRows(rows, s), s, u) == []
    ensures forall s' :: s' != s ==> ParticipationCertificationIds(RemoveSurveyRows(rows, s), s', u) == ParticipationCertificationIds(rows, s', u)
  {
    forall s' | s' != s
      ensures ParticipationCertificationIds(RemoveSurveyRows(rows, s), s', u) == ParticipationCertificationIds(rows, s', u)
    {
      RemoveKeepsOtherSurveys(rows, s, s', u);
    }
    RemoveDropsSurvey(rows, s, u);
  }

  lemma {:induction false} RemoveKeepsOtherSurveys(rows: seq<ParticipationId>, s: SurveyId, s': SurveyId, u: UserId)
    requires s' != s
    ensures ParticipationCertificationIds(RemoveSurveyRows(rows, s), s', u) == ParticipationCertificationIds(rows, s', u)
    decreases |rows|
  {
    if rows != [] {
      var n := |rows|;
      RemoveKeepsOtherSurveys(rows[..n - 1], s, s', u);
      ParticipationCertificationIdsAppend(RemoveSurveyRows(rows[..n - 1], s), if rows[n - 1].survey != s then [rows[n - 1]] else [], s', u);
      assert [rows[n - 1]][..0] == [];
    }
  }

  lemma {:induction false} RemoveDropsSurvey(rows: seq<ParticipationId>, s: SurveyId, u: UserId)
    ensures ParticipationCertificationIds(RemoveSurveyRows(rows, s), s, u) == []
    decreases |rows|
  {
    if rows != [] {
      var n := |rows|;
      RemoveDropsSurvey(rows[..n - 1], s, u);
      ParticipationCertificationIdsAppend(RemoveSurveyRows(rows[..n - 1], s), if rows[n - 1].survey != s then [rows[n - 1]] else [], s, u);
      assert [rows[n - 1]][..0] == [];
    }
  }
}
