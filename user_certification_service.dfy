/** UserCertificationService: granting the certifications a user completed and the nightly removal
    of expired ones. The clock is an input: `now` and `twoYearsLater` (the calendar date two years
    after now) are read by the caller. */
module UserCertificationService {
  import opened Types
  import opened Ids
  import opened Db

  type Certifications = map<UserCertificationId, UserCertification>

  /** The six flags of an update request. */
  datatype CertificationUpdateRequest = CertificationUpdateRequest(
    isKakaoCertificated: bool,
    isNaverCertificated: bool,
    isGoogleCertificated: bool,
    isWebMailCertificated: bool,
    isDriverLicenseCertificated: bool,
    isIdentityCardCertificated: bool)

  /** The certification types whose flag is set. */
  function RequestedTypes(req: CertificationUpdateRequest): (r: set<CertificationType>)
    ensures NONE !in r
  {
    (if req.isKakaoCertificated then {KAKAO} else {})
    + (if req.isNaverCertificated then {NAVER} else {})
    + (if req.isGoogleCertificated then {GOOGLE} else {})
    + (if req.isWebMailCertificated then {WEBMAIL} else {})
    + (if req.isDriverLicenseCertificated then {DRIVER_LICENSE} else {})
    + (if req.isIdentityCardCertificated then {IDENTITY_CARD} else {})
  }

  /** `if (flag) saveUserCertification(user, c, held)`: a new row for (u, c), certified now and
      expiring two years later, unless c's id is among the ids the user held when the update
      began. */
  function SaveIf(certs: Certifications, flag: bool, u: UserId, c: CertificationType, held: set<int>,
                  now: Time, twoYearsLater: Time): Certifications
  {
    if flag && c.Id() !in held then certs[UserCertificationId(u, c) := UserCertification(now, twoYearsLater)] else certs
  }

  /** updateUserCertification: the six flags in order, against the id list read once at the start. */
  function UpdateUserCertificationSpec(certs: Certifications, u: UserId, req: CertificationUpdateRequest,
                                       now: Time, twoYearsLater: Time): Certifications
  {
    var held := UserCertificationIds(certs, u);
    var c1 := SaveIf(certs, req.isKakaoCertificated, u, KAKAO, held, now, twoYearsLater);
    var c2 := SaveIf(c1, req.isNaverCertificated, u, NAVER, held, now, twoYearsLater);
    var c3 := SaveIf(c2, req.isGoogleCertificated, u, GOOGLE, held, now, twoYearsLater);
    var c4 := SaveIf(c3, req.isWebMailCertificated, u, WEBMAIL, held, now, twoYearsLater);
    var c5 := SaveIf(c4, req.isDriverLicenseCertificated, u, DRIVER_LICENSE, held, now, twoYearsLater);
    SaveIf(c5, req.isIdentityCardCertificated, u, IDENTITY_CARD, held, now, twoYearsLater)
  }

  method SaveUserCertificationIf(db: Database, flag: bool, u: UserId, c: CertificationType, held: set<int>,
                                 now: Time, twoYearsLater: Time)
    modifies db
    ensures db.State() == old(db.State()).(userCertifications := SaveIf(old(db.userCertifications), flag, u, c, held, now, twoYearsLater))
  {
    if flag && c.Id() !in held {
      db.SaveUserCertification(UserCertificationId(u, c), UserCertification(now, twoYearsLater));
    }
  }

  method UpdateUserCertification(db: Database, u: UserId, req: CertificationUpdateRequest, now: Time, twoYearsLater: Time)
    modifies db
    ensures db.State() == old(db.State()).(userCertifications := UpdateUserCertificationSpec(old(db.userCertifications), u, req, now, twoYearsLater))
  {
    var held := UserCertificationIds(db.userCertifications, u);
    SaveUserCertificationIf(db, req.isKakaoCertificated, u, KAKAO, held, now, twoYearsLater);
    SaveUserCertificationIf(db, req.isNaverCertificated, u, NAVER, held, now, twoYearsLater);
    SaveUserCertificationIf(db, req.isGoogleCertificated, u, GOOGLE, held, now, twoYearsLater);
    SaveUserCertificationIf(db, req.isWebMailCertificated, u, WEBMAIL, held, now, twoYearsLater);
    SaveUserCertificationIf(db, req.isDriverLicenseCertificated, u, DRIVER_LICENSE, held, now, twoYearsLater);
    SaveUserCertificationIf(db, req.isIdentityCardCertificated, u, IDENTITY_CARD, held, now, twoYearsLater);
  }

  /** m is certs plus a fresh row, certified now, for each (u, c) with c in asked that u did not hold. */
  ghost predicate Granted(certs: Certifications, m: Certifications, u: UserId, asked: set<CertificationType>,
                    now: Time, twoYearsLater: Time)
  {
    (forall k :: k in m <==> k in certs || (k.user == u && k.certificationType in asked))
    && (forall k :: k in certs ==> k in m && m[k] == certs[k])
    && (forall k :: k in m && k !in certs ==> m[k] == UserCertification(now, twoYearsLater))
  }

  /** A type whose id the user holds has its (user, type) row. */
  lemma HeldHasRow(certs: Certifications, u: UserId, c: CertificationType)
    ensures c.Id() in UserCertificationIds(certs, u) <==> UserCertificationId(u, c) in certs
  {
    if c.Id() in UserCertificationIds(certs, u) {
      var k :| k in certs && k.user == u && k.certificationType.Id() == c.Id();
      CertificationIdInjective(k.certificationType, c);
    }
  }

  lemma SaveIfStep(certs: Certifications, m: Certifications, flag: bool, u: UserId, c: CertificationType,
                   asked: set<CertificationType>, now: Time, twoYearsLater: Time)
    requires Granted(certs, m, u, asked, now, twoYearsLater)
    ensures Granted(certs, SaveIf(m, flag, u, c, UserCertificationIds(certs, u), now, twoYearsLater), u,
                    asked + (if flag then {c} else {}), now, twoYearsLater)
  {
    HeldHasRow(certs, u, c);
  }

  /** The effect of an update: the user gains a row, certified now and expiring two years later,
      for every requested type they did not hold; every existing row, of this user or another, is
      kept unchanged (a false flag removes nothing, a true flag does not renew), and no other row
      appears. */
  lemma UpdateGrantsRequested(certs: Certifications, u: UserId, req: CertificationUpdateRequest, now: Time, twoYearsLater: Time)
    ensures Granted(certs, UpdateUserCertificationSpec(certs, u, req, now, twoYearsLater), u, RequestedTypes(req), now, twoYearsLater)
  {
    var held := UserCertificationIds(certs, u);
    var c1 := SaveIf(certs, req.isKakaoCertificated, u, KAKAO, held, now, twoYearsLater);
    var c2 := SaveIf(c1, req.isNaverCertificated, u, NAVER, held, now, twoYearsLater);
    var c3 := SaveIf(c2, req.isGoogleCertificated, u, GOOGLE, held, now, twoYearsLater);
    var c4 := SaveIf(c3, req.isWebMailCertificated, u, WEBMAIL, held, now, twoYearsLater);
    var c5 := SaveIf(c4, req.isDriverLicenseCertificated, u, DRIVER_LICENSE, held, now, twoYearsLater);
    var a1 := if req.isKakaoCertificated then {KAKAO} else {};
    var a2 := a1 + (if req.isNaverCertificated then {NAVER} else {});
    var a3 := a2 + (if req.isGoogleCertificated then {GOOGLE} else {});
    var a4 := a3 + (if req.isWebMailCertificated then {WEBMAIL} else {});
    var a5 := a4 + (if req.isDriverLicenseCertificated then {DRIVER_LICENSE} else {});
    assert Granted(certs, c1, u, a1, now, twoYearsLater) by {
      SaveIfStep(certs, certs, req.isKakaoCertificated, u, KAKAO, {}, now, twoYearsLater);
      assert {} + a1 == a1;
    }
    assert Granted(certs, c2, u, a2, now, twoYearsLater) by {
      SaveIfStep(certs, c1, req.isNaverCertificated, u, NAVER, a1, now, twoYearsLater);
    }
    assert Granted(certs, c3, u, a3, now, twoYearsLater) by {
      SaveIfStep(certs, c2, req.isGoogleCertificated, u, GOOGLE, a2, now, twoYearsLater);
    }
    assert Granted(certs, c4, u, a4, now, twoYearsLater) by {
      SaveIfStep(certs, c3, req.isWebMailCertificated, u, WEBMAIL, a3, now, twoYearsLater);
    }
    assert Granted(certs, c5, u, a5, now, twoYearsLater) by {
      SaveIfStep(certs, c4, req.isDriverLicenseCertificated, u, DRIVER_LICENSE, a4, now, twoYearsLater);
    }
    SaveIfStep(certs, c5, req.isIdentityCardCertificated, u, IDENTITY_CARD, a5, now, twoYearsLater);
  }

  /** After an update the user holds exactly what they held plus the requested types; NONE is
      never added, and other users' certifications are unchanged. */
  lemma UpdateHeldIds(certs: Certifications, u: UserId, req: CertificationUpdateRequest, now: Time, twoYearsLater: Time)
    ensures var m := UpdateUserCertificationSpec(certs, u, req, now, twoYearsLater);
      (forall c: CertificationType :: c.Id() in UserCertificationIds(m, u) <==> c.Id() in UserCertificationIds(certs, u) || c in RequestedTypes(req))
      && (NONE.Id() in UserCertificationIds(m, u) <==> NONE.Id() in UserCertificationIds(certs, u))
      && (forall v :: v != u ==> UserCertificationIds(m, v) == UserCertificationIds(certs, v))
  {
    var m := UpdateUserCertificationSpec(certs, u, req, now, twoYearsLater);
    UpdateGrantsRequested(certs, u, req, now, twoYearsLater);
    forall c: CertificationType
      ensures c.Id() in UserCertificationIds(m, u) <==> c.Id() in UserCertificationIds(certs, u) || c in RequestedTypes(req)
    {
      HeldHasRow(m, u, c);
      HeldHasRow(certs, u, c);
    }
    forall v | v != u
      ensures UserCertificationIds(m, v) == UserCertificationIds(certs, v)
    {
      assert forall k :: k in m && k.user == v <==> k in certs && k.user == v;
    }
  }

  /** Repeating an update with the same flags, at any later time, changes nothing. */
  lemma UpdateIdempotent(certs: Certifications, u: UserId, req: CertificationUpdateRequest,
                         now: Time, twoYearsLater: Time, now': Time, twoYearsLater': Time)
    ensures var m := UpdateUserCertificationSpec(certs, u, req, now, twoYearsLater);
      UpdateUserCertificationSpec(m, u, req, now', twoYearsLater') == m
  {
    var m := UpdateUserCertificationSpec(certs, u, req, now, twoYearsLater);
    UpdateGrantsRequested(certs, u, req, now, twoYearsLater);
    forall c | c in RequestedTypes(req)
      ensures c.Id() in UserCertificationIds(m, u)
    {
      HeldHasRow(m, u, c);
    }
  }

  /** deleteExpiredCertificates: removes the certifications whose expiration is at or before now. */
  function DeleteExpiredSpec(certs: Certifications, now: Time): (r: Certifications)
  {
    map k | k in certs && certs[k].expirationDate > now :: certs[k]
  }

  method DeleteExpiredCertificates(db: Database, now: Time)
    modifies db
    ensures db.State() == old(db.State()).(userCertifications := DeleteExpiredSpec(old(db.userCertifications), now))
  {
    db.SetUserCertifications(map k | k in db.userCertifications && db.userCertifications[k].expirationDate > now :: db.userCertifications[k]);
  }

  /** Exactly the expired rows go: every unexpired row stays unchanged, no expired row is left, and
      running the cleanup again at the same instant removes nothing more. */
  lemma DeleteExpiredExactly(certs: Certifications, now: Time)
    ensures var r := DeleteExpiredSpec(certs, now);
      (forall k :: k in r <==> k in certs && certs[k].expirationDate > now)
      && (forall k :: k in r ==> r[k] == certs[k])
      && DeleteExpiredSpec(r, now) == r
  {
  }
}
