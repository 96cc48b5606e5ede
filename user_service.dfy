/** UserService: patching the authenticated user's profile and deleting the user. */
module UserService {
  import opened Types
  import opened Db
  import opened Strings

  /** A profile patch; an absent field is left as it is. */
  datatype UserUpdateRequest = UserUpdateRequest(
    password: Option<string>,
    phoneNumber: Option<string>,
    profileImage: Option<string>,
    address: Option<string>)

  /** updateUserProfile on the user row: the password as given (this path does not encode it),
      the phone number and profile image as given, the address trimmed; the point is never
      touched. */
  function UpdateUserProfileSpec(user: User, req: UserUpdateRequest): (r: User)
    ensures r.point == user.point
  {
    user.(password := if req.password.Some? then req.password.value else user.password,
          phoneNumber := if req.phoneNumber.Some? then req.phoneNumber.value else user.phoneNumber,
          profileImage := if req.profileImage.Some? then req.profileImage.value else user.profileImage,
          address := if req.address.Some? then Trim(req.address.value) else user.address)
  }

  method UpdateUserProfile(db: Database, u: UserId, req: UserUpdateRequest) returns (updated: User)
    requires u in db.users
    modifies db
    ensures updated == UpdateUserProfileSpec(old(db.users[u]), req)
    ensures db.State() == old(db.State()).(users := old(db.users)[u := updated])
  {
    var user := db.users[u];
    if req.password.Some? {
      user := user.(password := req.password.value);
    }
    if req.phoneNumber.Some? {
      user := user.(phoneNumber := req.phoneNumber.value);
    }
    if req.profileImage.Some? {
      user := user.(profileImage := req.profileImage.value);
    }
    if req.address.Some? {
      user := user.(address := Trim(req.address.value));
    }
    db.SaveUser(u, user);
    updated := user;
  }

  /** A profile patch keeps the tables consistent: only this user's row changes and its point still
      equals the newest ledger balance. */
  lemma UpdateUserProfileKeepsValid(t: Tables, u: UserId, req: UserUpdateRequest)
    requires Valid(t) && u in t.users
    ensures var t' := t.(users := t.users[u := UpdateUserProfileSpec(t.users[u], req)]);
      Valid(t') && t'.users.Keys == t.users.Keys
      && (forall v :: v in t.users && v != u ==> t'.users[v] == t.users[v])
      && LatestPoint(t', u) == t'.users[u].point
  {
  }

  /** Sending the same patch twice leaves the profile as after the first time. */
  lemma UpdateUserProfileIdempotent(user: User, req: UserUpdateRequest)
    ensures UpdateUserProfileSpec(UpdateUserProfileSpec(user, req), req) == UpdateUserProfileSpec(user, req)
  {
    var r := UpdateUserProfileSpec(user, req);
    if req.address.Some? {
      TrimIdempotent(req.address.value);
    }
    assert UpdateUserProfileSpec(r, req).address == r.address;
  }

  method DeleteUser(db: Database, u: UserId)
    modifies db
    ensures db.State() == old(db.State()).(users := old(db.users) - {u})
  {
    db.DeleteUser(u);
  }

  /** After deleting, the user is gone, every other user is as before, and the tables stay
      consistent (the user's ledger rows are left in place). */
  lemma DeleteUserKeepsValid(t: Tables, u: UserId)
    requires Valid(t)
    ensures var t' := t.(users := t.users - {u});
      u !in t'.users && (forall v :: v in t.users && v != u ==> v in t'.users && t'.users[v] == t.users[v])
      && Valid(t') && t'.pointHistories == t.pointHistories
  {
  }
}
