/** UserService: the calling user's own profile. Every operation resolves the
    caller first, so UserNotAuthenticated and UserNotFound propagate before
    anything changes. */
module UserService {
  import opened Entities
  import opened Repositories
  import opened UserContext
  import opened AvatarService

  /** updatePassword: the caller's password becomes the hash of the new one;
      the current password is not asked for, and no other field changes. */
  method UpdatePassword(st: Store, auth: Option<Authentication>, newPassword: string, encode: string -> string)
    returns (r: Outcome)
    requires st.Valid()
    modifies st`users
    ensures st.Valid()
    ensures r.Fail? <==> GetCurrentUserFromDb(old(st.users), auth).Err?
    ensures r.Fail? ==> r.error == GetCurrentUserFromDb(old(st.users), auth).error && st.Snapshot() == old(st.Snapshot())
    ensures r.Done? ==>
              var me := GetCurrentUserFromDb(old(st.users), auth).value;
              st.Snapshot() == old(st.Snapshot()).(users := old(st.users)[me := old(st.users)[me].(password := encode(newPassword))])
  {
    var current := GetCurrentUserFromDb(st.users, auth);
    if current.Err? {
      return Fail(current.error);
    }
    var me := current.value;
    st.UpdateUser(me, st.users[me].(password := encode(newPassword)));
    r := Done;
  }

  /** getUser: the caller's profile, with the avatar endpoint when the caller
      has an avatar row. */
  function GetUser(db: Db, auth: Option<Authentication>): (r: Result<UserDto>)
    requires Consistent(db)
    ensures r.Err? <==> GetCurrentUserFromDb(db.users, auth).Err?
    ensures r.Err? ==> r.error == GetCurrentUserFromDb(db.users, auth).error
    ensures r.Ok? ==>
              var me := GetCurrentUserFromDb(db.users, auth).value;
              var u := db.users[me];
              && r.value.id == me && r.value.email == auth.value.principal.username
              && r.value.firstName == u.firstName && r.value.lastName == u.lastName
              && r.value.phone == u.phone && r.value.role == u.role
              && (r.value.image.Some? <==> exists k | k in db.avatars :: db.avatars[k].userId == me)
              && r.value.image == AvatarEndpointOf(db, me)
  {
    match GetCurrentUserFromDb(db.users, auth)
    case Err(e) => Err(e)
    case Ok(me) =>
      var u := db.users[me];
      Ok(UserDto(me, u.email, u.firstName, u.lastName, u.phone, u.role, AvatarEndpointOf(db, me)))
  }

  /** updateUser: only the caller's first name, last name and phone change;
      the result echoes the saved values. */
  method UpdateUser(st: Store, auth: Option<Authentication>, dto: UpdateUserDto) returns (r: Result<UpdateUserDto>)
    requires st.Valid()
    modifies st`users
    ensures st.Valid()
    ensures r.Err? <==> GetCurrentUserFromDb(old(st.users), auth).Err?
    ensures r.Err? ==> r.error == GetCurrentUserFromDb(old(st.users), auth).error && st.Snapshot() == old(st.Snapshot())
    ensures r.Ok? ==>
              var me := GetCurrentUserFromDb(old(st.users), auth).value;
              var u := old(st.users)[me].(firstName := dto.firstName, lastName := dto.lastName, phone := dto.phone);
              && st.Snapshot() == old(st.Snapshot()).(users := old(st.users)[me := u])
              && r.value == dto
  {
    var current := GetCurrentUserFromDb(st.users, auth);
    if current.Err? {
      return Err(current.error);
    }
    var me := current.value;
    var u := st.users[me].(firstName := dto.firstName, lastName := dto.lastName, phone := dto.phone);
    st.UpdateUser(me, u);
    r := Ok(UpdateUserDto(st.users[me].firstName, st.users[me].lastName, st.users[me].phone));
  }

  /** Profile edits keep the caller signed in as the same user: the e-mail is
      untouched, so the caller still resolves to the same row. */
  lemma ProfileEditKeepsIdentity(users: map<int, User>, auth: Option<Authentication>, u: User)
    requires UniqueEmails(users) && GetCurrentUserFromDb(users, auth).Ok?
    requires u.email == users[GetCurrentUserFromDb(users, auth).value].email
    ensures var me := GetCurrentUserFromDb(users, auth).value;
            && UniqueEmails(users[me := u])
            && GetCurrentUserFromDb(users[me := u], auth) == Ok(me)
  {
    var me := GetCurrentUserFromDb(users, auth).value;
    CurrentUserIsUnique(users[me := u], auth, me);
  }
}
