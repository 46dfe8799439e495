/** AuthServiceImpl: log-in and registration. The password encoder is a pair
    of function parameters: `encode` hashes a raw password and `matches`
    compares a raw password with a stored hash. */
module AuthService {
  import opened Entities
  import opened Repositories
  import opened AvatarService

  /** login: false when no user has the name as e-mail (the lookup's
      UsernameNotFoundException is caught), otherwise whether the password
      matches the stored hash. */
  function Login(users: map<int, User>, username: string, password: string,
                 matches: (string, string) -> bool): (r: bool)
    requires UniqueEmails(users)
    ensures r <==> exists k | k in users :: users[k].email == username && matches(password, users[k].password)
  {
    match FindByEmail(users, username)
    case None => false
    case Some(k) => matches(password, users[k].password)
  }

  /** toUsers plus the encoded password: the user name becomes the e-mail. */
  function NewUser(dto: RegisterDto, encode: string -> string): (u: User)
    ensures u.email == dto.username && u.password == encode(dto.password)
    ensures u.firstName == dto.firstName && u.lastName == dto.lastName
    ensures u.phone == dto.phone && u.role == dto.role
  {
    User(dto.username, encode(dto.password), dto.firstName, dto.lastName, dto.phone, dto.role)
  }

  /** register: Ok(false) and no change when the e-mail is taken. Otherwise
      the user is saved with the encoded password, then given the default
      avatar; a failure there (the default picture is missing) is raised
      with the user row already saved, since nothing rolls it back. */
  method Register(st: Store, dto: RegisterDto, encode: string -> string, freshName: string)
    returns (r: Result<bool>)
    requires st.Valid()
    requires FreshPath(st.Snapshot(), DefaultAvatarCopyPath(freshName))
    modifies st`users, st`avatars, st`files, st`nextId
    ensures st.Valid()
    ensures r == Ok(false) <==> exists k | k in old(st.users) :: old(st.users)[k].email == dto.username
    ensures r == Ok(false) ==> st.Snapshot() == old(st.Snapshot())
    ensures r != Ok(false) ==>
              && FindByEmail(st.users, dto.username).Some?
              && var id := FindByEmail(st.users, dto.username).value;
                 && id !in old(st.users)
                 && st.users == old(st.users)[id := NewUser(dto, encode)]
                 && (r == Ok(true) <==> DefaultAvatarPath in old(st.files))
                 && (r.Err? ==> r == Err(IoFailure(DefaultAvatarPath))
                                && st.avatars == old(st.avatars) && st.files == old(st.files))
                 && (r.Ok? ==> && DefaultAvatarPath in old(st.files)
                               && AvatarOfUser(st.avatars, id).Some?
                               && AvatarOfUser(st.avatars, id).value !in old(st.avatars)
                               && st.avatars == old(st.avatars)[AvatarOfUser(st.avatars, id).value := DefaultAvatarRow(id, freshName)]
                               && st.files == old(st.files)[DefaultAvatarCopyPath(freshName) := old(st.files)[DefaultAvatarPath]])
    ensures old(FilesBacked(st.Snapshot())) ==> FilesBacked(st.Snapshot())
  {
    if FindByEmail(st.users, dto.username).Some? {
      return Ok(false);
    }
    var u := NewUser(dto, encode);
    ghost var before := st.users;
    var id := st.InsertUser(u);
    FindInsertedUser(before, id, u);
    var saved, avatarId := SaveDefaultAvatar(st, id, freshName);
    if saved.Fail? {
      return Err(saved.error);
    }
    FindInsertedAvatar(old(st.avatars), avatarId, DefaultAvatarRow(id, freshName));
    r := Ok(true);
  }

  /** A registered user can log in with the password they registered with,
      as long as the encoder recognises its own hashes; and nobody else's
      log-in changes. */
  lemma RegisteredUserCanLogIn(users: map<int, User>, id: int, dto: RegisterDto, encode: string -> string,
                               matches: (string, string) -> bool, name: string, password: string)
    requires UniqueEmails(users) && id !in users
    requires forall k | k in users :: users[k].email != dto.username
    requires matches(dto.password, encode(dto.password))
    requires name != dto.username
    ensures UniqueEmails(users[id := NewUser(dto, encode)])
    ensures Login(users[id := NewUser(dto, encode)], dto.username, dto.password, matches)
    ensures Login(users[id := NewUser(dto, encode)], name, password, matches) == Login(users, name, password, matches)
  {
    var after := users[id := NewUser(dto, encode)];
    assert after[id].email == dto.username;
    if Login(after, name, password, matches) {
      var k :| k in after && after[k].email == name && matches(password, after[k].password);
      assert k in users;
    }
    if Login(users, name, password, matches) {
      var k :| k in users && users[k].email == name && matches(password, users[k].password);
      assert after[k] == users[k];
    }
  }
}
