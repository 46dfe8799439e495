/** UserContextService: who is calling. The security context's
    Authentication is an explicit argument instead of ambient state. */
module UserContext {
  import opened Entities
  import opened Repositories

  /** The caller carries an Authentication that is marked authenticated. */
  predicate IsAuthenticated(auth: Option<Authentication>) {
    auth.Some? && auth.value.authenticated
  }

  /** getCurrentUser: the principal, or UserNotAuthenticated when there is no
      Authentication or it is not marked authenticated. */
  function GetCurrentUser(auth: Option<Authentication>): (r: Result<Principal>)
    ensures r.Ok? <==> IsAuthenticated(auth)
    ensures r.Ok? ==> r.value == auth.value.principal
    ensures r.Err? ==> r.error == UserNotAuthenticated
  {
    if auth == None || !auth.value.authenticated then Err(UserNotAuthenticated)
    else Ok(auth.value.principal)
  }

  /** getCurrentUserFromDb: the id of the user whose e-mail is the principal's
      user name; UserNotFound when no row has it. */
  function GetCurrentUserFromDb(users: map<int, User>, auth: Option<Authentication>): (r: Result<int>)
    requires UniqueEmails(users)
    ensures !IsAuthenticated(auth) ==> r == Err(UserNotAuthenticated)
    ensures IsAuthenticated(auth) ==> r != Err(UserNotAuthenticated)
    ensures r.Ok? ==> r.value in users && users[r.value].email == auth.value.principal.username
    ensures IsAuthenticated(auth) && r.Err? ==>
              && r.error == UserNotFound(auth.value.principal.username)
              && forall k | k in users :: users[k].email != auth.value.principal.username
    ensures IsAuthenticated(auth) ==>
              (r.Ok? <==> exists k | k in users :: users[k].email == auth.value.principal.username)
  {
    match GetCurrentUser(auth)
    case Err(e) => Err(e)
    case Ok(principal) =>
      match FindByEmail(users, principal.username)
      case None => Err(UserNotFound(principal.username))
      case Some(id) => Ok(id)
  }

  /** The resolved user is unique: any row carrying the principal's e-mail is it. */
  lemma CurrentUserIsUnique(users: map<int, User>, auth: Option<Authentication>, k: int)
    requires UniqueEmails(users) && IsAuthenticated(auth)
    requires k in users && users[k].email == auth.value.principal.username
    ensures GetCurrentUserFromDb(users, auth) == Ok(k)
  {
  }
}
