/** UserVerification: read-only ownership checks, and the access rule the
    comment edit and delete endpoints put in front of CommentService
    ("verificationUserForComment(commentId) || hasRole('ADMIN')"). */
module UserVerification {
  import opened Entities
  import opened Repositories
  import opened UserContext

  /** The comment's author is the calling user: their row carries the
      principal's e-mail. */
  ghost predicate WrittenByCaller(db: Db, auth: Option<Authentication>, commentId: int)
    requires commentId in db.comments && ReferencesResolve(db)
  {
    IsAuthenticated(auth) && db.users[db.comments[commentId].authorId].email == auth.value.principal.username
  }

  /** The ad's owner is the calling user. */
  ghost predicate OwnedByCaller(db: Db, auth: Option<Authentication>, adId: int)
    requires adId in db.ads && ReferencesResolve(db)
  {
    IsAuthenticated(auth) && db.users[db.ads[adId].ownerId].email == auth.value.principal.username
  }

  /** verificationUserForComment: CommentNotFound for an unknown comment, then
      the caller's resolution errors, and otherwise whether the caller wrote
      the comment. */
  function VerificationUserForComment(db: Db, auth: Option<Authentication>, commentId: int): (r: Result<bool>)
    requires Consistent(db)
    ensures commentId !in db.comments ==> r == Err(CommentNotFound(commentId))
    ensures commentId in db.comments ==>
              (r.Err? <==> GetCurrentUserFromDb(db.users, auth).Err?)
              && (r.Err? ==> r.error == GetCurrentUserFromDb(db.users, auth).error)
    ensures r.Ok? ==> commentId in db.comments && (r.value <==> WrittenByCaller(db, auth, commentId))
  {
    if commentId !in db.comments then Err(CommentNotFound(commentId))
    else
      match GetCurrentUserFromDb(db.users, auth)
      case Err(e) => Err(e)
      case Ok(currentId) => Ok(db.comments[commentId].authorId == currentId)
  }

  /** verificationUserForAds: the same check against an ad's owner. */
  function VerificationUserForAds(db: Db, auth: Option<Authentication>, adId: int): (r: Result<bool>)
    requires Consistent(db)
    ensures adId !in db.ads ==> r == Err(AdNotFound(adId))
    ensures adId in db.ads ==>
              (r.Err? <==> GetCurrentUserFromDb(db.users, auth).Err?)
              && (r.Err? ==> r.error == GetCurrentUserFromDb(db.users, auth).error)
    ensures r.Ok? ==> adId in db.ads && (r.value <==> OwnedByCaller(db, auth, adId))
  {
    if adId !in db.ads then Err(AdNotFound(adId))
    else
      match GetCurrentUserFromDb(db.users, auth)
      case Err(e) => Err(e)
      case Ok(currentId) => Ok(db.ads[adId].ownerId == currentId)
  }

  /** hasRole: the Authentication grants the role. */
  predicate HasRole(auth: Option<Authentication>, role: Role) {
    auth.Some? && role in auth.value.principal.roles
  }

  /** The guard of the comment edit and delete endpoints. The ownership check
      runs first and its exceptions propagate; only when it answers false is
      the ADMIN role consulted. */
  function CommentEditAllowed(db: Db, auth: Option<Authentication>, commentId: int): (r: Result<bool>)
    requires Consistent(db)
    ensures commentId !in db.comments ==> r == Err(CommentNotFound(commentId))
    ensures commentId in db.comments && GetCurrentUserFromDb(db.users, auth).Err? ==>
              r == Err(GetCurrentUserFromDb(db.users, auth).error)
    ensures r == Ok(true) <==>
              && commentId in db.comments
              && GetCurrentUserFromDb(db.users, auth).Ok?
              && (WrittenByCaller(db, auth, commentId) || HasRole(auth, Admin))
    ensures r == Ok(false) <==>
              && commentId in db.comments
              && GetCurrentUserFromDb(db.users, auth).Ok?
              && !WrittenByCaller(db, auth, commentId) && !HasRole(auth, Admin)
  {
    match VerificationUserForComment(db, auth, commentId)
    case Err(e) => Err(e)
    case Ok(owner) => if owner then Ok(true) else Ok(HasRole(auth, Admin))
  }

  /** An administrator who is not the author may still edit an existing comment. */
  lemma AdminMayEditAnyComment(db: Db, auth: Option<Authentication>, commentId: int)
    requires Consistent(db) && commentId in db.comments
    requires GetCurrentUserFromDb(db.users, auth).Ok? && HasRole(auth, Admin)
    ensures CommentEditAllowed(db, auth, commentId) == Ok(true)
  {
  }
}
