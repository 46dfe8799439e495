/** AvatarService: a user's picture, stored as a file under the avatars
    directory plus a row in the avatars table. Every user gets the default
    picture when they register; later uploads replace its file. */
module AvatarService {
  import opened Entities
  import opened Repositories
  import opened FileNames
  import opened Decimal
  import opened UserContext

  /** The configured avatars directory (application.avatars-dir-name). */
  const AvatarsDir: string := "avatars"

  /** The picture every new user starts with. */
  const DefaultAvatarPath: string := "defaultAvatars/java.png"

  /** The last component of DefaultAvatarPath (Path.getFileName). */
  const DefaultAvatarFileName: string := "java.png"

  /** Every avatar row's endpoint is this prefix followed by the user's id. */
  const AvatarEndpointPrefix: string := "/image/avatar/"

  const DefaultAvatarMediaType: string := "image/png"

  /** Where saveDefaultAvatar copies the default picture: a generated name
      with the default file's extension, inside the avatars directory. */
  function DefaultAvatarCopyPath(freshName: string): (p: string)
    ensures FileExtension(p) == "png"
  {
    var ext := FileExtension(DefaultAvatarFileName);
    assert ext == "png" by {
      assert DefaultAvatarFileName == "java" + "." + "png";
      ExtensionRoundTrip("java", "png");
    }
    var p := Resolve(AvatarsDir, freshName + "." + ext);
    assert p == (AvatarsDir + "/" + freshName) + "." + ext;
    ExtensionRoundTrip(AvatarsDir + "/" + freshName, ext);
    p
  }

  /** The row saveDefaultAvatar creates for a user. */
  function DefaultAvatarRow(userId: int, freshName: string): (a: Avatar)
    ensures a.userId == userId && a.mediaType == DefaultAvatarMediaType
    ensures |AvatarEndpointPrefix| < |a.pathForEndpoint|
    ensures a.pathForEndpoint[..|AvatarEndpointPrefix|] == AvatarEndpointPrefix
    ensures a.pathForEndpoint[|AvatarEndpointPrefix|..] == IntToString(userId)
    ensures FileExtension(a.filePath) == "png"
  {
    Avatar(userId, DefaultAvatarCopyPath(freshName), AvatarEndpointPrefix + IntToString(userId), DefaultAvatarMediaType)
  }

  /** saveDefaultAvatar: read the default picture (a missing one fails the
      call before anything changes), copy it to a fresh file, and save an
      avatar row for the user pointing at the copy. Its callers pass a user
      just saved, who has no avatar yet. */
  method SaveDefaultAvatar(st: Store, userId: int, freshName: string) returns (r: Outcome, avatarId: int)
    requires st.Valid() && userId in st.users
    requires forall k | k in st.avatars :: st.avatars[k].userId != userId
    requires FreshPath(st.Snapshot(), DefaultAvatarCopyPath(freshName))
    modifies st`files, st`avatars, st`nextId
    ensures st.Valid()
    ensures r.Done? <==> DefaultAvatarPath in old(st.files)
    ensures r.Fail? ==> r == Fail(IoFailure(DefaultAvatarPath)) && st.Snapshot() == old(st.Snapshot())
    ensures r.Done? ==>
              var a := DefaultAvatarRow(userId, freshName);
              && avatarId !in old(st.avatars)
              && st.Snapshot() == old(st.Snapshot()).(
                   avatars := old(st.avatars)[avatarId := a],
                   files := old(st.files)[a.filePath := old(st.files)[DefaultAvatarPath]])
    ensures old(FilesBacked(st.Snapshot())) ==> FilesBacked(st.Snapshot())
  {
    avatarId := 0;
    if DefaultAvatarPath !in st.files {
      return Fail(IoFailure(DefaultAvatarPath)), avatarId;
    }
    var data := st.files[DefaultAvatarPath];
    var a := DefaultAvatarRow(userId, freshName);
    ghost var db := st.Snapshot();
    st.WriteFile(a.filePath, data);
    avatarId := st.InsertAvatar(a);
    if FilesBacked(db) {
      AddAvatarKeepsFilesBacked(db, avatarId, a, data);
    }
    r := Done;
  }

  /** updateUserAvatar: the caller's avatar row (AvatarNotFound when there is
      none) gets a new file and media type; the old file is deleted if it is
      still there. Caller-resolution errors leave everything unchanged. */
  method UpdateUserAvatar(st: Store, auth: Option<Authentication>, upload: Upload, freshName: string)
    returns (r: Outcome)
    requires st.Valid()
    requires FreshPath(st.Snapshot(), StoredPath(AvatarsDir, freshName, upload.originalFilename))
    modifies st`files, st`avatars
    ensures st.Valid()
    ensures GetCurrentUserFromDb(old(st.users), auth).Err? ==>
              r == Fail(GetCurrentUserFromDb(old(st.users), auth).error)
    ensures GetCurrentUserFromDb(old(st.users), auth).Ok? ==>
              var userId := GetCurrentUserFromDb(old(st.users), auth).value;
              && (AvatarOfUser(old(st.avatars), userId).None? ==> r == Fail(AvatarNotFound(userId)))
              && (AvatarOfUser(old(st.avatars), userId).Some? ==> r.Done?)
    ensures r.Fail? ==> st.Snapshot() == old(st.Snapshot())
    ensures r.Done? ==>
              var userId := GetCurrentUserFromDb(old(st.users), auth).value;
              var avatarId := AvatarOfUser(old(st.avatars), userId).value;
              var oldRow := old(st.avatars)[avatarId];
              var newPath := StoredPath(AvatarsDir, freshName, upload.originalFilename);
              st.Snapshot() == old(st.Snapshot()).(
                avatars := old(st.avatars)[avatarId := oldRow.(filePath := newPath, mediaType := upload.contentType)],
                files := (old(st.files) - {oldRow.filePath})[newPath := upload.bytes])
    ensures old(FilesBacked(st.Snapshot())) ==> FilesBacked(st.Snapshot())
  {
    var current := GetCurrentUserFromDb(st.users, auth);
    if current.Err? {
      return Fail(current.error);
    }
    var found := AvatarOfUser(st.avatars, current.value);
    if found.None? {
      return Fail(AvatarNotFound(current.value));
    }
    var avatarId := found.value;
    var row := st.avatars[avatarId];
    ghost var db := st.Snapshot();
    st.DeleteIfExists(row.filePath);
    var newPath := StoredPath(AvatarsDir, freshName, upload.originalFilename);
    st.WriteFile(newPath, upload.bytes);
    st.UpdateAvatar(avatarId, row.(filePath := newPath, mediaType := upload.contentType));
    if FilesBacked(db) {
      ReplaceAvatarFileKeepsFilesBacked(db, avatarId, newPath, upload.contentType, upload.bytes);
    }
    r := Done;
  }

  /** getAvatarFromFs: the endpoint key is parsed as a user id; a user without
      an avatar raises AvatarNotFound and a row whose file is missing fails
      the read. */
  function GetAvatarFromFs(db: Db, key: string): (r: Result<(Bytes, string)>)
    requires OneAvatarPerUser(db.avatars)
    ensures ParseInt(key).Err? ==> r == Err(NumberFormat(key))
    ensures ParseInt(key).Ok? && AvatarOfUser(db.avatars, ParseInt(key).value).None? ==>
              r == Err(AvatarNotFound(ParseInt(key).value))
    ensures r.Ok? ==> && ParseInt(key).Ok? && AvatarOfUser(db.avatars, ParseInt(key).value).Some?
                      && var a := db.avatars[AvatarOfUser(db.avatars, ParseInt(key).value).value];
                         && a.filePath in db.files
                         && r.value == (db.files[a.filePath], a.mediaType)
    ensures ParseInt(key).Ok? && AvatarOfUser(db.avatars, ParseInt(key).value).Some? ==>
              var a := db.avatars[AvatarOfUser(db.avatars, ParseInt(key).value).value];
              r == if a.filePath in db.files then Ok((db.files[a.filePath], a.mediaType))
                   else Err(IoFailure(a.filePath))
    ensures r.Err? && r.error.IoFailure? ==>
              && ParseInt(key).Ok? && AvatarOfUser(db.avatars, ParseInt(key).value).Some?
              && r.error.path == db.avatars[AvatarOfUser(db.avatars, ParseInt(key).value).value].filePath
              && r.error.path !in db.files
  {
    match ParseInt(key)
    case Err(e) => Err(e)
    case Ok(userId) =>
      match AvatarOfUser(db.avatars, userId)
      case None => Err(AvatarNotFound(userId))
      case Some(avatarId) =>
        var a := db.avatars[avatarId];
        if a.filePath !in db.files then Err(IoFailure(a.filePath))
        else Ok((db.files[a.filePath], a.mediaType))
  }

  /** The user id as text (what follows AvatarEndpointPrefix in the row's
      endpoint) serves the user's avatar file and media type. */
  lemma AvatarEndpointServesStoredFile(db: Db, userId: int)
    requires OneAvatarPerUser(db.avatars) && FilesBacked(db) && IsInt32(userId)
    requires AvatarOfUser(db.avatars, userId).Some?
    ensures var a := db.avatars[AvatarOfUser(db.avatars, userId).value];
            GetAvatarFromFs(db, IntToString(userId)) == Ok((db.files[a.filePath], a.mediaType))
  {
    IntToStringRoundTrip(userId);
  }

  /** After saveDefaultAvatar, the endpoint recorded in the new row serves a
      copy of the default picture as image/png. */
  lemma DefaultAvatarIsServed(db: Db, userId: int, avatarId: int, freshName: string)
    requires OneAvatarPerUser(db.avatars) && IsInt32(userId)
    requires forall k | k in db.avatars :: db.avatars[k].userId != userId
    requires avatarId !in db.avatars && DefaultAvatarPath in db.files
    ensures var a := DefaultAvatarRow(userId, freshName);
            var after := db.(avatars := db.avatars[avatarId := a],
                             files := db.files[a.filePath := db.files[DefaultAvatarPath]]);
            && OneAvatarPerUser(after.avatars)
            && GetAvatarFromFs(after, a.pathForEndpoint[|AvatarEndpointPrefix|..])
               == Ok((db.files[DefaultAvatarPath], DefaultAvatarMediaType))
  {
    var a := DefaultAvatarRow(userId, freshName);
    var data := db.files[DefaultAvatarPath];
    var after := db.(avatars := db.avatars[avatarId := a], files := db.files[a.filePath := data]);
    assert OneAvatarPerUser(after.avatars);
    FindInsertedAvatar(db.avatars, avatarId, a);
    assert a.filePath in after.files;
    IntToStringRoundTrip(userId);
  }

  /** The endpoint of a user's avatar, or None when the user has none: what
      getUser reports, and what getCommentsForAd collects from its batch
      lookup findByUsersIdIn into a map by user id (one avatar per user, so
      the collector never meets a duplicate key). */
  function AvatarEndpointOf(db: Db, userId: int): (r: Option<string>)
    requires OneAvatarPerUser(db.avatars)
    ensures r.None? <==> forall k | k in db.avatars :: db.avatars[k].userId != userId
    ensures r.Some? ==> exists k | k in db.avatars :: db.avatars[k].userId == userId
                                                    && db.avatars[k].pathForEndpoint == r.value
  {
    match AvatarOfUser(db.avatars, userId)
    case None => None
    case Some(k) => Some(db.avatars[k].pathForEndpoint)
  }

}
