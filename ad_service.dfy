/** AdService: listing, creating, reading, editing and removing ads. The
    list operations join the ads with their image rows; removal cascades to
    the ad's comments and image in one transaction. */
module AdService {
  import opened Entities
  import opened Repositories
  import opened Decimal
  import opened UserContext
  import opened FileNames
  import opened ImageService
  import opened CommentService

  /** The placeholder reported for an ad without an image row. */
  const DefaultImagePath: string := "default/image/path"

  /** The ids of a user's ads. */
  ghost function AdIdsOfOwner(ads: map<int, Ad>, userId: int): set<int> {
    set k | k in ads && ads[k].ownerId == userId
  }

  /** The image endpoint of an ad, as the lists and getAdById report it: the
      image row's endpoint prefix followed by the row's id, or the
      placeholder when the ad has no image row. */
  function ImageEndpointOf(db: Db, adId: int): (p: string)
    requires OneImagePerAd(db.images)
    ensures (forall k | k in db.images :: db.images[k].adId != adId) ==> p == DefaultImagePath
    ensures (exists k | k in db.images :: db.images[k].adId == adId) ==>
              exists k | k in db.images && db.images[k].adId == adId :: p == db.images[k].pathForEndpoint + IntToString(k)
  {
    match ImageOfAd(db.images, adId)
    case None => DefaultImagePath
    case Some(k) => db.images[k].pathForEndpoint + IntToString(k)
  }

  /** The image reported by updateAd: the image row's file path (not its
      endpoint), or the placeholder. */
  function ImageFileOf(db: Db, adId: int): (p: string)
    requires OneImagePerAd(db.images)
    ensures (forall k | k in db.images :: db.images[k].adId != adId) ==> p == DefaultImagePath
    ensures (exists k | k in db.images :: db.images[k].adId == adId) ==>
              exists k | k in db.images && db.images[k].adId == adId :: p == db.images[k].filePath
  {
    match ImageOfAd(db.images, adId)
    case None => DefaultImagePath
    case Some(k) => db.images[k].filePath
  }

  /** One entry of getAdDtoList. */
  function AdDtoOf(db: Db, adId: int): (dto: AdDto)
    requires Consistent(db) && adId in db.ads
    ensures dto.pk == adId && dto.author == db.ads[adId].ownerId
    ensures dto.price == db.ads[adId].price && dto.title == db.ads[adId].title
    ensures dto.image == ImageEndpointOf(db, adId)
  {
    var ad := db.ads[adId];
    AdDto(ad.ownerId, ImageEndpointOf(db, adId), adId, ad.price, ad.title)
  }

  /** The id of a listed ad. */
  function AdPk(dto: AdDto): int { dto.pk }

  /** getAdDtoList: one entry per ad, in the order given. The images of all
      the ads come from one batch query collected into a map by ad id; one
      image per ad means the collector never meets a duplicate key. */
  function GetAdDtoList(db: Db, ids: seq<int>): (r: seq<AdDto>)
    requires Consistent(db) && forall i | 0 <= i < |ids| :: ids[i] in db.ads
    ensures Project(r, AdPk) == ids
    ensures forall i | 0 <= i < |r| :: r[i] == AdDtoOf(db, ids[i])
  {
    var r := seq(|ids|, i requires 0 <= i < |ids| => AdDtoOf(db, ids[i]));
    assert Project(r, AdPk) == ids;
    r
  }

  /** getAllAds: every ad once, in the order findAll returns them, with the
      count of ads. */
  function GetAllAds(db: Db, order: seq<int>): (r: AdsDto)
    requires Consistent(db) && Enumerates(order, db.ads.Keys)
    ensures r.count == |r.results| == |db.ads|
    ensures Project(r.results, AdPk) == order && Enumerates(Project(r.results, AdPk), db.ads.Keys)
    ensures forall i | 0 <= i < |r.results| :: r.results[i].pk in db.ads && r.results[i] == AdDtoOf(db, r.results[i].pk)
  {
    EnumerationSize(order, db.ads.Keys);
    var results := GetAdDtoList(db, order);
    AdsDto(|order|, results)
  }

  /** getMeAllAds: the caller's resolution errors, or exactly the caller's
      ads, once each, in table order, with their count. */
  function GetMeAllAds(db: Db, auth: Option<Authentication>, order: seq<int>): (r: Result<AdsDto>)
    requires Consistent(db) && Enumerates(order, db.ads.Keys)
    ensures r.Err? <==> GetCurrentUserFromDb(db.users, auth).Err?
    ensures r.Err? ==> r.error == GetCurrentUserFromDb(db.users, auth).error
    ensures r.Ok? ==>
              var me := GetCurrentUserFromDb(db.users, auth).value;
              && r.value.count == |r.value.results| == |AdIdsOfOwner(db.ads, me)|
              && Enumerates(Project(r.value.results, AdPk), AdIdsOfOwner(db.ads, me))
              && Subsequence(Project(r.value.results, AdPk), order)
              && forall i | 0 <= i < |r.value.results| ::
                   && r.value.results[i].pk in db.ads
                   && r.value.results[i] == AdDtoOf(db, r.value.results[i].pk)
                   && r.value.results[i].author == me
  {
    match GetCurrentUserFromDb(db.users, auth)
    case Err(e) => Err(e)
    case Ok(me) =>
      var keep := k => k in db.ads && db.ads[k].ownerId == me;
      var ids := Filter(order, keep);
      FilterEnumerates(order, db.ads.Keys, keep);
      assert (set k | k in db.ads.Keys && keep(k)) == AdIdsOfOwner(db.ads, me);
      EnumerationSize(ids, AdIdsOfOwner(db.ads, me));
      var results := GetAdDtoList(db, ids);
      Ok(AdsDto(|ids|, results))
  }

  /** getAdById: AdNotFound for an unknown id; otherwise the ad with its
      owner's name, e-mail and phone and its image endpoint. */
  function GetAdById(db: Db, id: int): (r: Result<ExtendedAd>)
    requires Consistent(db)
    ensures r.Err? <==> id !in db.ads
    ensures r.Err? ==> r.error == AdNotFound(id)
    ensures r.Ok? ==>
              var ad := db.ads[id];
              var owner := db.users[ad.ownerId];
              && r.value.pk == id && r.value.title == ad.title && r.value.price == ad.price
              && r.value.description == ad.description
              && r.value.authorFirstName == owner.firstName && r.value.authorLastName == owner.lastName
              && r.value.email == owner.email && r.value.phone == owner.phone
              && r.value.image == ImageEndpointOf(db, id)
  {
    if id !in db.ads then Err(AdNotFound(id))
    else
      var ad := db.ads[id];
      var owner := db.users[ad.ownerId];
      Ok(ExtendedAd(id, owner.firstName, owner.lastName, ad.description, owner.email,
                    ImageEndpointOf(db, id), owner.phone, ad.price, ad.title))
  }

  /** The endpoint getAdById reports for an ad with an image serves that
      image: stripping the prefix leaves the key getImageFromFs resolves to
      the ad's image file. */
  lemma ReportedImageIsServed(db: Db, adId: int)
    requires Consistent(db) && FilesBacked(db) && adId in db.ads
    requires ImageOfAd(db.images, adId).Some? && IsInt32(ImageOfAd(db.images, adId).value)
    requires db.images[ImageOfAd(db.images, adId).value].pathForEndpoint == ImageEndpointPrefix
    ensures var k := ImageOfAd(db.images, adId).value;
            var p := GetAdById(db, adId).value.image;
            && |ImageEndpointPrefix| <= |p| && p[..|ImageEndpointPrefix|] == ImageEndpointPrefix
            && GetImageFromFs(db, p[|ImageEndpointPrefix|..]) == Ok((db.files[db.images[k].filePath], db.images[k].mediaType))
  {
    var k := ImageOfAd(db.images, adId).value;
    var p := GetAdById(db, adId).value.image;
    assert p == ImageEndpointPrefix + IntToString(k);
    assert p[|ImageEndpointPrefix|..] == IntToString(k);
    ImageEndpointServesStoredFile(db, k);
  }

  /** addAd: the caller's resolution errors leave everything unchanged;
      otherwise a new ad owned by the caller is saved, then its image, and
      the result reports the image's file path. */
  method AddAd(st: Store, auth: Option<Authentication>, dto: CreateOrUpdateAd, upload: Upload, freshName: string)
    returns (r: Result<AdDto>)
    requires st.Valid()
    requires FreshPath(st.Snapshot(), StoredPath(ImagesDir, freshName, upload.originalFilename))
    modifies st`ads, st`images, st`files, st`nextId
    ensures st.Valid()
    ensures r.Err? <==> GetCurrentUserFromDb(old(st.users), auth).Err?
    ensures r.Err? ==> r.error == GetCurrentUserFromDb(old(st.users), auth).error && st.Snapshot() == old(st.Snapshot())
    ensures r.Ok? ==>
              var me := GetCurrentUserFromDb(old(st.users), auth).value;
              var adId := r.value.pk;
              var img := CreateImageEntity(upload, adId, freshName);
              && adId !in old(st.ads)
              && st.ads == old(st.ads)[adId := Ad(me, dto.title, dto.price, dto.description)]
              && ImageOfAd(st.images, adId).Some?
              && ImageOfAd(st.images, adId).value !in old(st.images)
              && st.images == old(st.images)[ImageOfAd(st.images, adId).value := img]
              && st.files == old(st.files)[img.filePath := upload.bytes]
              && r.value == AdDto(me, img.filePath, adId, dto.price, dto.title)
    ensures old(FilesBacked(st.Snapshot())) ==> FilesBacked(st.Snapshot())
  {
    var current := GetCurrentUserFromDb(st.users, auth);
    if current.Err? {
      return Err(current.error);
    }
    var adId := st.InsertAd(Ad(current.value, dto.title, dto.price, dto.description));
    var imageId := SaveImage(st, upload, adId, freshName);
    FindInsertedImage(old(st.images), imageId, CreateImageEntity(upload, adId, freshName));
    var found := ImageOfAd(st.images, adId);
    r := Ok(AdDto(current.value, st.images[found.value].filePath, adId, dto.price, dto.title));
  }

  /** updateAd: AdNotFound for an unknown id; otherwise only the title, price
      and description change, and the result reports the image's file path
      (or the placeholder). */
  method UpdateAd(st: Store, id: int, dto: CreateOrUpdateAd) returns (r: Result<AdDto>)
    requires st.Valid()
    modifies st`ads
    ensures st.Valid()
    ensures r.Err? <==> id !in old(st.ads)
    ensures r.Err? ==> r.error == AdNotFound(id) && st.Snapshot() == old(st.Snapshot())
    ensures r.Ok? ==>
              var ad := old(st.ads)[id].(title := dto.title, price := dto.price, description := dto.description);
              && st.Snapshot() == old(st.Snapshot()).(ads := old(st.ads)[id := ad])
              && r.value == AdDto(ad.ownerId, ImageFileOf(st.Snapshot(), id), id, dto.price, dto.title)
  {
    if id !in st.ads {
      return Err(AdNotFound(id));
    }
    var ad := st.ads[id].(title := dto.title, price := dto.price, description := dto.description);
    st.UpdateAd(id, ad);
    r := Ok(AdDto(ad.ownerId, ImageFileOf(st.Snapshot(), id), id, ad.price, ad.title));
  }

  /** removeAd, one transaction: the ad's comments are deleted, then its
      image file and row, then the ad. ImageNotFound is a runtime exception,
      so the transaction rolls back and nothing has changed. A missing image
      file raises a checked IOException, on which Spring's default rule
      commits: the comments stay deleted, the ad and its image row stay. */
  method RemoveAd(st: Store, id: int) returns (r: Outcome)
    requires st.Valid()
    modifies st`ads, st`comments, st`images, st`files, st`users, st`avatars
    ensures st.Valid()
    ensures ImageOfAd(old(st.images), id).None? ==>
              r == Fail(ImageNotFound(id)) && st.Snapshot() == old(st.Snapshot())
    ensures ImageOfAd(old(st.images), id).Some? ==>
              var path := old(st.images)[ImageOfAd(old(st.images), id).value].filePath;
              && (r.Done? <==> path in old(st.files))
              && (r.Fail? ==> && r == Fail(IoFailure(path))
                              && st.Snapshot() == old(st.Snapshot()).(
                                   comments := WithoutRowsOfAd(old(st.comments), CommentAd, id)))
              && (r.Done? ==> st.Snapshot() == old(st.Snapshot()).(
                                ads := old(st.ads) - {id},
                                comments := WithoutRowsOfAd(old(st.comments), CommentAd, id),
                                images := WithoutRowsOfAd(old(st.images), ImageAd, id),
                                files := old(st.files) - {path}))
    ensures old(FilesBacked(st.Snapshot())) ==> FilesBacked(st.Snapshot())
  {
    var saved := st.Snapshot();
    DeleteCommentForIdAds(st, id);
    r := DeleteImageForIdAds(st, id);
    if r.Fail? {
      if r.error.ImageNotFound? {
        st.Restore(saved);
      }
      return;
    }
    st.DeleteAd(id);
  }

  /** After a successful removeAd the ad is gone without a trace: getAdById
      raises AdNotFound, it lists no comment and has no image row, its image
      file is gone, and every other ad, comment and image is as it was. */
  lemma RemovedAdLeavesNoTrace(db: Db, id: int, path: string, other: int)
    requires Consistent(db) && other != id
    ensures var after := db.(ads := db.ads - {id},
                             comments := WithoutRowsOfAd(db.comments, CommentAd, id),
                             images := WithoutRowsOfAd(db.images, ImageAd, id),
                             files := db.files - {path});
            && Consistent(after)
            && GetAdById(after, id) == Err(AdNotFound(id))
            && CommentIdsOfAd(after.comments, id) == {}
            && ImageOfAd(after.images, id) == None
            && path !in after.files
            && (other in db.ads ==> other in after.ads && after.ads[other] == db.ads[other])
            && CommentIdsOfAd(after.comments, other) == CommentIdsOfAd(db.comments, other)
            && (forall k | k in db.images && db.images[k].adId == other :: k in after.images && after.images[k] == db.images[k])
  {
    var after := db.(ads := db.ads - {id},
                     comments := WithoutRowsOfAd(db.comments, CommentAd, id),
                     images := WithoutRowsOfAd(db.images, ImageAd, id),
                     files := db.files - {path});
    DeletedCommentsAreNotListed(db.comments, id, other);
    assert ReferencesResolve(after);
  }
}
