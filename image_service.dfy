/** ImageService: an ad's picture, stored as a file under the images
    directory plus a row in the images table. */
module ImageService {
  import opened Entities
  import opened Repositories
  import opened FileNames
  import opened Decimal

  /** The configured images directory (application.image-dir-name). */
  const ImagesDir: string := "images"

  /** The endpoint prefix stored in every image row; the row id is appended
      when the path is reported. */
  const ImageEndpointPrefix: string := "/image/image/"

  /** createImageEntity: the row for an upload, before it is saved. The file
      name is a generated name plus the upload's extension. */
  function CreateImageEntity(upload: Upload, adId: int, freshName: string): (img: Image)
    ensures img.adId == adId
    ensures img.pathForEndpoint == ImageEndpointPrefix
    ensures img.mediaType == upload.contentType
    ensures img.filePath == StoredPath(ImagesDir, freshName, upload.originalFilename)
    ensures FileExtension(img.filePath) == FileExtension(upload.originalFilename)
  {
    Image(adId, StoredPath(ImagesDir, freshName, upload.originalFilename), ImageEndpointPrefix, upload.contentType)
  }

  /** saveImage: write the upload's bytes at the new row's file path, then
      insert the row. The only caller, addAd, passes an ad it has just saved,
      so the ad has no image yet. */
  method SaveImage(st: Store, upload: Upload, adId: int, freshName: string) returns (imageId: int)
    requires st.Valid() && adId in st.ads
    requires forall k | k in st.images :: st.images[k].adId != adId
    requires FreshPath(st.Snapshot(), CreateImageEntity(upload, adId, freshName).filePath)
    modifies st`files, st`images, st`nextId
    ensures st.Valid()
    ensures imageId !in old(st.images)
    ensures var img := CreateImageEntity(upload, adId, freshName);
            st.Snapshot() == old(st.Snapshot()).(images := old(st.images)[imageId := img],
                                                 files := old(st.files)[img.filePath := upload.bytes])
    ensures old(FilesBacked(st.Snapshot())) ==> FilesBacked(st.Snapshot())
  {
    var img := CreateImageEntity(upload, adId, freshName);
    ghost var db := st.Snapshot();
    st.WriteFile(img.filePath, upload.bytes);
    imageId := st.InsertImage(img);
    if FilesBacked(db) {
      AddImageKeepsFilesBacked(db, imageId, img, upload.bytes);
    }
  }

  /** getImageFromFs: the endpoint key is parsed as an image id; an unknown id
      raises ImageNotFound and a row whose file is missing fails the read. */
  function GetImageFromFs(db: Db, key: string): (r: Result<(Bytes, string)>)
    ensures ParseInt(key).Err? ==> r == Err(NumberFormat(key))
    ensures ParseInt(key).Ok? && ParseInt(key).value !in db.images ==> r == Err(ImageNotFound(ParseInt(key).value))
    ensures r.Ok? ==> && ParseInt(key).Ok? && ParseInt(key).value in db.images
                      && db.images[ParseInt(key).value].filePath in db.files
                      && var img := db.images[ParseInt(key).value];
                         r.value == (db.files[img.filePath], img.mediaType)
    ensures ParseInt(key).Ok? && ParseInt(key).value in db.images ==>
              var img := db.images[ParseInt(key).value];
              r == if img.filePath in db.files then Ok((db.files[img.filePath], img.mediaType))
                   else Err(IoFailure(img.filePath))
    ensures r.Err? && r.error.IoFailure? ==> && ParseInt(key).Ok? && ParseInt(key).value in db.images
                                             && r.error.path == db.images[ParseInt(key).value].filePath
                                             && r.error.path !in db.files
  {
    match ParseInt(key)
    case Err(e) => Err(e)
    case Ok(imageId) =>
      if imageId !in db.images then Err(ImageNotFound(imageId))
      else
        var img := db.images[imageId];
        if img.filePath !in db.files then Err(IoFailure(img.filePath))
        else Ok((db.files[img.filePath], img.mediaType))
  }

  /** The endpoint key of an image row (its id, as text) serves that row's
      file and media type, whenever the row's file exists. */
  lemma ImageEndpointServesStoredFile(db: Db, imageId: int)
    requires FilesBacked(db) && imageId in db.images && IsInt32(imageId)
    ensures GetImageFromFs(db, IntToString(imageId))
            == Ok((db.files[db.images[imageId].filePath], db.images[imageId].mediaType))
  {
    IntToStringRoundTrip(imageId);
  }

  /** updateAdImage as written: the old file is deleted (its absence is
      tolerated), the new file is written, and a NEW row `newId` is saved for
      the same ad. The old row stays, now naming a file that no longer exists,
      and the ad has two image rows, so findByAdsPk can no longer answer. */
  method UpdateAdImageAsWritten(st: Store, adId: int, upload: Upload, freshName: string)
    returns (r: Result<string>, newId: int)
    requires st.Valid()
    requires FreshPath(st.Snapshot(), CreateImageEntity(upload, adId, freshName).filePath)
    modifies st`files, st`images, st`nextId
    ensures r.Ok? <==> ImageOfAd(old(st.images), adId).Some?
    ensures r.Err? ==> r == Err(ImageNotFound(adId)) && st.Snapshot() == old(st.Snapshot())
    ensures r.Ok? ==>
              var oldId := ImageOfAd(old(st.images), adId).value;
              var img := CreateImageEntity(upload, adId, freshName);
              && r.value == img.filePath
              && newId !in old(st.images)
              && st.Snapshot() == old(st.Snapshot()).(
                   images := old(st.images)[newId := img],
                   files := (old(st.files) - {old(st.images)[oldId].filePath})[img.filePath := upload.bytes])
              && oldId in st.images && st.images[oldId] == old(st.images)[oldId]
              && st.images[oldId].filePath !in st.files
              && !OneImagePerAd(st.images)
  {
    newId := 0;
    var found := ImageOfAd(st.images, adId);
    if found.None? {
      return Err(ImageNotFound(adId)), newId;
    }
    var oldId := found.value;
    var old' := st.images[oldId];
    st.DeleteIfExists(old'.filePath);
    var img := CreateImageEntity(upload, old'.adId, freshName);
    st.WriteFile(img.filePath, upload.bytes);
    newId := st.InsertImageUnchecked(img);
    assert st.images[newId].adId == st.images[oldId].adId && newId != oldId;
    r := Ok(img.filePath);
  }

  /** updateAdImage as evidently intended (and as updateUserAvatar does for
      avatars): the existing row gets the new file path and media type, so the
      ad keeps exactly one image row and every row names an existing file. */
  method UpdateAdImage(st: Store, adId: int, upload: Upload, freshName: string) returns (r: Result<string>)
    requires st.Valid()
    requires FreshPath(st.Snapshot(), CreateImageEntity(upload, adId, freshName).filePath)
    modifies st`files, st`images
    ensures st.Valid()
    ensures r.Ok? <==> ImageOfAd(old(st.images), adId).Some?
    ensures r.Err? ==> r == Err(ImageNotFound(adId)) && st.Snapshot() == old(st.Snapshot())
    ensures r.Ok? ==>
              var imageId := ImageOfAd(old(st.images), adId).value;
              var oldRow := old(st.images)[imageId];
              var img := CreateImageEntity(upload, adId, freshName);
              && r.value == img.filePath
              && st.Snapshot() == old(st.Snapshot()).(
                   images := old(st.images)[imageId := oldRow.(filePath := img.filePath, mediaType := img.mediaType)],
                   files := (old(st.files) - {oldRow.filePath})[img.filePath := upload.bytes])
    ensures old(FilesBacked(st.Snapshot())) ==> FilesBacked(st.Snapshot())
  {
    var found := ImageOfAd(st.images, adId);
    if found.None? {
      return Err(ImageNotFound(adId));
    }
    var imageId := found.value;
    var row := st.images[imageId];
    ghost var db := st.Snapshot();
    st.DeleteIfExists(row.filePath);
    var img := CreateImageEntity(upload, row.adId, freshName);
    st.WriteFile(img.filePath, upload.bytes);
    st.UpdateImage(imageId, row.(filePath := img.filePath, mediaType := img.mediaType));
    if FilesBacked(db) {
      ReplaceImageFileKeepsFilesBacked(db, imageId, img.filePath, img.mediaType, upload.bytes);
    }
    r := Ok(img.filePath);
  }

  /** deleteImageForIdAds: ImageNotFound when the ad has no image; the file is
      deleted without an existence check, so a missing file fails the call
      before any row is touched; then every image row of the ad is deleted. */
  method DeleteImageForIdAds(st: Store, adId: int) returns (r: Outcome)
    requires st.Valid()
    modifies st`files, st`images
    ensures st.Valid()
    ensures ImageOfAd(old(st.images), adId).None? ==> r == Fail(ImageNotFound(adId))
    ensures ImageOfAd(old(st.images), adId).Some? ==>
              var path := old(st.images)[ImageOfAd(old(st.images), adId).value].filePath;
              && (r.Done? <==> path in old(st.files))
              && (r.Fail? ==> r == Fail(IoFailure(path)))
              && (r.Done? ==> st.Snapshot() == old(st.Snapshot()).(images := WithoutRowsOfAd(old(st.images), ImageAd, adId),
                                                                    files := old(st.files) - {path}))
    ensures r.Fail? ==> st.Snapshot() == old(st.Snapshot())
    ensures old(FilesBacked(st.Snapshot())) ==> FilesBacked(st.Snapshot())
  {
    var found := ImageOfAd(st.images, adId);
    if found.None? {
      return Fail(ImageNotFound(adId));
    }
    var path := st.images[found.value].filePath;
    if path !in st.files {
      return Fail(IoFailure(path));
    }
    st.DeleteFile(path);
    st.DeleteImagesOfAd(adId);
    r := Done;
  }
}
