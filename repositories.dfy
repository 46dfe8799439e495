/** The persistence layer the services work on: the five tables (users, ads,
    comments, avatars, images) as maps from row id to row, the storage
    directory as a map from path to file contents, the derived queries of the
    Spring Data repositories, and the invariants the services keep. */
module Repositories {
  import opened Entities

  /** A snapshot of the tables and the file system. */
  datatype Db = Db(users: map<int, User>, ads: map<int, Ad>, comments: map<int, Comment>,
                   avatars: map<int, Avatar>, images: map<int, Image>, files: map<string, Bytes>)

  // ---- invariants ----

  /** The e-mail column is unique (it is the login). */
  ghost predicate UniqueEmails(users: map<int, User>) {
    forall i, j | i in users && j in users && users[i].email == users[j].email :: i == j
  }

  /** At most one avatar row per user, as findByUsersId's Optional result needs. */
  ghost predicate OneAvatarPerUser(avatars: map<int, Avatar>) {
    forall i, j | i in avatars && j in avatars && avatars[i].userId == avatars[j].userId :: i == j
  }

  /** At most one image row per ad, as findByAdsPk's single result needs. */
  ghost predicate OneImagePerAd(images: map<int, Image>) {
    forall i, j | i in images && j in images && images[i].adId == images[j].adId :: i == j
  }

  /** Every foreign key names an existing row, stated per table so that an
      update of one table leaves the facts about the others untouched. */
  ghost predicate AdsResolve(ads: map<int, Ad>, users: map<int, User>) {
    forall k | k in ads :: ads[k].ownerId in users
  }

  ghost predicate CommentsResolve(comments: map<int, Comment>, users: map<int, User>, ads: map<int, Ad>) {
    forall k | k in comments :: comments[k].authorId in users && comments[k].adId in ads
  }

  ghost predicate AvatarsResolve(avatars: map<int, Avatar>, users: map<int, User>) {
    forall k | k in avatars :: avatars[k].userId in users
  }

  ghost predicate ImagesResolve(images: map<int, Image>, ads: map<int, Ad>) {
    forall k | k in images :: images[k].adId in ads
  }

  ghost predicate ReferencesResolve(db: Db) {
    && AdsResolve(db.ads, db.users)
    && CommentsResolve(db.comments, db.users, db.ads)
    && AvatarsResolve(db.avatars, db.users)
    && ImagesResolve(db.images, db.ads)
  }

  ghost predicate Consistent(db: Db) {
    && UniqueEmails(db.users)
    && OneAvatarPerUser(db.avatars)
    && OneImagePerAd(db.images)
    && ReferencesResolve(db)
  }

  /** Every avatar and image row names a file that exists, and no two rows
      share a file. */
  ghost predicate FilesBacked(db: Db) {
    RowsBacked(db.avatars, db.images, db.files)
  }

  ghost predicate RowsBacked(avatars: map<int, Avatar>, images: map<int, Image>, files: map<string, Bytes>) {
    && (forall k | k in avatars :: avatars[k].filePath in files)
    && (forall k | k in images :: images[k].filePath in files)
    && (forall i, j | i in avatars && j in avatars && avatars[i].filePath == avatars[j].filePath :: i == j)
    && (forall i, j | i in images && j in images && images[i].filePath == images[j].filePath :: i == j)
    && (forall i, j | i in avatars && j in images :: avatars[i].filePath != images[j].filePath)
  }

  /** A generated file path: no file is there and no row names it. */
  ghost predicate FreshPath(db: Db, p: string) {
    && p !in db.files
    && (forall k | k in db.avatars :: db.avatars[k].filePath != p)
    && (forall k | k in db.images :: db.images[k].filePath != p)
  }

  // ---- derived queries ----

  /** UsersRepository.findByEmail. */
  function FindByEmail(users: map<int, User>, email: string): (r: Option<int>)
    requires UniqueEmails(users)
    ensures r.Some? ==> r.value in users && users[r.value].email == email
    ensures r.None? <==> forall k | k in users :: users[k].email != email
  {
    if forall k | k in users :: users[k].email != email then None
    else var k :| k in users && users[k].email == email; Some(k)
  }

  /** AvatarsRepository.findByUsersId. */
  function AvatarOfUser(avatars: map<int, Avatar>, userId: int): (r: Option<int>)
    requires OneAvatarPerUser(avatars)
    ensures r.Some? ==> r.value in avatars && avatars[r.value].userId == userId
    ensures r.None? <==> forall k | k in avatars :: avatars[k].userId != userId
  {
    if forall k | k in avatars :: avatars[k].userId != userId then None
    else var k :| k in avatars && avatars[k].userId == userId; Some(k)
  }

  /** ImagesRepository.findByAdsPk. */
  function ImageOfAd(images: map<int, Image>, adId: int): (r: Option<int>)
    requires OneImagePerAd(images)
    ensures r.Some? ==> r.value in images && images[r.value].adId == adId
    ensures r.None? <==> forall k | k in images :: images[k].adId != adId
  {
    if forall k | k in images :: images[k].adId != adId then None
    else var k :| k in images && images[k].adId == adId; Some(k)
  }

  /** A row just saved is what the lookups find for its key. */
  lemma FindInsertedUser(users: map<int, User>, id: int, u: User)
    requires UniqueEmails(users[id := u])
    ensures FindByEmail(users[id := u], u.email) == Some(id)
  {
    assert users[id := u][id].email == u.email;
  }

  lemma FindInsertedAvatar(avatars: map<int, Avatar>, id: int, a: Avatar)
    requires OneAvatarPerUser(avatars[id := a])
    ensures AvatarOfUser(avatars[id := a], a.userId) == Some(id)
  {
    assert avatars[id := a][id].userId == a.userId;
  }

  lemma FindInsertedImage(images: map<int, Image>, id: int, img: Image)
    requires OneImagePerAd(images[id := img])
    ensures ImageOfAd(images[id := img], img.adId) == Some(id)
  {
    assert images[id := img][id].adId == img.adId;
  }

  /** CommentsRepository.existsByAdsPkAndPk (and findByAdsPkAndPk being non-null). */
  predicate CommentOfAd(comments: map<int, Comment>, adId: int, commentId: int) {
    commentId in comments && comments[commentId].adId == adId
  }

  /** deleteByAdsPk of the comments or the images repository: every row of
      the ad (as `adOf` reads a row's ad) is removed and every other row is
      kept as it was. */
  function WithoutRowsOfAd<R>(rows: map<int, R>, adOf: R -> int, adId: int): (r: map<int, R>)
    ensures forall k | k in r :: k in rows && r[k] == rows[k] && adOf(r[k]) != adId
    ensures forall k | k in rows && adOf(rows[k]) != adId :: k in r
  {
    map k | k in rows && adOf(rows[k]) != adId :: rows[k]
  }

  /** The ad a comment belongs to. */
  function CommentAd(c: Comment): int { c.adId }

  /** The ad an image belongs to. */
  function ImageAd(img: Image): int { img.adId }

  // ---- the file invariant across the updates the services make ----

  lemma AddImageKeepsFilesBacked(db: Db, id: int, img: Image, bytes: Bytes)
    requires FilesBacked(db) && id !in db.images && FreshPath(db, img.filePath)
    ensures FilesBacked(db.(images := db.images[id := img], files := db.files[img.filePath := bytes]))
  {
  }

  lemma AddAvatarKeepsFilesBacked(db: Db, id: int, avatar: Avatar, bytes: Bytes)
    requires FilesBacked(db) && id !in db.avatars && FreshPath(db, avatar.filePath)
    ensures FilesBacked(db.(avatars := db.avatars[id := avatar], files := db.files[avatar.filePath := bytes]))
  {
  }

  /** Replacing the file of an existing image row: the old file is deleted
      (if there) and the new one written at a fresh path. */
  lemma ReplaceImageFileKeepsFilesBacked(db: Db, id: int, newPath: string, mediaType: string, bytes: Bytes)
    requires FilesBacked(db) && id in db.images && FreshPath(db, newPath)
    ensures var row := db.images[id];
            FilesBacked(db.(images := db.images[id := row.(filePath := newPath, mediaType := mediaType)],
                            files := (db.files - {row.filePath})[newPath := bytes]))
  {
  }

  /** The same for an avatar row. */
  lemma ReplaceAvatarFileKeepsFilesBacked(db: Db, id: int, newPath: string, mediaType: string, bytes: Bytes)
    requires FilesBacked(db) && id in db.avatars && FreshPath(db, newPath)
    ensures var row := db.avatars[id];
            FilesBacked(db.(avatars := db.avatars[id := row.(filePath := newPath, mediaType := mediaType)],
                            files := (db.files - {row.filePath})[newPath := bytes]))
  {
  }

  // ---- list results ----

  /** `order` lists every key of a table exactly once: the order in which a
      query without ORDER BY returns the rows, which the model takes as given. */
  ghost predicate Enumerates(order: seq<int>, keys: set<int>) {
    && (forall i | 0 <= i < |order| :: order[i] in keys)
    && (forall k | k in keys :: k in order)
    && (forall i, j | 0 <= i < j < |order| :: order[i] != order[j])
  }

  lemma {:induction false} EnumerationSize(order: seq<int>, keys: set<int>)
    requires Enumerates(order, keys)
    ensures |order| == |keys|
  {
    if order != [] {
      var rest := order[1..];
      assert forall i | 0 <= i < |rest| :: rest[i] == order[i + 1];
      forall k | k in keys - {order[0]} ensures k in rest {
        var i :| 0 <= i < |order| && order[i] == k;
      }
      EnumerationSize(rest, keys - {order[0]});
      assert keys == (keys - {order[0]}) + {order[0]};
    } else {
      assert forall k | k in keys :: false;
      assert keys == {};
    }
  }

  /** The ids of a list of DTOs, in list order, as `pk` reads them. */
  function Project<T>(xs: seq<T>, pk: T -> int): (ks: seq<int>)
    ensures |ks| == |xs| && forall i | 0 <= i < |xs| :: ks[i] == pk(xs[i])
  {
    if xs == [] then [] else [pk(xs[0])] + Project(xs[1..], pk)
  }

  /** `sub` is `whole` with some elements dropped: the same relative order. */
  predicate Subsequence(sub: seq<int>, whole: seq<int>)
    decreases |whole|
  {
    if sub == [] then true
    else if whole == [] then false
    else if sub[0] == whole[0] then Subsequence(sub[1..], whole[1..])
    else Subsequence(sub, whole[1..])
  }

  /** The rows of `order` that satisfy `keep`, in the same order: a derived
      query such as findByAdsPk or findByUsersId over the same table scan. */
  function Filter(order: seq<int>, keep: int -> bool): (r: seq<int>)
    ensures |r| <= |order|
    ensures forall i | 0 <= i < |r| :: r[i] in order && keep(r[i])
    ensures forall i | 0 <= i < |order| && keep(order[i]) :: order[i] in r
    ensures Subsequence(r, order)
  {
    if order == [] then []
    else if keep(order[0]) then [order[0]] + Filter(order[1..], keep)
    else Filter(order[1..], keep)
  }

  /** Filtering an enumeration of a table enumerates the selected rows. */
  lemma {:induction false} FilterEnumerates(order: seq<int>, keys: set<int>, keep: int -> bool)
    requires Enumerates(order, keys)
    ensures Enumerates(Filter(order, keep), set k | k in keys && keep(k))
  {
    if order != [] {
      var rest := order[1..];
      assert forall i | 0 <= i < |rest| :: rest[i] == order[i + 1];
      forall k | k in keys - {order[0]} ensures k in rest {
        var i :| 0 <= i < |order| && order[i] == k;
      }
      FilterEnumerates(rest, keys - {order[0]}, keep);
      var f := Filter(order, keep);
      if keep(order[0]) {
        assert f == [order[0]] + Filter(rest, keep);
        assert forall i | 0 < i < |f| :: f[i] == Filter(rest, keep)[i - 1];
      }
    }
  }

  // ---- the mutable store ----

  /** Every key of every table is below `bound`. */
  ghost predicate KeysBelow(db: Db, bound: int) {
    && AllBelow(db.users.Keys, bound)
    && AllBelow(db.ads.Keys, bound)
    && AllBelow(db.comments.Keys, bound)
    && AllBelow(db.avatars.Keys, bound)
    && AllBelow(db.images.Keys, bound)
  }

  ghost predicate AllBelow(keys: set<int>, bound: int) {
    forall k | k in keys :: k < bound
  }

  /** The repositories and the storage directory as one mutable object;
      `nextId` is the identity generator the tables draw new keys from. */
  class Store {
    var users: map<int, User>
    var ads: map<int, Ad>
    var comments: map<int, Comment>
    var avatars: map<int, Avatar>
    var images: map<int, Image>
    var files: map<string, Bytes>
    var nextId: int

    function Snapshot(): Db
      reads this
    {
      Db(users, ads, comments, avatars, images, files)
    }

    /** Every key in use is below `nextId`, and the tables are consistent. */
    ghost predicate Valid()
      reads this
    {
      Consistent(Snapshot()) && KeysBelow(Snapshot(), nextId)
    }

    /** An empty database over an existing directory tree. */
    constructor (initialFiles: map<string, Bytes>)
      ensures Valid()
      ensures Snapshot() == Db(map[], map[], map[], map[], map[], initialFiles)
    {
      users, ads, comments, avatars, images := map[], map[], map[], map[], map[];
      files := initialFiles;
      nextId := 1;
    }

    /** Draws a key that no table uses yet. */
    method NewId() returns (id: int)
      requires Valid()
      modifies this`nextId
      ensures Valid()
      ensures id !in users && id !in ads && id !in comments && id !in avatars && id !in images
      ensures nextId > id
    {
      id := nextId;
      nextId := nextId + 1;
    }

    /** The rollback of a transaction: every table and the directory go back
        to an earlier snapshot; the identity generator does not. */
    method Restore(db: Db)
      requires Consistent(db) && KeysBelow(db, nextId)
      modifies this`users, this`ads, this`comments, this`avatars, this`images, this`files
      ensures Valid() && Snapshot() == db
    {
      users, ads, comments, avatars, images, files := db.users, db.ads, db.comments, db.avatars, db.images, db.files;
    }

    /** deleteExistingImage / deleteExistingAvatar: delete the file if it
        exists, and only log when it does not. */
    method DeleteIfExists(path: string)
      requires Valid()
      modifies this`files
      ensures Valid()
      ensures files == old(files) - {path}
    {
      if path in files {
        files := files - {path};
      }
    }

    /** Files.write: create or overwrite the file at `path`. */
    method WriteFile(path: string, bytes: Bytes)
      requires Valid()
      modifies this`files
      ensures Valid()
      ensures files == old(files)[path := bytes]
    {
      files := files[path := bytes];
    }

    /** Files.delete of a file known to exist. */
    method DeleteFile(path: string)
      requires Valid() && path in files
      modifies this`files
      ensures Valid()
      ensures files == old(files) - {path}
    {
      files := files - {path};
    }

    // ---- repository saves and deletes; each keeps the invariants ----

    /** UsersRepository.save of a new user; the e-mail column is unique. */
    method InsertUser(u: User) returns (id: int)
      requires Valid()
      requires forall k | k in users :: users[k].email != u.email
      modifies this`users, this`nextId
      ensures Valid()
      ensures id !in old(users) && users == old(users)[id := u]
    {
      id := NewId();
      users := users[id := u];
    }

    /** UsersRepository.save of an existing user; the e-mail is not changed. */
    method UpdateUser(id: int, u: User)
      requires Valid() && id in users && u.email == users[id].email
      modifies this`users
      ensures Valid()
      ensures users == old(users)[id := u]
    {
      users := users[id := u];
    }

    /** AdsRepository.save of a new ad. */
    method InsertAd(ad: Ad) returns (id: int)
      requires Valid() && ad.ownerId in users
      modifies this`ads, this`nextId
      ensures Valid()
      ensures id !in old(ads) && ads == old(ads)[id := ad]
    {
      id := NewId();
      ads := ads[id := ad];
    }

    /** AdsRepository.save of an existing ad; the owner is not changed. */
    method UpdateAd(id: int, ad: Ad)
      requires Valid() && id in ads && ad.ownerId == ads[id].ownerId
      modifies this`ads
      ensures Valid()
      ensures ads == old(ads)[id := ad]
    {
      ads := ads[id := ad];
    }

    /** AdsRepository.deleteById of an ad nothing refers to any more. */
    method DeleteAd(id: int)
      requires Valid()
      requires forall k | k in comments :: comments[k].adId != id
      requires forall k | k in images :: images[k].adId != id
      modifies this`ads
      ensures Valid()
      ensures ads == old(ads) - {id}
    {
      ads := ads - {id};
    }

    /** CommentsRepository.save of a new comment. */
    method InsertComment(c: Comment) returns (id: int)
      requires Valid() && c.authorId in users && c.adId in ads
      modifies this`comments, this`nextId
      ensures Valid()
      ensures id !in old(comments) && comments == old(comments)[id := c]
    {
      id := NewId();
      comments := comments[id := c];
    }

    /** CommentsRepository.save of an existing comment; its ad and author are
        not changed. */
    method UpdateComment(id: int, c: Comment)
      requires Valid() && id in comments
      requires c.adId == comments[id].adId && c.authorId == comments[id].authorId
      modifies this`comments
      ensures Valid()
      ensures comments == old(comments)[id := c]
    {
      comments := comments[id := c];
    }

    /** CommentsRepository.deleteById. */
    method DeleteComment(id: int)
      requires Valid()
      modifies this`comments
      ensures Valid()
      ensures comments == old(comments) - {id}
    {
      comments := comments - {id};
    }

    /** CommentsRepository.deleteByAdsPk. */
    method DeleteCommentsOfAd(adId: int)
      requires Valid()
      modifies this`comments
      ensures Valid()
      ensures comments == WithoutRowsOfAd(old(comments), CommentAd, adId)
    {
      comments := WithoutRowsOfAd(comments, CommentAd, adId);
    }

    /** AvatarsRepository.save of a new avatar; a user has at most one. */
    method InsertAvatar(a: Avatar) returns (id: int)
      requires Valid() && a.userId in users
      requires forall k | k in avatars :: avatars[k].userId != a.userId
      modifies this`avatars, this`nextId
      ensures Valid()
      ensures id !in old(avatars) && avatars == old(avatars)[id := a]
    {
      id := NewId();
      avatars := avatars[id := a];
    }

    /** AvatarsRepository.save of an existing avatar; its user is not changed. */
    method UpdateAvatar(id: int, a: Avatar)
      requires Valid() && id in avatars && a.userId == avatars[id].userId
      modifies this`avatars
      ensures Valid()
      ensures avatars == old(avatars)[id := a]
    {
      avatars := avatars[id := a];
    }

    /** ImagesRepository.save of a new image; an ad has at most one. */
    method InsertImage(img: Image) returns (id: int)
      requires Valid() && img.adId in ads
      requires forall k | k in images :: images[k].adId != img.adId
      modifies this`images, this`nextId
      ensures Valid()
      ensures id !in old(images) && images == old(images)[id := img]
    {
      id := NewId();
      images := images[id := img];
    }

    /** ImagesRepository.save of a new image row without the one-per-ad
        check: what updateAdImage does. The invariant is not kept. */
    method InsertImageUnchecked(img: Image) returns (id: int)
      requires Valid()
      modifies this`images, this`nextId
      ensures id !in old(images) && images == old(images)[id := img]
    {
      id := NewId();
      images := images[id := img];
    }

    /** ImagesRepository.save of an existing image; its ad is not changed. */
    method UpdateImage(id: int, img: Image)
      requires Valid() && id in images && img.adId == images[id].adId
      modifies this`images
      ensures Valid()
      ensures images == old(images)[id := img]
    {
      images := images[id := img];
    }

    /** ImagesRepository.deleteByAdsPk. */
    method DeleteImagesOfAd(adId: int)
      requires Valid()
      modifies this`images
      ensures Valid()
      ensures images == WithoutRowsOfAd(old(images), ImageAd, adId)
    {
      images := WithoutRowsOfAd(images, ImageAd, adId);
    }
  }
}
