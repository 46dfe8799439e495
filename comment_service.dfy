/** CommentService: listing, adding, editing and deleting the comments of an
    ad. Listing is a join of the comments with their authors and the
    authors' avatars; the other operations change the comments table. */
module CommentService {
  import opened Entities
  import opened Repositories
  import opened UserContext
  import opened AvatarService

  /** The ids of the comments of an ad. */
  ghost function CommentIdsOfAd(comments: map<int, Comment>, adId: int): set<int> {
    set k | k in comments && comments[k].adId == adId
  }

  /** toCommentDto plus the author's avatar: the comment's author id, the
      author's first name, the creation time, the id and the text. */
  function CommentDtoOf(db: Db, commentId: int): (dto: CommentDto)
    requires Consistent(db) && commentId in db.comments
    ensures dto.pk == commentId && dto.author == db.comments[commentId].authorId
    ensures dto.authorFirstName == db.users[dto.author].firstName
    ensures dto.text == db.comments[commentId].text && dto.createdAt == db.comments[commentId].createdAt
    ensures dto.authorImage == AvatarEndpointOf(db, dto.author)
  {
    var c := db.comments[commentId];
    CommentDto(c.authorId, AvatarEndpointOf(db, c.authorId), db.users[c.authorId].firstName, c.createdAt, commentId, c.text)
  }

  /** The id of a listed comment. */
  function CommentPk(dto: CommentDto): int { dto.pk }

  /** getCommentsForAd: every comment of the ad, once each and in the order
      the table returns them, as DTOs; the count is their number. An unknown
      ad simply has no comments. */
  function GetCommentsForAd(db: Db, order: seq<int>, adId: int): (r: CommentsDto)
    requires Consistent(db) && Enumerates(order, db.comments.Keys)
    ensures r.count == |r.results| == |CommentIdsOfAd(db.comments, adId)|
    ensures Enumerates(Project(r.results, CommentPk), CommentIdsOfAd(db.comments, adId))
    ensures Subsequence(Project(r.results, CommentPk), order)
    ensures forall i | 0 <= i < |r.results| ::
              r.results[i].pk in db.comments && r.results[i] == CommentDtoOf(db, r.results[i].pk)
  {
    var keep := k => k in db.comments && db.comments[k].adId == adId;
    var ids := Filter(order, keep);
    FilterEnumerates(order, db.comments.Keys, keep);
    assert (set k | k in db.comments.Keys && keep(k)) == CommentIdsOfAd(db.comments, adId);
    EnumerationSize(ids, CommentIdsOfAd(db.comments, adId));
    var results := seq(|ids|, i requires 0 <= i < |ids| => CommentDtoOf(db, ids[i]));
    assert Project(results, CommentPk) == ids;
    CommentsDto(|results|, results)
  }

  /** addComment: AdNotFound for an unknown ad (checked first), then the
      caller's resolution errors; otherwise one new comment by the caller on
      the ad, returned as a DTO. Nothing changes on an error. */
  method AddComment(st: Store, auth: Option<Authentication>, adId: int, text: string, now: int)
    returns (r: Result<CommentDto>)
    requires st.Valid()
    modifies st`comments, st`nextId
    ensures st.Valid()
    ensures adId !in old(st.ads) ==> r == Err(AdNotFound(adId))
    ensures adId in old(st.ads) && GetCurrentUserFromDb(old(st.users), auth).Err? ==>
              r == Err(GetCurrentUserFromDb(old(st.users), auth).error)
    ensures r.Ok? <==> adId in old(st.ads) && GetCurrentUserFromDb(old(st.users), auth).Ok?
    ensures r.Err? ==> st.Snapshot() == old(st.Snapshot())
    ensures r.Ok? ==>
              && adId in old(st.ads) && GetCurrentUserFromDb(old(st.users), auth).Ok?
              && var author := GetCurrentUserFromDb(old(st.users), auth).value;
                 && r.value.pk !in old(st.comments)
                 && st.Snapshot() == old(st.Snapshot()).(comments := old(st.comments)[r.value.pk := Comment(adId, author, text, now)])
                 && r.value == CommentDtoOf(st.Snapshot(), r.value.pk)
  {
    if adId !in st.ads {
      return Err(AdNotFound(adId));
    }
    var current := GetCurrentUserFromDb(st.users, auth);
    if current.Err? {
      return Err(current.error);
    }
    var id := st.InsertComment(Comment(adId, current.value, text, now));
    r := Ok(CommentDtoOf(st.Snapshot(), id));
  }

  /** updateComment: CommentNotFound unless the comment exists and belongs to
      the ad; otherwise only its text changes. */
  method UpdateComment(st: Store, adId: int, commentId: int, text: string) returns (r: Result<CommentDto>)
    requires st.Valid()
    modifies st`comments
    ensures st.Valid()
    ensures r.Ok? <==> CommentOfAd(old(st.comments), adId, commentId)
    ensures r.Err? ==> r == Err(CommentNotFound(commentId)) && st.Snapshot() == old(st.Snapshot())
    ensures r.Ok? ==>
              && st.Snapshot() == old(st.Snapshot()).(
                   comments := old(st.comments)[commentId := old(st.comments)[commentId].(text := text)])
              && r.value == CommentDtoOf(st.Snapshot(), commentId)
  {
    if !CommentOfAd(st.comments, adId, commentId) {
      return Err(CommentNotFound(commentId));
    }
    st.UpdateComment(commentId, st.comments[commentId].(text := text));
    r := Ok(CommentDtoOf(st.Snapshot(), commentId));
  }

  /** deleteComment: CommentNotFound unless the comment exists and belongs to
      the ad; otherwise exactly that comment is removed. */
  method DeleteComment(st: Store, adId: int, commentId: int) returns (r: Outcome)
    requires st.Valid()
    modifies st`comments
    ensures st.Valid()
    ensures r.Done? <==> CommentOfAd(old(st.comments), adId, commentId)
    ensures r.Fail? ==> r == Fail(CommentNotFound(commentId)) && st.Snapshot() == old(st.Snapshot())
    ensures r.Done? ==> st.Snapshot() == old(st.Snapshot()).(comments := old(st.comments) - {commentId})
  {
    if !CommentOfAd(st.comments, adId, commentId) {
      return Fail(CommentNotFound(commentId));
    }
    st.DeleteComment(commentId);
    r := Done;
  }

  /** deleteCommentForIdAds: removes every comment of the ad, and succeeds
      when there is none. */
  method DeleteCommentForIdAds(st: Store, adId: int)
    requires st.Valid()
    modifies st`comments
    ensures st.Valid()
    ensures st.Snapshot() == old(st.Snapshot()).(comments := WithoutRowsOfAd(old(st.comments), CommentAd, adId))
  {
    st.DeleteCommentsOfAd(adId);
  }

  // ---- what the changes mean for the listing ----

  /** After deleteCommentForIdAds the ad lists no comment, whatever the order
      the table is read in, and every other ad lists the same comments. */
  lemma DeletedCommentsAreNotListed(comments: map<int, Comment>, adId: int, other: int)
    requires other != adId
    ensures CommentIdsOfAd(WithoutRowsOfAd(comments, CommentAd, adId), adId) == {}
    ensures CommentIdsOfAd(WithoutRowsOfAd(comments, CommentAd, adId), other) == CommentIdsOfAd(comments, other)
  {
    var after := WithoutRowsOfAd(comments, CommentAd, adId);
    forall k | k in CommentIdsOfAd(comments, other) ensures k in CommentIdsOfAd(after, other) {
      assert k in after;
    }
  }

  /** A new comment on the ad is listed with it: the ad's count grows by one
      and every other ad's listing is unchanged. */
  lemma AddedCommentIsListed(comments: map<int, Comment>, id: int, c: Comment, other: int)
    requires id !in comments && other != c.adId
    ensures CommentIdsOfAd(comments[id := c], c.adId) == CommentIdsOfAd(comments, c.adId) + {id}
    ensures |CommentIdsOfAd(comments[id := c], c.adId)| == |CommentIdsOfAd(comments, c.adId)| + 1
    ensures CommentIdsOfAd(comments[id := c], other) == CommentIdsOfAd(comments, other)
  {
    assert CommentIdsOfAd(comments[id := c], c.adId) == CommentIdsOfAd(comments, c.adId) + {id};
  }
}
