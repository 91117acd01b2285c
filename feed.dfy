/** The read side: the comment feed (`getComments`), the reply feed (`getReplies`), the
    post feed (`getAll`) and the single post and multimedia views (`getOne`,
    `getOneMultimedia`), as pure functions of the store. */
module Feed {
  import opened Wrappers
  import opened Seqs
  import opened Records
  import opened Likes
  import opened Ranking

  function Min(a: int, b: int): int { if a <= b then a else b }
  function Max(a: int, b: int): int { if a <= b then b else a }

  /** `$skip: (page - 1) * limit` then `$limit: limit`; MongoDB rejects a negative skip and
      a limit below one, which the handlers turn into a 500. */
  function Window<T>(xs: seq<T>, page: int, limit: int): (r: Result<seq<T>>)
    ensures r.Ok? <==> (page - 1) * limit >= 0 && limit >= 1
    ensures r.Err? ==> r.status == 500
    ensures r.Ok? ==> |r.value| == Min(limit, Max(0, |xs| - (page - 1) * limit))
    ensures r.Ok? ==> forall k :: 0 <= k < |r.value| ==> r.value[k] == xs[(page - 1) * limit + k]
  {
    var skip := (page - 1) * limit;
    if skip < 0 || limit < 1 then Err(500)
    else Ok(Take(Drop(xs, skip), limit))
  }

  /** The comment and reply feeds paginate only when both `page` and `limit` are given. */
  function Paginate<T>(xs: seq<T>, page: Option<int>, limit: Option<int>): (r: Result<seq<T>>)
    ensures page.None? || limit.None? ==> r == Ok(xs)
    ensures page.Some? && limit.Some? ==> r == Window(xs, page.value, limit.value)
  {
    if page.None? || limit.None? then Ok(xs) else Window(xs, page.value, limit.value)
  }

  /** Every element of a page is an element of the list it was cut from. */
  lemma WindowWithin<T>(xs: seq<T>, page: int, limit: int)
    requires Window(xs, page, limit).Ok?
    ensures forall v | v in Window(xs, page, limit).value :: v in xs
  {
    var w := Window(xs, page, limit).value;
    forall v | v in w ensures v in xs {
      var k :| 0 <= k < |w| && w[k] == v;
      assert w[k] == xs[(page - 1) * limit + k];
    }
  }

  /** A page of a sorted list is sorted. */
  lemma WindowSorted<T>(xs: seq<T>, page: int, limit: int, key: T -> seq<int>)
    requires SortedBy(xs, key) && Window(xs, page, limit).Ok?
    ensures SortedBy(Window(xs, page, limit).value, key)
  {
    var w := Window(xs, page, limit).value;
    var skip := (page - 1) * limit;
    forall i, j | 0 <= i < j < |w| ensures LexGe(key(w[i]), key(w[j])) {
      assert w[i] == xs[skip + i] && w[j] == xs[skip + j];
    }
  }

  /** `$in: [viewer, 'likesInfo.userId']`: an anonymous viewer has voted on nothing. */
  predicate ViewerVoted(ls: seq<Like>, viewer: Option<Id>, t: Ref, pol: bool)
  {
    viewer.Some? && Voted(ls, viewer.value, t, pol)
  }

  /** A viewer who has voted is among the votes counted. */
  lemma ViewerCounted(ls: seq<Like>, viewer: Option<Id>, t: Ref, pol: bool)
    ensures ViewerVoted(ls, viewer, t, pol) ==> Tally(ls, t, pol) >= 1
  {
    if viewer.Some? {
      VotedCounted(ls, viewer.value, t, pol);
    }
  }

  // ---------------------------------------------------------------- comments

  datatype CommentView = CommentView(
    id: Id, userId: Id, text: string, createdAt: nat, isLikedByAuthor: bool,
    isPinnedByAuthor: bool, isOwnComment: int, isRepliedByAuthor: bool,
    repliesCount: nat, likesCount: nat, dislikesCount: nat, liked: bool, disliked: bool)

  datatype CommentsPage = CommentsPage(comments: seq<CommentView>, count: nat)

  /** `isOwnComment`: 1 for the viewer's own comments, -1 for the others. */
  function OwnMark(viewer: Option<Id>, author: Id): int
  {
    if viewer == Some(author) then 1 else -1
  }

  function RepliesOf(db: Db, commentId: Id): (r: seq<Reply>)
    ensures forall x | x in r :: x in db.replies && x.commentId == commentId
    ensures forall x | x in db.replies && x.commentId == commentId :: x in r
  {
    Filter(db.replies, (x: Reply) => x.commentId == commentId)
  }

  /** The comments `$match`ed on `multimediaId` or `postId`, in natural order. */
  function UnderParent(db: Db, parentId: Id, isMultimedia: bool): (r: seq<Comment>)
    ensures forall c | c in r :: c in db.comments && ParentField(c, isMultimedia) == Some(parentId)
    ensures forall c | c in db.comments && ParentField(c, isMultimedia) == Some(parentId) :: c in r
  {
    Filter(db.comments, (c: Comment) => ParentField(c, isMultimedia) == Some(parentId))
  }

  /** One feed entry; `parent` is the post or multimedia the feed is for. */
  function CommentViewOf(db: Db, c: Comment, parent: Parent, viewer: Option<Id>): (r: CommentView)
    ensures r.isPinnedByAuthor <==> parent.pinnedCommentId == Some(c.id)
    ensures r.isOwnComment == 1 <==> viewer == Some(c.userId)
    ensures r.isRepliedByAuthor <==> exists x | x in RepliesOf(db, c.id) :: x.userId == parent.userId
    ensures r.repliesCount == Count(db.replies, (x: Reply) => x.commentId == c.id)
    ensures r.liked ==> r.likesCount >= 1
    ensures r.disliked ==> r.dislikesCount >= 1
  {
    ViewerCounted(db.likes, viewer, CommentRef(c.id), true);
    ViewerCounted(db.likes, viewer, CommentRef(c.id), false);
    var t := CommentRef(c.id);
    CommentView(
      c.id, c.userId, c.text, c.createdAt, c.isLikedByAuthor,
      parent.pinnedCommentId == Some(c.id),
      OwnMark(viewer, c.userId),
      exists x | x in db.replies :: x.commentId == c.id && x.userId == parent.userId,
      |RepliesOf(db, c.id)|,
      Tally(db.likes, t, true), Tally(db.likes, t, false),
      ViewerVoted(db.likes, viewer, t, true), ViewerVoted(db.likes, viewer, t, false))
  }

  function CommentViews(db: Db, cs: seq<Comment>, parent: Parent, viewer: Option<Id>): (r: seq<CommentView>)
    ensures |r| == |cs|
    ensures forall i :: 0 <= i < |cs| ==> r[i] == CommentViewOf(db, cs[i], parent, viewer)
  {
    seq(|cs|, i requires 0 <= i < |cs| => CommentViewOf(db, cs[i], parent, viewer))
  }

  /** `isRepliedByAuthor` is added by the `$project` after `$sort`, so when the sort runs
      the field is missing on every comment and ties everywhere. */
  const MissingAtSort: int := 0

  /** The default `$sort`: pinned, own, liked by author, likes, replied by author, newest. */
  function DefaultKey(v: CommentView): seq<int>
  {
    [B(v.isPinnedByAuthor), v.isOwnComment, B(v.isLikedByAuthor), v.likesCount, MissingAtSort, v.createdAt]
  }

  /** `sortBy === 'newest'` keeps only the pinned flag and the date. */
  function NewestKey(v: CommentView): seq<int>
  {
    [B(v.isPinnedByAuthor), v.createdAt]
  }

  function SortKey(sortBy: Option<string>): CommentView -> seq<int>
  {
    if sortBy == Some("newest") then NewestKey else DefaultKey
  }

  /** `v` ranks at or before `w` under the default `$sort`, field by field: pinned first,
      then the viewer's own, then liked by the author, then more likes, then newer; the
      missing `isRepliedByAuthor` decides nothing. */
  predicate DefaultBefore(v: CommentView, w: CommentView)
  {
    || (v.isPinnedByAuthor && !w.isPinnedByAuthor)
    || (v.isPinnedByAuthor == w.isPinnedByAuthor &&
        (|| v.isOwnComment > w.isOwnComment
         || (v.isOwnComment == w.isOwnComment &&
             (|| (v.isLikedByAuthor && !w.isLikedByAuthor)
              || (v.isLikedByAuthor == w.isLikedByAuthor &&
                  (|| v.likesCount > w.likesCount
                   || (v.likesCount == w.likesCount && v.createdAt >= w.createdAt)))))))
  }

  /** `v` ranks at or before `w` under `sortBy === 'newest'`: pinned first, then newer. */
  predicate NewestBefore(v: CommentView, w: CommentView)
  {
    (v.isPinnedByAuthor && !w.isPinnedByAuthor)
    || (v.isPinnedByAuthor == w.isPinnedByAuthor && v.createdAt >= w.createdAt)
  }

  /** The key sequences compare exactly as the `$sort` document orders the fields. */
  lemma SortKeyOrder(sortBy: Option<string>, v: CommentView, w: CommentView)
    ensures LexGe(SortKey(sortBy)(v), SortKey(sortBy)(w))
        <==> if sortBy == Some("newest") then NewestBefore(v, w) else DefaultBefore(v, w)
  {
    if sortBy == Some("newest") {
      LexGeCons(v.createdAt, w.createdAt, [], []);
      assert NewestKey(v) == [B(v.isPinnedByAuthor)] + [v.createdAt];
      assert NewestKey(w) == [B(w.isPinnedByAuthor)] + [w.createdAt];
      LexGeCons(B(v.isPinnedByAuthor), B(w.isPinnedByAuthor), [v.createdAt], [w.createdAt]);
    } else {
      var a5, b5 := [v.createdAt], [w.createdAt];
      LexGeCons(v.createdAt, w.createdAt, [], []);
      var a4, b4 := [MissingAtSort] + a5, [MissingAtSort] + b5;
      LexGeCons(MissingAtSort, MissingAtSort, a5, b5);
      var a3, b3 := [v.likesCount] + a4, [w.likesCount] + b4;
      LexGeCons(v.likesCount, w.likesCount, a4, b4);
      var a2, b2 := [B(v.isLikedByAuthor)] + a3, [B(w.isLikedByAuthor)] + b3;
      LexGeCons(B(v.isLikedByAuthor), B(w.isLikedByAuthor), a3, b3);
      var a1, b1 := [v.isOwnComment] + a2, [w.isOwnComment] + b2;
      LexGeCons(v.isOwnComment, w.isOwnComment, a2, b2);
      assert DefaultKey(v) == [B(v.isPinnedByAuthor)] + a1 && DefaultKey(w) == [B(w.isPinnedByAuthor)] + b1;
      LexGeCons(B(v.isPinnedByAuthor), B(w.isPinnedByAuthor), a1, b1);
    }
  }

  /** `getComments`: a missing parent, a bad page, or a parent without comments
      (`count[0].count` of an empty `$count`) end in 500. */
  function GetComments(db: Db, parentId: Id, isMultimedia: bool, viewer: Option<Id>,
                       page: Option<int>, limit: Option<int>, sortBy: Option<string>): (r: Result<CommentsPage>)
    ensures ParentById(db, isMultimedia, parentId).None? ==> r == Err(500)
    ensures UnderParent(db, parentId, isMultimedia) == [] ==> r == Err(500)
    ensures r.Ok? <==> (ParentById(db, isMultimedia, parentId).Some? && UnderParent(db, parentId, isMultimedia) != []
      && (page.None? || limit.None? || ((page.value - 1) * limit.value >= 0 && limit.value >= 1)))
    ensures r.Err? ==> r.status == 500
    ensures r.Ok? ==> r.value.count == |UnderParent(db, parentId, isMultimedia)| > 0
    ensures r.Ok? ==> SortedBy(r.value.comments, SortKey(sortBy))
    ensures r.Ok? ==> forall v | v in r.value.comments ::
      v in CommentViews(db, UnderParent(db, parentId, isMultimedia), ParentById(db, isMultimedia, parentId).value, viewer)
    ensures r.Ok? && (page.None? || limit.None?) ==> (multiset(r.value.comments)
      == multiset(CommentViews(db, UnderParent(db, parentId, isMultimedia), ParentById(db, isMultimedia, parentId).value, viewer)))
    ensures r.Ok? && page.Some? && limit.Some? ==> |r.value.comments| <= limit.value
    ensures r.Ok? ==> exists s ::
      && multiset(s) == multiset(CommentViews(db, UnderParent(db, parentId, isMultimedia), ParentById(db, isMultimedia, parentId).value, viewer))
      && SortedBy(s, SortKey(sortBy))
      && Paginate(s, page, limit) == Ok(r.value.comments)
  {
    match ParentById(db, isMultimedia, parentId)
    case None => Err(500)
    case Some(parent) =>
      var matched := UnderParent(db, parentId, isMultimedia);
      var views := CommentViews(db, matched, parent, viewer);
      var sorted := SortDesc(views, SortKey(sortBy));
      match Paginate(sorted, page, limit)
      case Err(e) => Err(e)
      case Ok(w) =>
        if |matched| == 0 then Err(500)
        else
          assert forall v | v in sorted :: v in multiset(views);
          assert multiset(sorted) == multiset(views) && SortedBy(sorted, SortKey(sortBy)) && Paginate(sorted, page, limit) == Ok(w);
          if page.Some? && limit.Some? then
            WindowWithin(sorted, page.value, limit.value);
            WindowSorted(sorted, page.value, limit.value, SortKey(sortBy));
            Ok(CommentsPage(w, |matched|))
          else
            Ok(CommentsPage(w, |matched|))
  }

  /** Under either order a pinned comment comes before every unpinned one. */
  lemma PinnedFirst(db: Db, parentId: Id, isMultimedia: bool, viewer: Option<Id>,
                    page: Option<int>, limit: Option<int>, sortBy: Option<string>, i: nat, j: nat)
    requires GetComments(db, parentId, isMultimedia, viewer, page, limit, sortBy).Ok?
    requires i < j < |GetComments(db, parentId, isMultimedia, viewer, page, limit, sortBy).value.comments|
    requires GetComments(db, parentId, isMultimedia, viewer, page, limit, sortBy).value.comments[j].isPinnedByAuthor
    ensures GetComments(db, parentId, isMultimedia, viewer, page, limit, sortBy).value.comments[i].isPinnedByAuthor
  {
    var cs := GetComments(db, parentId, isMultimedia, viewer, page, limit, sortBy).value.comments;
    var key := SortKey(sortBy);
    assert LexGe(key(cs[i]), key(cs[j]));
    LexGeHead(key(cs[i]), key(cs[j]));
  }

  /** Each view's `isOwnComment` is 1 exactly for the viewer's own comments, -1 otherwise. */
  lemma ViewsOwnMark(db: Db, cs: seq<Comment>, parent: Parent, viewer: Option<Id>)
    ensures forall v | v in CommentViews(db, cs, parent, viewer) :: v.isOwnComment == OwnMark(viewer, v.userId)
  {
    var vs := CommentViews(db, cs, parent, viewer);
    forall v | v in vs ensures v.isOwnComment == OwnMark(viewer, v.userId) {
      var k :| 0 <= k < |vs| && vs[k] == v;
    }
  }

  /** Under the default order, among comments with the same pin flag the viewer's own
      come first. */
  lemma OwnFirst(db: Db, parentId: Id, isMultimedia: bool, viewer: Option<Id>,
                 page: Option<int>, limit: Option<int>, sortBy: Option<string>, i: nat, j: nat)
    requires sortBy != Some("newest")
    requires GetComments(db, parentId, isMultimedia, viewer, page, limit, sortBy).Ok?
    requires i < j < |GetComments(db, parentId, isMultimedia, viewer, page, limit, sortBy).value.comments|
    requires var cs := GetComments(db, parentId, isMultimedia, viewer, page, limit, sortBy).value.comments;
      cs[i].isPinnedByAuthor == cs[j].isPinnedByAuthor && viewer == Some(cs[j].userId)
    ensures var cs := GetComments(db, parentId, isMultimedia, viewer, page, limit, sortBy).value.comments;
      cs[i].isOwnComment == 1 && viewer == Some(cs[i].userId)
  {
    var cs := GetComments(db, parentId, isMultimedia, viewer, page, limit, sortBy).value.comments;
    ViewsOwnMark(db, UnderParent(db, parentId, isMultimedia), ParentById(db, isMultimedia, parentId).value, viewer);
    assert cs[i] in cs && cs[j] in cs;
    var ki, kj := DefaultKey(cs[i]), DefaultKey(cs[j]);
    assert LexGe(ki, kj);
    LexGeHead(ki, kj);
    LexGeHead(ki[1..], kj[1..]);
  }

  /** Under `sortBy === 'newest'`, among comments with the same pin flag the newer come first. */
  lemma NewestFirst(db: Db, parentId: Id, isMultimedia: bool, viewer: Option<Id>,
                    page: Option<int>, limit: Option<int>, i: nat, j: nat)
    requires GetComments(db, parentId, isMultimedia, viewer, page, limit, Some("newest")).Ok?
    requires i < j < |GetComments(db, parentId, isMultimedia, viewer, page, limit, Some("newest")).value.comments|
    requires var cs := GetComments(db, parentId, isMultimedia, viewer, page, limit, Some("newest")).value.comments;
      cs[i].isPinnedByAuthor == cs[j].isPinnedByAuthor
    ensures var cs := GetComments(db, parentId, isMultimedia, viewer, page, limit, Some("newest")).value.comments;
      cs[i].createdAt >= cs[j].createdAt
  {
    var cs := GetComments(db, parentId, isMultimedia, viewer, page, limit, Some("newest")).value.comments;
    var ki, kj := NewestKey(cs[i]), NewestKey(cs[j]);
    assert LexGe(ki, kj);
    LexGeHead(ki, kj);
    LexGeHead(ki[1..], kj[1..]);
  }

  // ----------------------------------------------------------------- replies

  /** `refUser`: the author of the quoted reply, when it is set and exists. */
  function RefUser(db: Db, x: Reply): (r: Option<Id>)
    ensures r.Some? ==> exists y | y in db.replies :: x.replyId == Some(y.id) && y.userId == r.value
    ensures r.None? <==> x.replyId.None? || forall y | y in db.replies :: y.id != x.replyId.value
  {
    match x.replyId
    case None => None
    case Some(q) =>
      match ReplyById(db, q)
      case None => None
      case Some(y) => Some(y.userId)
  }

  datatype ReplyView = ReplyView(
    id: Id, userId: Id, text: string, createdAt: nat, isLikedByAuthor: bool,
    likesCount: nat, dislikesCount: nat, liked: bool, disliked: bool, refUserId: Option<Id>)

  function ReplyViewOf(db: Db, x: Reply, viewer: Option<Id>): ReplyView
  {
    var t := ReplyRef(x.id);
    ReplyView(x.id, x.userId, x.text, x.createdAt, x.isLikedByAuthor,
      Tally(db.likes, t, true), Tally(db.likes, t, false),
      ViewerVoted(db.likes, viewer, t, true), ViewerVoted(db.likes, viewer, t, false),
      RefUser(db, x))
  }

  function ReplyViews(db: Db, rs: seq<Reply>, viewer: Option<Id>): (r: seq<ReplyView>)
    ensures |r| == |rs|
    ensures forall i :: 0 <= i < |rs| ==> r[i] == ReplyViewOf(db, rs[i], viewer)
  {
    seq(|rs|, i requires 0 <= i < |rs| => ReplyViewOf(db, rs[i], viewer))
  }

  /** `getReplies`: the comment's replies in natural order (there is no `$sort`), paginated;
      it does not check that the comment exists, and an unknown comment lists nothing. */
  function GetReplies(db: Db, commentId: Id, viewer: Option<Id>, page: Option<int>, limit: Option<int>): (r: Result<seq<ReplyView>>)
    ensures r == Paginate(ReplyViews(db, RepliesOf(db, commentId), viewer), page, limit)
    ensures page.None? || limit.None? ==> r == Ok(ReplyViews(db, RepliesOf(db, commentId), viewer))
    ensures r.Err? ==> r.status == 500
    ensures r.Ok? && page.Some? && limit.Some? ==> |r.value| <= limit.value
    ensures r.Ok? ==> forall v | v in r.value :: v in ReplyViews(db, RepliesOf(db, commentId), viewer)
  {
    var views := ReplyViews(db, RepliesOf(db, commentId), viewer);
    if page.Some? && limit.Some? then
      match Window(views, page.value, limit.value)
      case Err(e) => Err(e)
      case Ok(w) =>
        WindowWithin(views, page.value, limit.value);
        Ok(w)
    else
      Ok(views)
  }

  /** Every reply `getReplies` lists belongs to the requested comment. */
  lemma RepliesBelong(db: Db, commentId: Id, viewer: Option<Id>, page: Option<int>, limit: Option<int>, v: ReplyView)
    requires GetReplies(db, commentId, viewer, page, limit).Ok?
    requires v in GetReplies(db, commentId, viewer, page, limit).value
    ensures exists x | x in db.replies :: x.commentId == commentId && x.id == v.id && x.userId == v.userId
  {
    var rs := RepliesOf(db, commentId);
    var vs := ReplyViews(db, rs, viewer);
    var k :| 0 <= k < |vs| && vs[k] == v;
    assert rs[k] in rs;
  }

  // ------------------------------------------------------------------- posts

  /** The comment field a `$lookup` with `foreignField: name` compares; comments have no
      field other than `postId` and `multimediaId` to match on. */
  function CommentField(c: Comment, name: string): Option<Id>
  {
    if name == "postId" then c.postId else if name == "multimediaId" then c.multimediaId else None
  }

  /** `commentsCount`: `$size` of the comments whose field `name` equals `id`. */
  function CommentsCountBy(db: Db, name: string, id: Id): nat
  {
    Count(db.comments, (c: Comment) => CommentField(c, name) == Some(id))
  }

  datatype PostView = PostView(
    id: Id, userId: Id, title: string, text: string, tags: seq<string>, viewsCount: nat,
    createdAt: nat, images: seq<Multimedia>, commentsCount: nat,
    likesCount: nat, dislikesCount: nat, liked: bool, disliked: bool)

  function MediaCreatedKey(m: Multimedia): seq<int> { [m.createdAt] }

  /** `imagesInfo`: the multimedia documents whose id is listed in `images`, newest first. */
  function ImagesOf(db: Db, p: Post): (r: seq<Multimedia>)
    ensures forall m :: m in r <==> m in db.media && m.id in p.images
    ensures multiset(r) == multiset(Filter(db.media, (m: Multimedia) => m.id in p.images))
    ensures SortedBy(r, MediaCreatedKey)
  {
    var found := Filter(db.media, (m: Multimedia) => m.id in p.images);
    var r := SortDesc(found, MediaCreatedKey);
    assert forall m :: m in r <==> m in multiset(found);
    r
  }

  /** One post as `getAll` and `getOne` project it; `commentField` is the `foreignField`
      of the comments `$lookup`. */
  function PostViewOf(db: Db, p: Post, viewer: Option<Id>, commentField: string): (r: PostView)
    ensures commentField == "postId" ==> r.commentsCount == |UnderParent(db, p.id, false)|
    ensures commentField == "post" ==> r.commentsCount == 0
    ensures r.images == ImagesOf(db, p)
    ensures r.liked ==> r.likesCount >= 1
    ensures r.disliked ==> r.dislikesCount >= 1
  {
    var t := PostRef(p.id);
    CommentsCountIsFeedSize(db.comments, p.id, false);
    NoCommentHasPostField(db.comments, p.id);
    ViewerCounted(db.likes, viewer, t, true);
    ViewerCounted(db.likes, viewer, t, false);
    PostView(p.id, p.userId, p.title, p.text, p.tags, p.viewsCount, p.createdAt, ImagesOf(db, p),
      CommentsCountBy(db, commentField, p.id),
      Tally(db.likes, t, true), Tally(db.likes, t, false),
      ViewerVoted(db.likes, viewer, t, true), ViewerVoted(db.likes, viewer, t, false))
  }

  datatype MediaView = MediaView(
    id: Id, userId: Id, url: string, previewUrl: string, isVideo: bool,
    taggedUsers: seq<TaggedUser>, aspectRatio: Option<real>, viewsCount: nat, caption: Option<string>,
    commentsCount: nat, likesCount: nat, dislikesCount: nat, liked: bool, disliked: bool)

  function MediaViewOf(db: Db, m: Multimedia, viewer: Option<Id>): (r: MediaView)
    ensures r.commentsCount == |UnderParent(db, m.id, true)|
    ensures r.liked ==> r.likesCount >= 1
    ensures r.disliked ==> r.dislikesCount >= 1
  {
    var t := MediaRef(m.id);
    CommentsCountIsFeedSize(db.comments, m.id, true);
    ViewerCounted(db.likes, viewer, t, true);
    ViewerCounted(db.likes, viewer, t, false);
    MediaView(m.id, m.userId, m.url, m.previewUrl, m.isVideo, m.taggedUsers, m.aspectRatio,
      m.viewsCount, m.caption, CommentsCountBy(db, "multimediaId", m.id),
      Tally(db.likes, t, true), Tally(db.likes, t, false),
      ViewerVoted(db.likes, viewer, t, true), ViewerVoted(db.likes, viewer, t, false))
  }

  /** `getOne` looks comments up by a field named `post`, which no comment has: the count
      it reports is always zero. */
  lemma {:induction false} NoCommentHasPostField(cs: seq<Comment>, id: Id)
    ensures Count(cs, (c: Comment) => CommentField(c, "post") == Some(id)) == 0
  {
    if cs != [] {
      NoCommentHasPostField(cs[1..], id);
    }
  }

  /** Counting by `postId` (`getAll`) or `multimediaId` (`getOneMultimedia`) gives exactly
      the comments `getComments` lists for that parent. */
  lemma {:induction false} CommentsCountIsFeedSize(cs: seq<Comment>, id: Id, isMultimedia: bool)
    ensures Count(cs, (c: Comment) => CommentField(c, if isMultimedia then "multimediaId" else "postId") == Some(id))
         == |Filter(cs, (c: Comment) => ParentField(c, isMultimedia) == Some(id))|
  {
    if cs != [] {
      CommentsCountIsFeedSize(cs[1..], id, isMultimedia);
    }
  }

  /** The `tags` query: absent (or empty), one string, or a list. */
  datatype TagsParam = NoTags | OneTag(tag: string) | TagList(tags: seq<string>)

  datatype PostsPage = PostsPage(posts: seq<PostView>, count: Option<nat>)

  /** The `$match` of `getAll`: some tag in the list (`$in`) and the author, when given. */
  predicate Selected(p: Post, tags: TagsParam, userId: Option<Id>)
  {
    && (tags.TagList? ==> exists t | t in p.tags :: t in tags.tags)
    && (userId.Some? ==> p.userId == userId.value)
  }

  function Matching(db: Db, tags: TagsParam, userId: Option<Id>): (r: seq<Post>)
    ensures forall p | p in r :: p in db.posts && Selected(p, tags, userId)
    ensures forall p | p in db.posts && Selected(p, tags, userId) :: p in r
  {
    Filter(db.posts, (p: Post) => Selected(p, tags, userId))
  }

  function NewsKey(v: PostView): seq<int> { [v.createdAt] }
  function PopularKey(v: PostView): seq<int> { [v.viewsCount] }

  function PostViews(db: Db, ps: seq<Post>, viewer: Option<Id>): (r: seq<PostView>)
    ensures |r| == |ps|
    ensures forall i :: 0 <= i < |ps| ==> r[i] == PostViewOf(db, ps[i], viewer, "postId")
  {
    seq(|ps|, i requires 0 <= i < |ps| => PostViewOf(db, ps[i], viewer, "postId"))
  }

  /** `getAll`. A single tag string makes `$in` fail, a `sortBy` other than `news` or
      `popular` leaves `$sort` empty, and a missing page or limit makes `$skip`/`$limit`
      NaN: MongoDB rejects all three and the handler answers 500. `count` is missing when
      nothing matches. */
  function GetAll(db: Db, tags: TagsParam, userId: Option<Id>, sortBy: Option<string>,
                  currentPage: Option<int>, limit: Option<int>, viewer: Option<Id>): (r: Result<PostsPage>)
    ensures tags.OneTag? ==> r == Err(500)
    ensures sortBy != Some("news") && sortBy != Some("popular") ==> r == Err(500)
    ensures currentPage.None? || limit.None? ==> r == Err(500)
    ensures r.Ok? <==> (!tags.OneTag? && (sortBy == Some("news") || sortBy == Some("popular"))
      && currentPage.Some? && limit.Some? && (currentPage.value - 1) * limit.value >= 0 && limit.value >= 1)
    ensures r.Err? ==> r.status == 500
    ensures r.Ok? ==> (r.value.count ==
      if |Matching(db, tags, userId)| == 0 then None else Some(|Matching(db, tags, userId)|))
    ensures r.Ok? ==> |r.value.posts| <= limit.value
    ensures r.Ok? ==> SortedBy(r.value.posts, if sortBy == Some("news") then NewsKey else PopularKey)
    ensures r.Ok? ==> forall v | v in r.value.posts :: v in PostViews(db, Matching(db, tags, userId), viewer)
    ensures r.Ok? ==> exists s ::
      && multiset(s) == multiset(PostViews(db, Matching(db, tags, userId), viewer))
      && SortedBy(s, if sortBy == Some("news") then NewsKey else PopularKey)
      && Window(s, currentPage.value, limit.value) == Ok(r.value.posts)
  {
    if tags.OneTag? then Err(500)
    else if sortBy != Some("news") && sortBy != Some("popular") then Err(500)
    else if currentPage.None? || limit.None? then Err(500)
    else
      var matched := Matching(db, tags, userId);
      var views := PostViews(db, matched, viewer);
      var key := if sortBy == Some("news") then NewsKey else PopularKey;
      var sorted := SortDesc(views, key);
      match Window(sorted, currentPage.value, limit.value)
      case Err(e) => Err(e)
      case Ok(w) =>
        assert forall v | v in sorted :: v in multiset(views);
        WindowWithin(sorted, currentPage.value, limit.value);
        WindowSorted(sorted, currentPage.value, limit.value, key);
        assert multiset(sorted) == multiset(views) && SortedBy(sorted, key) && Window(sorted, currentPage.value, limit.value) == Ok(w);
        Ok(PostsPage(w, if |matched| == 0 then None else Some(|matched|)))
  }

  /** Every post `getAll` returns passes the tag and author filters. */
  lemma GetAllFilters(db: Db, tags: TagsParam, userId: Option<Id>, sortBy: Option<string>,
                      currentPage: Option<int>, limit: Option<int>, viewer: Option<Id>)
    ensures var r := GetAll(db, tags, userId, sortBy, currentPage, limit, viewer);
      r.Ok? ==> forall v | v in r.value.posts :: exists p | p in db.posts :: (p.id == v.id
        && Selected(p, tags, userId) && (userId.Some? ==> v.userId == userId.value))
  {
    var r := GetAll(db, tags, userId, sortBy, currentPage, limit, viewer);
    if r.Ok? {
      var ms := Matching(db, tags, userId);
      var views := PostViews(db, ms, viewer);
      forall v | v in r.value.posts
        ensures exists p | p in db.posts :: (p.id == v.id
          && Selected(p, tags, userId) && (userId.Some? ==> v.userId == userId.value))
      {
        var k :| 0 <= k < |views| && views[k] == v;
        assert ms[k] in ms;
      }
    }
  }
}
