/** The documents of the five collections (posts, multimedias, comments, replies,
    likes), as the mongoose schemas under models/ declare them. */
module Records {
  import opened Wrappers
  import opened Seqs

  /** Document ids (ObjectIds) and user ids are opaque; `nat` stands for both. */
  type Id = nat

  /** A reference to one document of one collection. A like row names the document it
      votes on with one of these (the schema's four optional id fields, exactly one set),
      and a deletion names the documents it removes with a set of them. */
  datatype Ref = PostRef(id: Id) | MediaRef(id: Id) | CommentRef(id: Id) | ReplyRef(id: Id)

  /** models/post-model.js; `audienceType`, `emotion` and `taggedUsers` play no part in the core. */
  datatype Post = Post(
    id: Id, userId: Id, title: string, text: string, tags: seq<string>,
    images: seq<Id>, pinnedCommentId: Option<Id>, viewsCount: nat, createdAt: nat)

  /** One tagged person on a picture: `location: {x, y}` and the user (not required by the schema). */
  datatype TaggedUser = TaggedUser(x: string, y: string, userId: Option<Id>)

  /** models/multimedia-model.js. The aspect ratio is a JavaScript number, kept as a `real`. */
  datatype Multimedia = Multimedia(
    id: Id, userId: Id, url: string, previewUrl: string, isVideo: bool,
    caption: Option<string>, taggedUsers: seq<TaggedUser>, aspectRatio: Option<real>,
    viewsCount: nat, pinnedCommentId: Option<Id>, createdAt: nat)

  /** models/comment-model.js: a comment names its parent by `postId` or `multimediaId`. */
  datatype Comment = Comment(
    id: Id, userId: Id, text: string, postId: Option<Id>, multimediaId: Option<Id>,
    isLikedByAuthor: bool, createdAt: nat)

  /** models/reply-model.js: `replyId` is the reply being quoted, if any. */
  datatype Reply = Reply(
    id: Id, userId: Id, text: string, commentId: Id, replyId: Option<Id>,
    isLikedByAuthor: bool, createdAt: nat)

  /** models/like-model.js: `like` is true for a like, false for a dislike. */
  datatype Like = Like(id: Id, like: bool, userId: Id, target: Ref)

  /** The whole database, each collection in natural (insertion) order. */
  datatype Db = Db(
    posts: seq<Post>, media: seq<Multimedia>, comments: seq<Comment>,
    replies: seq<Reply>, likes: seq<Like>)

  function RefOfPost(p: Post): Ref { PostRef(p.id) }
  function RefOfMedia(m: Multimedia): Ref { MediaRef(m.id) }
  function RefOfComment(c: Comment): Ref { CommentRef(c.id) }
  function RefOfReply(r: Reply): Ref { ReplyRef(r.id) }
  /** A like is identified with the document it votes on when documents are dropped. */
  function TargetOf(l: Like): Ref { l.target }
  function LikeId(l: Like): Id { l.id }
  /** The (voter, target) pair a like row belongs to. */
  function VoteKey(l: Like): (Id, Ref) { (l.userId, l.target) }

  /** Every `_id` is below `n`: ids from `n` on are free. */
  ghost predicate IdsBelow(db: Db, n: nat)
  {
    && (forall p | p in db.posts :: p.id < n)
    && (forall m | m in db.media :: m.id < n)
    && (forall c | c in db.comments :: c.id < n)
    && (forall r | r in db.replies :: r.id < n)
    && (forall l | l in db.likes :: l.id < n)
  }

  /** `_id` is unique in every collection (MongoDB's `_id` index), and no voter has
      two rows on one target (every like handler looks the pair up before creating). */
  ghost predicate WellFormed(db: Db)
  {
    && Distinct(db.posts, RefOfPost)
    && Distinct(db.media, RefOfMedia)
    && Distinct(db.comments, RefOfComment)
    && Distinct(db.replies, RefOfReply)
    && Distinct(db.likes, LikeId)
    && Distinct(db.likes, VoteKey)
  }

  /** Multimedia appended with consecutive ids from `n` on, where every id so far is below
      `n`, keeps the ids unique, and all of them are below `n` plus the number appended. */
  lemma AppendFreshMedia(db: Db, n: nat, docs: seq<Multimedia>)
    requires WellFormed(db) && IdsBelow(db, n)
    requires forall j :: 0 <= j < |docs| ==> docs[j].id == n + j
    ensures WellFormed(db.(media := db.media + docs))
    ensures IdsBelow(db.(media := db.media + docs), n + |docs|)
  {
    var s := db.media + docs;
    forall i, j | 0 <= i < j < |s| ensures RefOfMedia(s[i]) != RefOfMedia(s[j]) {
      if i < |db.media| {
        assert s[i] in db.media;
        if j < |db.media| {
          assert s[j] == db.media[j];
        }
      }
    }
    forall m | m in s ensures m.id < n + |docs| {
      if m !in db.media {
        var j :| 0 <= j < |docs| && docs[j] == m;
      }
    }
  }

  function PostById(db: Db, id: Id): (r: Option<Post>)
    ensures r.Some? ==> r.value in db.posts && r.value.id == id
    ensures r.None? <==> forall p | p in db.posts :: p.id != id
  {
    match Find(db.posts, RefOfPost, PostRef(id))
    case None => None
    case Some(i) => Some(db.posts[i])
  }

  function MediaById(db: Db, id: Id): (r: Option<Multimedia>)
    ensures r.Some? ==> r.value in db.media && r.value.id == id
    ensures r.None? <==> forall m | m in db.media :: m.id != id
  {
    match Find(db.media, RefOfMedia, MediaRef(id))
    case None => None
    case Some(i) => Some(db.media[i])
  }

  function CommentById(db: Db, id: Id): (r: Option<Comment>)
    ensures r.Some? ==> r.value in db.comments && r.value.id == id
    ensures r.None? <==> forall c | c in db.comments :: c.id != id
  {
    match Find(db.comments, RefOfComment, CommentRef(id))
    case None => None
    case Some(i) => Some(db.comments[i])
  }

  function ReplyById(db: Db, id: Id): (r: Option<Reply>)
    ensures r.Some? ==> r.value in db.replies && r.value.id == id
    ensures r.None? <==> forall x | x in db.replies :: x.id != id
  {
    match Find(db.replies, RefOfReply, ReplyRef(id))
    case None => None
    case Some(i) => Some(db.replies[i])
  }

  /** Whether the document a like names exists (the `$match: {_id}` of the recount). */
  predicate Exists(db: Db, t: Ref)
  {
    match t
    case PostRef(id) => PostById(db, id).Some?
    case MediaRef(id) => MediaById(db, id).Some?
    case CommentRef(id) => CommentById(db, id).Some?
    case ReplyRef(id) => ReplyById(db, id).Some?
  }

  /** The parent id field a comment is matched on: `multimediaId` or `postId`. */
  function ParentField(c: Comment, isMultimedia: bool): Option<Id>
  {
    if isMultimedia then c.multimediaId else c.postId
  }

  /** What the handlers read from a post or a multimedia document as a comment parent. */
  datatype Parent = Parent(userId: Id, pinnedCommentId: Option<Id>)

  /** `MultimediaSchema.findById` or `PostSchema.findById`, by the `isMultimedia` flag. */
  function ParentById(db: Db, isMultimedia: bool, id: Id): (r: Option<Parent>)
    ensures r.None? <==> if isMultimedia then MediaById(db, id).None? else PostById(db, id).None?
    ensures isMultimedia && r.Some? ==> exists m | m in db.media :: m.id == id && r.value == Parent(m.userId, m.pinnedCommentId)
    ensures !isMultimedia && r.Some? ==> exists p | p in db.posts :: p.id == id && r.value == Parent(p.userId, p.pinnedCommentId)
  {
    if isMultimedia then
      match MediaById(db, id)
      case None => None
      case Some(m) => Some(Parent(m.userId, m.pinnedCommentId))
    else
      match PostById(db, id)
      case None => None
      case Some(p) => Some(Parent(p.userId, p.pinnedCommentId))
  }
}
