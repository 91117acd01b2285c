/** Resolution of the author of the post or multimedia a comment or reply belongs to
    (`getAuthorIdFromComment`, `getAuthorIdFromReply`). */
module Authors {
  import opened Wrappers
  import opened Seqs
  import opened Records

  /** Whether `author` owns the post (or the multimedia) with id `parentId`. */
  ghost predicate Owns(db: Db, isMultimedia: bool, parentId: Id, author: Id)
  {
    if isMultimedia then exists m | m in db.media :: m.id == parentId && m.userId == author
    else exists p | p in db.posts :: p.id == parentId && p.userId == author
  }

  /** The `userId` of the parent named by `parentId`; nothing when the field is unset
      or names no document (the `$lookup` then finds nothing and `$first` is missing). */
  function ParentAuthor(db: Db, isMultimedia: bool, parentId: Option<Id>): (r: Option<Id>)
    ensures r.Some? ==> parentId.Some? && Owns(db, isMultimedia, parentId.value, r.value)
  {
    match parentId
    case None => None
    case Some(id) =>
      match ParentById(db, isMultimedia, id)
      case None => None
      case Some(p) => Some(p.userId)
  }

  /** `getAuthorIdFromComment(_id, isMultimedia)`. */
  function AuthorIdFromComment(db: Db, commentId: Id, isMultimedia: bool): (r: Option<Id>)
    ensures r.Some? ==> exists c | c in db.comments ::
      c.id == commentId && ParentField(c, isMultimedia).Some?
      && Owns(db, isMultimedia, ParentField(c, isMultimedia).value, r.value)
  {
    match CommentById(db, commentId)
    case None => None
    case Some(c) => ParentAuthor(db, isMultimedia, ParentField(c, isMultimedia))
  }

  /** `getAuthorIdFromReply(_id, isMultimedia)`: reply, then its comment, then that comment's parent. */
  function AuthorIdFromReply(db: Db, replyId: Id, isMultimedia: bool): (r: Option<Id>)
    ensures r.Some? ==> exists x, c | x in db.replies && c in db.comments ::
      x.id == replyId && c.id == x.commentId && ParentField(c, isMultimedia).Some?
      && Owns(db, isMultimedia, ParentField(c, isMultimedia).value, r.value)
  {
    match ReplyById(db, replyId)
    case None => None
    case Some(x) => AuthorIdFromComment(db, x.commentId, isMultimedia)
  }

  /** With unique ids the parent's owner is the one author resolved. */
  lemma ParentAuthorIff(db: Db, isMultimedia: bool, parentId: Id, a: Id)
    requires WellFormed(db)
    ensures ParentAuthor(db, isMultimedia, Some(parentId)) == Some(a) <==> Owns(db, isMultimedia, parentId, a)
  {
    if Owns(db, isMultimedia, parentId, a) {
      if isMultimedia {
        var m :| m in db.media && m.id == parentId && m.userId == a;
        DistinctSame(db.media, RefOfMedia, m, MediaById(db, parentId).value);
      } else {
        var p :| p in db.posts && p.id == parentId && p.userId == a;
        DistinctSame(db.posts, RefOfPost, p, PostById(db, parentId).value);
      }
    }
  }

  /** The comment's parent author is `a` exactly when the comment exists, names a parent
      of the requested kind, and `a` owns that parent. */
  lemma CommentAuthorIff(db: Db, commentId: Id, isMultimedia: bool, a: Id)
    requires WellFormed(db)
    ensures AuthorIdFromComment(db, commentId, isMultimedia) == Some(a) <==>
      exists c | c in db.comments :: c.id == commentId && ParentField(c, isMultimedia).Some?
        && Owns(db, isMultimedia, ParentField(c, isMultimedia).value, a)
  {
    if exists c | c in db.comments :: c.id == commentId && ParentField(c, isMultimedia).Some?
        && Owns(db, isMultimedia, ParentField(c, isMultimedia).value, a) {
      var c :| c in db.comments && c.id == commentId && ParentField(c, isMultimedia).Some?
        && Owns(db, isMultimedia, ParentField(c, isMultimedia).value, a);
      DistinctSame(db.comments, RefOfComment, c, CommentById(db, commentId).value);
      ParentAuthorIff(db, isMultimedia, ParentField(c, isMultimedia).value, a);
    }
    if AuthorIdFromComment(db, commentId, isMultimedia) == Some(a) {
      var c := CommentById(db, commentId).value;
      ParentAuthorIff(db, isMultimedia, ParentField(c, isMultimedia).value, a);
    }
  }

  /** The reply's ancestor author is `a` exactly when the chain reply, comment, parent
      exists with the parent of the requested kind and `a` owns it. */
  lemma ReplyAuthorIff(db: Db, replyId: Id, isMultimedia: bool, a: Id)
    requires WellFormed(db)
    ensures AuthorIdFromReply(db, replyId, isMultimedia) == Some(a) <==>
      exists x, c | x in db.replies && c in db.comments ::
        x.id == replyId && c.id == x.commentId && ParentField(c, isMultimedia).Some?
        && Owns(db, isMultimedia, ParentField(c, isMultimedia).value, a)
  {
    if exists x, c | x in db.replies && c in db.comments ::
        x.id == replyId && c.id == x.commentId && ParentField(c, isMultimedia).Some?
        && Owns(db, isMultimedia, ParentField(c, isMultimedia).value, a) {
      var x, c :| x in db.replies && c in db.comments &&
        x.id == replyId && c.id == x.commentId && ParentField(c, isMultimedia).Some?
        && Owns(db, isMultimedia, ParentField(c, isMultimedia).value, a);
      DistinctSame(db.replies, RefOfReply, x, ReplyById(db, replyId).value);
      CommentAuthorIff(db, x.commentId, isMultimedia, a);
    }
    if AuthorIdFromReply(db, replyId, isMultimedia) == Some(a) {
      CommentAuthorIff(db, ReplyById(db, replyId).value.commentId, isMultimedia, a);
    }
  }

  /** `removeReply` asks without the multimedia flag: a reply whose comment sits under a
      multimedia item only (no `postId`) resolves no author. */
  lemma MediaReplyHasNoPostAuthor(db: Db, replyId: Id)
    requires WellFormed(db)
    requires forall x, c | x in db.replies && c in db.comments && x.id == replyId && c.id == x.commentId :: c.postId.None?
    ensures AuthorIdFromReply(db, replyId, false).None?
  {
  }
}
