/** In-place updates of one document: the pinned comment of a post or multimedia, the
    author's like flag on a comment or reply, the text of a comment or reply, and the view
    counter. Each replaces the document with the given id by a copy that differs in one
    field, at the same position. */
module Edits {
  import opened Wrappers
  import opened Seqs
  import opened Records

  /** Replacing the element at `i` by one with the same key: every lookup by key finds the
      same position, keys stay distinct, and the position of key `key(xs[i])` is `i`. */
  lemma SameKeyUpdate<T, K>(xs: seq<T>, key: T -> K, i: nat, y: T)
    requires i < |xs| && Distinct(xs, key) && key(y) == key(xs[i])
    ensures Distinct(xs[i := y], key)
    ensures forall k :: Find(xs[i := y], key, k) == Find(xs, key, k)
    ensures Find(xs, key, key(xs[i])) == Some(i)
    ensures forall x | x in xs[i := y] :: x == y || x in xs
  {
    forall k ensures Find(xs[i := y], key, k) == Find(xs, key, k) {
      FindSameKeys(xs, i, y, key, k);
    }
    FindDistinct(xs, key, i);
    forall x | x in xs[i := y] ensures x == y || x in xs {
      var j :| 0 <= j < |xs[i := y]| && xs[i := y][j] == x;
      if j != i { assert xs[j] == x; }
    }
  }

  /** Saving a changed copy of the post at position `i`: the store stays well formed, the
      id now finds the copy at the same position, and every other id finds what it found. */
  lemma PostReplaced(db: Db, i: nat, p: Post, n: nat)
    requires WellFormed(db) && IdsBelow(db, n) && i < |db.posts| && p.id == db.posts[i].id
    ensures var r := db.(posts := db.posts[i := p]);
      && WellFormed(r) && IdsBelow(r, n)
      && Find(r.posts, RefOfPost, PostRef(p.id)) == Some(i)
      && PostById(r, p.id) == Some(p)
      && (forall id | id != p.id :: PostById(r, id) == PostById(db, id))
  {
    SameKeyUpdate(db.posts, RefOfPost, i, p);
  }

  /** Saving a changed copy of the multimedia at position `i`: the store stays well formed, the
      id now finds the copy at the same position, and every other id finds what it found. */
  lemma MediaReplaced(db: Db, i: nat, m: Multimedia, n: nat)
    requires WellFormed(db) && IdsBelow(db, n) && i < |db.media| && m.id == db.media[i].id
    ensures var r := db.(media := db.media[i := m]);
      && WellFormed(r) && IdsBelow(r, n)
      && Find(r.media, RefOfMedia, MediaRef(m.id)) == Some(i)
      && MediaById(r, m.id) == Some(m)
      && (forall id | id != m.id :: MediaById(r, id) == MediaById(db, id))
  {
    SameKeyUpdate(db.media, RefOfMedia, i, m);
  }

  /** Saving a changed copy of the comment at position `i`: the store stays well formed, the
      id now finds the copy at the same position, and every other id finds what it found. */
  lemma CommentReplaced(db: Db, i: nat, c: Comment, n: nat)
    requires WellFormed(db) && IdsBelow(db, n) && i < |db.comments| && c.id == db.comments[i].id
    ensures var r := db.(comments := db.comments[i := c]);
      && WellFormed(r) && IdsBelow(r, n)
      && Find(r.comments, RefOfComment, CommentRef(c.id)) == Some(i)
      && CommentById(r, c.id) == Some(c)
      && (forall id | id != c.id :: CommentById(r, id) == CommentById(db, id))
  {
    SameKeyUpdate(db.comments, RefOfComment, i, c);
  }

  /** Saving a changed copy of the reply at position `i`: the store stays well formed, the
      id now finds the copy at the same position, and every other id finds what it found. */
  lemma ReplyReplaced(db: Db, i: nat, x: Reply, n: nat)
    requires WellFormed(db) && IdsBelow(db, n) && i < |db.replies| && x.id == db.replies[i].id
    ensures var r := db.(replies := db.replies[i := x]);
      && WellFormed(r) && IdsBelow(r, n)
      && Find(r.replies, RefOfReply, ReplyRef(x.id)) == Some(i)
      && ReplyById(r, x.id) == Some(x)
      && (forall id | id != x.id :: ReplyById(r, id) == ReplyById(db, id))
  {
    SameKeyUpdate(db.replies, RefOfReply, i, x);
  }

  // ------------------------------------------------------------- pinned comment

  /** The pin after a successful toggle: cleared when it was `commentId`, else `commentId`. */
  function NextPin(current: Option<Id>, commentId: Id): Option<Id>
  {
    if current == Some(commentId) then None else Some(commentId)
  }

  /** The store after `togglePinnedComment` saves the parent. */
  function Repinned(db: Db, isMultimedia: bool, parentId: Id, commentId: Id): Db
    requires ParentById(db, isMultimedia, parentId).Some?
  {
    if isMultimedia then
      var i := Find(db.media, RefOfMedia, MediaRef(parentId)).value;
      var m := db.media[i];
      db.(media := db.media[i := m.(pinnedCommentId := NextPin(m.pinnedCommentId, commentId))])
    else
      var i := Find(db.posts, RefOfPost, PostRef(parentId)).value;
      var p := db.posts[i];
      db.(posts := db.posts[i := p.(pinnedCommentId := NextPin(p.pinnedCommentId, commentId))])
  }

  /** The toggle changes the pin of that one parent and nothing else. */
  lemma RepinnedEffect(db: Db, isMultimedia: bool, parentId: Id, commentId: Id, n: nat)
    requires WellFormed(db) && IdsBelow(db, n) && ParentById(db, isMultimedia, parentId).Some?
    ensures var r := Repinned(db, isMultimedia, parentId, commentId);
      var p := ParentById(db, isMultimedia, parentId).value;
      && WellFormed(r) && IdsBelow(r, n)
      && ParentById(r, isMultimedia, parentId) == Some(p.(pinnedCommentId := NextPin(p.pinnedCommentId, commentId)))
      && (forall id | id != parentId :: ParentById(r, isMultimedia, id) == ParentById(db, isMultimedia, id))
      && (if isMultimedia then r.posts == db.posts else r.media == db.media)
      && r.comments == db.comments && r.replies == db.replies && r.likes == db.likes
  {
    if isMultimedia {
      var i := Find(db.media, RefOfMedia, MediaRef(parentId)).value;
      var m := db.media[i];
      MediaReplaced(db, i, m.(pinnedCommentId := NextPin(m.pinnedCommentId, commentId)), n);
    } else {
      var i := Find(db.posts, RefOfPost, PostRef(parentId)).value;
      var p := db.posts[i];
      PostReplaced(db, i, p.(pinnedCommentId := NextPin(p.pinnedCommentId, commentId)), n);
    }
  }

  /** Two toggles of the same comment leave it pinned if it was pinned before and leave
      nothing pinned otherwise; the store is restored exactly unless another comment was
      pinned at first. */
  lemma RepinTwice(db: Db, isMultimedia: bool, parentId: Id, commentId: Id, n: nat)
    requires WellFormed(db) && IdsBelow(db, n) && ParentById(db, isMultimedia, parentId).Some?
    ensures ParentById(Repinned(db, isMultimedia, parentId, commentId), isMultimedia, parentId).Some?
    ensures var p := ParentById(db, isMultimedia, parentId).value;
      var r2 := Repinned(Repinned(db, isMultimedia, parentId, commentId), isMultimedia, parentId, commentId);
      && ParentById(r2, isMultimedia, parentId).Some?
      && ParentById(r2, isMultimedia, parentId).value.pinnedCommentId
           == (if p.pinnedCommentId == Some(commentId) then Some(commentId) else None)
      && (p.pinnedCommentId.None? || p.pinnedCommentId == Some(commentId) ==> r2 == db)
  {
    if isMultimedia {
      RepinMediaTwice(db, parentId, commentId, n);
    } else {
      RepinPostTwice(db, parentId, commentId, n);
    }
  }

  lemma RepinMediaTwice(db: Db, parentId: Id, commentId: Id, n: nat)
    requires WellFormed(db) && IdsBelow(db, n) && MediaById(db, parentId).Some?
    ensures ParentById(Repinned(db, true, parentId, commentId), true, parentId).Some?
    ensures var p := ParentById(db, true, parentId).value;
      var r2 := Repinned(Repinned(db, true, parentId, commentId), true, parentId, commentId);
      && ParentById(r2, true, parentId).Some?
      && ParentById(r2, true, parentId).value.pinnedCommentId
           == (if p.pinnedCommentId == Some(commentId) then Some(commentId) else None)
      && (p.pinnedCommentId.None? || p.pinnedCommentId == Some(commentId) ==> r2 == db)
  {
    var i := Find(db.media, RefOfMedia, MediaRef(parentId)).value;
    var m := db.media[i];
    var m1 := m.(pinnedCommentId := NextPin(m.pinnedCommentId, commentId));
    MediaReplaced(db, i, m1, n);
    var r1 := db.(media := db.media[i := m1]);
    var m2 := m1.(pinnedCommentId := NextPin(m1.pinnedCommentId, commentId));
    MediaReplaced(r1, i, m2, n);
    if m.pinnedCommentId.None? || m.pinnedCommentId == Some(commentId) {
      assert m2 == m;
      assert r1.media[i := m2] == db.media;
    }
  }

  lemma RepinPostTwice(db: Db, parentId: Id, commentId: Id, n: nat)
    requires WellFormed(db) && IdsBelow(db, n) && PostById(db, parentId).Some?
    ensures ParentById(Repinned(db, false, parentId, commentId), false, parentId).Some?
    ensures var p := ParentById(db, false, parentId).value;
      var r2 := Repinned(Repinned(db, false, parentId, commentId), false, parentId, commentId);
      && ParentById(r2, false, parentId).Some?
      && ParentById(r2, false, parentId).value.pinnedCommentId
           == (if p.pinnedCommentId == Some(commentId) then Some(commentId) else None)
      && (p.pinnedCommentId.None? || p.pinnedCommentId == Some(commentId) ==> r2 == db)
  {
    var i := Find(db.posts, RefOfPost, PostRef(parentId)).value;
    var q := db.posts[i];
    var q1 := q.(pinnedCommentId := NextPin(q.pinnedCommentId, commentId));
    PostReplaced(db, i, q1, n);
    var r1 := db.(posts := db.posts[i := q1]);
    var q2 := q1.(pinnedCommentId := NextPin(q1.pinnedCommentId, commentId));
    PostReplaced(r1, i, q2, n);
    if q.pinnedCommentId.None? || q.pinnedCommentId == Some(commentId) {
      assert q2 == q;
      assert r1.posts[i := q2] == db.posts;
    }
  }

  // ------------------------------------------------------- liked by the author

  /** The store after `isLikedByAuthor = !isLikedByAuthor` on comment `commentId`. */
  function CommentFlipped(db: Db, commentId: Id): Db
    requires CommentById(db, commentId).Some?
  {
    var i := Find(db.comments, RefOfComment, CommentRef(commentId)).value;
    var c := db.comments[i];
    db.(comments := db.comments[i := c.(isLikedByAuthor := !c.isLikedByAuthor)])
  }

  lemma CommentFlippedEffect(db: Db, commentId: Id, n: nat)
    requires WellFormed(db) && IdsBelow(db, n) && CommentById(db, commentId).Some?
    ensures var r := CommentFlipped(db, commentId);
      var c := CommentById(db, commentId).value;
      && WellFormed(r) && IdsBelow(r, n)
      && CommentById(r, commentId) == Some(c.(isLikedByAuthor := !c.isLikedByAuthor))
      && (forall id | id != commentId :: CommentById(r, id) == CommentById(db, id))
      && r.posts == db.posts && r.media == db.media && r.replies == db.replies && r.likes == db.likes
  {
    var i := Find(db.comments, RefOfComment, CommentRef(commentId)).value;
    var c := db.comments[i];
    CommentReplaced(db, i, c.(isLikedByAuthor := !c.isLikedByAuthor), n);
  }

  /** Two flips restore the store. */
  lemma {:induction false} CommentFlipTwice(db: Db, commentId: Id, n: nat)
    requires WellFormed(db) && IdsBelow(db, n) && CommentById(db, commentId).Some?
    ensures CommentById(CommentFlipped(db, commentId), commentId).Some?
    ensures CommentFlipped(CommentFlipped(db, commentId), commentId) == db
  {
    CommentFlippedEffect(db, commentId, n);
    var i := Find(db.comments, RefOfComment, CommentRef(commentId)).value;
    var c := db.comments[i];
    SameKeyUpdate(db.comments, RefOfComment, i, c.(isLikedByAuthor := !c.isLikedByAuthor));
  }

  /** The store after `isLikedByAuthor = !isLikedByAuthor` on reply `replyId`. */
  function ReplyFlipped(db: Db, replyId: Id): Db
    requires ReplyById(db, replyId).Some?
  {
    var i := Find(db.replies, RefOfReply, ReplyRef(replyId)).value;
    var x := db.replies[i];
    db.(replies := db.replies[i := x.(isLikedByAuthor := !x.isLikedByAuthor)])
  }

  lemma ReplyFlippedEffect(db: Db, replyId: Id, n: nat)
    requires WellFormed(db) && IdsBelow(db, n) && ReplyById(db, replyId).Some?
    ensures var r := ReplyFlipped(db, replyId);
      var x := ReplyById(db, replyId).value;
      && WellFormed(r) && IdsBelow(r, n)
      && ReplyById(r, replyId) == Some(x.(isLikedByAuthor := !x.isLikedByAuthor))
      && (forall id | id != replyId :: ReplyById(r, id) == ReplyById(db, id))
      && r.posts == db.posts && r.media == db.media && r.comments == db.comments && r.likes == db.likes
  {
    var i := Find(db.replies, RefOfReply, ReplyRef(replyId)).value;
    var x := db.replies[i];
    ReplyReplaced(db, i, x.(isLikedByAuthor := !x.isLikedByAuthor), n);
  }

  lemma {:induction false} ReplyFlipTwice(db: Db, replyId: Id, n: nat)
    requires WellFormed(db) && IdsBelow(db, n) && ReplyById(db, replyId).Some?
    ensures ReplyById(ReplyFlipped(db, replyId), replyId).Some?
    ensures ReplyFlipped(ReplyFlipped(db, replyId), replyId) == db
  {
    ReplyFlippedEffect(db, replyId, n);
    var i := Find(db.replies, RefOfReply, ReplyRef(replyId)).value;
    var x := db.replies[i];
    SameKeyUpdate(db.replies, RefOfReply, i, x.(isLikedByAuthor := !x.isLikedByAuthor));
  }

  // ------------------------------------------------------------------ text edits

  /** The store after `findOneAndUpdate({_id, userId}, {text})` matched comment `commentId`. */
  function CommentRetexted(db: Db, commentId: Id, text: string): Db
    requires CommentById(db, commentId).Some?
  {
    var i := Find(db.comments, RefOfComment, CommentRef(commentId)).value;
    db.(comments := db.comments[i := db.comments[i].(text := text)])
  }

  lemma CommentRetextedEffect(db: Db, commentId: Id, text: string, n: nat)
    requires WellFormed(db) && IdsBelow(db, n) && CommentById(db, commentId).Some?
    ensures var r := CommentRetexted(db, commentId, text);
      && WellFormed(r) && IdsBelow(r, n)
      && CommentById(r, commentId) == Some(CommentById(db, commentId).value.(text := text))
      && (forall id | id != commentId :: CommentById(r, id) == CommentById(db, id))
      && r.posts == db.posts && r.media == db.media && r.replies == db.replies && r.likes == db.likes
  {
    var i := Find(db.comments, RefOfComment, CommentRef(commentId)).value;
    CommentReplaced(db, i, db.comments[i].(text := text), n);
  }

  function ReplyRetexted(db: Db, replyId: Id, text: string): Db
    requires ReplyById(db, replyId).Some?
  {
    var i := Find(db.replies, RefOfReply, ReplyRef(replyId)).value;
    db.(replies := db.replies[i := db.replies[i].(text := text)])
  }

  lemma ReplyRetextedEffect(db: Db, replyId: Id, text: string, n: nat)
    requires WellFormed(db) && IdsBelow(db, n) && ReplyById(db, replyId).Some?
    ensures var r := ReplyRetexted(db, replyId, text);
      && WellFormed(r) && IdsBelow(r, n)
      && ReplyById(r, replyId) == Some(ReplyById(db, replyId).value.(text := text))
      && (forall id | id != replyId :: ReplyById(r, id) == ReplyById(db, id))
      && r.posts == db.posts && r.media == db.media && r.comments == db.comments && r.likes == db.likes
  {
    var i := Find(db.replies, RefOfReply, ReplyRef(replyId)).value;
    ReplyReplaced(db, i, db.replies[i].(text := text), n);
  }

  // ------------------------------------------------------------------ view counts

  function PostViewed(db: Db, postId: Id): Db
    requires PostById(db, postId).Some?
  {
    var i := Find(db.posts, RefOfPost, PostRef(postId)).value;
    db.(posts := db.posts[i := db.posts[i].(viewsCount := db.posts[i].viewsCount + 1)])
  }

  /** `$inc: {viewsCount: 1}` adds one view to that post and changes nothing else. */
  lemma PostViewedEffect(db: Db, postId: Id, n: nat)
    requires WellFormed(db) && IdsBelow(db, n) && PostById(db, postId).Some?
    ensures var r := PostViewed(db, postId);
      var p := PostById(db, postId).value;
      && WellFormed(r) && IdsBelow(r, n)
      && PostById(r, postId) == Some(p.(viewsCount := p.viewsCount + 1))
      && (forall id | id != postId :: PostById(r, id) == PostById(db, id))
      && r.media == db.media && r.comments == db.comments && r.replies == db.replies && r.likes == db.likes
  {
    var i := Find(db.posts, RefOfPost, PostRef(postId)).value;
    PostReplaced(db, i, db.posts[i].(viewsCount := db.posts[i].viewsCount + 1), n);
  }

  function MediaViewed(db: Db, mediaId: Id): Db
    requires MediaById(db, mediaId).Some?
  {
    var i := Find(db.media, RefOfMedia, MediaRef(mediaId)).value;
    db.(media := db.media[i := db.media[i].(viewsCount := db.media[i].viewsCount + 1)])
  }

  /** `viewsCount = viewsCount + 1; save()` adds one view to that multimedia and changes nothing else. */
  lemma MediaViewedEffect(db: Db, mediaId: Id, n: nat)
    requires WellFormed(db) && IdsBelow(db, n) && MediaById(db, mediaId).Some?
    ensures var r := MediaViewed(db, mediaId);
      var m := MediaById(db, mediaId).value;
      && WellFormed(r) && IdsBelow(r, n)
      && MediaById(r, mediaId) == Some(m.(viewsCount := m.viewsCount + 1))
      && (forall id | id != mediaId :: MediaById(r, id) == MediaById(db, id))
      && r.posts == db.posts && r.comments == db.comments && r.replies == db.replies && r.likes == db.likes
  {
    var i := Find(db.media, RefOfMedia, MediaRef(mediaId)).value;
    MediaReplaced(db, i, db.media[i].(viewsCount := db.media[i].viewsCount + 1), n);
  }
}
