/** Which documents a deletion removes. A deletion is described by the set of documents it
    drops; dropping a document also drops every like on it. */
module Cascade {
  import opened Wrappers
  import opened Seqs
  import opened Records

  /** The store without the documents in `gone` and without the likes on them. */
  function Prune(db: Db, gone: set<Ref>): (r: Db)
    ensures forall p | p in db.posts :: p in r.posts <==> PostRef(p.id) !in gone
    ensures forall m | m in db.media :: m in r.media <==> MediaRef(m.id) !in gone
    ensures forall c | c in db.comments :: c in r.comments <==> CommentRef(c.id) !in gone
    ensures forall x | x in db.replies :: x in r.replies <==> ReplyRef(x.id) !in gone
    ensures forall l | l in db.likes :: l in r.likes <==> l.target !in gone
    ensures forall p | p in r.posts :: p in db.posts
    ensures forall m | m in r.media :: m in db.media
    ensures forall c | c in r.comments :: c in db.comments
    ensures forall x | x in r.replies :: x in db.replies
    ensures forall l | l in r.likes :: l in db.likes
  {
    Db(Keep(db.posts, RefOfPost, gone), Keep(db.media, RefOfMedia, gone),
       Keep(db.comments, RefOfComment, gone), Keep(db.replies, RefOfReply, gone),
       Keep(db.likes, TargetOf, gone))
  }

  /** Deleting `a` and then `b` is deleting both at once. */
  lemma PruneTwice(db: Db, a: set<Ref>, b: set<Ref>)
    ensures Prune(Prune(db, a), b) == Prune(db, a + b)
  {
    KeepTwice(db.posts, RefOfPost, a, b);
    KeepTwice(db.media, RefOfMedia, a, b);
    KeepTwice(db.comments, RefOfComment, a, b);
    KeepTwice(db.replies, RefOfReply, a, b);
    KeepTwice(db.likes, TargetOf, a, b);
  }

  /** Deletion keeps ids unique, keeps one like per (voter, target) and frees no id below `n`. */
  lemma PruneWellFormed(db: Db, gone: set<Ref>, n: nat)
    requires WellFormed(db) && IdsBelow(db, n)
    ensures WellFormed(Prune(db, gone)) && IdsBelow(Prune(db, gone), n)
  {
    KeepDistinct(db.posts, RefOfPost, RefOfPost, gone);
    KeepDistinct(db.media, RefOfMedia, RefOfMedia, gone);
    KeepDistinct(db.comments, RefOfComment, RefOfComment, gone);
    KeepDistinct(db.replies, RefOfReply, RefOfReply, gone);
    KeepDistinct(db.likes, LikeId, TargetOf, gone);
    KeepDistinct(db.likes, VoteKey, TargetOf, gone);
  }

  /** The parents a comment names: its `postId` and/or its `multimediaId`. */
  function ParentsOf(c: Comment): set<Ref>
  {
    (if c.postId.Some? then {PostRef(c.postId.value)} else {})
    + (if c.multimediaId.Some? then {MediaRef(c.multimediaId.value)} else {})
  }

  /** Ids of the comments under any of `parents` (`find({postId})` / `find({multimediaId})`). */
  function Attached(cs: seq<Comment>, parents: set<Ref>): set<Id>
  {
    set c | c in cs && ParentsOf(c) * parents != {} :: c.id
  }

  /** The replies under any of the comments `cids` (`find({commentId})`). */
  function RepliesUnder(rs: seq<Reply>, cids: set<Id>): set<Ref>
  {
    set x | x in rs && x.commentId in cids :: ReplyRef(x.id)
  }

  function CommentRefs(cids: set<Id>): set<Ref>
  {
    set c | c in cids :: CommentRef(c)
  }

  /** The comments `cids` with all their replies. */
  function CommentTrees(db: Db, cids: set<Id>): set<Ref>
  {
    CommentRefs(cids) + RepliesUnder(db.replies, cids)
  }

  /** The posts and multimedia `parents` with their whole discussions. */
  function Trees(db: Db, parents: set<Ref>): set<Ref>
  {
    parents + CommentTrees(db, Attached(db.comments, parents))
  }

  /** The documents a `find` returned, as deletion targets or ids. */
  function ReplyRefsOf(rs: seq<Reply>): set<Ref> { set x | x in rs :: ReplyRef(x.id) }
  function CommentIdsOf(cs: seq<Comment>): set<Id> { set c | c in cs :: c.id }
  function MediaRefsOf(ms: seq<Multimedia>): (r: set<Ref>)
    ensures Roots(r)
  {
    set m | m in ms :: MediaRef(m.id)
  }

  lemma RefsSnoc(rs: seq<Reply>, cs: seq<Comment>, ms: seq<Multimedia>, k: nat)
    ensures k < |rs| ==> ReplyRefsOf(rs[..k + 1]) == ReplyRefsOf(rs[..k]) + {ReplyRef(rs[k].id)}
    ensures k < |cs| ==> CommentIdsOf(cs[..k + 1]) == CommentIdsOf(cs[..k]) + {cs[k].id}
    ensures k < |ms| ==> MediaRefsOf(ms[..k + 1]) == MediaRefsOf(ms[..k]) + {MediaRef(ms[k].id)}
  {
    if k < |rs| { assert rs[..k + 1] == rs[..k] + [rs[k]]; }
    if k < |cs| { assert cs[..k + 1] == cs[..k] + [cs[k]]; }
    if k < |ms| { assert ms[..k + 1] == ms[..k] + [ms[k]]; }
  }

  /** Deleting nothing changes nothing. */
  lemma PruneNothing(db: Db)
    ensures Prune(db, {}) == db
  {
    KeepNothing(db.posts, RefOfPost, {});
    KeepNothing(db.media, RefOfMedia, {});
    KeepNothing(db.comments, RefOfComment, {});
    KeepNothing(db.replies, RefOfReply, {});
    KeepNothing(db.likes, TargetOf, {});
  }

  /** A comment's replies as `find({commentId})` returns them, plus the comment, are its tree. */
  lemma CommentTreeOf(db: Db, commentId: Id, found: seq<Reply>)
    requires forall x | x in found :: x in db.replies && x.commentId == commentId
    requires forall x | x in db.replies && x.commentId == commentId :: x in found
    ensures ReplyRefsOf(found) + {CommentRef(commentId)} == CommentTrees(db, {commentId})
  {
    assert CommentRefs({commentId}) == {CommentRef(commentId)};
    assert ReplyRefsOf(found) == RepliesUnder(db.replies, {commentId});
  }

  /** The comments `find` returns for one parent are the ones attached to it. */
  lemma AttachedOf(db: Db, parent: Ref, found: seq<Comment>)
    requires forall c | c in found :: c in db.comments && parent in ParentsOf(c)
    requires forall c | c in db.comments && parent in ParentsOf(c) :: c in found
    ensures CommentIdsOf(found) == Attached(db.comments, {parent})
  {
    forall id | id in Attached(db.comments, {parent}) ensures id in CommentIdsOf(found) {
      var c :| c in db.comments && ParentsOf(c) * {parent} != {} && c.id == id;
      assert parent in ParentsOf(c);
    }
  }

  /** `MultimediaSchema.find({ _id: { $in: images } })`: the post's multimedia, in natural order. */
  function ListedMedia(db: Db, p: Post): (r: seq<Multimedia>)
    ensures forall m | m in r :: m in db.media && m.id in p.images
    ensures forall m | m in db.media && m.id in p.images :: m in r
  {
    Filter(db.media, (m: Multimedia) => m.id in p.images)
  }

  /** `fs.unlinkSync(path.resolve('static/multimedia', name))` throws for an empty name,
      which resolves to the directory itself: the file of every document, and the preview
      of a video. */
  predicate UnlinkFails(m: Multimedia)
  {
    m.url == "" || (m.isVideo && m.previewUrl == "")
  }

  /** Where the `forEach` over the post's multimedia throws, or the end. */
  function FirstUnlinkFailure(ms: seq<Multimedia>): (r: nat)
    ensures r <= |ms|
    ensures forall j :: 0 <= j < r ==> !UnlinkFails(ms[j])
    ensures r < |ms| ==> UnlinkFails(ms[r])
  {
    if ms == [] || UnlinkFails(ms[0]) then 0 else 1 + FirstUnlinkFailure(ms[1..])
  }

  /** A multimedia that unlinks cleanly, reached before the failure, is not the failure. */
  lemma PastCleanUnlink(ms: seq<Multimedia>, k: nat)
    requires k < |ms| && k <= FirstUnlinkFailure(ms) && !UnlinkFails(ms[k])
    ensures k < FirstUnlinkFailure(ms)
  {
  }

  /** Deleting multimedia and their discussions never deletes a post. */
  lemma MediaTreesKeepPosts(db: Db, ms: seq<Multimedia>)
    ensures forall p | p in db.posts :: p in Prune(db, Trees(db, MediaRefsOf(ms))).posts
  {
    var gone := Trees(db, MediaRefsOf(ms));
    forall p | p in db.posts ensures PostRef(p.id) !in gone {
      assert PostRef(p.id) !in CommentTrees(db, Attached(db.comments, MediaRefsOf(ms)));
    }
  }

  /** The multimedia `find` returns for a post's `images`, plus the post, are its removal roots. */
  lemma RemovalRootsOf(db: Db, p: Post, found: seq<Multimedia>)
    requires forall m | m in found :: m in db.media && m.id in p.images
    requires forall m | m in db.media && m.id in p.images :: m in found
    ensures MediaRefsOf(found) + {PostRef(p.id)} == RemovalRoots(db, p)
  {
  }

  /** One more comment tree deleted after the trees of `done`. */
  lemma CommentTreesStep(db: Db, done: set<Id>, cid: Id)
    ensures var gone := CommentTrees(db, done);
      Prune(Prune(db, gone), CommentTrees(Prune(db, gone), {cid})) == Prune(db, CommentTrees(db, done + {cid}))
  {
    var gone := CommentTrees(db, done);
    PruneTwice(db, gone, CommentTrees(Prune(db, gone), {cid}));
    CommentTreesAfter(db, gone, {cid});
    CommentTreesUnion(db, done, {cid});
  }

  /** One more post or multimedia deleted, with its discussion, after those in `done`. */
  lemma TreesStep(db: Db, done: set<Ref>, next: Ref)
    requires Roots(done) && (next.PostRef? || next.MediaRef?)
    ensures var gone := Trees(db, done);
      Prune(Prune(db, gone), Trees(Prune(db, gone), {next})) == Prune(db, Trees(db, done + {next}))
  {
    var gone := Trees(db, done);
    TreesClosed(db, done);
    PruneTwice(db, gone, Trees(Prune(db, gone), {next}));
    TreesAfter(db, gone, {next});
    TreesUnion(db, done, {next});
  }

  /** The parent itself, deleted after all of its comment trees, completes its own tree. */
  lemma TreesLast(db: Db, parent: Ref)
    ensures var gone := CommentTrees(db, Attached(db.comments, {parent}));
      Prune(Prune(db, gone), {parent}) == Prune(db, Trees(db, {parent}))
  {
    var gone := CommentTrees(db, Attached(db.comments, {parent}));
    PruneTwice(db, gone, {parent});
    assert gone + {parent} == Trees(db, {parent});
  }

  /** What a post removal starts from: the post and the existing multimedia its `images` list. */
  function RemovalRoots(db: Db, p: Post): (r: set<Ref>)
    ensures Roots(r)
  {
    {PostRef(p.id)} + set m | m in db.media && m.id in p.images :: MediaRef(m.id)
  }

  /** `parents` names only posts and multimedia. */
  predicate Roots(parents: set<Ref>)
  {
    forall x | x in parents :: x.PostRef? || x.MediaRef?
  }

  /** A deletion set that takes a comment takes its replies too. */
  ghost predicate Closed(db: Db, gone: set<Ref>)
  {
    forall x | x in db.replies && CommentRef(x.commentId) in gone :: ReplyRef(x.id) in gone
  }

  lemma CommentTreesUnion(db: Db, a: set<Id>, b: set<Id>)
    ensures CommentTrees(db, a) + CommentTrees(db, b) == CommentTrees(db, a + b)
  {
    assert RepliesUnder(db.replies, a) + RepliesUnder(db.replies, b) == RepliesUnder(db.replies, a + b);
  }

  lemma TreesUnion(db: Db, a: set<Ref>, b: set<Ref>)
    ensures Trees(db, a) + Trees(db, b) == Trees(db, a + b)
  {
    assert Attached(db.comments, a) + Attached(db.comments, b) == Attached(db.comments, a + b);
    CommentTreesUnion(db, Attached(db.comments, a), Attached(db.comments, b));
  }

  /** A removed comment's replies are looked up in the store as it is at that moment: the
      replies already deleted before are in `gone` anyway, so the outcome is the same. */
  lemma CommentTreesAfter(db: Db, gone: set<Ref>, cids: set<Id>)
    ensures gone + CommentTrees(Prune(db, gone), cids) == gone + CommentTrees(db, cids)
  {
    var before := RepliesUnder(db.replies, cids);
    var after := RepliesUnder(Prune(db, gone).replies, cids);
    forall y | y in before ensures y in gone + after {
      var x :| x in db.replies && x.commentId in cids && y == ReplyRef(x.id);
      if y !in gone {
        assert x in Prune(db, gone).replies;
      }
    }
  }

  /** The same for whole discussions, provided the earlier deletions took the replies of
      every comment they took. */
  lemma TreesAfter(db: Db, gone: set<Ref>, parents: set<Ref>)
    requires Closed(db, gone) && Roots(parents)
    ensures gone + Trees(Prune(db, gone), parents) == gone + Trees(db, parents)
  {
    var db' := Prune(db, gone);
    var a := Attached(db.comments, parents);
    var a' := Attached(db'.comments, parents);
    assert a' <= a;
    forall y | y in CommentRefs(a) ensures y in gone + CommentRefs(a') {
      var c :| c in db.comments && ParentsOf(c) * parents != {} && y == CommentRef(c.id);
      if y !in gone {
        assert c in db'.comments;
      }
    }
    forall y | y in RepliesUnder(db.replies, a) ensures y in gone + RepliesUnder(db'.replies, a') {
      var x :| x in db.replies && x.commentId in a && y == ReplyRef(x.id);
      if y !in gone {
        assert x in db'.replies;
      }
    }
    assert RepliesUnder(db'.replies, a') <= RepliesUnder(db.replies, a);
  }

  /** A whole discussion takes the replies of every comment it takes. */
  lemma TreesClosed(db: Db, parents: set<Ref>)
    requires Roots(parents)
    ensures Closed(db, Trees(db, parents))
  {
    var t := Trees(db, parents);
    forall x | x in db.replies && CommentRef(x.commentId) in t ensures ReplyRef(x.id) in t {
      assert CommentRef(x.commentId) !in parents;
      assert x.commentId in Attached(db.comments, parents);
    }
  }

  /** After a post or multimedia cascade: the parents, every comment under them, every
      reply under those comments and every like on any of these are gone; every other
      document and like is still there. */
  lemma CascadeComplete(db: Db, parents: set<Ref>)
    requires WellFormed(db) && Roots(parents)
    ensures var r := Prune(db, Trees(db, parents));
      && (forall p | p in r.posts :: PostRef(p.id) !in parents)
      && (forall m | m in r.media :: MediaRef(m.id) !in parents)
      && (forall c | c in r.comments :: ParentsOf(c) * parents == {})
      && (forall x | x in r.replies :: x.commentId !in Attached(db.comments, parents))
      && (forall l | l in r.likes :: l.target !in Trees(db, parents))
      && (forall p | p in db.posts && PostRef(p.id) !in parents :: p in r.posts)
      && (forall m | m in db.media && MediaRef(m.id) !in parents :: m in r.media)
      && (forall c | c in db.comments && c.id !in Attached(db.comments, parents) :: c in r.comments)
      && (forall x | x in db.replies && x.commentId !in Attached(db.comments, parents) :: x in r.replies)
  {
    var t := Trees(db, parents);
    var a := Attached(db.comments, parents);
    forall c | c in db.comments && ParentsOf(c) * parents != {} ensures CommentRef(c.id) in t {
      assert c.id in a;
    }
    forall x | x in db.replies && x.commentId in a ensures ReplyRef(x.id) in t {
    }
    forall c | c in db.comments && CommentRef(c.id) in t ensures c.id in a {
    }
    forall x | x in db.replies && ReplyRef(x.id) in t ensures x.commentId in a {
      var y :| y in db.replies && y.commentId in a && ReplyRef(x.id) == ReplyRef(y.id);
      var i :| 0 <= i < |db.replies| && db.replies[i] == x;
      var j :| 0 <= j < |db.replies| && db.replies[j] == y;
      assert RefOfReply(db.replies[i]) == RefOfReply(db.replies[j]);
    }
  }

  /** After a comment removal: the comment, its replies and every like on any of them are
      gone; posts and multimedia are untouched and every other comment and reply remains. */
  lemma CommentRemovalComplete(db: Db, commentId: Id)
    requires WellFormed(db)
    ensures var r := Prune(db, CommentTrees(db, {commentId}));
      && (forall c | c in r.comments :: c.id != commentId)
      && (forall x | x in r.replies :: x.commentId != commentId)
      && (forall l | l in r.likes :: l.target != CommentRef(commentId)
            && forall x | x in db.replies && x.commentId == commentId :: l.target != ReplyRef(x.id))
      && r.posts == db.posts && r.media == db.media
      && (forall c | c in db.comments && c.id != commentId :: c in r.comments)
      && (forall x | x in db.replies && x.commentId != commentId :: x in r.replies)
  {
    var t := CommentTrees(db, {commentId});
    KeepNothing(db.posts, RefOfPost, t);
    KeepNothing(db.media, RefOfMedia, t);
    forall x | x in db.replies && ReplyRef(x.id) in t ensures x.commentId == commentId {
      var y :| y in db.replies && y.commentId in {commentId} && ReplyRef(x.id) == ReplyRef(y.id);
      DistinctSame(db.replies, RefOfReply, x, y);
    }
    forall x | x in db.replies && x.commentId == commentId ensures ReplyRef(x.id) in t {
      assert ReplyRef(x.id) in RepliesUnder(db.replies, {commentId});
    }
  }
}
