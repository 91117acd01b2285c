/** The collections as mutable state and the handlers that change them. */
module Store {
  import opened Wrappers
  import opened Seqs
  import opened Records
  import opened Likes
  import opened Cascade
  import opened Authors
  import opened Edits
  import opened Feed

  /** The five collections, each in natural order; `nextId` is the next id `create` hands out. */
  class Store {
    var posts: seq<Post>
    var media: seq<Multimedia>
    var comments: seq<Comment>
    var replies: seq<Reply>
    var likes: seq<Like>
    var nextId: nat

    function State(): Db
      reads this
    {
      Db(posts, media, comments, replies, likes)
    }

    /** Unique ids per collection, one like per (voter, target), and no id at or above `nextId`. */
    ghost predicate Valid()
      reads this
    {
      WellFormed(State()) && IdsBelow(State(), nextId)
    }

    constructor ()
      ensures Valid() && State() == Db([], [], [], [], []) && nextId == 0
    {
      posts, media, comments, replies, likes := [], [], [], [], [];
      nextId := 0;
    }

    /** Deletes the documents in `gone` together with every like on them. */
    method PruneStore(gone: set<Ref>)
      requires Valid()
      modifies this
      ensures Valid() && nextId == old(nextId)
      ensures State() == Prune(old(State()), gone)
    {
      PruneWellFormed(State(), gone, nextId);
      var r := Prune(State(), gone);
      posts, media, comments, replies, likes := r.posts, r.media, r.comments, r.replies, r.likes;
    }

    // ------------------------------------------------------------- like toggles

    /** The write of the toggle: creates, deletes or flips the voter's row on `target`. */
    method RecordVote(voter: Id, target: Ref, like: bool)
      modifies this
      ensures likes == Toggled(old(likes), voter, target, like, old(nextId))
      ensures nextId == old(nextId) + (if VoteOf(old(likes), voter, target).None? then 1 else 0)
      ensures posts == old(posts) && media == old(media) && comments == old(comments) && replies == old(replies)
    {
      match Find(likes, VoteKey, (voter, target)) {
        case None =>
          likes := likes + [Like(nextId, like, voter, target)];
          nextId := nextId + 1;
        case Some(i) =>
          if likes[i].like == like {
            likes := likes[..i] + likes[i + 1..];
          } else {
            likes := likes[i := likes[i].(like := like)];
          }
      }
    }

    /** `likePost`, `likeMultimedia`, `likeComment` and `likeReply`: toggle the requester's
        row on `target`, then recount. The recount `$match`es the target document, so a
        missing target answers with no body (`None`), although the row is still written. */
    method Toggle(voter: Id, target: Ref, like: bool) returns (info: Option<LikesInfo>)
      requires Valid()
      modifies this
      ensures Valid()
      ensures State() == old(State()).(likes := Toggled(old(likes), voter, target, like, old(nextId)))
      ensures nextId == old(nextId) + (if VoteOf(old(likes), voter, target).None? then 1 else 0)
      ensures info == if Exists(State(), target) then Some(Summary(likes, voter, target)) else None
    {
      ToggledEffect(State(), voter, target, like, nextId);
      RecordVote(voter, target, like);
      if Exists(State(), target) {
        info := Some(Summary(likes, voter, target));
      } else {
        info := None;
      }
    }

    // ----------------------------------------------------------- pinned comment

    /** The write of `togglePinnedComment`: the parent's `pinnedCommentId` becomes `NextPin`. */
    method Repin(isMultimedia: bool, parentId: Id, commentId: Id)
      requires ParentById(State(), isMultimedia, parentId).Some?
      modifies this
      ensures State() == Repinned(old(State()), isMultimedia, parentId, commentId) && nextId == old(nextId)
    {
      if isMultimedia {
        var i := Find(media, RefOfMedia, MediaRef(parentId)).value;
        media := media[i := media[i].(pinnedCommentId := NextPin(media[i].pinnedCommentId, commentId))];
      } else {
        var i := Find(posts, RefOfPost, PostRef(parentId)).value;
        posts := posts[i := posts[i].(pinnedCommentId := NextPin(posts[i].pinnedCommentId, commentId))];
      }
    }

    /** `togglePinnedComment`: only the owner of the post (or multimedia) may pin, and only
        a comment attached to it; the answer is the new `isPinned`. */
    method TogglePinnedComment(parentId: Id, isMultimedia: bool, commentId: Id, requester: Id) returns (r: Result<bool>)
      requires Valid()
      modifies this
      ensures Valid() && nextId == old(nextId)
      ensures ParentById(old(State()), isMultimedia, parentId).None? ==> r == Err(404)
      ensures ParentById(old(State()), isMultimedia, parentId).Some?
        && ParentById(old(State()), isMultimedia, parentId).value.userId != requester
        ==> r == Err(403)
      ensures ParentById(old(State()), isMultimedia, parentId).Some?
        && ParentById(old(State()), isMultimedia, parentId).value.userId == requester
        && (forall c | c in old(comments) :: !(c.id == commentId && ParentField(c, isMultimedia) == Some(parentId)))
        ==> r == Err(404)
      ensures r.Ok? <==>
        && ParentById(old(State()), isMultimedia, parentId).Some?
        && ParentById(old(State()), isMultimedia, parentId).value.userId == requester
        && (exists c | c in old(comments) :: c.id == commentId && ParentField(c, isMultimedia) == Some(parentId))
      ensures r.Err? ==> State() == old(State())
      ensures r.Ok? ==>
        && ParentById(old(State()), isMultimedia, parentId).Some?
        && (exists c | c in old(comments) :: c.id == commentId && ParentField(c, isMultimedia) == Some(parentId))
        && State() == Repinned(old(State()), isMultimedia, parentId, commentId)
        && r.value == (ParentById(old(State()), isMultimedia, parentId).value.pinnedCommentId != Some(commentId))
    {
      var candidate := ParentById(State(), isMultimedia, parentId);
      if candidate.None? {
        return Err(404);
      }
      if candidate.value.userId != requester {
        return Err(403);
      }
      var attached := exists c | c in comments :: c.id == commentId && ParentField(c, isMultimedia) == Some(parentId);
      if !attached {
        return Err(404);
      }
      RepinnedEffect(State(), isMultimedia, parentId, commentId, nextId);
      Repin(isMultimedia, parentId, commentId);
      r := Ok(candidate.value.pinnedCommentId != Some(commentId));
    }

    // ---------------------------------------------------- liked by the author

    /** The write of `likeCommentByAuthor`: negates the comment's `isLikedByAuthor`. */
    method FlipComment(commentId: Id) returns (liked: bool)
      requires CommentById(State(), commentId).Some?
      modifies this
      ensures State() == CommentFlipped(old(State()), commentId) && nextId == old(nextId)
      ensures liked == !CommentById(old(State()), commentId).value.isLikedByAuthor
    {
      var i := Find(comments, RefOfComment, CommentRef(commentId)).value;
      comments := comments[i := comments[i].(isLikedByAuthor := !comments[i].isLikedByAuthor)];
      liked := comments[i].isLikedByAuthor;
    }

    /** The write of `likeReplyByAuthor`: negates the reply's `isLikedByAuthor`. */
    method FlipReply(replyId: Id) returns (liked: bool)
      requires ReplyById(State(), replyId).Some?
      modifies this
      ensures State() == ReplyFlipped(old(State()), replyId) && nextId == old(nextId)
      ensures liked == !ReplyById(old(State()), replyId).value.isLikedByAuthor
    {
      var i := Find(replies, RefOfReply, ReplyRef(replyId)).value;
      replies := replies[i := replies[i].(isLikedByAuthor := !replies[i].isLikedByAuthor)];
      liked := replies[i].isLikedByAuthor;
    }

    /** `likeCommentByAuthor`: flips `isLikedByAuthor` when the requester is the author
        of the comment's post (or multimedia), else 403. */
    method LikeCommentByAuthor(commentId: Id, isMultimedia: bool, requester: Id) returns (r: Result<bool>)
      requires Valid()
      modifies this
      ensures Valid() && nextId == old(nextId)
      ensures AuthorIdFromComment(old(State()), commentId, isMultimedia) != Some(requester) ==> r == Err(403)
      ensures r.Ok? <==> AuthorIdFromComment(old(State()), commentId, isMultimedia) == Some(requester)
      ensures r.Err? ==> State() == old(State())
      ensures r.Ok? ==>
        && AuthorIdFromComment(old(State()), commentId, isMultimedia) == Some(requester)
        && CommentById(old(State()), commentId).Some?
        && State() == CommentFlipped(old(State()), commentId)
        && r.value == !CommentById(old(State()), commentId).value.isLikedByAuthor
    {
      var authorId := AuthorIdFromComment(State(), commentId, isMultimedia);
      if authorId == Some(requester) {
        // the author was resolved through this very comment, so it exists
        CommentFlippedEffect(State(), commentId, nextId);
        var flipped := FlipComment(commentId);
        r := Ok(flipped);
      } else {
        r := Err(403);
      }
    }

    /** `likeReplyByAuthor`: the same through reply, comment and parent. */
    method LikeReplyByAuthor(replyId: Id, isMultimedia: bool, requester: Id) returns (r: Result<bool>)
      requires Valid()
      modifies this
      ensures Valid() && nextId == old(nextId)
      ensures AuthorIdFromReply(old(State()), replyId, isMultimedia) != Some(requester) ==> r == Err(403)
      ensures r.Ok? <==> AuthorIdFromReply(old(State()), replyId, isMultimedia) == Some(requester)
      ensures r.Err? ==> State() == old(State())
      ensures r.Ok? ==>
        && AuthorIdFromReply(old(State()), replyId, isMultimedia) == Some(requester)
        && ReplyById(old(State()), replyId).Some?
        && State() == ReplyFlipped(old(State()), replyId)
        && r.value == !ReplyById(old(State()), replyId).value.isLikedByAuthor
    {
      var authorId := AuthorIdFromReply(State(), replyId, isMultimedia);
      if authorId == Some(requester) {
        // the author was resolved through this very reply, so it exists
        ReplyFlippedEffect(State(), replyId, nextId);
        var flipped := FlipReply(replyId);
        r := Ok(flipped);
      } else {
        r := Err(403);
      }
    }

    // ------------------------------------------------------------------ edits

    /** `edit`: `findOneAndUpdate({_id, userId}, {text})` answers with the comment as it
        was before the update, or 404 when the requester does not own such a comment. */
    method EditComment(commentId: Id, requester: Id, text: string) returns (r: Result<Comment>)
      requires Valid()
      modifies this
      ensures Valid() && nextId == old(nextId)
      ensures r.Ok? <==>
        && CommentById(old(State()), commentId).Some?
        && CommentById(old(State()), commentId).value.userId == requester
      ensures r.Ok? ==>
        && r.value == CommentById(old(State()), commentId).value
        && State() == CommentRetexted(old(State()), commentId, text)
      ensures r.Err? ==> r == Err(404) && State() == old(State())
    {
      var found := Find(comments, RefOfComment, CommentRef(commentId));
      if found.Some? && comments[found.value].userId == requester {
        CommentRetextedEffect(State(), commentId, text, nextId);
        var i := found.value;
        r := Ok(comments[i]);
        comments := comments[i := comments[i].(text := text)];
      } else {
        r := Err(404);
      }
    }

    /** `editReply`: the same for replies. */
    method EditReply(replyId: Id, requester: Id, text: string) returns (r: Result<Reply>)
      requires Valid()
      modifies this
      ensures Valid() && nextId == old(nextId)
      ensures r.Ok? <==>
        && ReplyById(old(State()), replyId).Some?
        && ReplyById(old(State()), replyId).value.userId == requester
      ensures r.Ok? ==>
        && r.value == ReplyById(old(State()), replyId).value
        && State() == ReplyRetexted(old(State()), replyId, text)
      ensures r.Err? ==> r == Err(404) && State() == old(State())
    {
      var found := Find(replies, RefOfReply, ReplyRef(replyId));
      if found.Some? && replies[found.value].userId == requester {
        ReplyRetextedEffect(State(), replyId, text, nextId);
        var i := found.value;
        r := Ok(replies[i]);
        replies := replies[i := replies[i].(text := text)];
      } else {
        r := Err(404);
      }
    }

    // ------------------------------------------------------------------ views

    /** The `$inc` of `getOne`, answering with the document as updated. */
    method CountPostView(postId: Id) returns (viewed: Post)
      requires PostById(State(), postId).Some?
      modifies this
      ensures State() == PostViewed(old(State()), postId) && nextId == old(nextId)
      ensures viewed == PostById(old(State()), postId).value.(viewsCount := PostById(old(State()), postId).value.viewsCount + 1)
    {
      var i := Find(posts, RefOfPost, PostRef(postId)).value;
      posts := posts[i := posts[i].(viewsCount := posts[i].viewsCount + 1)];
      viewed := posts[i];
    }

    /** `getOne`: counts a view when the post exists, then answers with its projection,
        or with no body when there is no such post. */
    method ViewPost(postId: Id, viewer: Option<Id>) returns (r: Option<PostView>)
      requires Valid()
      modifies this
      ensures Valid() && nextId == old(nextId)
      ensures r.Some? <==> PostById(old(State()), postId).Some?
      ensures r.None? ==> State() == old(State())
      ensures r.Some? ==>
        && State() == PostViewed(old(State()), postId)
        && PostById(State(), postId).Some?
        && r.value == PostViewOf(State(), PostById(State(), postId).value, viewer, "post")
        && r.value.viewsCount == PostById(old(State()), postId).value.viewsCount + 1
        && r.value.commentsCount == 0
    {
      var found := PostById(State(), postId);
      if found.Some? {
        PostViewedEffect(State(), postId, nextId);
        var viewed := CountPostView(postId);
        NoCommentHasPostField(comments, postId);
        r := Some(PostViewOf(State(), viewed, viewer, "post"));
      } else {
        r := None;
      }
    }

    /** The `viewsCount + 1; save()` of `getOneMultimedia`, answering with the saved document. */
    method CountMediaView(mediaId: Id) returns (viewed: Multimedia)
      requires MediaById(State(), mediaId).Some?
      modifies this
      ensures State() == MediaViewed(old(State()), mediaId) && nextId == old(nextId)
      ensures viewed == MediaById(old(State()), mediaId).value.(viewsCount := MediaById(old(State()), mediaId).value.viewsCount + 1)
    {
      var i := Find(media, RefOfMedia, MediaRef(mediaId)).value;
      media := media[i := media[i].(viewsCount := media[i].viewsCount + 1)];
      viewed := media[i];
    }

    /** `getOneMultimedia`: counts a view and answers with the projection, or 500 when the
        multimedia does not exist. */
    method ViewMultimedia(mediaId: Id, viewer: Option<Id>) returns (r: Result<MediaView>)
      requires Valid()
      modifies this
      ensures Valid() && nextId == old(nextId)
      ensures r.Ok? <==> MediaById(old(State()), mediaId).Some?
      ensures r.Err? ==> r == Err(500) && State() == old(State())
      ensures r.Ok? ==>
        && State() == MediaViewed(old(State()), mediaId)
        && MediaById(State(), mediaId).Some?
        && r.value == MediaViewOf(State(), MediaById(State(), mediaId).value, viewer)
        && r.value.viewsCount == MediaById(old(State()), mediaId).value.viewsCount + 1
    {
      var found := MediaById(State(), mediaId);
      if found.Some? {
        MediaViewedEffect(State(), mediaId, nextId);
        var viewed := CountMediaView(mediaId);
        r := Ok(MediaViewOf(State(), viewed, viewer));
      } else {
        r := Err(500);
      }
    }

    /** `MultimediaSchema.create`: stores `draft` under a fresh id. A caller that appends
        several documents in a row may restore `Valid` once at the end (`AppendFreshMedia`). */
    method InsertMultimedia(draft: Multimedia) returns (id: Id)
      modifies this`media, this`nextId
      ensures old(Valid()) ==> Valid()
      ensures id == old(nextId) && nextId == old(nextId) + 1
      ensures State() == old(State()).(media := old(media) + [draft.(id := id)])
      ensures media == old(media) + [draft.(id := id)] && posts == old(posts)
      ensures comments == old(comments) && replies == old(replies) && likes == old(likes)
    {
      id := nextId;
      if Valid() {
        AppendFreshMedia(State(), nextId, [draft.(id := id)]);
      }
      media := media + [draft.(id := id)];
      nextId := nextId + 1;
    }

    // --------------------------------------------------------------- deletion

    /** `remove` (comments): the comment's likes, its replies' likes, its replies and the
        comment itself are deleted. The author lookup is started without `await`, so the
        handler compares a pending Promise with the requester: only the comment's own
        author gets through, and anyone else gets no answer at all (`None`). */
    method RemoveComment(commentId: Id, requester: Id) returns (r: Option<Result<bool>>)
      requires Valid()
      modifies this
      ensures Valid() && nextId == old(nextId)
      ensures CommentById(old(State()), commentId).None? ==> r == Some(Err(500))
      ensures CommentById(old(State()), commentId).Some?
        && CommentById(old(State()), commentId).value.userId == requester
        ==> r == Some(Ok(true))
      ensures CommentById(old(State()), commentId).Some?
        && CommentById(old(State()), commentId).value.userId != requester
        ==> r.None?
      ensures r == Some(Ok(true)) ==> State() == Prune(old(State()), CommentTrees(old(State()), {commentId}))
      ensures r != Some(Ok(true)) ==> State() == old(State())
    {
      var comment := CommentById(State(), commentId);
      if comment.None? {
        return Some(Err(500));
      }
      if comment.value.userId != requester {
        return None;
      }
      ghost var db0 := State();
      var found := RepliesOf(State(), commentId);
      PruneStore(ReplyRefsOf(found));
      PruneStore({CommentRef(commentId)});
      PruneTwice(db0, ReplyRefsOf(found), {CommentRef(commentId)});
      CommentTreeOf(db0, commentId, found);
      r := Some(Ok(true));
    }

    /** `removeReply`: the author is resolved without the multimedia flag; an unresolved
        reply or author is a 500, the reply's author or the post's author may delete, anyone
        else gets 403. */
    method RemoveReply(replyId: Id, requester: Id) returns (r: Result<bool>)
      requires Valid()
      modifies this
      ensures Valid() && nextId == old(nextId)
      ensures ReplyById(old(State()), replyId).None? ==> r == Err(500)
      ensures ReplyById(old(State()), replyId).Some? && AuthorIdFromReply(old(State()), replyId, false).None? ==> r == Err(500)
      ensures AuthorIdFromReply(old(State()), replyId, false).Some? ==>
        (r.Ok? <==> AuthorIdFromReply(old(State()), replyId, false) == Some(requester)
                    || ReplyById(old(State()), replyId).value.userId == requester)
      ensures AuthorIdFromReply(old(State()), replyId, false).Some?
        && AuthorIdFromReply(old(State()), replyId, false) != Some(requester)
        && ReplyById(old(State()), replyId).value.userId != requester
        ==> r == Err(403)
      ensures r.Err? ==> (r == Err(500) || r == Err(403)) && State() == old(State())
      ensures r.Ok? ==> r.value && State() == Prune(old(State()), {ReplyRef(replyId)})
    {
      var reply := ReplyById(State(), replyId);
      if reply.None? {
        return Err(500);
      }
      var authorId := AuthorIdFromReply(State(), replyId, false);
      if authorId.None? {
        return Err(500);
      }
      if authorId == Some(requester) || reply.value.userId == requester {
        PruneStore({ReplyRef(replyId)});
        r := Ok(true);
      } else {
        r := Err(403);
      }
    }

    /** One comment of a cascade: its likes, then each reply with its likes, then the comment. */
    method DropCommentTree(commentId: Id)
      requires Valid()
      modifies this
      ensures Valid() && nextId == old(nextId)
      ensures State() == Prune(old(State()), CommentTrees(old(State()), {commentId}))
    {
      ghost var db0 := State();
      var found := RepliesOf(State(), commentId);
      PruneNothing(db0);
      assert ReplyRefsOf(found[..0]) == {};
      var k := 0;
      while k < |found|
        invariant 0 <= k <= |found|
        invariant Valid() && nextId == old(nextId)
        invariant State() == Prune(db0, ReplyRefsOf(found[..k]))
      {
        PruneTwice(db0, ReplyRefsOf(found[..k]), {ReplyRef(found[k].id)});
        RefsSnoc(found, [], [], k);
        PruneStore({ReplyRef(found[k].id)});
        k := k + 1;
      }
      assert found[..k] == found;
      PruneTwice(db0, ReplyRefsOf(found), {CommentRef(commentId)});
      PruneStore({CommentRef(commentId)});
      CommentTreeOf(db0, commentId, found);
    }

    /** One post or multimedia of a cascade: its likes, each of its comments with their
        replies, then the document itself. */
    method DropDiscussion(parent: Ref)
      requires Valid() && (parent.PostRef? || parent.MediaRef?)
      modifies this
      ensures Valid() && nextId == old(nextId)
      ensures State() == Prune(old(State()), Trees(old(State()), {parent}))
    {
      ghost var db0 := State();
      var found := Filter(comments, (c: Comment) => parent in ParentsOf(c));
      PruneNothing(db0);
      assert found[..0] == [] && CommentTrees(db0, CommentIdsOf([])) == {};
      var k := 0;
      while k < |found|
        invariant 0 <= k <= |found|
        invariant Valid() && nextId == old(nextId)
        invariant State() == Prune(db0, CommentTrees(db0, CommentIdsOf(found[..k])))
      {
        CommentTreesStep(db0, CommentIdsOf(found[..k]), found[k].id);
        RefsSnoc([], found, [], k);
        DropCommentTree(found[k].id);
        k := k + 1;
      }
      assert found[..k] == found;
      AttachedOf(db0, parent, found);
      TreesLast(db0, parent);
      PruneStore({parent});
    }

    /** One pass of that loop: the `k`-th multimedia's discussion follows those before it. */
    method DropMediaTree(ghost db0: Db, found: seq<Multimedia>, k: nat)
      requires Valid() && k < |found|
      requires State() == Prune(db0, Trees(db0, MediaRefsOf(found[..k])))
      modifies this
      ensures Valid() && nextId == old(nextId)
      ensures State() == Prune(db0, Trees(db0, MediaRefsOf(found[..k + 1])))
    {
      TreesStep(db0, MediaRefsOf(found[..k]), MediaRef(found[k].id));
      RefsSnoc([], [], found, k);
      DropDiscussion(MediaRef(found[k].id));
    }

    /** The loop of `remove` over the post's multimedia: each document's files are unlinked,
        then its discussion tree is deleted. An unlink that throws ends the loop; the trees
        of the documents before it are deleted, as deleting them all at once would. */
    method DropMediaTrees(found: seq<Multimedia>) returns (stopped: nat)
      requires Valid()
      modifies this
      ensures Valid() && nextId == old(nextId)
      ensures stopped == FirstUnlinkFailure(found)
      ensures State() == Prune(old(State()), Trees(old(State()), MediaRefsOf(found[..stopped])))
    {
      ghost var db0 := State();
      ghost var stop := FirstUnlinkFailure(found);
      PruneNothing(db0);
      assert found[..0] == [] && Trees(db0, MediaRefsOf([])) == {};
      var k := 0;
      while k < |found| && !UnlinkFails(found[k])
        invariant 0 <= k <= stop
        invariant Valid() && nextId == old(nextId)
        invariant State() == Prune(db0, Trees(db0, MediaRefsOf(found[..k])))
      {
        PastCleanUnlink(found, k);
        DropMediaTree(db0, found, k);
        k := k + 1;
      }
      stopped := k;
    }

    /** `remove` (posts): 404 and 403 before anything is touched; then every multimedia
        listed in `images`, and finally the post, each with its whole discussion. An unlink
        that throws answers 500 and leaves the post, that multimedia and those after it. */
    method RemovePost(postId: Id, requester: Id) returns (r: Result<bool>)
      requires Valid()
      modifies this
      ensures Valid() && nextId == old(nextId)
      ensures PostById(old(State()), postId).None? ==> r == Err(404)
      ensures PostById(old(State()), postId).Some? && PostById(old(State()), postId).value.userId != requester ==> r == Err(403)
      ensures r == Err(404) || r == Err(403) ==> State() == old(State())
      ensures r.Err? ==> r.status == 404 || r.status == 403 || r.status == 500
      ensures r.Ok? <==>
        && PostById(old(State()), postId).Some? && PostById(old(State()), postId).value.userId == requester
        && FirstUnlinkFailure(ListedMedia(old(State()), PostById(old(State()), postId).value))
           == |ListedMedia(old(State()), PostById(old(State()), postId).value)|
      ensures r == Err(500) ==>
        && PostById(old(State()), postId).Some? && PostById(old(State()), postId).value.userId == requester
        && var ms := ListedMedia(old(State()), PostById(old(State()), postId).value);
           && FirstUnlinkFailure(ms) < |ms|
           && State() == Prune(old(State()), Trees(old(State()), MediaRefsOf(ms[..FirstUnlinkFailure(ms)])))
      ensures r == Err(500) ==> forall p | p in old(posts) :: p in posts
      ensures r.Ok? ==>
        State() == Prune(old(State()), Trees(old(State()), RemovalRoots(old(State()), PostById(old(State()), postId).value)))
    {
      var candidate := PostById(State(), postId);
      if candidate.None? {
        return Err(404);
      }
      var post := candidate.value;
      if post.userId != requester {
        return Err(403);
      }
      ghost var db0 := State();
      var found := ListedMedia(State(), post);
      var stopped := DropMediaTrees(found);
      if stopped < |found| {
        MediaTreesKeepPosts(db0, found[..stopped]);
        return Err(500);
      }
      assert found[..stopped] == found;
      TreesStep(db0, MediaRefsOf(found), PostRef(postId));
      DropDiscussion(PostRef(postId));
      RemovalRootsOf(db0, post, found);
      r := Ok(true);
    }
  }
}
