# react-blog-server, core model

This project models the server side of a small blog and photo-sharing site. Users write
**posts**. A post carries **multimedia** (pictures and videos). Both posts and multimedia
receive **comments**, and comments receive **replies**. Users **like** or **dislike** any
of these four kinds of document.

The model covers the request handlers that read and change these collections:

- the like toggles and the recount that answers them;
- the comment and reply feeds, and the post feed;
- the cascade that deletes a post, multimedia, comment or reply with everything under it;
- the author-only actions: pinning a comment, and "liked by the author";
- the author resolution those actions rely on;
- the view counters, comment and reply editing, and the popular-tags ranking;
- the service that turns uploaded files into multimedia documents.

The MongoDB database is one `Store` object with five collections. Each collection is a
`seq` in natural (insertion) order, and a counter hands out fresh ids (`store.dfy`).
`Store.Valid` holds three things:

- ids are unique per collection;
- there is at most one like row per (voter, target);
- no id is at or above the counter.

Every handler keeps `Valid`.

Each handler that changes documents is a method. Its `ensures` ties the new state to a
value-level function of the old one: `Toggled`, `Repinned`, `CommentFlipped`,
`CommentRetexted`, `PostViewed` or `Prune`. The lemmas beside each function state what
it means: which records change, which stay, what a second application does, and that
`Valid` survives.

Read-only handlers (`getComments`, `getReplies`, `getAll`, `getOne`'s projection,
`getPopular`) are functions on the database value. MongoDB pipelines become filters,
counts and a verified insertion sort (`ranking.dfy`). `$sort` becomes a descending
sort on a key of integers; the order of entries with equal keys is not promised.

The authenticated requester (`req.userData.id`) is a parameter of each handler. So are
the clock (`now`) and the service's calls to `v4()`, `getExtension` and `isVideoFile`
(the `Env` of `upload.dfy`). HTTP statuses appear as `Err(status)` of a `Result`. A
handler that never answers is `None` where that can happen.

Where the code behaves differently from what its names suggest, the model follows the
code:

- **Comment removal.** `remove` in controllers/comments-controller.js calls
  `getAuthorIdFromComment` without `await`. The owner test therefore compares a pending
  Promise with the requester. Only the comment's own author can delete it; the post's
  author cannot, and anyone else gets no answer at all (`Store.Store.RemoveComment`).
- **Reply removal.** `removeReply` resolves the author without the multimedia flag. A
  reply under a comment on multimedia never resolves, and the handler answers 500
  (`Authors.MediaReplyHasNoPostAuthor`).
- **Comment count in `getOne`.** `getOne` counts comments by a field named `post`, which
  no comment has. Its `commentsCount` is therefore always 0
  (`Feed.NoCommentHasPostField`). `getAll` counts by `postId`.
- **`isRepliedByAuthor`.** `getComments` computes this field in the `$project` that
  follows the `$sort`, so it is missing when the sort runs and never ranks
  (`Feed.MissingAtSort`).
- **Pinning twice.** Toggling the pin twice restores the original state only when the
  parent had no pin or already pinned that comment. If another comment was pinned, that
  pin is lost (`Edits.RepinTwice`).
- **Missing `imagesInfo` entry.** `createMultimedia` dereferences the `imagesInfo` entry
  of each file. A file without one throws after its move, and the documents created
  before it stay (`Upload.RunShape`).
- **Removing a post with a preview-less video.** `remove` unlinks each listed multimedia's
  file, and a video's preview, before starting its cascade. A video stored without a
  preview has `previewUrl` "", which resolves to the multimedia directory itself. The
  unlink then throws: the handler answers 500, the multimedia before it are already
  deleted, and the post, that video and those after it stay
  (`Store.Store.RemovePost`, `Cascade.FirstUnlinkFailure`).

## Model

| member | source | states |
|---|---|---|
| Records.PostById | controllers/post-controller.js:384 | `findById` on posts: a found post is in the collection with that id; nothing is found exactly when no post has the id |
| Records.MediaById | controllers/post-controller.js:290-296 | the same for multimedia |
| Records.CommentById | controllers/comments-controller.js:59 | the same for comments |
| Records.ReplyById | controllers/comments-controller.js:314 | the same for replies |
| Records.ParentById | controllers/post-controller.js:720-722 | the post or the multimedia, chosen by `isMultimedia`, is found exactly when a document of that collection has the id; what it gives is that document's author and pin |
| Records.AppendFreshMedia | service/post-service.js:61-69 | appending documents with consecutive fresh ids keeps ids unique and below the advanced counter |
| Likes.TallyPolarities | controllers/post-controller.js:866-900 | the like count plus the dislike count of a target is the number of rows on that target |
| Likes.VotedIffVote | controllers/post-controller.js:851-865 | with one row per (voter, target), `liked`/`disliked` in the recount hold exactly when the voter's single row has that polarity |
| Likes.NeverBoth | controllers/post-controller.js:866-900 | a recount never reports a voter as both liking and disliking |
| Likes.ToggleVote | controllers/post-controller.js:851-865 | after a toggle, the voter's vote is cleared if it was the same and becomes `like` otherwise; the row count grows by one, shrinks by one or stays; both uniqueness invariants are kept |
| Likes.Toggled | controllers/post-controller.js:851-865 | a toggle adds or removes no row of any other (voter, target); a row it adds is the voter's, on the target, with the requested polarity; with one row per (voter, target), a row of the other polarity is flipped in place, keeping its id |
| Likes.Summary | controllers/post-controller.js:866-897 | the recount: likes plus dislikes is the number of rows on the target; `liked` (`disliked`) is reported only with a like (dislike) count of at least one |
| Likes.VotedCounted | controllers/post-controller.js:889-896 | a voter reported as having voted is among the votes counted |
| Likes.ToggleOthers | controllers/comments-controller.js:546-560 | every other voter's vote on every target, and the voter's votes on other targets, are unchanged |
| Likes.ToggleTally | controllers/post-controller.js:783-834 | a target's like (dislike) count moves by exactly the change in the voter's vote; other targets' counts do not change |
| Likes.ToggleTwice | controllers/post-controller.js:856-865 | toggling the same polarity twice leaves the vote cleared unless it already had that polarity; a second toggle never yields the other polarity |
| Likes.ToggleIdsBelow | controllers/post-controller.js:863-864 | a new like row takes a fresh id below the advanced counter |
| Likes.ToggledEffect | controllers/post-controller.js:851-865 | the toggled database stays well formed, with the counter advanced exactly when a row was created |
| Store.Store.RecordVote | controllers/post-controller.js:851-865 | the write: the like rows become `Toggled` of the old ones; the counter advances only on create; other collections unchanged |
| Store.Store.Toggle | controllers/post-controller.js:842-908 | `likePost`/`likeMultimedia`/`likeComment`/`likeReply`: `Valid` kept; only the like rows change, as `Toggled`; the answer is the recount of the target, or no body when the target does not exist |
| Ranking.SortDesc | controllers/comments-controller.js:220-222 | `$sort` with descending keys: the result is a permutation of the input, sorted non-increasingly by the lexicographic key |
| Ranking.LexGeTotal | controllers/comments-controller.js:123-130 | the compound descending order compares any two keys |
| Ranking.LexGeTrans | controllers/comments-controller.js:123-130 | the compound descending order is transitive |
| Feed.Window | controllers/comments-controller.js:111-121 | `$skip`/`$limit`: accepted exactly when the skip is non-negative and the limit at least one (otherwise 500); the page is the run of `min(limit, remaining)` entries from the skip on |
| Feed.Paginate | controllers/comments-controller.js:112 | no window unless both `page` and `limit` are given |
| Feed.WindowWithin | controllers/comments-controller.js:248 | every paged entry comes from the unpaged list |
| Feed.WindowSorted | controllers/comments-controller.js:220-248 | paging a sorted list keeps it sorted |
| Feed.RepliesOf | controllers/comments-controller.js:173-179 | exactly the replies whose `commentId` is the comment |
| Feed.UnderParent | controllers/comments-controller.js:139-143 | exactly the comments whose `postId` (or `multimediaId`) is the parent |
| Feed.CommentViewOf | controllers/comments-controller.js:156-247 | a view is pinned exactly when the parent's `pinnedCommentId` is that comment; `isOwnComment` is 1 exactly for the requester's comment; `isRepliedByAuthor` holds exactly when a reply of the comment is by the parent's author; `repliesCount` is the number of its replies; `liked`/`disliked` only with a count of at least one |
| Feed.SortKeyOrder | controllers/comments-controller.js:123-137 | the compared keys order two views exactly as the `$sort` document does, field by field (pinned, own, liked by author, likes, newer; only pinned and newer for `sortBy=newest`), with `isRepliedByAuthor` deciding nothing |
| Feed.CommentViews | controllers/comments-controller.js:156-247 | one projected view per matched comment, in order |
| Feed.GetComments | controllers/comments-controller.js:97-263 | succeeds exactly when the parent exists, has comments, and the page is absent or has a non-negative skip and a limit of at least one; otherwise 500; `count` is the number of matched comments; the answer is the requested page of some sorted permutation of the matched comments' views (all of them when unpaged, at most `limit` when paged) |
| Feed.PinnedFirst | controllers/comments-controller.js:123-124 | in the answer no unpinned comment precedes a pinned one |
| Feed.ViewsOwnMark | controllers/comments-controller.js:206-216 | `isOwnComment` is 1 for the requester's comments and -1 otherwise |
| Feed.OwnFirst | controllers/comments-controller.js:123-137 | in the default order, among comments of equal pin state, a comment of the requester is preceded only by the requester's comments |
| Feed.NewestFirst | controllers/comments-controller.js:132-137 | with `sortBy=newest`, among comments of equal pin state the newer comes first |
| Feed.RefUser | controllers/comments-controller.js:365-405 | the quoted reply's author, when the quoted reply exists; nothing exactly when there is no quote or it does not resolve |
| Feed.ReplyViews | controllers/comments-controller.js:401-456 | one projected view per reply, in order |
| Feed.GetReplies | controllers/comments-controller.js:347-466 | the answer is the requested page of the views of the comment's replies in natural order: unpaged, all of them; paged, the `$skip`/`$limit` window, at most `limit`; errors are 500 |
| Feed.RepliesBelong | controllers/comments-controller.js:365-366 | every answered reply belongs to the requested comment and keeps its author |
| Feed.ImagesOf | controllers/post-controller.js:67-75 | `imagesInfo` holds exactly the multimedia documents whose id the post's `images` lists, each as often as in the collection, newest first |
| Feed.PostViewOf | controllers/post-controller.js:120-143 | counted by `postId`, `commentsCount` is the number of comments `getComments` lists for the post; counted by `post` (as `getOne` does), it is 0; `images` is `imagesInfo`; `liked`/`disliked` only with a count of at least one |
| Feed.MediaViewOf | controllers/post-controller.js:298-366 | `commentsCount` is the number of comments `getComments` lists for the multimedia; `liked`/`disliked` only with a count of at least one |
| Feed.NoCommentHasPostField | controllers/post-controller.js:211-218 | counting comments by the field `post` gives 0 for every post |
| Feed.CommentsCountIsFeedSize | controllers/post-controller.js:76-83 | counting by `postId` (or `multimediaId`) gives the number of comments under the post (or multimedia) |
| Feed.Matching | controllers/post-controller.js:20-29 | exactly the posts that carry one of the tags (when given) and are by the user (when given) |
| Feed.PostViews | controllers/post-controller.js:50-143 | one projected view per matched post, in order |
| Feed.GetAll | controllers/post-controller.js:15-165 | succeeds exactly when `tags` is not a single string, `sortBy` is `news` or `popular`, and page and limit are given with a non-negative skip and a limit of at least one; otherwise 500; `count` absent when nothing matches and the number of matches otherwise; the posts are the requested window of some permutation of the matching posts' views sorted by creation or views |
| Feed.GetAllFilters | controllers/post-controller.js:23-29 | every post in the answer exists, satisfies the tag filter and is by the requested user |
| Cascade.Prune | controllers/post-controller.js:390-438 | a record is kept exactly when it is not named in the deleted set; a like row exactly when its target is not; nothing is added |
| Cascade.PruneTwice | controllers/post-controller.js:396-437 | two deletions in a row equal one deletion of the union |
| Cascade.PruneWellFormed | controllers/comments-controller.js:68-73 | deletion keeps ids unique and below the counter |
| Cascade.CascadeComplete | controllers/post-controller.js:387-438 | after the cascade, no deleted parent, none of its comments, none of their replies and no like on any of them remains; every other post, multimedia, comment and reply remains |
| Cascade.CommentRemovalComplete | controllers/comments-controller.js:68-73 | after removing a comment, neither it, its replies nor likes on them remain; posts and multimedia are untouched and all other comments and replies remain |
| Cascade.TreesAfter | controllers/post-controller.js:396-437 | deleting one tree first does not change what the rest of the cascade deletes |
| Cascade.TreesUnion | controllers/post-controller.js:390-437 | the trees of several parents together are the trees of their union |
| Store.Store.PruneStore | controllers/comments-controller.js:68-73 | the collections become `Prune` of the old ones; `Valid` kept |
| Store.Store.DropCommentTree | controllers/post-controller.js:402-413 | the comment's likes, replies, replies' likes and the comment are deleted; nothing else |
| Store.Store.DropDiscussion | controllers/post-controller.js:396-437 | a post's (or multimedia's) likes, every attached comment's tree and the document itself are deleted |
| Cascade.ListedMedia | controllers/post-controller.js:387-389 | exactly the multimedia whose id the post's `images` lists |
| Cascade.FirstUnlinkFailure | controllers/post-controller.js:390-395 | the position of the first multimedia whose unlink throws (an empty file name, or a video with an empty preview), or the end: every multimedia before it unlinks cleanly |
| Cascade.MediaTreesKeepPosts | controllers/post-controller.js:390-417 | deleting multimedia with their discussions deletes no post |
| Store.Store.DropMediaTrees | controllers/post-controller.js:387-417 | the loop over the post's multimedia stops at the first unlink that throws, having deleted exactly the trees of the multimedia before it, as deleting them at once would |
| Store.Store.RemovePost | controllers/post-controller.js:380-457 | 404 for a missing post and 403 for a non-author, both with no change; for the author, success exactly when no listed multimedia's unlink throws, and then the post and its listed multimedia are deleted with all their comments, replies and likes; otherwise 500, with the trees of the multimedia before the failing one deleted and every post kept |
| Store.Store.RemoveComment | controllers/comments-controller.js:54-95 | 500 for a missing comment; the comment's own author deletes its tree; anyone else gets no answer and no change |
| Store.Store.RemoveReply | controllers/comments-controller.js:309-345 | 500 when the reply or its (post) author does not resolve; success exactly for the reply's author or the resolved author, deleting the reply and its likes; anyone else 403 with no change |
| Authors.ParentAuthor | controllers/comments-controller.js:728-742 | an author is found only for an existing parent, and it owns it |
| Authors.AuthorIdFromComment | controllers/comments-controller.js:720-744 | a resolved author owns the parent of an existing comment |
| Authors.AuthorIdFromReply | controllers/comments-controller.js:676-718 | a resolved author owns the parent of the comment of an existing reply |
| Authors.ParentAuthorIff | controllers/comments-controller.js:728-742 | in a well-formed database the parent's author resolves to `a` exactly when `a` owns the parent |
| Authors.CommentAuthorIff | controllers/comments-controller.js:720-744 | the comment resolves to `a` exactly when its parent exists and is owned by `a` |
| Authors.ReplyAuthorIff | controllers/comments-controller.js:676-718 | the reply resolves to `a` exactly when its comment and that comment's parent exist and `a` owns the parent |
| Authors.MediaReplyHasNoPostAuthor | controllers/comments-controller.js:317 | a reply whose comment has no `postId` never resolves without the multimedia flag |
| Edits.RepinnedEffect | controllers/post-controller.js:738-746 | only the parent's `pinnedCommentId` changes: unset when it was this comment, set to it otherwise; everything else unchanged; `Valid` kept |
| Edits.RepinTwice | controllers/post-controller.js:738-746 | toggling twice leaves the pin on this comment if it was there and unset otherwise; the state is restored exactly when there was no pin or this pin |
| Store.Store.Repin | controllers/post-controller.js:738-746 | the write: the state becomes `Repinned` of the old one |
| Store.Store.TogglePinnedComment | controllers/post-controller.js:715-771 | 404 for a missing parent, 403 for a non-author, 404 for a comment not attached to the parent, all without change; success exactly for the owner and an attached comment, and then the pin toggles and the answer is whether the comment is now pinned |
| Edits.CommentFlippedEffect | controllers/comments-controller.js:621-622 | only that comment's `isLikedByAuthor` is negated; `Valid` kept |
| Edits.CommentFlipTwice | controllers/comments-controller.js:621-622 | flipping twice restores the database |
| Edits.ReplyFlippedEffect | controllers/comments-controller.js:656-657 | only that reply's `isLikedByAuthor` is negated; `Valid` kept |
| Edits.ReplyFlipTwice | controllers/comments-controller.js:656-657 | flipping twice restores the database |
| Store.Store.FlipComment | controllers/comments-controller.js:621-623 | the write and its answer, the negated flag |
| Store.Store.FlipReply | controllers/comments-controller.js:656-658 | the write and its answer, the negated flag |
| Store.Store.LikeCommentByAuthor | controllers/comments-controller.js:606-639 | success exactly when the comment's parent author is the requester, and then the flag is negated and returned; otherwise 403 with no change |
| Store.Store.LikeReplyByAuthor | controllers/comments-controller.js:641-674 | success exactly when the parent author reached through reply and comment is the requester, and then the reply's flag is negated and returned; otherwise 403 with no change |
| Edits.CommentRetextedEffect | controllers/comments-controller.js:35-39 | only that comment's text changes; `Valid` kept |
| Edits.ReplyRetextedEffect | controllers/comments-controller.js:290-294 | only that reply's text changes; `Valid` kept |
| Store.Store.EditComment | controllers/comments-controller.js:30-52 | succeeds exactly when the comment exists and the requester wrote it, answering with the comment as it was before; otherwise 404 and no change |
| Store.Store.EditReply | controllers/comments-controller.js:285-307 | the same for replies |
| Edits.PostViewedEffect | controllers/post-controller.js:172-179 | only that post's `viewsCount` grows, by one; `Valid` kept |
| Edits.MediaViewedEffect | controllers/post-controller.js:296-297 | only that multimedia's `viewsCount` grows, by one; `Valid` kept |
| Store.Store.CountPostView | controllers/post-controller.js:172-179 | the `$inc` write, answering with the updated post |
| Store.Store.CountMediaView | controllers/post-controller.js:296-297 | the increment and save, answering with the updated document |
| Store.Store.ViewPost | controllers/post-controller.js:167-288 | an answer exactly when the post exists; then one more view is counted and answered, with `commentsCount` 0; otherwise no change |
| Store.Store.ViewMultimedia | controllers/post-controller.js:290-378 | success exactly when the multimedia exists, counting and answering one more view; otherwise 500 and no change |
| Tags.Dedup | controllers/tags-controller.js:7-12 | the `$group` keys: the same tags, each once |
| Tags.AllTagsIn | controllers/tags-controller.js:6 | `$unwind`: a tag occurs exactly when some post carries it |
| Tags.GroupedIn | controllers/tags-controller.js:7-12 | a group is a tag that occurs, counted by its occurrences |
| Tags.PopularCounts | controllers/tags-controller.js:5-14 | each answered tag's count is its number of occurrences across posts, at least 1 |
| Tags.PopularOccur | controllers/tags-controller.js:5-14 | each answered tag is carried by some post |
| Tags.Popular | controllers/tags-controller.js:5-15 | five groups, or all distinct tags when there are fewer, sorted by count, highest first |
| Tags.PopularOrdered | controllers/tags-controller.js:13 | counts are non-increasing |
| Tags.PopularUnique | controllers/tags-controller.js:7-12 | no tag is answered twice |
| Tags.PopularTop | controllers/tags-controller.js:13-14 | a tag left out occurs no more often than any answered tag |
| Upload.GetArrayFrom | controllers/post-controller.js:705-713 | nothing for no files, a one-element list for one file, the array itself (same length and entries) for many |
| Upload.MissingFrom | service/post-service.js:55-59 | the first file at or after `k` without an `imagesInfo` entry, or the end |
| Upload.SlotMonotone | service/post-service.js:23-36 | the preview cursor never goes back and advances past each video |
| Upload.PreviewPairing | service/post-service.js:23-36 | distinct videos read distinct previews, in order |
| Upload.EverySlotRead | service/post-service.js:23-36 | every preview the cursor passes was read by some earlier video |
| Upload.RecordShape | service/post-service.js:19-69 | a document is a video exactly when its extension is; has a preview exactly when it is a video with a preview left, named `preview<url>.jpg`; defaults aspect ratio 0 and caption ""; no tags unless listed for its file |
| Upload.FirstTaggedIs | service/post-service.js:39-41 | `find` picks the first `taggedImages` entry for the file |
| Upload.TaggedForFirst | service/post-service.js:38-53 | the tagged users are that entry's people, one per person, in order |
| Upload.CollectTaggedUsers | service/post-service.js:44-52 | the loop builds one tagged user per person, in order |
| Upload.TaggedUsersFor | service/post-service.js:38-53 | the tagged users of a file as the `find` and the loop compute them |
| Upload.RunShape | service/post-service.js:16-74 | after the loop, it failed exactly when a file lacks an `imagesInfo` entry; then one document per file before the first such file was created, and every move up to and including that file was done; otherwise one document per file |
| Upload.StepShape | service/post-service.js:16-74 | one pass: the file (and its preview) are moved, and a document with the next id is created exactly when the file has an entry |
| Upload.RunStays | service/post-service.js:16-74 | nothing happens after the throw |
| Upload.RunIds | service/post-service.js:61-71 | the created documents take consecutive ids |
| Upload.CreatedAt | service/post-service.js:61-71 | the j-th created document is the j-th file's record |
| Upload.StoreFile | service/post-service.js:19-74 | one pass of the loop on the store performs one `Step` |
| Upload.Pass | service/post-service.js:16-74 | one pass moves the store from `Run(k)` to `Run(k + 1)` |
| Upload.Passes | service/post-service.js:16-74 | the loop leaves the store with `Run`'s documents appended, its writes logged and its ids collected |
| Upload.CreateMultimedia | service/post-service.js:8-78 | `Valid` kept; only multimedia are appended, as `Run` computes; the ids of all created documents, or a failure when a file has no `imagesInfo` entry |
| Upload.CreateOneMultimedia | service/post-service.js:80-134 | `Valid` kept; one document appended under the next id; the file moved, with its thumbnail as preview when it is a video and a thumbnail was sent |

## Left out

- File contents and the file system: moves are a write log of (stored name, file) pairs; the unlinks of the cascade are modelled only as far as their names go.
- Store.Store.RemovePost: an unlink also throws when the file is missing from disk, or cannot be removed, with the same 500 and partial cascade; the model has no file system, so only the empty-name case (`Cascade.UnlinkFails`) is captured, and an author's removal whose files are all named succeeds in the model even if a file is missing.
- `create`, `update`, `createReply` and the user controllers: they are not part of this model.
- Users and the `$lookup` of authors' names and avatars: views carry the user id only.
- Store.Store.RemovePost: the cascade's `.then` chains run without being awaited and in no fixed order; the model runs them to completion in sequence before answering, and states only the final state.
- Feed.GetComments: `$sort` is not stable and `$group` order is unspecified; the model fixes one order, and the contracts promise only that the answer is a page of some sorted permutation, not which one among equal keys; likewise for Feed.GetAll and Tags.Popular.
- Requests are handled one at a time. The handlers' reads and writes are not atomic, and the likes collection has no unique index on (voter, target), so two concurrent toggles by one voter can leave two rows; the model does not capture this, and `Store.Valid` excludes such duplicates.
- Tags.PopularTop: ties at the fifth place are broken by the model's order, not by MongoDB's.
- Query strings are numbers (`page`, `limit`) or absent; a non-numeric string, which would make `$skip` NaN, is not modelled.
- `left`/`top` of a tagged person stay the strings the client sent; their number conversion is not modelled.
- `like` in the request body is taken to be a boolean.
- Store.Store.LikeCommentByAuthor: the 404 branch is unreachable (the author resolves only through an existing comment) and is not modelled; likewise for Store.Store.LikeReplyByAuthor.
- MongoDB errors other than those named (the 500 of an invalid `$skip`/`$limit`, an empty `$sort`, a single tag string given to `$in`) are not modelled.
- `v4()`, `getExtension` and `isVideoFile` are parameters (`Env`); the clock is the `now` parameter; the id counter stands for ObjectId generation.
- Upload.CreateMultimedia: one `now` stamps every document of a request, whereas each `create` takes its own time after an awaited move; so the model does not capture that a new post's images, sorted by `createdAt` descending in `imagesInfo`, normally come in reverse upload order (Feed.ImagesOf then promises only some order among equal times).
- Feed.GetReplies: `mongoose.Types.ObjectId(req.params)` is taken to read the `id` field of the params object, as the bson 4.x driver does; with a driver that rejects an object argument every `getReplies` would answer 500, which is not modelled.
- JavaScript numbers: counts are unbounded naturals and the aspect ratio a `real`.
