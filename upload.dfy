/** service/post-service.js: storing uploaded files as multimedia documents. File contents and
    the file system are not modelled; every `mv` appears as one entry of a write log, the
    destination name paired with the uploaded file moved there. */
module Upload {
  import opened Wrappers
  import opened Seqs
  import opened Records
  import opened Store

  /** An uploaded file, known by its client-side name. */
  datatype File = File(name: string)

  /** `req.files?.images`: absent, a single file, or an array of files. */
  datatype Files = NoFiles | OneFile(file: File) | FileList(files: seq<File>)

  /** `getArrayFrom`: absent input gives no files, a single file a one-element list, an
      array a copy of itself. */
  function GetArrayFrom(x: Files): (r: seq<File>)
    ensures |r| == match x { case NoFiles => 0 case OneFile(_) => 1 case FileList(fs) => |fs| }
    ensures forall f :: f in r <==> (x.OneFile? && f == x.file) || (x.FileList? && f in x.files)
    ensures x.FileList? ==> forall k :: 0 <= k < |r| ==> r[k] == x.files[k]
  {
    match x
    case NoFiles => []
    case OneFile(f) => [f]
    case FileList(fs) => fs
  }

  /** What the service reaches outside this model: `getExtension`, `isVideoFile` and the
      k-th `v4()` of one request. */
  datatype Env = Env(extensionOf: string -> string, isVideoExt: string -> bool, uuid: nat -> string)

  /** One entry of `taggedPeople`: the pixel offsets as the client rendered them and the user. */
  datatype TaggedPerson = TaggedPerson(left: string, top: string, id: Option<Id>)

  /** One entry of `taggedImages`: the client-side file name and the people tagged on it. */
  datatype TaggedImage = TaggedImage(id: string, taggedPeople: seq<TaggedPerson>)

  /** One entry of `imagesInfo`. */
  datatype ImageInfo = ImageInfo(id: string, aspectRatio: Option<real>, caption: Option<string>)

  /** The arguments of `createMultimedia`. */
  datatype Upload = Upload(files: seq<File>, previews: seq<File>, taggedImages: seq<TaggedImage>,
                           userId: Id, imagesInfo: seq<ImageInfo>)

  /** The stored name of the k-th file: a fresh uuid with the original extension. */
  function StoredName(env: Env, k: nat, f: File): string
  {
    env.uuid(k) + "." + env.extensionOf(f.name)
  }

  predicate IsVideo(env: Env, f: File)
  {
    env.isVideoExt(env.extensionOf(f.name))
  }

  function PreviewName(fileName: string): string
  {
    "preview" + fileName + ".jpg"
  }

  /** How many of the first k files are videos. */
  function VideosBefore(env: Env, fs: seq<File>, k: nat): nat
    requires k <= |fs|
  {
    if k == 0 then 0 else VideosBefore(env, fs, k - 1) + (if IsVideo(env, fs[k - 1]) then 1 else 0)
  }

  /** The preview slot file k reads: the number of videos before it. */
  function Slot(env: Env, u: Upload, k: nat): nat
    requires k <= |u.files|
  {
    VideosBefore(env, u.files, k)
  }

  predicate HasPreview(env: Env, u: Upload, k: nat)
    requires k < |u.files|
  {
    IsVideo(env, u.files[k]) && Slot(env, u, k) < |u.previews|
  }

  /** `{location: {x: left, y: top}, userId: _id}` for each person, in order. */
  function TaggedFrom(people: seq<TaggedPerson>): seq<TaggedUser>
  {
    seq(|people|, j requires 0 <= j < |people| => TaggedUser(people[j].left, people[j].top, people[j].id))
  }

  /** `taggedUsers.find(item => item.id === name)`. */
  function FirstTagged(images: seq<TaggedImage>, name: string): Option<TaggedImage>
  {
    if images == [] then None
    else if images[0].id == name then Some(images[0])
    else FirstTagged(images[1..], name)
  }

  /** The people of the first tagged image whose `id` is the file's name, or nobody. */
  function TaggedFor(images: seq<TaggedImage>, name: string): seq<TaggedUser>
  {
    match FirstTagged(images, name)
    case None => []
    case Some(t) => TaggedFrom(t.taggedPeople)
  }

  /** The first `imagesInfo` entry whose `id` is the file's name. */
  function InfoFor(infos: seq<ImageInfo>, name: string): Option<ImageInfo>
  {
    if infos == [] then None
    else if infos[0].id == name then Some(infos[0])
    else InfoFor(infos[1..], name)
  }

  /** The index of the first file from k on without an `imagesInfo` entry, or the number of files. */
  function MissingFrom(u: Upload, k: nat): (m: nat)
    requires k <= |u.files|
    ensures k <= m <= |u.files|
    ensures forall j :: k <= j < m ==> InfoFor(u.imagesInfo, u.files[j].name).Some?
    ensures m < |u.files| ==> InfoFor(u.imagesInfo, u.files[m].name).None?
    decreases |u.files| - k
  {
    if k == |u.files| || InfoFor(u.imagesInfo, u.files[k].name).None? then k else MissingFrom(u, k + 1)
  }

  function FirstMissing(u: Upload): nat
  {
    MissingFrom(u, 0)
  }

  /** The document `MultimediaSchema.create` receives for file k (id still to be assigned). */
  function Record(env: Env, u: Upload, k: nat, info: ImageInfo, now: nat): Multimedia
    requires k < |u.files|
  {
    var f := u.files[k];
    var name := StoredName(env, k, f);
    Multimedia(0, u.userId, name, if HasPreview(env, u, k) then PreviewName(name) else "",
               IsVideo(env, f), Some(info.caption.GetOr("")), TaggedFor(u.taggedImages, f.name),
               Some(info.aspectRatio.GetOr(0.0)), 0, None, now)
  }

  /** The documents created for the first k files, with ids `n0`, `n0 + 1`, .... */
  function Created(env: Env, u: Upload, n0: nat, now: nat, k: nat): seq<Multimedia>
    requires k <= FirstMissing(u)
  {
    if k == 0 then []
    else
      Created(env, u, n0, now, k - 1)
      + [Record(env, u, k - 1, InfoFor(u.imagesInfo, u.files[k - 1].name).value, now).(id := n0 + k - 1)]
  }

  /** The moves of file k: the file itself, then its preview when it has one. */
  function Saved(env: Env, u: Upload, k: nat): seq<(string, File)>
    requires k < |u.files|
  {
    var name := StoredName(env, k, u.files[k]);
    [(name, u.files[k])]
    + if HasPreview(env, u, k) then [(PreviewName(name), u.previews[Slot(env, u, k)])] else []
  }

  function Writes(env: Env, u: Upload, k: nat): seq<(string, File)>
    requires k <= |u.files|
  {
    if k == 0 then [] else Writes(env, u, k - 1) + Saved(env, u, k - 1)
  }

  /** The preview counter only grows, and strictly across a video. */
  lemma {:induction false} SlotMonotone(env: Env, u: Upload, a: nat, b: nat)
    requires a <= b <= |u.files|
    ensures Slot(env, u, a) <= Slot(env, u, b)
    ensures a < b && IsVideo(env, u.files[a]) ==> Slot(env, u, a) < Slot(env, u, b)
    decreases b - a
  {
    if a < b {
      SlotMonotone(env, u, a + 1, b);
    }
  }

  /** Videos read distinct preview slots, in upload order, all below the number of videos. */
  lemma PreviewPairing(env: Env, u: Upload, a: nat, b: nat)
    requires a < b < |u.files| && IsVideo(env, u.files[a]) && IsVideo(env, u.files[b])
    ensures Slot(env, u, a) < Slot(env, u, b) < Slot(env, u, |u.files|)
  {
    SlotMonotone(env, u, a, b);
    SlotMonotone(env, u, b, |u.files|);
  }

  /** Every slot below the number of videos is read by exactly the video with that many
      videos before it: the j-th video is paired with `previews[j]`. */
  lemma {:induction false} EverySlotRead(env: Env, u: Upload, n: nat, j: nat)
    requires n <= |u.files| && j < Slot(env, u, n)
    ensures exists k :: 0 <= k < n && IsVideo(env, u.files[k]) && Slot(env, u, k) == j
  {
    if j < Slot(env, u, n - 1) {
      EverySlotRead(env, u, n - 1, j);
    } else {
      assert IsVideo(env, u.files[n - 1]) && Slot(env, u, n - 1) == j;
    }
  }

  /** A created document's fields, as the service promises them. */
  lemma RecordShape(env: Env, u: Upload, k: nat, info: ImageInfo, now: nat)
    requires k < |u.files|
    ensures var m := Record(env, u, k, info, now);
      && (m.isVideo <==> env.isVideoExt(env.extensionOf(u.files[k].name)))
      && (m.previewUrl != "" <==> m.isVideo && Slot(env, u, k) < |u.previews|)
      && (m.previewUrl != "" ==> m.previewUrl == "preview" + m.url + ".jpg")
      && (info.aspectRatio.None? ==> m.aspectRatio == Some(0.0))
      && (info.caption.None? ==> m.caption == Some(""))
      && ((forall t | t in u.taggedImages :: t.id != u.files[k].name) ==> m.taggedUsers == [])
  {
    var m := Record(env, u, k, info, now);
    assert m.previewUrl != "" ==> HasPreview(env, u, k);
    var name := u.files[k].name;
    if forall t | t in u.taggedImages :: t.id != name {
      FirstTaggedIs(u.taggedImages, name, |u.taggedImages|);
    }
  }

  /** The image `find` picks is the first one with that `id`; with none, nobody is tagged. */
  lemma {:induction false} FirstTaggedIs(images: seq<TaggedImage>, name: string, i: nat)
    requires i <= |images|
    requires forall j :: 0 <= j < i ==> images[j].id != name
    ensures i < |images| && images[i].id == name ==> FirstTagged(images, name) == Some(images[i])
    ensures i == |images| ==> FirstTagged(images, name).None?
  {
    if 0 < i {
      FirstTaggedIs(images[1..], name, i - 1);
    }
  }

  /** One tagged user per tagged person of the first matching image, in order. */
  lemma TaggedForFirst(images: seq<TaggedImage>, name: string, i: nat)
    requires i < |images| && images[i].id == name
    requires forall j :: 0 <= j < i ==> images[j].id != name
    ensures |TaggedFor(images, name)| == |images[i].taggedPeople|
    ensures forall j :: 0 <= j < |images[i].taggedPeople| ==>
      var p := images[i].taggedPeople[j];
      TaggedFor(images, name)[j] == TaggedUser(p.left, p.top, p.id)
  {
    FirstTaggedIs(images, name, i);
  }

  /** The `forEach` that builds `newTaggedUsers`. */
  method CollectTaggedUsers(people: seq<TaggedPerson>) returns (r: seq<TaggedUser>)
    ensures r == TaggedFrom(people)
    ensures |r| == |people|
    ensures forall j :: 0 <= j < |people| ==> r[j] == TaggedUser(people[j].left, people[j].top, people[j].id)
  {
    r := [];
    var j := 0;
    while j < |people|
      invariant 0 <= j <= |people| && |r| == j
      invariant forall q :: 0 <= q < j ==> r[q] == TaggedUser(people[q].left, people[q].top, people[q].id)
    {
      r := r + [TaggedUser(people[j].left, people[j].top, people[j].id)];
      j := j + 1;
    }
  }

  /** `taggedUsers.find(item => item.id === name)` followed by the `forEach` above. */
  method TaggedUsersFor(images: seq<TaggedImage>, name: string) returns (r: seq<TaggedUser>)
    ensures r == TaggedFor(images, name)
  {
    r := [];
    var candidate := FirstTagged(images, name);
    if candidate.Some? {
      r := CollectTaggedUsers(candidate.value.taggedPeople);
    }
  }

  /** The state of the `for await` loop of `createMultimedia` after some passes: the
      documents created, the moves made, the preview counter, and whether it has thrown. */
  datatype Progress = Progress(docs: seq<Multimedia>, writes: seq<(string, File)>, slot: nat, failed: bool)

  /** One pass over file k, with ids handed out from `n0` on: the moves of the file and,
      for a video, of the preview the counter points at; then the document, or the throw
      when `imagesInfo` has no entry for the file. */
  function Step(env: Env, u: Upload, n0: nat, now: nat, k: nat, p: Progress): Progress
    requires k < |u.files|
  {
    var f := u.files[k];
    var name := StoredName(env, k, f);
    var video := IsVideo(env, f);
    var preview := video && p.slot < |u.previews|;
    var moves := [(name, f)] + if preview then [(PreviewName(name), u.previews[p.slot])] else [];
    var slot := if video then p.slot + 1 else p.slot;
    match InfoFor(u.imagesInfo, f.name)
    case None => Progress(p.docs, p.writes + moves, slot, true)
    case Some(info) =>
      var m := Multimedia(n0 + |p.docs|, u.userId, name, if preview then PreviewName(name) else "",
                          video, Some(info.caption.GetOr("")), TaggedFor(u.taggedImages, f.name),
                          Some(info.aspectRatio.GetOr(0.0)), 0, None, now);
      Progress(p.docs + [m], p.writes + moves, slot, false)
  }

  /** The loop after its first k passes; once it has thrown, nothing more happens. */
  function Run(env: Env, u: Upload, n0: nat, now: nat, k: nat): Progress
    requires k <= |u.files|
  {
    if k == 0 then Progress([], [], 0, false)
    else
      var p := Run(env, u, n0, now, k - 1);
      if p.failed then p else Step(env, u, n0, now, k - 1, p)
  }

  /** What the loop has done after k passes, stated per file: the documents of the files
      before the first one without `imagesInfo`, each file's moves up to and including that
      one, the counter at the number of videos so far, and the throw exactly past it. */
  ghost predicate Shaped(env: Env, u: Upload, n0: nat, now: nat, k: nat, p: Progress)
    requires k <= |u.files|
  {
    var m := FirstMissing(u);
    && (p.failed <==> m < k)
    && |p.docs| == (if m < k then m else k)
    && p.docs == Created(env, u, n0, now, |p.docs|)
    && p.writes == Writes(env, u, if m < k then m + 1 else k)
    && (!p.failed ==> p.slot == Slot(env, u, k))
  }

  /** The loop after k passes has done what `Shaped` says. */
  lemma {:induction false} RunShape(env: Env, u: Upload, n0: nat, now: nat, k: nat)
    requires k <= |u.files|
    ensures var p := Run(env, u, n0, now, k);
      var m := FirstMissing(u);
      && (p.failed <==> m < k)
      && |p.docs| == (if m < k then m else k)
      && p.docs == Created(env, u, n0, now, |p.docs|)
      && p.writes == Writes(env, u, if m < k then m + 1 else k)
      && (!p.failed ==> p.slot == Slot(env, u, k))
  {
    if k > 0 {
      RunShape(env, u, n0, now, k - 1);
      var p := Run(env, u, n0, now, k - 1);
      assert Shaped(env, u, n0, now, k - 1, p);
      if p.failed {
        ShapedStays(env, u, n0, now, k, p);
      } else {
        ShapedStep(env, u, n0, now, k, p);
      }
      assert Shaped(env, u, n0, now, k, Run(env, u, n0, now, k));
    }
  }

  /** After the throw, a further pass keeps the shape. */
  lemma ShapedStays(env: Env, u: Upload, n0: nat, now: nat, k: nat, p: Progress)
    requires 0 < k <= |u.files| && Shaped(env, u, n0, now, k - 1, p) && p.failed
    ensures Shaped(env, u, n0, now, k, p)
  {
  }

  /** Before the throw, a pass over file k - 1 takes the shape one file further. */
  lemma ShapedStep(env: Env, u: Upload, n0: nat, now: nat, k: nat, p: Progress)
    requires 0 < k <= |u.files| && Shaped(env, u, n0, now, k - 1, p) && !p.failed
    ensures Shaped(env, u, n0, now, k, Step(env, u, n0, now, k - 1, p))
  {
    StepShape(env, u, n0, now, k - 1, p);
    MissingAt(u, k - 1);
    var q := Step(env, u, n0, now, k - 1, p);
    assert q.writes == Writes(env, u, k);
    if InfoFor(u.imagesInfo, u.files[k - 1].name).Some? {
      assert q.docs == Created(env, u, n0, now, k);
    } else {
      assert FirstMissing(u) == k - 1 && q.docs == p.docs;
    }
  }

  /** A pass with the counter at the number of videos so far makes file k's moves, moves
      the counter past file k, and adds file k's document unless its info is missing. */
  lemma StepShape(env: Env, u: Upload, n0: nat, now: nat, k: nat, p: Progress)
    requires k < |u.files| && p.slot == Slot(env, u, k)
    ensures var q := Step(env, u, n0, now, k, p);
      var info := InfoFor(u.imagesInfo, u.files[k].name);
      && q.writes == p.writes + Saved(env, u, k)
      && q.slot == Slot(env, u, k + 1)
      && (q.failed <==> info.None?)
      && (info.None? ==> q.docs == p.docs)
      && (info.Some? ==> q.docs == p.docs + [Record(env, u, k, info.value, now).(id := n0 + |p.docs|)])
  {
  }

  /** File k, reached without a missing info, is the first one missing iff it has none. */
  lemma MissingAt(u: Upload, k: nat)
    requires k < |u.files| && k <= FirstMissing(u)
    ensures InfoFor(u.imagesInfo, u.files[k].name).None? <==> FirstMissing(u) == k
  {
  }

  /** The documents after k passes carry the ids `n0`, `n0 + 1`, ... in order. */
  lemma RunIds(env: Env, u: Upload, n0: nat, now: nat, k: nat)
    requires k <= |u.files|
    ensures forall j :: 0 <= j < |Run(env, u, n0, now, k).docs| ==> Run(env, u, n0, now, k).docs[j].id == n0 + j
  {
    RunShape(env, u, n0, now, k);
    CreatedAt(env, u, n0, now, |Run(env, u, n0, now, k).docs|);
  }

  /** Once the loop has thrown, later passes change nothing. */
  lemma {:induction false} RunStays(env: Env, u: Upload, n0: nat, now: nat, k: nat, n: nat)
    requires k <= n <= |u.files| && Run(env, u, n0, now, k).failed
    ensures Run(env, u, n0, now, n) == Run(env, u, n0, now, k)
    decreases n - k
  {
    if k < n {
      RunStays(env, u, n0, now, k + 1, n);
    }
  }

  /** The k-th created document is file k's, with id `n0 + k`. */
  lemma {:induction false} CreatedAt(env: Env, u: Upload, n0: nat, now: nat, k: nat)
    requires k <= FirstMissing(u)
    ensures |Created(env, u, n0, now, k)| == k
    ensures forall j :: 0 <= j < k ==>
      Created(env, u, n0, now, k)[j]
        == Record(env, u, j, InfoFor(u.imagesInfo, u.files[j].name).value, now).(id := n0 + j)
  {
    if k > 0 {
      CreatedAt(env, u, n0, now, k - 1);
    }
  }

  /** The ids `n0`, ..., `n0 + k - 1` in order. */
  function IdsFrom(n0: nat, k: nat): (r: seq<Id>)
    ensures |r| == k
  {
    if k == 0 then [] else IdsFrom(n0, k - 1) + [n0 + k - 1]
  }
  /** `IdsFrom(n0, k)` lists exactly the ids `n0 + j`, position by position. */
  lemma {:induction false} IdsFromAt(n0: nat, k: nat)
    ensures forall j :: 0 <= j < k ==> IdsFrom(n0, k)[j] == n0 + j
  {
    if k > 0 {
      IdsFromAt(n0, k - 1);
    }
  }

  /** One pass of the `for await` loop of `createMultimedia`, over file k with the preview
      counter at `i`, the moves so far in `log` and the ids so far in `ids`, as `Step`
      describes it. `base` is the multimedia before the first pass, and ids count from `n0`. */
  method StoreFile(store: Store, env: Env, u: Upload, k: nat, i: nat, now: nat,
                   log: seq<(string, File)>, ids: seq<Id>, ghost base: seq<Multimedia>, ghost n0: nat, ghost p: Progress)
    returns (writes: seq<(string, File)>, ids': seq<Id>, ok: bool, next: nat)
    requires k < |u.files| && !p.failed && i == p.slot && log == p.writes
    requires store.media == base + p.docs && store.nextId == n0 + |p.docs| && ids == IdsFrom(n0, |p.docs|)
    modifies store`media, store`nextId
    ensures var q := Step(env, u, n0, now, k, p);
      && writes == q.writes && next == q.slot && (ok <==> !q.failed)
      && store.media == base + q.docs && store.nextId == n0 + |q.docs| && ids' == IdsFrom(n0, |q.docs|)
  {
    var file := u.files[k];
    var extension := env.extensionOf(file.name);
    var fileName := env.uuid(k) + "." + extension;
    var moved := [(fileName, file)];
    var previewFileName := "";
    var isVideo := false;
    next := i;
    if env.isVideoExt(extension) {
      isVideo := true;
      var slot := next;
      next := next + 1;
      if slot < |u.previews| {
        previewFileName := "preview" + fileName + ".jpg";
        moved := moved + [(previewFileName, u.previews[slot])];
      }
    }
    writes := log + moved;
    var newTaggedUsers := TaggedUsersFor(u.taggedImages, file.name);
    var info := InfoFor(u.imagesInfo, file.name);
    if info.None? {
      return writes, ids, false, next;
    }
    var aspectRatio := info.value.aspectRatio.GetOr(0.0);
    var caption := info.value.caption.GetOr("");
    var draft := Multimedia(0, u.userId, fileName, previewFileName, isVideo, Some(caption),
                            newTaggedUsers, Some(aspectRatio), 0, None, now);
    ghost var docs := Step(env, u, n0, now, k, p).docs;
    assert docs == p.docs + [draft.(id := n0 + |p.docs|)];
    assert base + docs == base + p.docs + [draft.(id := n0 + |p.docs|)];
    var created := store.InsertMultimedia(draft);
    ids' := ids + [created];
    ok := true;
  }

  /** `StoreFile` as the loop sees it: from the loop after k passes to the loop after k + 1. */
  method Pass(store: Store, env: Env, u: Upload, k: nat, i: nat, now: nat,
              log: seq<(string, File)>, ids: seq<Id>, ghost base: seq<Multimedia>, ghost n0: nat)
    returns (writes: seq<(string, File)>, ids': seq<Id>, ok: bool, next: nat)
    requires k < |u.files| && !Run(env, u, n0, now, k).failed
    requires i == Run(env, u, n0, now, k).slot && log == Run(env, u, n0, now, k).writes
    requires store.media == base + Run(env, u, n0, now, k).docs
    requires store.nextId == n0 + |Run(env, u, n0, now, k).docs|
    requires ids == IdsFrom(n0, |Run(env, u, n0, now, k).docs|)
    modifies store`media, store`nextId
    ensures ok == !Run(env, u, n0, now, k + 1).failed
    ensures next == Run(env, u, n0, now, k + 1).slot && writes == Run(env, u, n0, now, k + 1).writes
    ensures store.media == base + Run(env, u, n0, now, k + 1).docs
    ensures store.nextId == n0 + |Run(env, u, n0, now, k + 1).docs|
    ensures ids' == IdsFrom(n0, |Run(env, u, n0, now, k + 1).docs|)
  {
    writes, ids', ok, next := StoreFile(store, env, u, k, i, now, log, ids, base, n0, Run(env, u, n0, now, k));
  }

  /** The `for await` loop of `createMultimedia`: one `Step` per file, stopping at the first
      throw (`ok` false), with the ids created so far in `ids`. */
  method Passes(store: Store, env: Env, u: Upload, now: nat)
    returns (ids: seq<Id>, writes: seq<(string, File)>, ok: bool)
    modifies store`media, store`nextId
    ensures var p := Run(env, u, old(store.nextId), now, |u.files|);
      && store.media == old(store.media) + p.docs && store.nextId == old(store.nextId) + |p.docs|
      && writes == p.writes && (ok <==> !p.failed) && ids == IdsFrom(old(store.nextId), |p.docs|)
  {
    ghost var n0 := store.nextId;
    ghost var base := store.media;
    ids := [];
    writes := [];
    ok := true;
    var i := 0;
    var k := 0;
    ghost var p := Run(env, u, n0, now, 0);
    while k < |u.files| && ok
      invariant 0 <= k <= |u.files| && p == Run(env, u, n0, now, k) && ok == !p.failed
      invariant i == p.slot && writes == p.writes && ids == IdsFrom(n0, |p.docs|)
      invariant store.media == base + p.docs && store.nextId == n0 + |p.docs|
    {
      writes, ids, ok, i := Pass(store, env, u, k, i, now, writes, ids, base, n0);
      k := k + 1;
      p := Run(env, u, n0, now, k);
    }
    if !ok {
      RunStays(env, u, n0, now, k, |u.files|);
    }
  }

  /** `createMultimedia`: the passes, answering 500 when one throws (a file without an
      `imagesInfo` entry, after its moves and before its document, leaving the earlier
      documents in place), and the new ids in upload order otherwise. `RunShape` states per
      file what the passes amount to. */
  method CreateMultimedia(store: Store, env: Env, u: Upload, now: nat)
    returns (r: Result<seq<Id>>, writes: seq<(string, File)>)
    requires store.Valid()
    modifies store
    ensures store.Valid()
    ensures store.posts == old(store.posts) && store.comments == old(store.comments)
    ensures store.replies == old(store.replies) && store.likes == old(store.likes)
    ensures var p := Run(env, u, old(store.nextId), now, |u.files|);
      && store.media == old(store.media) + p.docs && store.nextId == old(store.nextId) + |p.docs|
      && writes == p.writes
      && (p.failed ==> r == Err(500))
      && (!p.failed ==> r == Ok(IdsFrom(old(store.nextId), |p.docs|)))
  {
    ghost var db0 := store.State();
    ghost var n0 := store.nextId;
    var ids, ok;
    ids, writes, ok := Passes(store, env, u, now);
    RunIds(env, u, n0, now, |u.files|);
    AppendFreshMedia(db0, n0, Run(env, u, n0, now, |u.files|).docs);
    r := if ok then Ok(ids) else Err(500);
  }

  /** The document `createOneMultimedia` creates: aspect ratio and caption as given. */
  function OneRecord(env: Env, image: File, thumbnail: Option<File>, images: seq<TaggedImage>,
                     userId: Id, aspectRatio: Option<real>, caption: Option<string>, now: nat): Multimedia
  {
    var name := StoredName(env, 0, image);
    Multimedia(0, userId, name,
               if IsVideo(env, image) && thumbnail.Some? then PreviewName(name) else "",
               IsVideo(env, image), caption, TaggedFor(images, image.name), aspectRatio, 0, None, now)
  }

  /** `createOneMultimedia`: one file, with its own thumbnail if it is a video. */
  method CreateOneMultimedia(store: Store, env: Env, image: File, thumbnail: Option<File>,
                             images: seq<TaggedImage>, userId: Id, aspectRatio: Option<real>,
                             caption: Option<string>, now: nat)
    returns (id: Id, writes: seq<(string, File)>)
    requires store.Valid()
    modifies store
    ensures store.Valid() && id == old(store.nextId) && store.nextId == id + 1
    ensures store.State() == old(store.State()).(media := old(store.media)
      + [OneRecord(env, image, thumbnail, images, userId, aspectRatio, caption, now).(id := id)])
    ensures var name := StoredName(env, 0, image);
      writes == [(name, image)]
        + if IsVideo(env, image) && thumbnail.Some? then [(PreviewName(name), thumbnail.value)] else []
  {
    var extension := env.extensionOf(image.name);
    var fileName := env.uuid(0) + "." + extension;
    writes := [(fileName, image)];
    var isVideo := env.isVideoExt(extension);
    var thumbnailFileName := "";
    if isVideo {
      if thumbnail.Some? {
        thumbnailFileName := "preview" + fileName + ".jpg";
        writes := writes + [(thumbnailFileName, thumbnail.value)];
      }
    }
    var newTaggedUsers := TaggedUsersFor(images, image.name);
    id := store.InsertMultimedia(Multimedia(0, userId, fileName, thumbnailFileName, isVideo, caption,
                                            newTaggedUsers, aspectRatio, 0, None, now));
  }
}
