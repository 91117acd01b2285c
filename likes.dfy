/** Like/dislike rows: the toggle every like handler performs and the recount it answers with. */
module Likes {
  import opened Wrappers
  import opened Seqs
  import opened Records

  /** Whether row `l` is a vote of polarity `pol` on `t`. */
  function Hit(l: Like, t: Ref, pol: bool): nat
  {
    if l.target == t && l.like == pol then 1 else 0
  }

  /** The number of rows of polarity `pol` on `t` (the `$size` of `likesInfo` or `dislikesInfo`). */
  function Tally(ls: seq<Like>, t: Ref, pol: bool): nat
  {
    if ls == [] then 0 else Hit(ls[0], t, pol) + Tally(ls[1..], t, pol)
  }

  /** Whether `viewer` has a row of polarity `pol` on `t` (`$in: [userId, 'likesInfo.userId']`). */
  predicate Voted(ls: seq<Like>, viewer: Id, t: Ref, pol: bool)
  {
    exists l | l in ls :: l.userId == viewer && l.target == t && l.like == pol
  }

  /** The polarity of the row `findOne({userId, <target>})` finds, if any. */
  function VoteOf(ls: seq<Like>, voter: Id, t: Ref): Option<bool>
  {
    match Find(ls, VoteKey, (voter, t))
    case None => None
    case Some(i) => Some(ls[i].like)
  }

  /** The rows after a like request: no row yet creates one with id `newId`; a row of the
      same polarity is removed; a row of the other polarity is flipped and saved in place. */
  function Toggled(ls: seq<Like>, voter: Id, t: Ref, like: bool, newId: Id): (r: seq<Like>)
    ensures forall l | VoteKey(l) != (voter, t) :: l in r <==> l in ls
    ensures forall l | l in r && l !in ls :: l.like == like && VoteKey(l) == (voter, t)
    ensures Distinct(ls, VoteKey) ==>
      forall l | l in ls && VoteKey(l) == (voter, t) && l.like != like :: l.(like := like) in r
  {
    match Find(ls, VoteKey, (voter, t))
    case None => ls + [Like(newId, like, voter, t)]
    case Some(i) =>
      if ls[i].like == like then
        DistinctOnly(ls, VoteKey, i);
        RemoveAtKeeps(ls, i);
        ls[..i] + ls[i + 1..]
      else
        DistinctOnly(ls, VoteKey, i);
        UpdateAtKeeps(ls, i, ls[i].(like := like));
        assert ls[i := ls[i].(like := like)][i] == ls[i].(like := like);
        ls[i := ls[i].(like := like)]
  }

  /** The `$project` of the recount: both counts and the requester's own two flags. */
  datatype LikesInfo = LikesInfo(likesCount: nat, dislikesCount: nat, liked: bool, disliked: bool)

  function Summary(ls: seq<Like>, viewer: Id, t: Ref): (r: LikesInfo)
    ensures r.likesCount + r.dislikesCount == Count(ls, (l: Like) => l.target == t)
    ensures r.liked ==> r.likesCount >= 1
    ensures r.disliked ==> r.dislikesCount >= 1
  {
    TallyPolarities(ls, t);
    VotedCounted(ls, viewer, t, true);
    VotedCounted(ls, viewer, t, false);
    LikesInfo(Tally(ls, t, true), Tally(ls, t, false), Voted(ls, viewer, t, true), Voted(ls, viewer, t, false))
  }

  lemma {:induction false} TallyConcat(a: seq<Like>, b: seq<Like>, t: Ref, pol: bool)
    ensures Tally(a + b, t, pol) == Tally(a, t, pol) + Tally(b, t, pol)
  {
    if a == [] {
      assert a + b == b;
    } else {
      assert (a + b)[0] == a[0];
      assert (a + b)[1..] == a[1..] + b;
      TallyConcat(a[1..], b, t, pol);
    }
  }

  lemma TallyAt(ls: seq<Like>, i: nat, t: Ref, pol: bool)
    requires i < |ls|
    ensures Tally(ls, t, pol) == Tally(ls[..i], t, pol) + Hit(ls[i], t, pol) + Tally(ls[i + 1..], t, pol)
  {
    var x := ls[i];
    assert ls == ls[..i] + ([x] + ls[i + 1..]);
    TallyConcat(ls[..i], [x] + ls[i + 1..], t, pol);
    TallyConcat([x], ls[i + 1..], t, pol);
    assert [x][1..] == [];
  }

  /** A voter's own row is among those counted. */
  lemma VotedCounted(ls: seq<Like>, viewer: Id, t: Ref, pol: bool)
    ensures Voted(ls, viewer, t, pol) ==> Tally(ls, t, pol) >= 1
  {
    if Voted(ls, viewer, t, pol) {
      var l :| l in ls && l.userId == viewer && l.target == t && l.like == pol;
      var i :| 0 <= i < |ls| && ls[i] == l;
      TallyAt(ls, i, t, pol);
    }
  }

  /** Every row is a like or a dislike: the two counts add up to the rows on `t`. */
  lemma {:induction false} TallyPolarities(ls: seq<Like>, t: Ref)
    ensures Tally(ls, t, true) + Tally(ls, t, false) == Count(ls, (l: Like) => l.target == t)
  {
    if ls != [] {
      TallyPolarities(ls[1..], t);
    }
  }

  /** With one row per (voter, target), `liked`/`disliked` report exactly the voter's row. */
  lemma VotedIffVote(ls: seq<Like>, viewer: Id, t: Ref, pol: bool)
    requires Distinct(ls, VoteKey)
    ensures Voted(ls, viewer, t, pol) <==> VoteOf(ls, viewer, t) == Some(pol)
  {
    if Voted(ls, viewer, t, pol) {
      var l :| l in ls && l.userId == viewer && l.target == t && l.like == pol;
      var j :| 0 <= j < |ls| && ls[j] == l;
      FindDistinct(ls, VoteKey, j);
    }
  }

  /** A requester is never reported as both liking and disliking the same document. */
  lemma NeverBoth(ls: seq<Like>, viewer: Id, t: Ref)
    requires Distinct(ls, VoteKey)
    ensures !(Summary(ls, viewer, t).liked && Summary(ls, viewer, t).disliked)
  {
    VotedIffVote(ls, viewer, t, true);
    VotedIffVote(ls, viewer, t, false);
  }

  /** The toggle: the requester's vote on `t` becomes `like`, unless it already was `like`,
      in which case it is withdrawn; rows stay one per (voter, target) and ids stay unique. */
  lemma ToggleVote(ls: seq<Like>, voter: Id, t: Ref, like: bool, newId: Id)
    requires Distinct(ls, VoteKey) && Distinct(ls, LikeId)
    requires forall l | l in ls :: l.id != newId
    ensures Distinct(Toggled(ls, voter, t, like, newId), VoteKey)
    ensures Distinct(Toggled(ls, voter, t, like, newId), LikeId)
    ensures VoteOf(Toggled(ls, voter, t, like, newId), voter, t)
      == if VoteOf(ls, voter, t) == Some(like) then None else Some(like)
    ensures |Toggled(ls, voter, t, like, newId)|
      == match VoteOf(ls, voter, t)
         case None => |ls| + 1
         case Some(p) => if p == like then |ls| - 1 else |ls|
  {
    var k := (voter, t);
    var r := Toggled(ls, voter, t, like, newId);
    match Find(ls, VoteKey, k)
    case None =>
      var x := Like(newId, like, voter, t);
      DistinctAppend(ls, x, VoteKey);
      DistinctAppend(ls, x, LikeId);
      FindDistinct(r, VoteKey, |ls|);
    case Some(i) =>
      if ls[i].like == like {
        DistinctRemove(ls, i, VoteKey);
        DistinctRemove(ls, i, LikeId);
        forall j | 0 <= j < |r| ensures VoteKey(r[j]) != k {
          if j < i { assert r[j] == ls[j]; } else { assert r[j] == ls[j + 1]; }
        }
      } else {
        DistinctUpdate(ls, i, ls[i].(like := like), VoteKey);
        DistinctUpdate(ls, i, ls[i].(like := like), LikeId);
        FindDistinct(r, VoteKey, i);
      }
  }

  /** Nobody else's vote changes: rows for every other (voter, target) pair are as before. */
  lemma ToggleOthers(ls: seq<Like>, voter: Id, t: Ref, like: bool, newId: Id)
    requires Distinct(ls, VoteKey)
    ensures forall u: Id, s: Ref, p: bool | (u, s) != (voter, t) ::
      Voted(Toggled(ls, voter, t, like, newId), u, s, p) <==> Voted(ls, u, s, p)
  {
    var r := Toggled(ls, voter, t, like, newId);
    forall u: Id, s: Ref, p: bool | (u, s) != (voter, t)
      ensures Voted(r, u, s, p) <==> Voted(ls, u, s, p)
    {
      if Voted(r, u, s, p) {
        var l :| l in r && l.userId == u && l.target == s && l.like == p;
        assert VoteKey(l) != (voter, t);
      }
      if Voted(ls, u, s, p) {
        var l :| l in ls && l.userId == u && l.target == s && l.like == p;
        assert VoteKey(l) != (voter, t);
      }
    }
  }

  /** The recount after a toggle: on `t`, each polarity's count moves exactly as the
      requester's vote moved; the counts on every other document are unchanged. */
  lemma ToggleTally(ls: seq<Like>, voter: Id, t: Ref, like: bool, newId: Id, pol: bool)
    requires Distinct(ls, VoteKey) && Distinct(ls, LikeId)
    requires forall l | l in ls :: l.id != newId
    ensures Tally(Toggled(ls, voter, t, like, newId), t, pol)
              + (if VoteOf(ls, voter, t) == Some(pol) then 1 else 0)
         == Tally(ls, t, pol)
              + (if VoteOf(Toggled(ls, voter, t, like, newId), voter, t) == Some(pol) then 1 else 0)
    ensures forall s | s != t :: Tally(Toggled(ls, voter, t, like, newId), s, pol) == Tally(ls, s, pol)
  {
    ToggleVote(ls, voter, t, like, newId);
    var r := Toggled(ls, voter, t, like, newId);
    match Find(ls, VoteKey, (voter, t))
    case None =>
      var x := Like(newId, like, voter, t);
      forall s ensures Tally(r, s, pol) == Tally(ls, s, pol) + Hit(x, s, pol) {
        TallyConcat(ls, [x], s, pol);
        assert [x][1..] == [];
      }
    case Some(i) =>
      if ls[i].like == like {
        forall s ensures Tally(r, s, pol) + Hit(ls[i], s, pol) == Tally(ls, s, pol) {
          TallyAt(ls, i, s, pol);
          TallyConcat(ls[..i], ls[i + 1..], s, pol);
        }
      } else {
        forall s ensures Tally(r, s, pol) + Hit(ls[i], s, pol) == Tally(ls, s, pol) + Hit(r[i], s, pol) {
          TallyAt(ls, i, s, pol);
          TallyAt(r, i, s, pol);
          assert r[..i] == ls[..i] && r[i + 1..] == ls[i + 1..];
        }
      }
  }

  /** Sending the same request twice leaves the requester's vote as `like` if it was
      `like` before, and withdrawn otherwise. */
  lemma ToggleTwice(ls: seq<Like>, voter: Id, t: Ref, like: bool, id1: Id, id2: Id)
    requires Distinct(ls, VoteKey) && Distinct(ls, LikeId)
    requires forall l | l in ls :: l.id != id1 && l.id != id2
    requires id1 != id2
    ensures VoteOf(Toggled(Toggled(ls, voter, t, like, id1), voter, t, like, id2), voter, t)
      == if VoteOf(ls, voter, t) == Some(like) then Some(like) else None
  {
    ToggleVote(ls, voter, t, like, id1);
    var r := Toggled(ls, voter, t, like, id1);
    assert forall l | l in r :: l.id != id2;
    ToggleVote(r, voter, t, like, id2);
  }

  /** The toggle introduces no id other than `newId`. */
  lemma ToggleIdsBelow(ls: seq<Like>, voter: Id, t: Ref, like: bool, newId: Id, bound: nat)
    requires forall l | l in ls :: l.id < bound
    requires Find(ls, VoteKey, (voter, t)).None? ==> newId < bound
    ensures forall l | l in Toggled(ls, voter, t, like, newId) :: l.id < bound
  {
    var r := Toggled(ls, voter, t, like, newId);
    forall l | l in r ensures l.id < bound {
      var j :| 0 <= j < |r| && r[j] == l;
      match Find(ls, VoteKey, (voter, t))
      case None =>
        if j < |ls| { assert r[j] == ls[j]; }
      case Some(i) =>
        if ls[i].like == like {
          if j < i { assert r[j] == ls[j]; } else { assert r[j] == ls[j + 1]; }
        } else {
          assert r[j].id == ls[j].id;
        }
    }
  }

  /** The toggle keeps a well-formed database well formed; a row it creates takes id `n`,
      which the caller's id counter then moves past. */
  lemma ToggledEffect(db: Db, voter: Id, t: Ref, like: bool, n: nat)
    requires WellFormed(db) && IdsBelow(db, n)
    ensures var r := db.(likes := Toggled(db.likes, voter, t, like, n));
      WellFormed(r) && IdsBelow(r, n + (if VoteOf(db.likes, voter, t).None? then 1 else 0))
  {
    ToggleVote(db.likes, voter, t, like, n);
    ToggleIdsBelow(db.likes, voter, t, like, n, n + (if VoteOf(db.likes, voter, t).None? then 1 else 0));
  }
}
