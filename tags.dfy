/** `getPopular`: unwind every post's `tags`, group equal tags with a count, sort by count
    descending and keep the first five. */
module Tags {
  import opened Seqs
  import opened Records
  import opened Ranking

  /** One `$group` output document: `{_id: tag, count}`. */
  datatype TagCount = TagCount(tag: string, count: nat)

  /** `$unwind: '$tags'`: every tag entry of every post, duplicates included. */
  function AllTags(posts: seq<Post>): seq<string>
  {
    if posts == [] then [] else posts[0].tags + AllTags(posts[1..])
  }

  /** How many entries of `xs` equal `t` (`count: {$sum: 1}`). */
  function Occurrences(xs: seq<string>, t: string): nat
  {
    if xs == [] then 0 else (if xs[0] == t then 1 else 0) + Occurrences(xs[1..], t)
  }

  predicate Unique(xs: seq<string>)
  {
    forall i, j :: 0 <= i < j < |xs| ==> xs[i] != xs[j]
  }

  /** The group keys: each distinct entry of `xs` once. */
  function Dedup(xs: seq<string>): (r: seq<string>)
    ensures forall t :: t in r <==> t in xs
    ensures Unique(r)
  {
    if xs == [] then []
    else
      var rest := Dedup(xs[1..]);
      if xs[0] in rest then rest else [xs[0]] + rest
  }

  /** `$group: {_id: '$tags', count: {$sum: 1}}`. */
  function Grouped(all: seq<string>): (r: seq<TagCount>)
  {
    var keys := Dedup(all);
    seq(|keys|, i requires 0 <= i < |keys| => TagCount(keys[i], Occurrences(all, keys[i])))
  }

  function CountKey(g: TagCount): seq<int> { [g.count] }

  /** The whole pipeline; `$group` order and ties of the sort are unspecified, here they
      fall as `Dedup` and the insertion sort leave them. */
  function Popular(posts: seq<Post>): (r: seq<TagCount>)
    ensures |r| == if |Dedup(AllTags(posts))| < 5 then |Dedup(AllTags(posts))| else 5
    ensures SortedBy(r, CountKey)
  {
    var s := SortDesc(Grouped(AllTags(posts)), CountKey);
    var r := Take(s, 5);
    assert forall i, j | 0 <= i < j < |r| :: r[i] == s[i] && r[j] == s[j];
    r
  }

  function Tags(r: seq<TagCount>): seq<string>
  {
    seq(|r|, i requires 0 <= i < |r| => r[i].tag)
  }

  lemma {:induction false} OccurrencesIn(xs: seq<string>, t: string)
    ensures Occurrences(xs, t) > 0 <==> t in xs
  {
    if xs != [] {
      OccurrencesIn(xs[1..], t);
      assert xs == [xs[0]] + xs[1..];
    }
  }

  lemma {:induction false} AllTagsIn(posts: seq<Post>, t: string)
    ensures t in AllTags(posts) <==> exists p | p in posts :: t in p.tags
  {
    if posts != [] {
      AllTagsIn(posts[1..], t);
      if t in AllTags(posts[1..]) {
        var p :| p in posts[1..] && t in p.tags;
        assert p in posts;
      }
      if exists p | p in posts :: t in p.tags {
        var p :| p in posts && t in p.tags;
        if p != posts[0] {
          var k :| 0 <= k < |posts| && posts[k] == p;
          assert posts[1..][k - 1] == p;
        }
      }
    }
  }

  /** Membership in the grouped sequence, as a (tag, count) pair. */
  lemma GroupedIn(all: seq<string>, g: TagCount)
    ensures g in Grouped(all) <==> g.tag in all && g.count == Occurrences(all, g.tag)
  {
    var keys := Dedup(all);
    var r := Grouped(all);
    if g.tag in all && g.count == Occurrences(all, g.tag) {
      var i :| 0 <= i < |keys| && keys[i] == g.tag;
      assert r[i] == g;
    }
  }

  /** Each reported count is the number of entries of its tag across all posts' `tags`,
      duplicates within one post included, and so at least one. */
  lemma PopularCounts(posts: seq<Post>)
    ensures forall g | g in Popular(posts) :: g.count == Occurrences(AllTags(posts), g.tag) && g.count >= 1
  {
    var all := AllTags(posts);
    var s := SortDesc(Grouped(all), CountKey);
    forall g | g in Popular(posts) ensures g.count == Occurrences(all, g.tag) && g.count >= 1 {
      assert g in s;
      assert g in multiset(Grouped(all));
      GroupedIn(all, g);
      OccurrencesIn(all, g.tag);
    }
  }

  /** Every reported tag occurs in some post. */
  lemma PopularOccur(posts: seq<Post>)
    ensures forall g | g in Popular(posts) :: exists p | p in posts :: g.tag in p.tags
  {
    var all := AllTags(posts);
    var s := SortDesc(Grouped(all), CountKey);
    forall g | g in Popular(posts) ensures exists p | p in posts :: g.tag in p.tags {
      assert g in s;
      assert g in multiset(Grouped(all));
      GroupedIn(all, g);
      AllTagsIn(posts, g.tag);
    }
  }

  /** Counts are non-increasing along the result. */
  lemma PopularOrdered(posts: seq<Post>)
    ensures var r := Popular(posts);
      forall i, j | 0 <= i < j < |r| :: r[i].count >= r[j].count
  {
    var s := SortDesc(Grouped(AllTags(posts)), CountKey);
    var r := Popular(posts);
    forall i, j | 0 <= i < j < |r| ensures r[i].count >= r[j].count {
      assert LexGe(CountKey(s[i]), CountKey(s[j]));
      LexGeHead(CountKey(s[i]), CountKey(s[j]));
    }
  }

  /** No tag is reported twice. */
  lemma PopularUnique(posts: seq<Post>)
    ensures Unique(Tags(Popular(posts)))
  {
    var all := AllTags(posts);
    var s := SortDesc(Grouped(all), CountKey);
    var r := Popular(posts);
    GroupedOnce(all);
    forall i, j | 0 <= i < j < |r| ensures r[i].tag != r[j].tag {
      assert r[i] in multiset(Grouped(all)) && r[j] in multiset(Grouped(all));
      GroupedIn(all, r[i]);
      GroupedIn(all, r[j]);
      TwoCopies(s, i, j);
    }
  }

  /** An element and a later equal one are two copies in the multiset. */
  lemma TwoCopies<T>(s: seq<T>, i: nat, j: nat)
    requires i < j < |s|
    ensures multiset(s)[s[i]] >= 1 + (if s[j] == s[i] then 1 else 0)
  {
    assert s == s[..j] + [s[j]] + s[j + 1..];
    assert s[i] in s[..j];
  }

  /** Every group appears once in the grouped sequence. */
  lemma GroupedOnce(all: seq<string>)
    ensures forall g :: multiset(Grouped(all))[g] <= 1
  {
    forall g ensures multiset(Grouped(all))[g] <= 1 {
      CountOnce(Grouped(all), g);
    }
  }

  lemma {:induction false} CountOnce(r: seq<TagCount>, g: TagCount)
    requires forall i, j | 0 <= i < j < |r| :: r[i].tag != r[j].tag
    ensures multiset(r)[g] <= 1
  {
    if r != [] {
      CountOnce(r[1..], g);
      assert r == [r[0]] + r[1..];
      if r[0] == g {
        forall k | 0 <= k < |r[1..]| ensures r[1..][k] != g {
          assert r[1..][k] == r[k + 1];
        }
      }
    }
  }

  /** A tag left out of the result is counted at most as often as every reported one. */
  lemma PopularTop(posts: seq<Post>, t: string)
    requires t in AllTags(posts) && t !in Tags(Popular(posts))
    ensures forall g | g in Popular(posts) :: Occurrences(AllTags(posts), t) <= g.count
  {
    var all := AllTags(posts);
    var s := SortDesc(Grouped(all), CountKey);
    var r := Popular(posts);
    var h := TagCount(t, Occurrences(all, t));
    GroupedIn(all, h);
    assert h in multiset(s);
    var j :| 0 <= j < |s| && s[j] == h;
    forall i | 0 <= i < |r| ensures r[i].tag != t {
      assert Tags(r)[i] == r[i].tag;
    }
    forall g | g in r ensures h.count <= g.count {
      var i :| 0 <= i < |r| && r[i] == g;
      assert LexGe(CountKey(s[i]), CountKey(s[j]));
      LexGeHead(CountKey(s[i]), CountKey(s[j]));
    }
  }
}
