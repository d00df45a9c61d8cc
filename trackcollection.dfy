/**
 * TrackCollection.py: finalised tracks filed by artist, then album, in lists;
 * duplicate removal, the album-year vote, the sort by track number and the
 * names of the directories and files the collection is written out to.
 */
module TrackCollection {
  import opened Wrappers
  import opened PyStr
  import TF = TrackFile
  import FPP = FilePathParser

  /**
   * One filed track: the TrackFile object (its identity, which is all that
   * list.remove compares, TrackFile having no __eq__) and its final data.
   */
  datatype Song = Song(file: TF.TrackFile, title: string, album: string, artist: string, track: int, year: int)

  // ---------------------------------------------------------------------
  // remove_duplicates, one bucket: the marking loop

  /** The titles among s. */
  function Titles(s: seq<Song>): set<string> {
    if s == [] then {} else Titles(s[..|s| - 1]) + {s[|s| - 1].title}
  }

  /** A title is among s exactly when some song of s carries it. */
  lemma {:induction false} TitlesMembers(s: seq<Song>)
    ensures forall i | 0 <= i < |s| :: s[i].title in Titles(s)
    ensures forall t | t in Titles(s) :: exists i | 0 <= i < |s| :: s[i].title == t
  {
    if s != [] {
      var init := s[..|s| - 1];
      TitlesMembers(init);
      forall t | t in Titles(s)
        ensures exists i | 0 <= i < |s| :: s[i].title == t
      {
        if t in Titles(init) {
          var i :| 0 <= i < |init| && init[i].title == t;
          assert s[i].title == t;
        } else {
          assert s[|s| - 1].title == t;
        }
      }
    }
  }

  /** duplicate_tracker after the songs of s: each title mapped to the first song that carried it. */
  function Tracker(s: seq<Song>): (m: map<string, Song>)
    ensures m.Keys == Titles(s)
    ensures forall t | t in m :: m[t].title == t
  {
    if s == [] then map[]
    else
      var m := Tracker(s[..|s| - 1]);
      var x := s[|s| - 1];
      if x.title in m then m else m[x.title := x]
  }

  /** A song whose title was already seen is marked. */
  predicate Seen(s: seq<Song>, i: nat)
    requires i < |s|
  {
    s[i].title in Titles(s[..i])
  }

  /** to_be_removed after the songs of s: every song whose title an earlier song already had, in order. */
  function Marked(s: seq<Song>): seq<Song> {
    if s == [] then [] else Marked(s[..|s| - 1]) + MarkIf(s, |s| - 1)
  }

  function MarkIf(s: seq<Song>, i: nat): seq<Song>
    requires i < |s|
  {
    if Seen(s, i) then [s[i]] else []
  }

  /** Two songs of one title that disagree on track or year draw a warning. */
  predicate Differs(kept: Song, dup: Song) {
    kept.track != dup.track || kept.year != dup.year
  }

  /** The warnings after the songs of s: (tracked song, duplicate) for every duplicate that differs. */
  function Clashes(s: seq<Song>): seq<(Song, Song)> {
    if s == [] then [] else Clashes(s[..|s| - 1]) + ClashIf(Tracker(s[..|s| - 1]), s[|s| - 1])
  }

  function ClashIf(tracker: map<string, Song>, x: Song): seq<(Song, Song)> {
    if x.title in tracker && Differs(tracker[x.title], x) then [(tracker[x.title], x)] else []
  }

  // ---------------------------------------------------------------------
  // remove_duplicates, one bucket: the removal loop

  /** list.remove(x): drops the first element equal to x (a no-op where Python raises, which cannot happen here). */
  function RemoveFirst(s: seq<Song>, x: Song): (r: seq<Song>)
    ensures x in s ==> |r| == |s| - 1 && multiset(r) == multiset(s) - multiset{x}
    ensures x !in s ==> r == s
  {
    if s == [] then []
    else if s[0] == x then
      assert s == [s[0]] + s[1..];
      s[1..]
    else
      assert s == [s[0]] + s[1..];
      [s[0]] + RemoveFirst(s[1..], x)
  }

  /** The list after removing every element of xs in turn. */
  function RemovedAll(s: seq<Song>, xs: seq<Song>): seq<Song> {
    if xs == [] then s else RemoveFirst(RemovedAll(s, xs[..|xs| - 1]), xs[|xs| - 1])
  }

  /** The elements of s that are not in xs, in order. */
  function Without(s: seq<Song>, xs: seq<Song>): seq<Song> {
    if s == [] then [] else (if s[0] in xs then [] else [s[0]]) + Without(s[1..], xs)
  }

  /** Every song of s, each TrackFile appearing once. */
  predicate Distinct(s: seq<Song>) {
    forall i, j | 0 <= i < j < |s| :: s[i] != s[j]
  }

  /** The first song of each title, in order: what remove_duplicates is meant to leave. */
  function FirstSeen(s: seq<Song>): seq<Song> {
    if s == [] then [] else FirstSeen(s[..|s| - 1]) + KeepIf(s, |s| - 1)
  }

  function KeepIf(s: seq<Song>, i: nat): seq<Song>
    requires i < |s|
  {
    if Seen(s, i) then [] else [s[i]]
  }

  // ---------------------------------------------------------------------
  // What the removal loop leaves

  /** The marked songs are songs of the bucket, each taken from its own position. */
  lemma {:induction false} MarkedWithin(s: seq<Song>)
    ensures multiset(Marked(s)) <= multiset(s)
  {
    if s != [] {
      var init, x := s[..|s| - 1], s[|s| - 1];
      MarkedWithin(init);
      assert multiset(s) == multiset(init) + multiset{x} by {
        assert s == init + [x];
      }
      if Seen(s, |s| - 1) {
        assert Marked(s) == Marked(init) + [x];
        assert multiset(Marked(s)) == multiset(Marked(init)) + multiset{x};
      } else {
        assert Marked(s) == Marked(init) + [];
        assert Marked(s) == Marked(init);
      }
    }
  }

  /** Every song is either marked or kept. */
  lemma {:induction false} MarkedOrKept(s: seq<Song>)
    ensures |Marked(s)| + |FirstSeen(s)| == |s|
  {
    if s != [] {
      var init := s[..|s| - 1];
      MarkedOrKept(init);
      assert Marked(s) == Marked(init) + MarkIf(s, |s| - 1);
      assert FirstSeen(s) == FirstSeen(init) + KeepIf(s, |s| - 1);
    }
  }

  /** Removing a sub-multiset one element at a time removes exactly it. */
  lemma {:induction false} RemovedAllCount(s: seq<Song>, xs: seq<Song>)
    requires multiset(xs) <= multiset(s)
    ensures multiset(RemovedAll(s, xs)) == multiset(s) - multiset(xs)
    ensures |RemovedAll(s, xs)| == |s| - |xs|
  {
    if xs != [] {
      var init, x := xs[..|xs| - 1], xs[|xs| - 1];
      assert xs == init + [x];
      assert multiset(xs) == multiset(init) + multiset{x};
      RemovedAllCount(s, init);
      var r := RemovedAll(s, init);
      assert RemovedAll(s, xs) == RemoveFirst(r, x);
      assert multiset(r)[x] == multiset(s)[x] - multiset(init)[x];
      assert x in multiset(r);
      assert x in r;
    }
  }

  /** Filtering out songs none of which occur leaves the list alone. */
  lemma {:induction false} WithoutNone(t: seq<Song>, xs: seq<Song>)
    requires forall y | y in t :: y !in xs
    ensures Without(t, xs) == t
  {
    if t != [] {
      WithoutNone(t[1..], xs);
      assert t == [t[0]] + t[1..];
    }
  }

  /** Without keeps exactly the members not filtered out. */
  lemma {:induction false} WithoutMembers(s: seq<Song>, xs: seq<Song>)
    ensures forall y :: y in Without(s, xs) <==> y in s && y !in xs
  {
    if s != [] {
      WithoutMembers(s[1..], xs);
      assert s == [s[0]] + s[1..];
    }
  }

  /** Filtering a distinct list keeps it distinct. */
  lemma {:induction false} WithoutDistinct(s: seq<Song>, xs: seq<Song>)
    requires Distinct(s)
    ensures Distinct(Without(s, xs))
  {
    if s != [] {
      WithoutDistinct(s[1..], xs);
      WithoutMembers(s[1..], xs);
      var rest := Without(s[1..], xs);
      assert s[0] !in s[1..];
      assert s[0] !in rest;
    }
  }

  /** Only membership in the filter matters. */
  lemma {:induction false} WithoutSameMembers(s: seq<Song>, a: seq<Song>, b: seq<Song>)
    requires forall y | y in s :: (y in a <==> y in b)
    ensures Without(s, a) == Without(s, b)
  {
    if s != [] {
      WithoutSameMembers(s[1..], a, b);
    }
  }

  /** Filtering in two rounds is filtering by both. */
  lemma {:induction false} WithoutTwice(s: seq<Song>, a: seq<Song>, x: Song)
    ensures Without(Without(s, a), [x]) == Without(s, a + [x])
  {
    if s != [] {
      WithoutTwice(s[1..], a, x);
      var head := if s[0] in a then [] else [s[0]];
      assert Without(s, a) == head + Without(s[1..], a);
      assert s[0] in a + [x] <==> s[0] in a || s[0] == x;
      if s[0] !in a {
        var w := Without(s, a);
        assert w[0] == s[0] && w[1..] == Without(s[1..], a);
        calc {
          Without(w, [x]);
          (if s[0] in [x] then [] else [s[0]]) + Without(w[1..], [x]);
          (if s[0] == x then [] else [s[0]]) + Without(s[1..], a + [x]);
          Without(s, a + [x]);
        }
      } else {
        assert Without(s, a) == Without(s[1..], a);
        assert Without(s, a + [x]) == Without(s[1..], a + [x]);
      }
    }
  }

  /** In a distinct list, list.remove(x) drops exactly x. */
  lemma {:induction false} RemoveFirstDistinct(s: seq<Song>, x: Song)
    requires Distinct(s)
    ensures RemoveFirst(s, x) == Without(s, [x])
  {
    if s != [] {
      if s[0] == x {
        assert x !in s[1..];
        WithoutNone(s[1..], [x]);
      } else {
        RemoveFirstDistinct(s[1..], x);
      }
    }
  }

  /** In a distinct list, removing xs one at a time is filtering them out. */
  lemma {:induction false} RemovedAllDistinct(s: seq<Song>, xs: seq<Song>)
    requires Distinct(s)
    ensures RemovedAll(s, xs) == Without(s, xs)
  {
    if xs != [] {
      var init, x := xs[..|xs| - 1], xs[|xs| - 1];
      assert xs == init + [x];
      RemovedAllDistinct(s, init);
      var w := Without(s, init);
      WithoutDistinct(s, init);
      RemoveFirstDistinct(w, x);
      WithoutTwice(s, init, x);
      calc {
        RemovedAll(s, xs);
        RemoveFirst(RemovedAll(s, init), x);
        RemoveFirst(w, x);
        Without(w, [x]);
        Without(s, init + [x]);
      }
    } else {
      WithoutNone(s, xs);
    }
  }

  lemma {:induction false} WithoutAppend(a: seq<Song>, b: seq<Song>, xs: seq<Song>)
    ensures Without(a + b, xs) == Without(a, xs) + Without(b, xs)
  {
    if a != [] {
      assert (a + b)[1..] == a[1..] + b;
      WithoutAppend(a[1..], b, xs);
    } else {
      assert a + b == b;
    }
  }

  /** A marked song is a song of the list. */
  lemma {:induction false} MarkedMembers(s: seq<Song>)
    ensures forall y | y in Marked(s) :: y in s
  {
    if s != [] {
      MarkedMembers(s[..|s| - 1]);
    }
  }

  /** With every TrackFile filed once, filtering out the marked songs leaves the first song of each title. */
  lemma {:induction false} WithoutMarked(s: seq<Song>)
    requires Distinct(s)
    ensures Without(s, Marked(s)) == FirstSeen(s)
  {
    if s != [] {
      var init, x := s[..|s| - 1], s[|s| - 1];
      var m := Marked(s);
      assert s == init + [x];
      assert m == Marked(init) + MarkIf(s, |s| - 1);
      MarkedMembers(init);
      assert x !in init;
      WithoutSameMembers(init, m, Marked(init));
      WithoutMarked(init);
      WithoutAppend(init, [x], m);
      assert Without([x], m) == KeepIf(s, |s| - 1);
    }
  }

  /**
   * remove_duplicates on a bucket where every TrackFile is filed once leaves
   * the first song of each title, in order. (Filed twice, the same object
   * is both the kept and the removed song, and list.remove drops the first.)
   */
  lemma DedupKeepsFirstSeen(s: seq<Song>)
    requires Distinct(s)
    ensures RemovedAll(s, Marked(s)) == FirstSeen(s)
  {
    RemovedAllDistinct(s, Marked(s));
    WithoutMarked(s);
  }

  // ---------------------------------------------------------------------
  // What is kept

  /** No two songs of u share a title. */
  predicate UniqueTitles(u: seq<Song>) {
    forall i, j | 0 <= i < j < |u| :: u[i].title != u[j].title
  }

  /** The first-seen songs carry every title once. */
  lemma {:induction false} FirstSeenUnique(s: seq<Song>)
    ensures UniqueTitles(FirstSeen(s))
    ensures Titles(FirstSeen(s)) == Titles(s)
  {
    if s != [] {
      var init, x := s[..|s| - 1], s[|s| - 1];
      var u := FirstSeen(init);
      FirstSeenUnique(init);
      assert FirstSeen(s) == u + KeepIf(s, |s| - 1);
      if Seen(s, |s| - 1) {
        assert FirstSeen(s) == u;
      } else {
        assert FirstSeen(s) == u + [x];
        assert x.title !in Titles(u) by {
          assert init == s[..|s| - 1];
        }
        UniqueAppend(u, x);
      }
    }
  }

  /** A song whose title is new keeps the titles distinct, and adds its title. */
  lemma UniqueAppend(u: seq<Song>, x: Song)
    requires UniqueTitles(u) && x.title !in Titles(u)
    ensures UniqueTitles(u + [x]) && Titles(u + [x]) == Titles(u) + {x.title}
  {
    var v := u + [x];
    assert Titles(v) == Titles(u) + {x.title} by {
      assert v[..|v| - 1] == u;
    }
    forall i, j | 0 <= i < j < |v|
      ensures v[i].title != v[j].title
    {
      if j < |u| {
        assert v[i] == u[i] && v[j] == u[j];
      } else {
        TitlesMembers(u);
        assert v[i].title in Titles(u);
      }
    }
  }

  /** In a list of distinct titles no song's title was seen before it. */
  lemma {:induction false} UniqueNotSeen(u: seq<Song>, k: nat)
    requires UniqueTitles(u) && k < |u|
    ensures !Seen(u, k)
  {
    TitlesMembers(u[..k]);
    forall t | t in Titles(u[..k])
      ensures t != u[k].title
    {
      var i :| 0 <= i < k && u[..k][i].title == t;
      assert u[i].title == t;
    }
  }

  /** In a list of distinct titles nothing is marked and everything is kept. */
  lemma {:induction false} UniqueUnmarked(u: seq<Song>)
    requires UniqueTitles(u)
    ensures Marked(u) == [] && FirstSeen(u) == u
  {
    if u != [] {
      var init := u[..|u| - 1];
      assert UniqueTitles(init);
      UniqueUnmarked(init);
      UniqueNotSeen(u, |u| - 1);
      assert Marked(u) == Marked(init) + MarkIf(u, |u| - 1);
      assert FirstSeen(u) == FirstSeen(init) + KeepIf(u, |u| - 1);
      assert u == init + [u[|u| - 1]];
    }
  }

  /** A second remove_duplicates removes nothing. */
  lemma DedupIdempotent(s: seq<Song>)
    ensures Marked(FirstSeen(s)) == []
    ensures FirstSeen(FirstSeen(s)) == FirstSeen(s)
  {
    FirstSeenUnique(s);
    UniqueUnmarked(FirstSeen(s));
  }

  /** duplicate_tracker holds, for each title, the first song that carried it. */
  lemma {:induction false} TrackerHoldsFirst(s: seq<Song>, t: string)
    requires t in Titles(s)
    ensures exists i | 0 <= i < |s| :: s[i] == Tracker(s)[t] && s[i].title == t && !Seen(s, i)
  {
    var init, x := s[..|s| - 1], s[|s| - 1];
    assert s[..|s| - 1] == init;
    if t in Titles(init) {
      TrackerHoldsFirst(init, t);
      var i :| 0 <= i < |init| && init[i] == Tracker(init)[t] && init[i].title == t && !Seen(init, i);
      assert s[..i] == init[..i];
    } else {
      assert s[..|s| - 1] == init;
      assert s[|s| - 1] == Tracker(s)[t];
    }
  }

  /** A warning pairs a duplicate with the first song of its title, and only when they differ in track or year. */
  lemma {:induction false} ClashesAreDiffering(s: seq<Song>)
    ensures forall c | c in Clashes(s) ::
      c.0.title == c.1.title && Differs(c.0, c.1) && c.1 in Marked(s)
  {
    if s != [] {
      var init, x := s[..|s| - 1], s[|s| - 1];
      ClashesAreDiffering(init);
      assert Clashes(s) == Clashes(init) + ClashIf(Tracker(init), x);
      assert Marked(s) == Marked(init) + MarkIf(s, |s| - 1);
      assert s[..|s| - 1] == init;
    }
  }

  /**
   * The first loop of remove_duplicates on one bucket: each song whose title
   * was seen is marked, with a warning where it differs in track or year
   * from the song it duplicates.
   */
  method MarkDuplicates(bucket: seq<Song>) returns (toBeRemoved: seq<Song>, clashes: seq<(Song, Song)>)
    ensures toBeRemoved == Marked(bucket)
    ensures clashes == Clashes(bucket)
  {
    var tracker: map<string, Song> := map[];
    toBeRemoved, clashes := [], [];
    var i := 0;
    while i < |bucket|
      invariant 0 <= i <= |bucket|
      invariant tracker == Tracker(bucket[..i])
      invariant toBeRemoved == Marked(bucket[..i])
      invariant clashes == Clashes(bucket[..i])
    {
      var song := bucket[i];
      ghost var before := bucket[..i];
      if song.title in tracker {
        var duplicate := tracker[song.title];
        if Differs(duplicate, song) {
          clashes := clashes + [(duplicate, song)];
        }
        toBeRemoved := toBeRemoved + [song];
      } else {
        tracker := tracker[song.title := song];
      }
      i := i + 1;
      MarkStep(bucket, i, before);
    }
    assert bucket[..|bucket|] == bucket;
  }

  /** The second loop: list.remove of each marked song in turn. */
  method RemoveEach(bucket: seq<Song>, toBeRemoved: seq<Song>) returns (kept: seq<Song>)
    ensures kept == RemovedAll(bucket, toBeRemoved)
  {
    kept := bucket;
    var j := 0;
    while j < |toBeRemoved|
      invariant 0 <= j <= |toBeRemoved|
      invariant kept == RemovedAll(bucket, toBeRemoved[..j])
    {
      assert toBeRemoved[..j + 1][..j] == toBeRemoved[..j];
      kept := RemoveFirst(kept, toBeRemoved[j]);
      j := j + 1;
    }
    assert toBeRemoved[..j] == toBeRemoved;
  }

  /**
   * remove_duplicates on one bucket: the songs left, how many went (what
   * file_count drops by) and the warnings.
   */
  method RemoveDuplicatesIn(bucket: seq<Song>) returns (kept: seq<Song>, removed: nat, clashes: seq<(Song, Song)>)
    ensures kept == RemovedAll(bucket, Marked(bucket))
    ensures removed == |Marked(bucket)| == |bucket| - |kept|
    ensures clashes == Clashes(bucket)
    ensures Distinct(bucket) ==> kept == FirstSeen(bucket)
  {
    var toBeRemoved;
    toBeRemoved, clashes := MarkDuplicates(bucket);
    kept := RemoveEach(bucket, toBeRemoved);
    removed := |toBeRemoved|;
    MarkedWithin(bucket);
    RemovedAllCount(bucket, toBeRemoved);
    if Distinct(bucket) {
      DedupKeepsFirstSeen(bucket);
    }
  }

  /** One step of the marking loop: the prefix grows by the song just examined. */
  lemma MarkStep(bucket: seq<Song>, i: nat, before: seq<Song>)
    requires 0 < i <= |bucket| && before == bucket[..i - 1]
    ensures bucket[..i][..i - 1] == before && bucket[..i][i - 1] == bucket[i - 1]
    ensures Tracker(bucket[..i]) == (var m := Tracker(before); if bucket[i - 1].title in m then m else m[bucket[i - 1].title := bucket[i - 1]])
    ensures Marked(bucket[..i]) == Marked(before) + (if bucket[i - 1].title in Tracker(before) then [bucket[i - 1]] else [])
    ensures Clashes(bucket[..i]) == Clashes(before) + ClashIf(Tracker(before), bucket[i - 1])
  {
    assert bucket[..i][..i - 1] == before;
  }

  /** A non-empty bucket keeps at least its first song. */
  lemma {:induction false} FirstSeenNonEmpty(s: seq<Song>)
    requires s != []
    ensures FirstSeen(s) != []
  {
    var init := s[..|s| - 1];
    assert FirstSeen(s) == FirstSeen(init) + KeepIf(s, |s| - 1);
    if init != [] {
      FirstSeenNonEmpty(init);
    } else {
      assert !Seen(s, 0);
    }
  }

  /** What remove_duplicates leaves of one bucket. */
  function Dedup(s: seq<Song>): seq<Song> {
    RemovedAll(s, Marked(s))
  }

  /** The bucket left is a sub-multiset of the old one, non-empty when the old one was, and smaller by the marked songs. */
  lemma DedupShrinks(s: seq<Song>)
    ensures multiset(Dedup(s)) <= multiset(s)
    ensures |Dedup(s)| == |s| - |Marked(s)|
    ensures s != [] ==> Dedup(s) != []
  {
    MarkedWithin(s);
    RemovedAllCount(s, Marked(s));
    if s != [] {
      MarkedOrKept(s);
      FirstSeenNonEmpty(s);
    }
  }

  // ---------------------------------------------------------------------
  // standardise_album_tracks, one bucket

  /** album_year_votes after the songs of s: each year mapped to the number of songs carrying it. */
  function Votes(s: seq<Song>): map<int, nat> {
    if s == [] then map[] else Bump(Votes(s[..|s| - 1]), s[|s| - 1].year)
  }

  function Bump(v: map<int, nat>, y: int): map<int, nat> {
    v[y := if y in v then v[y] + 1 else 1]
  }

  /** The songs of s carrying year y. */
  function YearCount(s: seq<Song>, y: int): nat {
    if s == [] then 0 else YearCount(s[..|s| - 1], y) + (if s[|s| - 1].year == y then 1 else 0)
  }

  /** The vote of a year is the number of songs carrying it, and only years some song carries get a vote. */
  lemma {:induction false} VotesCount(s: seq<Song>, y: int)
    ensures y in Votes(s) <==> YearCount(s, y) > 0
    ensures y in Votes(s) ==> Votes(s)[y] == YearCount(s, y)
  {
    if s != [] {
      VotesCount(s[..|s| - 1], y);
    }
  }

  /**
   * A year the vote may elect: non-zero, carried by some song, with at least
   * as many votes as any other non-zero year (ties broken by dict order).
   */
  predicate Winner(s: seq<Song>, w: int) {
    var v := Votes(s);
    w != 0 && w in v && forall z | z in v && z != 0 :: v[z] <= v[w]
  }

  /** Every song of s with its year set to y. */
  function WithYear(s: seq<Song>, y: int): (r: seq<Song>)
    ensures |r| == |s|
    ensures forall i | 0 <= i < |s| :: r[i] == s[i].(year := y)
  {
    seq(|s|, i requires 0 <= i < |s| => s[i].(year := y))
  }

  /** A bucket with two or more distinct years always has a non-zero one with the most votes among the non-zero. */
  lemma {:induction false} WinnerExists(s: seq<Song>)
    requires |Votes(s)| > 1
    ensures exists w :: Winner(s, w)
  {
    var v := Votes(s);
    var k, j := TwoKeys(v.Keys);
    var nz := if k != 0 then k else j;
    MaxNonZero(v, v.Keys, nz);
    var w :| w in v.Keys && w != 0 && forall z | z in v.Keys && z != 0 :: v[z] <= v[w];
    assert Winner(s, w);
  }

  /** A set with no member is empty. */
  lemma NoMemberEmpty<T>(keys: set<T>)
    requires forall x :: x !in keys
    ensures keys == {}
  {
    var e: set<T> := {};
    assert forall x :: x in keys <==> x in e;
    assert keys == e;
  }

  /** Some member of a non-empty set. */
  lemma Pick(keys: set<int>) returns (a: int)
    requires |keys| > 0
    ensures a in keys
  {
    if forall x :: x !in keys {
      NoMemberEmpty(keys);
      assert false;
    }
    a :| a in keys;
  }

  /** A set of more than one element holds two distinct ones. */
  lemma TwoKeys(keys: set<int>) returns (a: int, b: int)
    requires |keys| > 1
    ensures a in keys && b in keys && a != b
  {
    a := Pick(keys);
    var rest := keys - {a};
    assert keys == rest + {a};
    b := Pick(rest);
  }

  lemma {:induction false} MaxNonZero(v: map<int, nat>, keys: set<int>, k: int)
    requires keys <= v.Keys && k in keys && k != 0
    ensures exists w | w in keys && w != 0 :: forall z | z in keys && z != 0 :: v[z] <= v[w]
    decreases |keys|
  {
    var rest := keys - {k};
    var others := set j | j in rest && j != 0;
    if |others| > 0 {
      var j := Pick(others);
      MaxNonZero(v, rest, j);
      var w :| w in rest && w != 0 && forall z | z in rest && z != 0 :: v[z] <= v[w];
      if v[k] > v[w] {
        assert forall z | z in keys && z != 0 :: v[z] <= v[k];
      } else {
        assert forall z | z in keys && z != 0 :: v[z] <= v[w];
      }
    } else {
      forall z | z in keys && z != 0
        ensures v[z] <= v[k]
      {
        assert z !in others;
      }
    }
  }

  /** A bucket whose songs share one year gets exactly that one vote. */
  lemma {:induction false} VotesOfWithYear(s: seq<Song>, y: int)
    requires s != []
    ensures Votes(WithYear(s, y)) == map[y := |s|]
  {
    var init := s[..|s| - 1];
    var r := WithYear(s, y);
    assert r[..|r| - 1] == WithYear(init, y);
    if init != [] {
      VotesOfWithYear(init, y);
    }
  }

  /**
   * The outcome of standardise_album_tracks on one bucket: untouched with at
   * most one distinct year, otherwise every song restamped with a winning year.
   */
  predicate Restamped(old_: seq<Song>, new_: seq<Song>) {
    if |Votes(old_)| <= 1 then new_ == old_
    else old_ != [] && new_ != [] && new_ == WithYear(old_, new_[0].year) && Winner(old_, new_[0].year)
  }

  /** A second standardisation leaves a restamped bucket as it is. */
  lemma StandardiseIdempotent(old_: seq<Song>, new_: seq<Song>, again: seq<Song>)
    requires Restamped(old_, new_) && Restamped(new_, again)
    ensures again == new_
  {
    if |Votes(old_)| > 1 {
      VotesOfWithYear(old_, new_[0].year);
    }
  }

  /**
   * The vote of standardise_album_tracks on one bucket: count the songs of
   * each year; with more than one year, restamp every song with the year of
   * most votes, or the runner-up when that year is 0.
   */
  method StandardiseYears(bucket: seq<Song>) returns (r: seq<Song>, correct: Option<int>)
    ensures correct.None? <==> |Votes(bucket)| <= 1
    ensures correct.None? ==> r == bucket
    ensures correct.Some? ==> Winner(bucket, correct.value) && r == WithYear(bucket, correct.value)
    ensures Restamped(bucket, r)
  {
    var votes: map<int, nat> := map[];
    var i := 0;
    while i < |bucket|
      invariant 0 <= i <= |bucket|
      invariant votes == Votes(bucket[..i])
    {
      assert bucket[..i + 1][..i] == bucket[..i];
      votes := Bump(votes, bucket[i].year);
      i := i + 1;
    }
    assert bucket[..|bucket|] == bucket;
    if |votes| <= 1 {
      return bucket, None;
    }
    WinnerExists(bucket);
    var year :| Winner(bucket, year);
    r := bucket;
    var j := 0;
    while j < |r|
      invariant 0 <= j <= |r| == |bucket|
      invariant forall k | 0 <= k < j :: r[k] == bucket[k].(year := year)
      invariant forall k | j <= k < |r| :: r[k] == bucket[k]
    {
      r := r[j := r[j].(year := year)];
      j := j + 1;
    }
    assert r == WithYear(bucket, year);
    correct := Some(year);
  }

  // ---------------------------------------------------------------------
  // sort_songs_by_track

  /** Track numbers never decrease along s. */
  predicate TrackOrdered(s: seq<Song>) {
    forall i, j | 0 <= i < j < |s| :: s[i].track <= s[j].track
  }

  /**
   * x placed before the first song whose track is not smaller. Songs are inserted from
   * the back of the bucket, so x goes in front of the later songs of its own track.
   */
  function Insert(x: Song, s: seq<Song>): seq<Song> {
    if s == [] || x.track <= s[0].track then [x] + s else [s[0]] + Insert(x, s[1..])
  }

  /** list.sort(key=track): Python's sort is stable, and so is this insertion sort. */
  function SortedByTrack(s: seq<Song>): seq<Song> {
    if s == [] then [] else Insert(s[0], SortedByTrack(s[1..]))
  }

  /** The songs of s whose track is t, in their order in s. */
  function WithTrack(s: seq<Song>, t: int): seq<Song> {
    if s == [] then []
    else if s[0].track == t then [s[0]] + WithTrack(s[1..], t)
    else WithTrack(s[1..], t)
  }

  lemma {:induction false} InsertPermutes(x: Song, s: seq<Song>)
    ensures multiset(Insert(x, s)) == multiset(s) + multiset{x}
  {
    if s != [] && x.track > s[0].track {
      InsertPermutes(x, s[1..]);
      assert s == [s[0]] + s[1..];
    }
  }

  lemma {:induction false} InsertOrders(x: Song, s: seq<Song>)
    requires TrackOrdered(s)
    ensures TrackOrdered(Insert(x, s))
  {
    if s != [] && x.track > s[0].track {
      var r := Insert(x, s[1..]);
      assert TrackOrdered(s[1..]);
      InsertOrders(x, s[1..]);
      InsertPermutes(x, s[1..]);
      forall k | 0 <= k < |r|
        ensures s[0].track <= r[k].track
      {
        assert r[k] in multiset(r);
        if r[k] != x {
          assert r[k] in multiset(s[1..]);
          var m :| 0 <= m < |s[1..]| && s[1..][m] == r[k];
          assert s[m + 1] == r[k];
        }
      }
      assert Insert(x, s) == [s[0]] + r;
    }
  }

  /** The sorted bucket is a permutation of the bucket, in non-decreasing track order. */
  lemma {:induction false} SortedByTrackSorts(s: seq<Song>)
    ensures multiset(SortedByTrack(s)) == multiset(s)
    ensures TrackOrdered(SortedByTrack(s))
    ensures |SortedByTrack(s)| == |s|
  {
    if s != [] {
      SortedByTrackSorts(s[1..]);
      InsertPermutes(s[0], SortedByTrack(s[1..]));
      InsertOrders(s[0], SortedByTrack(s[1..]));
      assert s == [s[0]] + s[1..];
    }
  }

  /** Inserting x adds x to the songs of its own track, in front of them, and leaves the other tracks alone. */
  lemma {:induction false} InsertWithTrack(x: Song, s: seq<Song>, t: int)
    ensures WithTrack(Insert(x, s), t) == if x.track == t then [x] + WithTrack(s, t) else WithTrack(s, t)
  {
    if s != [] && x.track > s[0].track {
      InsertWithTrack(x, s[1..], t);
      assert ([s[0]] + Insert(x, s[1..]))[1..] == Insert(x, s[1..]);
    } else {
      assert ([x] + s)[1..] == s;
    }
  }

  /** Sorting is stable: the songs of each track keep their relative order. */
  lemma {:induction false} SortedByTrackStable(s: seq<Song>, t: int)
    ensures WithTrack(SortedByTrack(s), t) == WithTrack(s, t)
  {
    if s != [] {
      SortedByTrackStable(s[1..], t);
      InsertWithTrack(s[0], SortedByTrack(s[1..]), t);
    }
  }

  /** A bucket already in track order is left exactly as it is. */
  lemma {:induction false} SortedByTrackOrdered(s: seq<Song>)
    requires TrackOrdered(s)
    ensures SortedByTrack(s) == s
  {
    if s != [] {
      assert TrackOrdered(s[1..]);
      SortedByTrackOrdered(s[1..]);
      assert s == [s[0]] + s[1..];
    }
  }

  // ---------------------------------------------------------------------
  // create_new_filesystem: names only (the mkdir and file copies are I/O)

  /** The album directory: "[year] album", or just the album when the year is 0. */
  function AlbumDirName(album: string, year: int): (r: string)
    ensures year == 0 ==> r == album
    ensures year != 0 ==> StartsWith(r, "[") && EndsWith(r, "] " + album)
  {
    if year != 0 then "[" + IntToString(year) + "] " + album else album
  }

  /** The file name: the track zero-padded to two digits, a space, the title and ".mp3". */
  function SongFileName(track: int, title: string): (r: string)
    ensures EndsWith(r, " " + title + ".mp3")
  {
    ZeroPad(track, 2) + " " + title + ".mp3"
  }

  /** A track of 0 to 99 opens the file name as exactly two digits that read back as the track. */
  lemma SongFileNameTrack(track: int, title: string)
    requires 0 <= track <= 99
    ensures var r := SongFileName(track, title);
      |r| >= 3 && IsDigits(r[..2]) && DigitsValue(r[..2]) == track && r[2] == ' ' && r[3..] == title + ".mp3"
  {
    var d := ZeroPad(track, 2);
    if track < 10 {
      assert NatToString(track) == [DigitChar(track)];
      assert d == ['0', DigitChar(track)];
      assert DigitsValue(d) == DigitsValue(d[..1]) * 10 + DigitValue(d[1]);
    } else {
      assert NatToString(track) == NatToString(track / 10) + [DigitChar(track % 10)];
      assert NatToString(track / 10) == [DigitChar(track / 10)];
      assert d == [DigitChar(track / 10), DigitChar(track % 10)];
      assert DigitsValue(d) == DigitsValue(d[..1]) * 10 + DigitValue(d[1]);
    }
    var r := SongFileName(track, title);
    assert r == d + (" " + title + ".mp3");
    assert r[..2] == d;
  }

  /** Prepending keeps a suffix. */
  lemma PrependKeepsEnd(p: string, s: string, q: string)
    requires EndsWith(s, q)
    ensures StartsWith(p + s, p) && EndsWith(p + s, q)
  {
    assert (p + s)[..|p|] == p;
    assert (p + s)[|p + s| - |q|..] == s[|s| - |q|..];
  }

  /** The path of a song in the new tree: root, artist, album directory (named by the bucket's first song's year), file. */
  function SongPath(root: string, artist: string, album: string, firstYear: int, song: Song): (r: string)
    ensures StartsWith(r, root + "/" + artist + "/")
    ensures EndsWith(r, " " + song.title + ".mp3")
  {
    var dir := root + "/" + artist + "/";
    var name := SongFileName(song.track, song.title);
    var rest := AlbumDirName(album, firstYear) + "/" + name;
    PrependKeepsEnd(AlbumDirName(album, firstYear) + "/", name, " " + song.title + ".mp3");
    PrependKeepsEnd(dir, rest, " " + song.title + ".mp3");
    dir + rest
  }

  // ---------------------------------------------------------------------
  // Partners: what the file-path reader recovers from the names written here

  /** An album directory "[yyyy] album" gives the album and year back. */
  lemma AlbumAndYearOfTagged(album: string, year: int)
    requires 1000 <= year <= 9999
    ensures FPP.AlbumAndYear(AlbumDirName(album, year)) == (album, Some(year))
  {
    var d := IntToString(year);
    assert d == NatToString(year);
    FPP.NatToStringLength(year);
    NatToStringValue(year);
    var s := "[" + d + "] " + album;
    assert s[1..5] == d;
    assert s[7..] == album;
  }

  /**
   * The file name the collection writes for a song ("%02d %s.mp3") reads
   * back as the song's track and title, for a track of 0 to 99 and a
   * normalised title without '.'.
   */
  lemma SongFileNameReadsBack(filePath: string, track: int, title: string)
    requires 0 <= track <= 99
    requires Normalised(title) && title != [] && '.' !in title
    ensures var r := FPP.ReadFilePathData(filePath, SongFileName(track, title));
      r.Success? && r.value.track == Some(track) && r.value.title == Some(title)
  {
    var name := ZeroPad(track, 2) + " " + title + ".mp3";
    var d := name[..2];
    FPP.SongFileNameDigits(track, title);
    var ws' := FPP.ExtendedWords(title, ".mp3");
    var all := [d] + ws';
    assert AreWords(all);
    JoinCons(" ", d, ws');
    assert name == d + " " + (title + ".mp3");
    SplitJoin(all);
    assert Split(name) == all;
    assert all[1..] == ws';
    IndexOfAppend(title, ".mp3", '.');
    assert (title + ".mp3")[..|title|] == title;
  }

  // ---------------------------------------------------------------------
  // The collection

  datatype Error = NotFinalised

  /** artist -> album -> songs, as the two-level defaultdict holds them. */
  type Shelves = map<string, map<string, seq<Song>>>

  /** Every bucket is non-empty and holds only songs of its own artist and album. */
  predicate Filed(c: Shelves) {
    forall a, b | a in c && b in c[a] ::
      c[a][b] != [] && forall i | 0 <= i < |c[a][b]| :: c[a][b][i].artist == a && c[a][b][i].album == b
  }

  /** collection[a][b] as a defaultdict yields it: the empty list for a missing bucket. */
  function Bucket(c: Shelves, a: string, b: string): seq<Song> {
    if a in c && b in c[a] then c[a][b] else []
  }

  /** add(): the song appended to the end of its artist/album bucket, created empty when missing. */
  function Added(c: Shelves, song: Song): Shelves {
    var shelf := if song.artist in c then c[song.artist] else map[];
    c[song.artist := shelf[song.album := Bucket(c, song.artist, song.album) + [song]]]
  }

  /** add() touches one bucket only, appending the song to it. */
  lemma AddedBuckets(c: Shelves, song: Song, a: string, b: string)
    ensures Bucket(Added(c, song), a, b) ==
      if a == song.artist && b == song.album then Bucket(c, a, b) + [song] else Bucket(c, a, b)
  {
  }

  /** Picking from a non-empty set. */
  lemma PickExists<T>(s: set<T>)
    requires s != {}
    ensures exists x :: x in s
  {
    if forall x :: x !in s {
      NoMemberEmpty(s);
      assert false;
    }
  }

  /** The sum of the values of m. */
  ghost function SumOver<K>(m: map<K, nat>): nat
    decreases |m.Keys|
  {
    if m.Keys == {} then 0
    else
      PickExists(m.Keys);
      var k :| k in m.Keys;
      assert (m - {k}).Keys == m.Keys - {k};
      m[k] + SumOver(m - {k})
  }

  /** Any key can be summed first. */
  lemma {:induction false} SumOverRemove<K>(m: map<K, nat>, k: K)
    requires k in m
    ensures SumOver(m) == m[k] + SumOver(m - {k})
    decreases |m.Keys|
  {
    assert m.Keys != {};
    var j :| j in m.Keys && SumOver(m) == m[j] + SumOver(m - {j});
    if j != k {
      assert (m - {j}).Keys == m.Keys - {j};
      assert (m - {k}).Keys == m.Keys - {k};
      SumOverRemove(m - {j}, k);
      SumOverRemove(m - {k}, j);
      assert m - {j} - {k} == m - {k} - {j};
    }
  }

  /** Changing one value changes the sum by the difference. */
  lemma SumOverUpdate<K>(m: map<K, nat>, k: K, v: nat)
    ensures SumOver(m[k := v]) == SumOver(m) - (if k in m then m[k] else 0) + v
  {
    SumOverRemove(m[k := v], k);
    assert m[k := v] - {k} == m - {k};
    if k in m {
      SumOverRemove(m, k);
    } else {
      assert m - {k} == m;
    }
  }

  lemma SumOverEmpty<K>(m: map<K, nat>)
    requires m == map[]
    ensures SumOver(m) == 0
  {
    assert m.Keys == {};
  }

  function Sizes(shelf: map<string, seq<Song>>): map<string, nat> {
    map b | b in shelf :: |shelf[b]|
  }

  ghost function ShelfTotals(c: Shelves): map<string, nat> {
    map a | a in c :: SumOver(Sizes(c[a]))
  }

  /** The number of songs filed. */
  ghost function Total(c: Shelves): nat {
    SumOver(ShelfTotals(c))
  }

  lemma TotalEmpty()
    ensures Total(map[]) == 0
  {
    var c: Shelves := map[];
    assert ShelfTotals(c) == map[];
    SumOverEmpty(ShelfTotals(c));
  }

  /** Replacing one bucket changes the total by the change in its size. */
  lemma TotalUpdate(c: Shelves, a: string, b: string, v: seq<Song>)
    ensures var shelf := if a in c then c[a] else map[];
      Total(c[a := shelf[b := v]]) == Total(c) - |Bucket(c, a, b)| + |v|
  {
    var shelf: map<string, seq<Song>> := if a in c then c[a] else map[];
    var c' := c[a := shelf[b := v]];
    assert Sizes(shelf[b := v]) == Sizes(shelf)[b := |v|];
    SumOverUpdate(Sizes(shelf), b, |v|);
    if a !in c {
      assert Sizes(shelf) == map[];
      SumOverEmpty(Sizes(shelf));
    }
    assert ShelfTotals(c') == ShelfTotals(c)[a := SumOver(Sizes(shelf[b := v]))];
    SumOverUpdate(ShelfTotals(c), a, SumOver(Sizes(shelf[b := v])));
  }

  /** A replacement bucket that is non-empty and holds songs of the same artist and album keeps the shelves filed. */
  lemma FiledUpdate(c: Shelves, a: string, b: string, v: seq<Song>)
    requires Filed(c)
    requires v != [] && forall i | 0 <= i < |v| :: v[i].artist == a && v[i].album == b
    ensures var shelf := if a in c then c[a] else map[];
      Filed(c[a := shelf[b := v]])
  {
  }

  /** Songs drawn from a filed bucket carry its artist and album. */
  lemma DrawnFrom(c: Shelves, a: string, b: string, v: seq<Song>)
    requires Filed(c) && a in c && b in c[a]
    requires multiset(v) <= multiset(c[a][b])
    ensures forall i | 0 <= i < |v| :: v[i].artist == a && v[i].album == b
  {
    forall i | 0 <= i < |v|
      ensures v[i].artist == a && v[i].album == b
    {
      assert v[i] in multiset(c[a][b]);
      var j :| 0 <= j < |c[a][b]| && c[a][b][j] == v[i];
    }
  }

  /** Every bucket of c0 is, in c, either untouched (still to do) or related to its old self by rel; no bucket comes or goes. */
  ghost predicate Processed(c0: Shelves, c: Shelves, todo: set<(string, string)>, rel: (seq<Song>, seq<Song>) -> bool) {
    c.Keys == c0.Keys && (forall a | a in c0 :: c[a].Keys == c0[a].Keys) &&
    forall a, b | a in c0 && b in c0[a] :: if (a, b) in todo then c[a][b] == c0[a][b] else rel(c0[a][b], c[a][b])
  }

  function Pairs(c: Shelves): set<(string, string)> {
    set a, b | a in c && b in c[a] :: (a, b)
  }

  /** Some element of a non-empty set, as iterating over a dict yields its keys. */
  method Next<T>(todo: set<T>) returns (p: T)
    requires todo != {}
    ensures p in todo
  {
    PickExists(todo);
    p :| p in todo;
  }

  /** Every pair still to do names a bucket of c0. */
  ghost predicate Pending(c0: Shelves, todo: set<(string, string)>) {
    forall p | p in todo :: p.0 in c0 && p.1 in c0[p.0]
  }

  /** Before the loop every bucket is pending and untouched. */
  lemma ProcessedStart(c0: Shelves, rel: (seq<Song>, seq<Song>) -> bool)
    ensures Pending(c0, Pairs(c0)) && Processed(c0, c0, Pairs(c0), rel)
  {
    forall a, b | a in c0 && b in c0[a]
      ensures (a, b) in Pairs(c0)
    {
    }
  }

  /** A bucket whose songs carry more than one year. */
  ghost predicate Mixed(s: seq<Song>) {
    |Votes(s)| > 1
  }

  /** No element occurs twice. */
  predicate NoRepeats<T(==)>(s: seq<T>) {
    forall i, j | 0 <= i < j < |s| :: s[i] != s[j]
  }

  /** Every pair of order names a bucket of c. */
  predicate Within(c: Shelves, order: seq<(string, string)>) {
    forall i | 0 <= i < |order| :: order[i].0 in c && order[i].1 in c[order[i].0]
  }

  /** The warnings of the buckets of c visited in order, gathered one bucket after another. */
  function ClashesOf(c: Shelves, order: seq<(string, string)>): seq<(Song, Song)>
    requires Within(c, order)
  {
    if order == [] then []
    else ClashesOf(c, order[..|order| - 1]) + Clashes(c[order[|order| - 1].0][order[|order| - 1].1])
  }

  /**
   * order lists, once each, the pairs of all that are no longer in todo: no
   * pair twice, none still to do, and as many as have left todo.
   */
  ghost predicate Enumerates(order: seq<(string, string)>, all: set<(string, string)>, todo: set<(string, string)>) {
    todo <= all && NoRepeats(order) && |order| + |todo| == |all| &&
    forall i | 0 <= i < |order| :: order[i] in all && order[i] !in todo
  }

  /** Visiting p moves it from the pairs still to do to the pairs visited. */
  lemma EnumeratesStep(order: seq<(string, string)>, all: set<(string, string)>, todo: set<(string, string)>, p: (string, string))
    requires Enumerates(order, all, todo) && p in todo
    ensures Enumerates(order + [p], all, todo - {p})
  {
    var o := order + [p];
    forall i, j | 0 <= i < j < |o|
      ensures o[i] != o[j]
    {
      if j == |order| {
        assert o[i] == order[i];
      }
    }
  }

  /** A finished enumeration visits every pair of all. */
  lemma EnumeratesAll(order: seq<(string, string)>, all: set<(string, string)>)
    requires Enumerates(order, all, {})
    ensures forall q | q in all :: q in order
  {
    var seen := set q | q in order;
    DistinctCount(order);
    assert seen <= all;
    if seen != all {
      var x :| x in all && x !in seen;
      SubsetCount(seen, all - {x});
    }
    forall q | q in all
      ensures q in order
    {
      assert q in seen;
    }
  }

  /** A sequence without repeats has as many distinct elements as it is long. */
  lemma {:induction false} DistinctCount(order: seq<(string, string)>)
    requires NoRepeats(order)
    ensures |set q | q in order| == |order|
  {
    if order != [] {
      var init := order[..|order| - 1];
      var last := order[|order| - 1];
      assert NoRepeats(init);
      DistinctCount(init);
      assert order == init + [last];
      assert (set q | q in order) == (set q | q in init) + {last};
      assert last !in init by {
        forall k | 0 <= k < |init|
          ensures init[k] != last
        {
          assert order[k] != order[|order| - 1];
        }
      }
    }
  }

  /** A subset has at most as many elements. */
  lemma {:induction false} SubsetCount(a: set<(string, string)>, b: set<(string, string)>)
    requires a <= b
    ensures |a| <= |b|
    decreases |a|
  {
    if a != {} {
      var x :| x in a;
      SubsetCount(a - {x}, b - {x});
    }
  }

  /** The warnings gathered after visiting, in order, the buckets of c0 outside todo. */
  ghost predicate Gathered(c0: Shelves, all: set<(string, string)>, todo: set<(string, string)>,
                           order: seq<(string, string)>, warnings: seq<(Song, Song)>) {
    Enumerates(order, all, todo) && Within(c0, order) && warnings == ClashesOf(c0, order)
  }

  /** Visiting bucket p adds its warnings after those gathered so far. */
  lemma GatheredStep(c0: Shelves, all: set<(string, string)>, todo: set<(string, string)>,
                     order: seq<(string, string)>, warnings: seq<(Song, Song)>, p: (string, string))
    requires Gathered(c0, all, todo, order, warnings) && p in todo && p.0 in c0 && p.1 in c0[p.0]
    ensures Gathered(c0, all, todo - {p}, order + [p], warnings + Clashes(c0[p.0][p.1]))
  {
    ClashesOfStep(c0, order, p);
    EnumeratesStep(order, all, todo, p);
  }

  /** The mixed buckets among those visited, in visit order. */
  ghost function MixedAmong(c: Shelves, order: seq<(string, string)>): seq<(string, string)>
    requires Within(c, order)
  {
    if order == [] then []
    else
      var last := order[|order| - 1];
      if Mixed(c[last.0][last.1]) then MixedAmong(c, order[..|order| - 1]) + [last]
      else MixedAmong(c, order[..|order| - 1])
  }

  /** Visiting bucket p reports it exactly when it is mixed. */
  lemma MixedAmongStep(c: Shelves, order: seq<(string, string)>, p: (string, string), restamped: bool)
    requires Within(c, order) && p.0 in c && p.1 in c[p.0]
    requires restamped <==> Mixed(c[p.0][p.1])
    ensures Within(c, order + [p])
    ensures MixedAmong(c, order + [p]) == if restamped then MixedAmong(c, order) + [p] else MixedAmong(c, order)
  {
    assert (order + [p])[..|order|] == order;
  }

  /** The reported buckets are exactly the mixed ones visited, and none twice when no bucket is visited twice. */
  lemma {:induction false} MixedAmongExactly(c: Shelves, order: seq<(string, string)>)
    requires Within(c, order)
    ensures forall q | q in MixedAmong(c, order) :: q in order
    ensures forall i | 0 <= i < |order| :: order[i] in MixedAmong(c, order) <==> Mixed(c[order[i].0][order[i].1])
    ensures NoRepeats(order) ==> NoRepeats(MixedAmong(c, order))
  {
    if order != [] {
      var init := order[..|order| - 1];
      var last := order[|order| - 1];
      assert Within(c, init);
      MixedAmongExactly(c, init);
      var m := MixedAmong(c, init);
      forall i | 0 <= i < |order|
        ensures order[i] in MixedAmong(c, order) <==> Mixed(c[order[i].0][order[i].1])
      {
        if i < |init| {
          assert order[i] == init[i];
          if order[i] == last {
            // the same pair twice: its bucket is the same, so both agree
            assert Mixed(c[last.0][last.1]) <==> Mixed(c[init[i].0][init[i].1]);
          }
        }
      }
      if NoRepeats(order) {
        assert NoRepeats(init);
        forall q | q in m
          ensures q != last
        {
          var k :| 0 <= k < |init| && init[k] == q;
          assert order[k] == q && k < |order| - 1;
        }
        var r := MixedAmong(c, order);
        forall i, j | 0 <= i < j < |r|
          ensures r[i] != r[j]
        {
          if j == |m| {
            assert r[i] == m[i] && m[i] in m;
          } else {
            assert r[i] == m[i] && r[j] == m[j];
          }
        }
      }
    }
  }

  /** The warnings of one more visited bucket come after those gathered so far. */
  lemma ClashesOfStep(c: Shelves, order: seq<(string, string)>, p: (string, string))
    requires Within(c, order) && p.0 in c && p.1 in c[p.0]
    ensures Within(c, order + [p])
    ensures ClashesOf(c, order + [p]) == ClashesOf(c, order) + Clashes(c[p.0][p.1])
  {
    assert (order + [p])[..|order|] == order;
  }

  /** Processing one more bucket. */
  lemma ProcessedStep(c0: Shelves, c: Shelves, todo: set<(string, string)>, rel: (seq<Song>, seq<Song>) -> bool, a: string, b: string, v: seq<Song>)
    requires Processed(c0, c, todo, rel) && a in c0 && b in c0[a] && (a, b) in todo
    requires rel(c0[a][b], v)
    ensures Processed(c0, c[a := c[a][b := v]], todo - {(a, b)}, rel)
  {
  }

  predicate DedupRel(x: seq<Song>, y: seq<Song>) {
    y == Dedup(x)
  }

  predicate SortRel(x: seq<Song>, y: seq<Song>) {
    y == SortedByTrack(x)
  }

  /** With every TrackFile filed once, a second remove_duplicates changes no bucket. */
  lemma DedupTwice(s: seq<Song>)
    requires Distinct(s)
    ensures Dedup(Dedup(s)) == Dedup(s)
  {
    DedupKeepsFirstSeen(s);
    DedupIdempotent(s);
  }

  class TrackCollection {
    var collection: Shelves
    var fileCount: int

    /** Songs sit in their own artist/album bucket, and file_count counts them. */
    ghost predicate Valid()
      reads this
    {
      Filed(collection) && fileCount == Total(collection)
    }

    constructor ()
      ensures Valid() && collection == map[] && fileCount == 0
    {
      collection := map[];
      fileCount := 0;
      TotalEmpty();
    }

    /** add(): a finalised track goes to the end of its bucket and file_count grows by one; otherwise nothing changes. */
    method Add(track: TF.TrackFile) returns (r: Result<(), Error>)
      requires Valid() && track.Valid()
      modifies this
      ensures Valid()
      ensures !track.finalised ==> r == Failure(NotFinalised) && collection == old(collection) && fileCount == old(fileCount)
      ensures track.finalised ==>
        (r.Success? && fileCount == old(fileCount) + 1 && collection == Added(old(collection), SongOf(track)))
    {
      if !track.finalised {
        return Failure(NotFinalised);
      }
      var song := SongOf(track);
      var bucket := Bucket(collection, song.artist, song.album);
      var shelf := if song.artist in collection then collection[song.artist] else map[];
      TotalUpdate(collection, song.artist, song.album, bucket + [song]);
      FiledUpdate(collection, song.artist, song.album, bucket + [song]);
      collection := collection[song.artist := shelf[song.album := bucket + [song]]];
      fileCount := fileCount + 1;
      r := Success(());
    }

    /** Puts v in place of bucket (a, b), keeping file_count equal to the number of songs filed. */
    method Replace(a: string, b: string, v: seq<Song>)
      requires Valid() && a in collection && b in collection[a]
      requires v != [] && forall i | 0 <= i < |v| :: v[i].artist == a && v[i].album == b
      modifies this
      ensures Valid()
      ensures collection == old(collection)[a := old(collection)[a][b := v]]
      ensures fileCount == old(fileCount) - |old(collection)[a][b]| + |v|
    {
      TotalUpdate(collection, a, b, v);
      FiledUpdate(collection, a, b, v);
      fileCount := fileCount - |collection[a][b]| + |v|;
      collection := collection[a := collection[a][b := v]];
    }

    /** remove_duplicates() on one pending bucket. */
    method DedupAt(ghost c0: Shelves, ghost todo: set<(string, string)>, a: string, b: string)
      returns (clashes: seq<(Song, Song)>)
      requires Valid() && Pending(c0, todo) && Processed(c0, collection, todo, DedupRel) && (a, b) in todo
      modifies this
      ensures Valid() && Processed(c0, collection, todo - {(a, b)}, DedupRel)
      ensures clashes == Clashes(c0[a][b])
    {
      ghost var before := collection;
      var kept, removed;
      kept, removed, clashes := RemoveDuplicatesIn(collection[a][b]);
      DedupShrinks(collection[a][b]);
      DrawnFrom(collection, a, b, kept);
      Replace(a, b, kept);
      ProcessedStep(c0, before, todo, DedupRel, a, b, kept);
    }

    /**
     * remove_duplicates(): every bucket loses its marked songs, file_count
     * drops by the number removed (it keeps counting the songs filed), and
     * the warnings of every bucket are gathered, bucket after bucket, in
     * the order the buckets are visited (dict order, given as order).
     */
    method RemoveDuplicates() returns (warnings: seq<(Song, Song)>, ghost order: seq<(string, string)>)
      requires Valid()
      modifies this
      ensures Valid()
      ensures Processed(old(collection), collection, {}, DedupRel)
      ensures Gathered(old(collection), Pairs(old(collection)), {}, order, warnings)
    {
      ghost var c0 := collection;
      var todo := Pairs(collection);
      ghost var all := todo;
      ProcessedStart(c0, DedupRel);
      warnings := [];
      order := [];
      while todo != {}
        invariant Valid() && Pending(c0, todo) && Processed(c0, collection, todo, DedupRel)
        invariant Gathered(c0, all, todo, order, warnings)
        decreases |todo|
      {
        var p := Next(todo);
        var clashes := DedupAt(c0, todo, p.0, p.1);
        GatheredStep(c0, all, todo, order, warnings, p);
        warnings := warnings + clashes;
        order := order + [p];
        todo := todo - {p};
      }
    }

    /** standardise_album_tracks() on one pending bucket; reports whether it was restamped. */
    method StandardiseAt(ghost c0: Shelves, ghost todo: set<(string, string)>, a: string, b: string)
      returns (restamped: bool)
      requires Valid() && Pending(c0, todo) && Processed(c0, collection, todo, Restamped) && (a, b) in todo
      modifies this
      ensures Valid() && Processed(c0, collection, todo - {(a, b)}, Restamped)
      ensures fileCount == old(fileCount)
      ensures restamped <==> Mixed(c0[a][b])
    {
      ghost var before := collection;
      var bucket := collection[a][b];
      var stamped, correct := StandardiseYears(bucket);
      RestampKeepsFiling(bucket, stamped, a, b);
      Replace(a, b, stamped);
      ProcessedStep(c0, before, todo, Restamped, a, b, stamped);
      restamped := correct.Some?;
    }

    /**
     * standardise_album_tracks(): every bucket with more than one year is
     * restamped with a winning year; the others are untouched. Returns the
     * buckets whose year was standardised, one warning each, in the order
     * the buckets are visited (dict order, given as order).
     */
    method StandardiseAlbumTracks() returns (warned: seq<(string, string)>, ghost order: seq<(string, string)>)
      requires Valid()
      modifies this
      ensures Valid()
      ensures Processed(old(collection), collection, {}, Restamped)
      ensures fileCount == old(fileCount)
      ensures Enumerates(order, Pairs(old(collection)), {}) && Within(old(collection), order)
      ensures warned == MixedAmong(old(collection), order)
    {
      ghost var c0 := collection;
      var todo := Pairs(collection);
      ghost var all := todo;
      ProcessedStart(c0, Restamped);
      warned := [];
      order := [];
      while todo != {}
        invariant Valid() && Pending(c0, todo) && Processed(c0, collection, todo, Restamped)
        invariant fileCount == old(fileCount)
        invariant Enumerates(order, all, todo) && Within(c0, order) && warned == MixedAmong(c0, order)
        decreases |todo|
      {
        var p := Next(todo);
        var restamped := StandardiseAt(c0, todo, p.0, p.1);
        MixedAmongStep(c0, order, p, restamped);
        EnumeratesStep(order, all, todo, p);
        if restamped {
          warned := warned + [p];
        }
        order := order + [p];
        todo := todo - {p};
      }
    }

    /** sort_songs_by_track() on one pending bucket. */
    method SortAt(ghost c0: Shelves, ghost todo: set<(string, string)>, a: string, b: string)
      requires Valid() && Pending(c0, todo) && Processed(c0, collection, todo, SortRel) && (a, b) in todo
      modifies this
      ensures Valid() && Processed(c0, collection, todo - {(a, b)}, SortRel)
      ensures fileCount == old(fileCount)
    {
      ghost var before := collection;
      var sorted := SortedByTrack(collection[a][b]);
      SortedByTrackSorts(collection[a][b]);
      DrawnFrom(collection, a, b, sorted);
      Replace(a, b, sorted);
      ProcessedStep(c0, before, todo, SortRel, a, b, sorted);
    }

    /** sort_songs_by_track(): every bucket sorted by track number. */
    method SortSongsByTrack()
      requires Valid()
      modifies this
      ensures Valid()
      ensures Processed(old(collection), collection, {}, SortRel)
      ensures fileCount == old(fileCount)
    {
      ghost var c0 := collection;
      var todo := Pairs(collection);
      ProcessedStart(c0, SortRel);
      while todo != {}
        invariant Valid() && Pending(c0, todo) && Processed(c0, collection, todo, SortRel)
        invariant fileCount == old(fileCount)
        decreases |todo|
      {
        var p := Next(todo);
        SortAt(c0, todo, p.0, p.1);
        todo := todo - {p};
      }
    }
  }

  /** The song add() files for a finalised track: its identity and final data. */
  function SongOf(t: TF.TrackFile): (s: Song)
    requires t.Valid() && t.finalised
    reads t
    ensures s.title != [] && s.album != [] && s.artist != []
  {
    var f := t.final.value;
    Song(t, f.title.value, f.album.value, f.artist.value, f.track.value, f.year.value)
  }

  /** A restamped bucket is as long as the old one and its songs keep their artist and album. */
  lemma RestampKeepsFiling(old_: seq<Song>, new_: seq<Song>, a: string, b: string)
    requires Restamped(old_, new_)
    requires old_ != [] && forall i | 0 <= i < |old_| :: old_[i].artist == a && old_[i].album == b
    ensures |new_| == |old_| && new_ != []
    ensures forall i | 0 <= i < |new_| :: new_[i].artist == a && new_[i].album == b
  {
  }

  /** With no TrackFile filed twice in a bucket, running remove_duplicates() a second time changes nothing. */
  lemma RemoveDuplicatesTwice(c0: Shelves, c1: Shelves, c2: Shelves)
    requires forall a, b | a in c0 && b in c0[a] :: Distinct(c0[a][b])
    requires Processed(c0, c1, {}, DedupRel) && Processed(c1, c2, {}, DedupRel)
    ensures c2 == c1
  {
    forall a | a in c1
      ensures c2[a] == c1[a]
    {
      forall b | b in c1[a]
        ensures c2[a][b] == c1[a][b]
      {
        DedupTwice(c0[a][b]);
      }
      assert c2[a] == c1[a];
    }
  }
}
