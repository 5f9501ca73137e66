/** The sorting library and the two servers over the shared arrays of titles and scores. */
module MovieServer {
  import opened MovieOrder
  import opened MovieSort

  const MAX_DEPTH := 5
  const MAX_MOVIES := 63000
  const NUM_OF_GENRE := 19

  lemma BeforeThenNotAfter(x: Movie, y: Movie, z: Movie)
    requires Before(x, y) && !Before(z, y)
    ensures Before(x, z)
  {
    BeforeTotal(x, y);
    BeforeTotal(x, z);
    if !Before(x, z) {
      NotBeforeTransitive(y, z, x);
    }
  }

  class Filtered {
    const title: array<string>
    const scores: array<real>
    var count: nat

    /** The titles and scores, index by index. */
    ghost var movies: seq<Movie>

    ghost predicate Valid()
      reads this, title, scores
    {
      && title.Length == scores.Length == |movies|
      && forall k :: 0 <= k < |movies| ==> movies[k] == MovieOrder.Movie(title[k], scores[k])
    }

    constructor (capacity: nat)
      ensures Valid() && fresh(title) && fresh(scores)
      ensures title.Length == capacity && count == 0
      ensures forall k :: 0 <= k < capacity ==> scores[k] == 0.0
    {
      title := new string[capacity](i => "");
      scores := new real[capacity](i => 0.0);
      count := 0;
      movies := seq(capacity, i => MovieOrder.Movie("", 0.0));
    }

    method Argmax(start: nat, end: nat) returns (ret: nat)
      requires Valid() && start < end <= title.Length
      requires exists k :: start <= k < end && scores[k] >= 0.0
      ensures start <= ret < end && IsFirstBest(movies[start..end], ret - start)
    {
      ret := start;
      var max := -1.0;
      ghost var s := movies[start..end];
      for i := start to end
        invariant start <= ret < end && max >= -1.0
        invariant max == -1.0 ==> forall k :: start <= k < i ==> scores[k] <= -1.0
        invariant max > -1.0 ==> ret < i && max == scores[ret] && IsFirstBest(s[..i - start], ret - start)
      {
        ghost var best, front := ret - start, s[..i - start + 1];
        assert front[..|front| - 1] == s[..i - start];
        assert forall j :: 0 <= j <= i - start ==> front[j].score == scores[start + j];
        if scores[i] > max {
          if max > -1.0 { NewBest(front, best); } else { FirstScore(front); }
          max := scores[i];
          ret := i;
        } else if scores[i] == max {
          if Less(title[i], title[ret]) {
            if max > -1.0 { NewBest(front, best); }
            ret := i;
          } else if max > -1.0 {
            OldBest(front, best);
          }
        } else if max > -1.0 {
          OldBest(front, best);
        }
      }
      assert s[..end - start] == s;
    }

    method Swap(i: nat, j: nat)
      requires Valid() && i < title.Length && j < title.Length
      modifies this`movies, title, scores
      ensures Valid()
      ensures movies == Swapped(old(movies), i, j)
    {
      title[i], title[j] := title[j], title[i];
      scores[i], scores[j] := scores[j], scores[i];
      movies := Swapped(movies, i, j);
    }

    method Rewrite(i: nat)
      requires Valid() && i < title.Length
      modifies this`movies, title
      ensures Valid()
      ensures movies == old(movies)[i := AddSecret(old(movies)[i])]
    {
      title[i] := title[i] + SECRET;
      movies := movies[i := AddSecret(movies[i])];
    }

    method Select(ghost before: seq<Movie>, ghost left: nat, next: nat, end: nat)
      requires Valid() && SortedUpTo(before, movies, left, next, end) && next + 1 < end
      modifies this`movies, title, scores
      ensures Valid()
      ensures SortedUpTo(before, movies, left, next + 1, end)
    {
      hide Leaf, SameOutside;
      ghost var s := movies;
      SomeNotNegative(s, next, end);
      var idx := Argmax(next, end);
      SortAdvances(before, s, left, next, end, idx - next);
      Swap(next, idx);
      Rewrite(next);
    }

    /** Selection sort of size movies from left on, rewriting each one once it is in place. */
    method Sort(left: nat, size: nat)
      requires Valid() && size > 0 && left + size <= title.Length
      requires FewNegative(movies[left..left + size])
      modifies this`movies, title, scores
      ensures Valid()
      ensures SortedAsLeaf(old(movies), movies, left, left + size)
    {
      hide Leaf, SameOutside;
      ghost var before := movies;
      var end := left + size;
      SortStarts(before, left, end);
      for next := left to end - 1
        invariant Valid() && SortedUpTo(before, movies, left, next, end)
      {
        Select(before, left, next, end);
      }
      SortEnds(before, movies, left, end);
      Rewrite(end - 1);
    }

    method Put(k: nat, t: string, s: real)
      requires Valid() && k < title.Length
      modifies this`movies, title, scores
      ensures Valid()
      ensures movies == old(movies)[k := MovieOrder.Movie(t, s)]
    {
      title[k] := t;
      scores[k] := s;
      movies := movies[k := MovieOrder.Movie(t, s)];
    }

    /** The movies of lo <= k < hi, copied into arrays of their own. */
    method CopyOut(lo: nat, hi: nat) returns (copy: Filtered)
      requires Valid() && lo <= hi <= title.Length
      ensures fresh(copy) && fresh(copy.title) && fresh(copy.scores)
      ensures copy.Valid() && copy.movies == movies[lo..hi]
    {
      copy := new Filtered(hi - lo);
      for i := 0 to hi - lo
        invariant copy.Valid() && copy.title.Length == hi - lo
        invariant copy.movies[..i] == movies[lo..lo + i]
      {
        ghost var was := copy.movies;
        copy.Put(i, title[lo + i], scores[lo + i]);
        assert movies[lo..lo + i + 1] == movies[lo..lo + i] + [movies[lo + i]];
        assert copy.movies[..i + 1] == was[..i] + [movies[lo + i]];
      }
    }

    /** Merges the movies of lo <= k < mid with those of mid <= k < hi. */
    method Merge(lo: nat, mid: nat, hi: nat)
      requires Valid() && lo <= mid <= hi <= title.Length
      modifies this`movies, title, scores
      ensures Valid()
      ensures MergedBy(old(movies), movies, lo, mid, hi)
    {
      hide MovieSort.Merge, SameOutside;
      ghost var before, l, r := movies, movies[lo..mid], movies[mid..hi];
      var mergedL := CopyOut(lo, mid);
      var mergedR := CopyOut(mid, hi);
      MergeStarts(before, lo, hi, l, r);
      var i, j := MergeWhileBoth(before, mergedL, mergedR, lo, hi);
      MergeRest(before, mergedL, mergedR, lo, hi, i, j);
      MergeEnds(before, movies, lo, hi, l, r);
    }

    /** The arrays of the two temporaries are not those of this object. */
    ghost predicate Apart(mergedL: Filtered, mergedR: Filtered)
      reads this, title, scores, mergedL, mergedL.title, mergedL.scores, mergedR, mergedR.title, mergedR.scores
    {
      && Valid() && mergedL.Valid() && mergedR.Valid()
      && this != mergedL && this != mergedR
      && title != mergedL.title && scores != mergedL.scores
      && title != mergedR.title && scores != mergedR.scores
    }

    /** The first loop of merge, until one of the temporaries is used up. */
    method MergeWhileBoth(ghost before: seq<Movie>, mergedL: Filtered, mergedR: Filtered, lo: nat, ghost hi: nat)
        returns (i: nat, j: nat)
      requires Apart(mergedL, mergedR)
      requires MergedUpTo(before, movies, lo, hi, mergedL.movies, mergedR.movies, 0, 0)
      modifies this`movies, title, scores
      ensures Valid()
      ensures i == mergedL.title.Length || j == mergedR.title.Length
      ensures MergedUpTo(before, movies, lo, hi, mergedL.movies, mergedR.movies, i, j)
    {
      hide MovieSort.Merge, SameOutside;
      ghost var l, r := mergedL.movies, mergedR.movies;
      i, j := 0, 0;
      var k := lo;
      while i < mergedL.title.Length && j < mergedR.title.Length
        invariant i <= mergedL.title.Length && j <= mergedR.title.Length && k == lo + i + j
        invariant Apart(mergedL, mergedR) && mergedL.movies == l && mergedR.movies == r
        invariant Valid() && MergedUpTo(before, movies, lo, hi, l, r, i, j)
        decreases mergedL.title.Length - i + mergedR.title.Length - j
      {
        ghost var s := movies;
        if mergedL.scores[i] > mergedR.scores[j] {
          Put(k, mergedL.title[i], mergedL.scores[i]);
          MergeTakesLeft(before, s, movies, lo, hi, l, r, i, j);
          i := i + 1;
        } else if mergedL.scores[i] < mergedR.scores[j] {
          Put(k, mergedR.title[j], mergedR.scores[j]);
          MergeTakesRight(before, s, movies, lo, hi, l, r, i, j);
          j := j + 1;
        } else {
          if Less(mergedL.title[i], mergedR.title[j]) {
            Put(k, mergedL.title[i], mergedL.scores[i]);
            MergeTakesLeft(before, s, movies, lo, hi, l, r, i, j);
            i := i + 1;
          } else {
            Put(k, mergedR.title[j], mergedR.scores[j]);
            MergeTakesRight(before, s, movies, lo, hi, l, r, i, j);
            j := j + 1;
          }
        }
        k := k + 1;
      }
    }

    /** The two loops that copy what is left of either temporary. */
    method MergeRest(ghost before: seq<Movie>, mergedL: Filtered, mergedR: Filtered, lo: nat, ghost hi: nat,
                     i0: nat, j0: nat)
      requires Apart(mergedL, mergedR)
      requires i0 == mergedL.title.Length || j0 == mergedR.title.Length
      requires MergedUpTo(before, movies, lo, hi, mergedL.movies, mergedR.movies, i0, j0)
      modifies this`movies, title, scores
      ensures Valid()
      ensures MergedUpTo(before, movies, lo, hi, mergedL.movies, mergedR.movies,
                         mergedL.title.Length, mergedR.title.Length)
    {
      hide MovieSort.Merge, SameOutside;
      ghost var l, r := mergedL.movies, mergedR.movies;
      var i, j := i0, j0;
      while i < mergedL.title.Length
        invariant i <= mergedL.title.Length && (i < mergedL.title.Length ==> j == mergedR.title.Length)
        invariant Apart(mergedL, mergedR) && mergedL.movies == l && mergedR.movies == r
        invariant Valid() && MergedUpTo(before, movies, lo, hi, l, r, i, j)
      {
        ghost var s := movies;
        Put(lo + i + j, mergedL.title[i], mergedL.scores[i]);
        MergeTakesLeft(before, s, movies, lo, hi, l, r, i, j);
        i := i + 1;
      }
      while j < mergedR.title.Length
        invariant j <= mergedR.title.Length
        invariant Apart(mergedL, mergedR) && mergedL.movies == l && mergedR.movies == r
        invariant Valid() && MergedUpTo(before, movies, lo, hi, l, r, i, j)
      {
        ghost var s := movies;
        Put(lo + i + j, mergedR.title[j], mergedR.scores[j]);
        MergeTakesRight(before, s, movies, lo, hi, l, r, i, j);
        j := j + 1;
      }
    }

    /** The thread server on left <= k <= right.  Here the left half is finished before the right
        one, as when no thread can be created; ForkJoin shows that any interleaving of the two
        leaves the same movies. */
    method ThreadMergeSort(left: nat, right: nat, depth: nat)
      requires Valid() && left <= right < title.Length
      requires LeavesSortable(ThreadServer, MAX_DEPTH, movies[left..right + 1], depth)
      modifies this`movies, title, scores
      ensures Valid()
      ensures TaskSorted(ThreadServer, old(movies), movies, left, right + 1, depth)
      decreases right - left
    {
      hide TaskSort, Leaf, MovieSort.Merge, SameOutside, LeavesSortable, FewNegative;
      ghost var before := movies;
      assert IsLeaf(ThreadServer, MAX_DEPTH, right + 1 - left, depth) == (depth >= MAX_DEPTH || right == left);
      if depth >= MAX_DEPTH || right == left {
        assert left + (right - left + 1) == right + 1;
        LeafSortable(ThreadServer, before[left..right + 1], depth);
        Sort(left, right - left + 1);
        LeafSortedInPlace(ThreadServer, before, movies, left, right + 1, depth);
        return;
      } else {
        var mid := (right + left) / 2;
        assert mid + 1 == Middle(left, right + 1);
        HalvesSortable(ThreadServer, before, left, mid + 1, right + 1, depth);
        ThreadMergeSort(left, mid, depth + 1);
        ghost var leftDone := movies;
        LeftDone(ThreadServer, before, leftDone, left, mid + 1, right + 1, depth);
        ThreadMergeSort(mid + 1, right, depth + 1);
        ghost var bothDone := movies;
        Merge(left, mid + 1, right + 1);
        HalvesMerged(ThreadServer, before, leftDone, bothDone, movies, left, mid + 1, right + 1, depth);
        return;
      }
    }

    /** The process server on left <= k <= right: a leaf sorts a private copy and writes it back. */
    method ProcessMergeSort(left: nat, right: nat, depth: nat)
      requires Valid() && left <= right < title.Length
      requires LeavesSortable(ProcessServer, MAX_DEPTH, movies[left..right + 1], depth)
      modifies this`movies, title, scores
      ensures Valid()
      ensures TaskSorted(ProcessServer, old(movies), movies, left, right + 1, depth)
      decreases right - left
    {
      hide TaskSort, Leaf, MovieSort.Merge, SameOutside, LeavesSortable, FewNegative;
      ghost var before := movies;
      if depth >= MAX_DEPTH || right - left < PROCESS_LEAF {
        LeafSortable(ProcessServer, before[left..right + 1], depth);
        SortCopy(left, right);
        LeafSortedInPlace(ProcessServer, before, movies, left, right + 1, depth);
        return;
      } else {
        var mid := (right + left) / 2;
        assert mid + 1 == Middle(left, right + 1);
        HalvesSortable(ProcessServer, before, left, mid + 1, right + 1, depth);
        ProcessMergeSort(left, mid, depth + 1);
        ghost var leftDone := movies;
        LeftDone(ProcessServer, before, leftDone, left, mid + 1, right + 1, depth);
        ProcessMergeSort(mid + 1, right, depth + 1);
        ghost var bothDone := movies;
        Merge(left, mid + 1, right + 1);
        HalvesMerged(ProcessServer, before, leftDone, bothDone, movies, left, mid + 1, right + 1, depth);
        return;
      }
    }

    /** A leaf of the process server. */
    method SortCopy(left: nat, right: nat)
      requires Valid() && left <= right < title.Length && FewNegative(movies[left..right + 1])
      modifies this`movies, title, scores
      ensures Valid()
      ensures SortedAsLeaf(old(movies), movies, left, right + 1)
    {
      var temp := CopyOut(left, right + 1);
      temp.SortAll();
      CopyBack(left, temp);
    }

    method SortAll()
      requires Valid() && title.Length > 0 && FewNegative(movies)
      modifies this`movies, title, scores
      ensures Valid()
      ensures movies == Leaf(old(movies))
    {
      ghost var before := movies;
      assert before[0..0 + title.Length] == before;
      Sort(0, title.Length);
      assert movies[0..0 + title.Length] == movies;
    }

    /** Overwrites the movies from left on with those of the private copy. */
    method CopyBack(left: nat, temp: Filtered)
      requires Valid() && temp.Valid() && left + temp.title.Length <= title.Length
      requires this != temp && title != temp.title && scores != temp.scores
      modifies this`movies, title, scores
      ensures Valid()
      ensures movies[left..left + temp.title.Length] == temp.movies
      ensures SameOutside(old(movies), movies, left, left + temp.title.Length)
    {
      ghost var before, copy := movies, temp.movies;
      for i := 0 to temp.title.Length
        invariant Valid() && temp.Valid() && temp.movies == copy
        invariant SameOutside(before, movies, left, left + |copy|)
        invariant movies[left..left + i] == copy[..i]
      {
        ghost var s := movies;
        Put(left + i, temp.title[i], temp.scores[i]);
        WriteStep(s, left, left + i, copy[i], movies);
        assert copy[..i + 1] == copy[..i] + [copy[i]];
      }
    }
  }

  /** The movies of lo <= k < hi are sorted as a task of this depth sorts them, the others kept. */
  ghost predicate TaskSorted(server: Server, before: seq<Movie>, s: seq<Movie>, lo: nat, hi: nat, depth: nat)
  {
    && lo < hi <= |s| && SameOutside(before, s, lo, hi)
    && s[lo..hi] == TaskSort(server, MAX_DEPTH, before[lo..hi], depth)
  }

  /** The movies of lo <= k < mid and mid <= k < hi have been merged, the others kept. */
  ghost predicate MergedBy(before: seq<Movie>, s: seq<Movie>, lo: nat, mid: nat, hi: nat)
  {
    && lo <= mid <= hi <= |s| && SameOutside(before, s, lo, hi)
    && s[lo..hi] == Merge(before[lo..mid], before[mid..hi])
  }

  lemma LeafSortedInPlace(server: Server, before: seq<Movie>, s: seq<Movie>, lo: nat, hi: nat, depth: nat)
    requires lo < hi && SortedAsLeaf(before, s, lo, hi) && IsLeaf(server, MAX_DEPTH, hi - lo, depth)
    ensures TaskSorted(server, before, s, lo, hi, depth)
  {
  }

  lemma LeftDone(server: Server, before: seq<Movie>, s: seq<Movie>, lo: nat, mid: nat, hi: nat, depth: nat)
    requires lo < mid < hi <= |before| && TaskSorted(server, before, s, lo, mid, depth + 1)
    ensures s[mid..hi] == before[mid..hi]
  {
  }

  lemma HalvesMerged(server: Server, before: seq<Movie>, leftDone: seq<Movie>, bothDone: seq<Movie>, s: seq<Movie>,
                     lo: nat, mid: nat, hi: nat, depth: nat)
    requires lo < hi <= |before| && !IsLeaf(server, MAX_DEPTH, hi - lo, depth)
    requires mid == Middle(lo, hi)
    requires TaskSorted(server, before, leftDone, lo, mid, depth + 1)
    requires TaskSorted(server, leftDone, bothDone, mid, hi, depth + 1)
    requires MergedBy(bothDone, s, lo, mid, hi)
    ensures TaskSorted(server, before, s, lo, hi, depth)
  {
    MiddleIsLeftHalf(lo, hi);
    SameOutsideTransitive(before, leftDone, bothDone, lo, mid, hi);
    Halves(before, lo, mid, hi);
  }

  /** The movies of lo <= k < hi are ranked and rewritten, the others kept. */
  ghost predicate SortedAsLeaf(before: seq<Movie>, s: seq<Movie>, lo: nat, hi: nat)
  {
    && lo <= hi <= |s| && SameOutside(before, s, lo, hi)
    && s[lo..hi] == Leaf(before[lo..hi])
  }

  /** Selection sort has reached next: what is in place and what is left add up to the result. */
  ghost predicate SortedUpTo(before: seq<Movie>, s: seq<Movie>, lo: nat, next: nat, hi: nat)
  {
    && lo <= next <= hi <= |s|
    && SameOutside(before, s, lo, hi)
    && FewNegative(s[next..hi])
    && s[lo..next] + Leaf(s[next..hi]) == Leaf(before[lo..hi])
  }

  lemma SortStarts(before: seq<Movie>, lo: nat, hi: nat)
    requires lo <= hi <= |before| && FewNegative(before[lo..hi])
    ensures SortedUpTo(before, before, lo, lo, hi)
  {
    assert before[lo..lo] + Leaf(before[lo..hi]) == Leaf(before[lo..hi]);
  }

  lemma SortAdvances(before: seq<Movie>, s: seq<Movie>, lo: nat, next: nat, hi: nat, k: nat)
    requires SortedUpTo(before, s, lo, next, hi) && next + 1 < hi && IsFirstBest(s[next..hi], k)
    ensures SortedUpTo(before, Selected(s, next, k), lo, next + 1, hi)
  {
    SelectInPlace(s, lo, next, hi, k);
    SelectedFewNegative(s, next, hi, k);
  }

  lemma SortEnds(before: seq<Movie>, s: seq<Movie>, lo: nat, hi: nat)
    requires lo < hi && SortedUpTo(before, s, lo, hi - 1, hi)
    ensures var s' := s[hi - 1 := AddSecret(s[hi - 1])];
            SortedAsLeaf(before, s', lo, hi)
  {
    var s' := s[hi - 1 := AddSecret(s[hi - 1])];
    assert s[hi - 1..hi] == [s[hi - 1]];
    SingleLeaf(s[hi - 1]);
    WriteStep(s, lo, hi - 1, AddSecret(s[hi - 1]), s');
  }

  // ----- negative scores

  /** Where two movies or more are left and at most one score is negative, another one is not. */
  lemma SomeNotNegative(s: seq<Movie>, next: nat, hi: nat)
    requires next + 1 < hi <= |s| && FewNegative(s[next..hi])
    ensures exists k :: next <= k < hi && s[k].score >= 0.0
  {
    assert s[next..hi][0] == s[next] && s[next..hi][1] == s[next + 1];
  }

  lemma SelectedFewNegative(s: seq<Movie>, next: nat, hi: nat, k: nat)
    requires next + 1 < hi <= |s| && FewNegative(s[next..hi]) && IsFirstBest(s[next..hi], k)
    ensures FewNegative(Selected(s, next, k)[next + 1..hi])
  {
    hide FewNegative, IsFirstBest;
    var rest := s[next..hi];
    SomeNotNegative(s, next, hi);
    var j :| next <= j < hi && s[j].score >= 0.0;
    assert rest[j - next] == s[j];
    BestIsHighest(rest, k, j - next);
    FirstBestInRange(rest, k);
    FewNegativeRest(rest, k);
    assert Selected(s, next, k)[next + 1..hi] == Swapped(rest, 0, k)[1..];
  }

  lemma FirstBestInRange(xs: seq<Movie>, k: int)
    requires IsFirstBest(xs, k)
    ensures 0 <= k < |xs|
  {
  }

  lemma LeafSortable(server: Server, xs: seq<Movie>, depth: nat)
    requires xs != [] && LeavesSortable(server, MAX_DEPTH, xs, depth) && IsLeaf(server, MAX_DEPTH, |xs|, depth)
    ensures FewNegative(xs)
  {
  }

  lemma HalvesSortable(server: Server, s: seq<Movie>, lo: nat, mid: nat, hi: nat, depth: nat)
    requires lo < hi <= |s| && !IsLeaf(server, MAX_DEPTH, hi - lo, depth) && mid == Middle(lo, hi)
    requires LeavesSortable(server, MAX_DEPTH, s[lo..hi], depth)
    ensures lo < mid < hi
    ensures LeavesSortable(server, MAX_DEPTH, s[lo..mid], depth + 1)
    ensures LeavesSortable(server, MAX_DEPTH, s[mid..hi], depth + 1)
  {
    hide FewNegative;
    MiddleIsLeftHalf(lo, hi);
    Halves(s, lo, mid, hi);
  }

  /** The first score above the -1 with which max starts. */
  lemma FirstScore(s: seq<Movie>)
    requires s != [] && s[|s| - 1].score > -1.0 && forall j :: 0 <= j < |s| - 1 ==> s[j].score <= -1.0
    ensures IsFirstBest(s, |s| - 1)
  {
  }

  /** The movie after the front overtakes the best one of the front. */
  lemma NewBest(s: seq<Movie>, best: nat)
    requires 1 < |s| && IsFirstBest(s[..|s| - 1], best) && Before(s[|s| - 1], s[best])
    ensures IsFirstBest(s, |s| - 1)
  {
    var n := |s| - 1;
    forall j | 0 <= j < n ensures Before(s[n], s[j]) {
      assert s[..n][j] == s[j] && s[..n][best] == s[best];
      BeforeTotal(s[best], s[j]);
      BeforeThenNotAfter(s[n], s[best], s[j]);
    }
  }

  lemma OldBest(s: seq<Movie>, best: nat)
    requires 1 < |s| && IsFirstBest(s[..|s| - 1], best) && !Before(s[|s| - 1], s[best])
    ensures IsFirstBest(s, best)
  {
    var n := |s| - 1;
    assert forall j :: 0 <= j < n ==> s[..n][j] == s[j];
  }

  // ----- filtering and scoring

  datatype MovieProfile = MovieProfile(title: string, weights: seq<real>)
  datatype Request = Request(keywords: string, weights: seq<real>)

  predicate WellFormed(weights: seq<real>)
  {
    |weights| == NUM_OF_GENRE
  }

  predicate AllWellFormed(profiles: seq<MovieProfile>)
  {
    forall i :: 0 <= i < |profiles| ==> WellFormed(profiles[i].weights)
  }

  /** strstr finds the keywords in the title, or the keywords are a star. */
  predicate Matches(title: string, keywords: string)
  {
    keywords == "*" || exists i :: 0 <= i <= |title| - |keywords| && OccursAt(title, keywords, i)
  }

  predicate OccursAt(title: string, keywords: string, i: nat)
    requires i + |keywords| <= |title|
  {
    title[i..i + |keywords|] == keywords
  }

  /** The sum of the products of the first n weights. */
  function Dot(u: seq<real>, v: seq<real>, n: nat): real
    requires n <= |u| && n <= |v|
  {
    if n == 0 then 0.0 else Dot(u, v, n - 1) + u[n - 1] * v[n - 1]
  }

  /** What the score is: of a genre alone the product of the two weights, and for weights that are sums the sum. */
  lemma {:induction false} DotOfOneGenre(u: seq<real>, v: seq<real>, n: nat, j: nat)
    requires n <= |u| && n <= |v| && j < n
    requires (forall i :: 0 <= i < n && i != j ==> u[i] == 0.0) || (forall i :: 0 <= i < n && i != j ==> v[i] == 0.0)
    ensures Dot(u, v, n) == u[j] * v[j]
  {
    if j < n - 1 {
      DotOfOneGenre(u, v, n - 1, j);
    } else {
      DotOfNone(u, v, n - 1);
    }
  }

  lemma {:induction false} DotOfNone(u: seq<real>, v: seq<real>, n: nat)
    requires n <= |u| && n <= |v|
    requires (forall i :: 0 <= i < n ==> u[i] == 0.0) || (forall i :: 0 <= i < n ==> v[i] == 0.0)
    ensures Dot(u, v, n) == 0.0
  {
    if n > 0 {
      DotOfNone(u, v, n - 1);
    }
  }

  lemma {:induction false} DotAdds(u: seq<real>, u': seq<real>, sum: seq<real>, v: seq<real>, n: nat)
    requires n <= |u| && n <= |u'| && n <= |sum| && n <= |v|
    requires forall i :: 0 <= i < n ==> sum[i] == u[i] + u'[i]
    ensures Dot(sum, v, n) == Dot(u, v, n) + Dot(u', v, n)
    ensures Dot(v, sum, n) == Dot(v, u, n) + Dot(v, u', n)
  {
    if n > 0 {
      DotAdds(u, u', sum, v, n - 1);
    }
  }

  /** The movies a request asks for, in the order of the data set, with their scores. */
  function Chosen(key: Request, profiles: seq<MovieProfile>): seq<Movie>
    requires WellFormed(key.weights) && AllWellFormed(profiles)
  {
    if profiles == [] then []
    else
      var n := |profiles| - 1;
      var m := profiles[n];
      assert WellFormed(profiles[n].weights);
      Chosen(key, profiles[..n]) +
        if Matches(m.title, key.keywords) then [Movie(m.title, Dot(key.weights, m.weights, NUM_OF_GENRE))] else []
  }

  /** A movie is chosen exactly when its title matches. */
  lemma {:induction false} ChosenExactly(key: Request, profiles: seq<MovieProfile>)
    requires WellFormed(key.weights) && AllWellFormed(profiles)
    ensures |Chosen(key, profiles)| <= |profiles|
    ensures forall m :: m in Chosen(key, profiles) <==>
              exists i :: 0 <= i < |profiles| && Matches(profiles[i].title, key.keywords)
                          && m == Movie(profiles[i].title, Dot(key.weights, profiles[i].weights, 19))
  {
    if profiles != [] {
      var n := |profiles| - 1;
      var front := profiles[..n];
      ChosenExactly(key, front);
      assert forall i :: 0 <= i < n ==> front[i] == profiles[i];
    }
  }

  lemma MatchesExactly(title: string, keywords: string)
    ensures Matches(title, keywords) <==> keywords == "*" || exists p, s :: title == p + keywords + s
  {
    if i :| 0 <= i <= |title| - |keywords| && OccursAt(title, keywords, i) {
      assert title == title[..i] + keywords + title[i + |keywords|..];
    }
    if p, s :| title == p + keywords + s {
      assert OccursAt(title, keywords, |p|);
    }
  }

  /** The chosen movies come in the order of the data set: what is chosen of its first part is followed by
      what is chosen of the rest. */
  lemma {:induction false} ChosenInOrder(key: Request, profiles: seq<MovieProfile>, more: seq<MovieProfile>)
    requires WellFormed(key.weights) && AllWellFormed(profiles) && AllWellFormed(more)
    ensures AllWellFormed(profiles + more)
    ensures Chosen(key, profiles + more) == Chosen(key, profiles) + Chosen(key, more)
  {
    if more == [] {
      assert profiles + more == profiles;
    } else {
      var n := |more| - 1;
      assert (profiles + more)[..|profiles| + n] == profiles + more[..n];
      ChosenInOrder(key, profiles, more[..n]);
    }
  }

  ghost predicate NotNegative(weights: seq<real>)
  {
    forall j :: 0 <= j < |weights| ==> weights[j] >= 0.0
  }

  lemma {:induction false} DotNotNegative(u: seq<real>, v: seq<real>, n: nat)
    requires WellFormed(u) && WellFormed(v) && NotNegative(u) && NotNegative(v) && n <= NUM_OF_GENRE
    ensures Dot(u, v, n) >= 0.0
  {
    if n > 0 {
      DotNotNegative(u, v, n - 1);
      assert u[n - 1] >= 0.0 && v[n - 1] >= 0.0;
    }
  }

  /** No request whose weights are not negative aborts, on such a data set. */
  lemma RequestSortable(server: Server, key: Request, profiles: seq<MovieProfile>)
    requires WellFormed(key.weights) && AllWellFormed(profiles) && Chosen(key, profiles) != []
    requires NotNegative(key.weights) && forall i :: 0 <= i < |profiles| ==> NotNegative(profiles[i].weights)
    ensures LeavesSortable(server, MAX_DEPTH, Chosen(key, profiles), 0)
  {
    hide Dot;
    ChosenExactly(key, profiles);
    var chosen := Chosen(key, profiles);
    forall k | 0 <= k < |chosen| ensures chosen[k].score >= 0.0 {
      assert chosen[k] in chosen;
      var i :| 0 <= i < |profiles| && chosen[k].score == Dot(key.weights, profiles[i].weights, NUM_OF_GENRE);
      DotNotNegative(key.weights, profiles[i].weights, NUM_OF_GENRE);
    }
    FewNegativeSortable(server, MAX_DEPTH, chosen, 0);
  }

  /** Fills the buffer with the chosen movies; each score is added to what the buffer held there. */
  method Filter(key: Request, profiles: seq<MovieProfile>, filtered: Filtered)
    requires filtered.Valid() && |profiles| <= filtered.title.Length
    requires WellFormed(key.weights) && AllWellFormed(profiles)
    modifies filtered, filtered.title, filtered.scores
    ensures filtered.Valid() && filtered.count == |Chosen(key, profiles)| <= filtered.title.Length
    ensures forall k :: 0 <= k < filtered.count ==>
              filtered.movies[k] == Movie(Chosen(key, profiles)[k].title,
                                          old(filtered.movies[k].score) + Chosen(key, profiles)[k].score)
  {
    ghost var before := filtered.movies;
    filtered.count := 0;
    for i := 0 to |profiles|
      invariant filtered.Valid() && filtered.count == |Chosen(key, profiles[..i])| <= i
      invariant forall k :: 0 <= k < filtered.count ==>
                  filtered.movies[k] == Movie(Chosen(key, profiles[..i])[k].title,
                                              before[k].score + Chosen(key, profiles[..i])[k].score)
      invariant forall k :: filtered.count <= k < |before| ==> filtered.movies[k] == before[k]
    {
      var m := profiles[i];
      assert profiles[..i + 1][..i] == profiles[..i] && profiles[..i + 1][i] == m;
      if Matches(m.title, key.keywords) {
        Add(key, m, filtered);
      }
    }
    assert profiles[..|profiles|] == profiles;
  }

  method Add(key: Request, m: MovieProfile, filtered: Filtered)
    requires filtered.Valid() && filtered.count < filtered.title.Length
    requires WellFormed(key.weights) && WellFormed(m.weights)
    modifies filtered, filtered.title, filtered.scores
    ensures filtered.Valid() && filtered.count == old(filtered.count) + 1
    ensures filtered.movies == old(filtered.movies[filtered.count :=
              Movie(m.title, filtered.movies[filtered.count].score + Dot(key.weights, m.weights, NUM_OF_GENRE))])
  {
    var k := filtered.count;
    ghost var before := filtered.movies;
    filtered.Put(k, m.title, filtered.scores[k]);
    for j := 0 to NUM_OF_GENRE
      invariant filtered.Valid() && filtered.count == k
      invariant filtered.movies == before[k := Movie(m.title, before[k].score + Dot(key.weights, m.weights, j))]
    {
      var product := key.weights[j] * m.weights[j];
      assert Dot(key.weights, m.weights, j + 1) == Dot(key.weights, m.weights, j) + product;
      assert filtered.scores[k] == filtered.movies[k].score;
      filtered.Put(k, m.title, filtered.scores[k] + product);
    }
    filtered.count := k + 1;
  }

  /** The answer of tserver to a request that some movie matches, up to writing it to a file.  The depth limit
      of both servers is 5. */
  method HandleRequest(key: Request, profiles: seq<MovieProfile>) returns (afterFilter: Filtered)
    requires |profiles| <= MAX_MOVIES
    requires WellFormed(key.weights) && AllWellFormed(profiles)
    requires Chosen(key, profiles) != [] && LeavesSortable(ThreadServer, MAX_DEPTH, Chosen(key, profiles), 0)
    ensures afterFilter.Valid() && afterFilter.count == |Chosen(key, profiles)| <= |afterFilter.movies|
    ensures Answers(afterFilter.movies[..afterFilter.count]) == ThreadAnswer(5, Chosen(key, profiles))
    ensures afterFilter.movies[..afterFilter.count] == Ranked(AddSecrets(Chosen(key, profiles)))
            <==> LeavesKeepOrder(ThreadServer, MAX_DEPTH, Chosen(key, profiles), 0)
  {
    hide TaskSort, LeavesKeepOrder, LeavesSortable, Ranked, AddSecrets;
    ghost var chosen := Chosen(key, profiles);
    ChosenExactly(key, profiles);
    afterFilter := new Filtered(MAX_MOVIES);
    Filter(key, profiles, afterFilter);
    assert afterFilter.movies[0..|chosen|] == chosen;
    afterFilter.ThreadMergeSort(0, afterFilter.count - 1, 0);
    assert afterFilter.movies[..|chosen|] == afterFilter.movies[0..|chosen|];
    SortIsRanking(ThreadServer, MAX_DEPTH, chosen, 0);
  }

  /** The answer of pserver to its one request. */
  method HandleOnlyRequest(key: Request, profiles: seq<MovieProfile>) returns (afterFilter: Filtered)
    requires |profiles| <= MAX_MOVIES
    requires WellFormed(key.weights) && AllWellFormed(profiles)
    requires Chosen(key, profiles) != [] && LeavesSortable(ProcessServer, MAX_DEPTH, Chosen(key, profiles), 0)
    ensures afterFilter.Valid() && afterFilter.count == |Chosen(key, profiles)| <= |afterFilter.movies|
    ensures Definite(5, Chosen(key, profiles))
    ensures Answers(afterFilter.movies[..afterFilter.count]) == ProcessAnswer(5, Chosen(key, profiles))
    ensures afterFilter.movies[..afterFilter.count] == Ranked(AddSecrets(Chosen(key, profiles)))
            <==> LeavesKeepOrder(ProcessServer, MAX_DEPTH, Chosen(key, profiles), 0)
  {
    hide TaskSort, LeavesKeepOrder, LeavesSortable, LastSortable, Ranked, AddSecrets;
    ghost var chosen := Chosen(key, profiles);
    ChosenExactly(key, profiles);
    afterFilter := new Filtered(MAX_MOVIES);
    Filter(key, profiles, afterFilter);
    assert afterFilter.movies[0..|chosen|] == chosen;
    afterFilter.ProcessMergeSort(0, afterFilter.count - 1, 0);
    assert afterFilter.movies[..|chosen|] == afterFilter.movies[0..|chosen|];
    SortIsRanking(ProcessServer, MAX_DEPTH, chosen, 0);
  }

  /** The two servers give one answer to one request, if no title is inverted and no weight is negative. */
  lemma RequestsAgree(key: Request, profiles: seq<MovieProfile>)
    requires WellFormed(key.weights) && AllWellFormed(profiles) && Chosen(key, profiles) != []
    requires NotNegative(key.weights) && forall i :: 0 <= i < |profiles| ==> NotNegative(profiles[i].weights)
    requires forall i :: 0 <= i < |profiles| ==> Plain(profiles[i].title)
    ensures var chosen := Chosen(key, profiles);
            && Definite(MAX_DEPTH, chosen)
            && ThreadAnswer(MAX_DEPTH, chosen) == ProcessAnswer(MAX_DEPTH, chosen)
            && ThreadAnswer(MAX_DEPTH, chosen) == Answers(AddSecrets(Ranked(chosen)))
  {
    hide TaskSort, LeavesSortable, LastSortable, Dot;
    var chosen := Chosen(key, profiles);
    RequestSortable(ThreadServer, key, profiles);
    RequestSortable(ProcessServer, key, profiles);
    ChosenExactly(key, profiles);
    forall x | x in chosen ensures Plain(x.title) {
    }
    PlainNoInversion(chosen);
    ServersAgree(chosen, MAX_DEPTH, MAX_DEPTH);
  }
}
