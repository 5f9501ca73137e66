/** What the two servers compute: a tree of selection-sorted and rewritten leaves, merged on the
    rewritten titles.  Everything here is about values; MovieServer holds the loops over the shared
    arrays and ForkJoin the interleaving of the workers. */
module MovieSort {
  import opened MovieOrder

  /** tserver builds the sort from threads, pserver from processes. */
  datatype Server = ThreadServer | ProcessServer

  const PROCESS_LEAF := 1024

  /** A task of n movies at this depth is sorted directly. */
  predicate IsLeaf(server: Server, maxDepth: nat, n: nat, depth: nat)
  {
    depth >= maxDepth ||
    match server
    case ThreadServer => n == 1
    case ProcessServer => n - 1 < PROCESS_LEAF
  }

  /** The number of movies in the left half of a range of n, the middle one included. */
  function LeftHalf(n: nat): (h: nat)
    ensures n >= 2 ==> 0 < h < n
  {
    (n + 1) / 2
  }

  /** The first index of the right half; the source's mid is the one before it. */
  function Middle(lo: nat, hi: nat): nat
    requires lo < hi
  {
    (hi - 1 + lo) / 2 + 1
  }

  lemma MiddleIsLeftHalf(lo: nat, hi: nat)
    requires lo < hi
    ensures Middle(lo, hi) == lo + LeftHalf(hi - lo)
    ensures 0 <= (Middle(lo, hi) - lo) - (hi - Middle(lo, hi)) <= 1
  {
  }

  // ----- reference order: insertion sort

  function Insert(x: Movie, ys: seq<Movie>): seq<Movie>
  {
    if ys == [] || !Before(ys[0], x) then [x] + ys else [ys[0]] + Insert(x, ys[1..])
  }

  /** The recommended order of a list of movies. */
  function Ranked(xs: seq<Movie>): seq<Movie>
  {
    if xs == [] then [] else Insert(xs[0], Ranked(xs[1..]))
  }

  // ----- the algorithm

  /** A leaf: ranked on the bare titles, then rewritten. */
  function Leaf(xs: seq<Movie>): seq<Movie>
  {
    AddSecrets(Ranked(xs))
  }

  /** Two lists merged on what their titles are by then; a tie takes the right one. */
  function Merge(l: seq<Movie>, r: seq<Movie>): (m: seq<Movie>)
    ensures |m| == |l| + |r|
    decreases |l| + |r|
  {
    if l == [] then r
    else if r == [] then l
    else if Before(l[0], r[0]) then [l[0]] + Merge(l[1..], r)
    else [r[0]] + Merge(l, r[1..])
  }

  function TaskSort(server: Server, maxDepth: nat, xs: seq<Movie>, depth: nat): seq<Movie>
    requires xs != []
    decreases |xs|
  {
    if IsLeaf(server, maxDepth, |xs|, depth) then Leaf(xs)
    else
      var h := LeftHalf(|xs|);
      Merge(TaskSort(server, maxDepth, xs[..h], depth + 1), TaskSort(server, maxDepth, xs[h..], depth + 1))
  }

  /** In no leaf do two movies with equal scores have titles that the suffix reorders. */
  ghost predicate LeavesKeepOrder(server: Server, maxDepth: nat, xs: seq<Movie>, depth: nat)
    requires xs != []
    decreases |xs|
  {
    if IsLeaf(server, maxDepth, |xs|, depth) then NoInversion(xs)
    else
      var h := LeftHalf(|xs|);
      && LeavesKeepOrder(server, maxDepth, xs[..h], depth + 1)
      && LeavesKeepOrder(server, maxDepth, xs[h..], depth + 1)
  }

  // ----- the reference is a sorted permutation

  lemma {:induction false} InsertRanks(x: Movie, ys: seq<Movie>)
    requires Sorted(ys)
    ensures Sorted(Insert(x, ys)) && multiset(Insert(x, ys)) == multiset(ys) + multiset{x}
  {
    if ys == [] {
    } else if !Before(ys[0], x) {
      forall k | 0 <= k < |ys| ensures !Before(ys[k], x) {
        if k > 0 { NotBeforeTransitive(x, ys[0], ys[k]); }
      }
    } else {
      InsertRanks(x, ys[1..]);
      TailMultiset(ys);
      BeforeTotal(ys[0], x);
      var rest := Insert(x, ys[1..]);
      forall k | 0 <= k < |rest| ensures !Before(rest[k], ys[0]) {
        assert rest[k] in multiset(rest);
        if rest[k] != x {
          assert rest[k] in ys[1..];
          FirstOfSorted(ys, rest[k]);
        }
      }
    }
  }

  lemma {:induction false} RankedIsSorted(xs: seq<Movie>)
    ensures Sorted(Ranked(xs)) && multiset(Ranked(xs)) == multiset(xs)
  {
    if xs != [] {
      RankedIsSorted(xs[1..]);
      InsertRanks(xs[0], Ranked(xs[1..]));
      TailMultiset(xs);
    }
  }

  lemma RankedUnique(xs: seq<Movie>, ys: seq<Movie>)
    requires Sorted(ys) && multiset(ys) == multiset(xs)
    ensures ys == Ranked(xs)
  {
    RankedIsSorted(xs);
    SortedUnique(ys, Ranked(xs));
  }

  /** The ranking in full: scores downwards, and of equal scores titles upwards, as strcmp has them. */
  lemma RankedInOrder(xs: seq<Movie>, i: nat, j: nat)
    requires i < j < |Ranked(xs)|
    ensures var x, y := Ranked(xs)[i], Ranked(xs)[j];
            x.score > y.score ||
            (x.score == y.score &&
              (x.title == y.title ||
               exists k :: 0 <= k <= |x.title| && k < |y.title| && x.title[..k] == y.title[..k]
                           && (k == |x.title| || x.title[k] < y.title[k])))
  {
    RankedIsSorted(xs);
    hide Ranked;
    var x, y := Ranked(xs)[i], Ranked(xs)[j];
    BeforeTotal(x, y);
    LessIsStrcmp(x.title, y.title);
  }

  // ----- leaves

  lemma LeafPermutes(xs: seq<Movie>)
    ensures |Leaf(xs)| == |xs| && multiset(Leaf(xs)) == multiset(AddSecrets(xs))
  {
    RankedIsSorted(xs);
    assert |multiset(Ranked(xs))| == |multiset(xs)|;
    AddSecretsPermutes(Ranked(xs), xs);
  }

  /** A leaf comes out in order exactly when the suffix reorders no two of its movies. */
  lemma LeafSorted(xs: seq<Movie>)
    ensures Sorted(Leaf(xs)) <==> NoInversion(xs)
  {
    RankedIsSorted(xs);
    var b := Ranked(xs);
    if NoInversion(xs) {
      forall i, j | 0 <= i < j < |b| ensures !Before(AddSecret(b[j]), AddSecret(b[i])) {
        assert b[i] in multiset(xs) && b[j] in multiset(xs);
        assert b[i] in xs && b[j] in xs;
        SuffixOrder(b[j].title, b[i].title);
      }
    }
    if Sorted(Leaf(xs)) {
      forall x, y | x in xs && y in xs && x.score == y.score ensures !Inverted(x.title, y.title) {
        if Inverted(x.title, y.title) {
          assert x in multiset(b) && y in multiset(b);
          InversionBreaksLeaf(b, x, y);
        }
      }
    }
  }

  lemma InversionBreaksLeaf(b: seq<Movie>, x: Movie, y: Movie)
    requires Sorted(b) && x in b && y in b && x.score == y.score && Inverted(x.title, y.title)
    ensures !Sorted(AddSecrets(b))
  {
    PrefixLess(x.title, y.title);
    var i :| 0 <= i < |b| && b[i] == x;
    var j :| 0 <= j < |b| && b[j] == y;
    assert Before(b[i], b[j]);
    BeforeTotal(x, y);
    assert i < j;
    SuffixOrder(y.title, x.title);
    assert Before(AddSecrets(b)[j], AddSecrets(b)[i]);
  }

  lemma {:induction false} PrefixLess(a: string, b: string)
    requires |a| < |b| && b[..|a|] == a
    ensures Less(a, b)
  {
    if a != [] {
      assert b[1..][..|a[1..]|] == b[..|a|][1..];
      assert b[..|a|][0] == b[0];
      PrefixLess(a[1..], b[1..]);
    }
  }

  // ----- merging

  lemma {:induction false} MergePermutes(l: seq<Movie>, r: seq<Movie>)
    ensures multiset(Merge(l, r)) == multiset(l) + multiset(r)
    decreases |l| + |r|
  {
    if l != [] && r != [] {
      if Before(l[0], r[0]) {
        MergePermutes(l[1..], r);
        TailMultiset(l);
      } else {
        MergePermutes(l, r[1..]);
        TailMultiset(r);
      }
    }
  }

  lemma ConsSorted(x: Movie, ys: seq<Movie>)
    ensures Sorted([x] + ys) <==> Sorted(ys) && forall y :: y in ys ==> !Before(y, x)
  {
    var s := [x] + ys;
    if Sorted(s) {
      forall y | y in ys ensures !Before(y, x) {
        FirstOfSorted(s, y);
      }
      forall i, j | 0 <= i < j < |ys| ensures !Before(ys[j], ys[i]) {
        assert s[i + 1] == ys[i] && s[j + 1] == ys[j];
      }
    }
  }

  /** Merging gives an ordered list exactly when both parts are ordered. */
  lemma {:induction false} MergeSorted(l: seq<Movie>, r: seq<Movie>)
    ensures Sorted(Merge(l, r)) <==> Sorted(l) && Sorted(r)
    decreases |l| + |r|
  {
    hide Before, Sorted;
    if l == [] || r == [] {
      EmptySorted();
    } else {
      BeforeTotal(l[0], r[0]);
      if Before(l[0], r[0]) {
        MergeSorted(l[1..], r);
        MergePermutes(l[1..], r);
        MergeStep(l[0], l[1..], r, Merge(l[1..], r));
        assert [l[0]] + l[1..] == l;
      } else {
        MergeSorted(l, r[1..]);
        MergePermutes(l, r[1..]);
        MergeStep(r[0], r[1..], l, Merge(l, r[1..]));
        assert [r[0]] + r[1..] == r;
      }
    }
  }

  lemma EmptySorted()
    ensures Sorted([])
  {
  }

  /** One step of a merge: x heads its own list, y heads the other one and is not before x. */
  lemma MergeStep(x: Movie, xs: seq<Movie>, ys: seq<Movie>, rest: seq<Movie>)
    requires ys != [] && !Before(ys[0], x)
    requires multiset(rest) == multiset(xs) + multiset(ys)
    requires Sorted(rest) <==> Sorted(xs) && Sorted(ys)
    ensures Sorted([x] + rest) <==> Sorted([x] + xs) && Sorted(ys)
  {
    ConsSorted(x, rest);
    ConsSorted(x, xs);
    forall y ensures y in rest <==> y in xs || y in ys {
      assert y in multiset(rest) <==> y in multiset(xs) || y in multiset(ys);
    }
    if Sorted(ys) {
      forall y | y in ys ensures !Before(y, x) {
        FirstOfSorted(ys, y);
        NotBeforeTransitive(x, ys[0], y);
      }
    }
  }

  // ----- the whole sort

  lemma {:induction false} TaskSortPermutes(server: Server, maxDepth: nat, xs: seq<Movie>, depth: nat)
    requires xs != []
    ensures |TaskSort(server, maxDepth, xs, depth)| == |xs|
    ensures multiset(TaskSort(server, maxDepth, xs, depth)) == multiset(AddSecrets(xs))
    decreases |xs|
  {
    hide Leaf, Merge;
    if IsLeaf(server, maxDepth, |xs|, depth) {
      LeafPermutes(xs);
    } else {
      var h := LeftHalf(|xs|);
      TaskSortPermutes(server, maxDepth, xs[..h], depth + 1);
      TaskSortPermutes(server, maxDepth, xs[h..], depth + 1);
      MergePermutes(TaskSort(server, maxDepth, xs[..h], depth + 1), TaskSort(server, maxDepth, xs[h..], depth + 1));
      AddSecretsConcat(xs[..h], xs[h..]);
      assert xs == xs[..h] + xs[h..];
    }
  }

  lemma {:induction false} TaskSortSorted(server: Server, maxDepth: nat, xs: seq<Movie>, depth: nat)
    requires xs != []
    ensures Sorted(TaskSort(server, maxDepth, xs, depth)) <==> LeavesKeepOrder(server, maxDepth, xs, depth)
    decreases |xs|
  {
    hide Leaf, Merge;
    if IsLeaf(server, maxDepth, |xs|, depth) {
      LeafSorted(xs);
    } else {
      var h := LeftHalf(|xs|);
      TaskSortSorted(server, maxDepth, xs[..h], depth + 1);
      TaskSortSorted(server, maxDepth, xs[h..], depth + 1);
      MergeSorted(TaskSort(server, maxDepth, xs[..h], depth + 1), TaskSort(server, maxDepth, xs[h..], depth + 1));
    }
  }

  /** The result is the ranking of the rewritten movies, each of them rewritten once, exactly when
      no leaf holds two equally scored movies whose order the suffix changes. */
  lemma SortIsRanking(server: Server, maxDepth: nat, xs: seq<Movie>, depth: nat)
    requires xs != []
    ensures TaskSort(server, maxDepth, xs, depth) == Ranked(AddSecrets(xs))
            <==> LeavesKeepOrder(server, maxDepth, xs, depth)
  {
    TaskSortPermutes(server, maxDepth, xs, depth);
    TaskSortSorted(server, maxDepth, xs, depth);
    RankedIsSorted(AddSecrets(xs));
    if LeavesKeepOrder(server, maxDepth, xs, depth) {
      RankedUnique(AddSecrets(xs), TaskSort(server, maxDepth, xs, depth));
    }
  }

  lemma {:induction false} NoInversionInLeaves(server: Server, maxDepth: nat, xs: seq<Movie>, depth: nat)
    requires xs != [] && NoInversion(xs)
    ensures LeavesKeepOrder(server, maxDepth, xs, depth)
    decreases |xs|
  {
    if !IsLeaf(server, maxDepth, |xs|, depth) {
      var h := LeftHalf(|xs|);
      NoInversionInLeaves(server, maxDepth, xs[..h], depth + 1);
      NoInversionInLeaves(server, maxDepth, xs[h..], depth + 1);
    }
  }

  /** When the suffix changes no order, the ranking of the rewritten movies is the rewritten
      ranking, so the answer is in the order of the original titles too. */
  lemma RankingSurvivesRewriting(xs: seq<Movie>)
    requires NoInversion(xs)
    ensures Ranked(AddSecrets(xs)) == AddSecrets(Ranked(xs))
  {
    LeafPermutes(xs);
    LeafSorted(xs);
    RankedUnique(AddSecrets(xs), Leaf(xs));
  }

  /** The answer to a list in which the suffix changes no order, in full: the movies of the list, each once,
      in the order of score and original title, and each title with the suffix behind it. */
  lemma AnswerInOrder(server: Server, maxDepth: nat, xs: seq<Movie>) returns (order: seq<Movie>)
    requires xs != [] && NoInversion(xs)
    ensures multiset(order) == multiset(xs)
    ensures |TaskSort(server, maxDepth, xs, 0)| == |order| == |xs|
    ensures forall k :: 0 <= k < |order| ==>
              TaskSort(server, maxDepth, xs, 0)[k] == Movie(order[k].title + "\t[It's top secret.]", order[k].score)
    ensures forall i, j :: 0 <= i < j < |order| ==>
              var x, y := order[i], order[j];
              x.score > y.score ||
              (x.score == y.score &&
                (x.title == y.title ||
                 exists k :: 0 <= k <= |x.title| && k < |y.title| && x.title[..k] == y.title[..k]
                             && (k == |x.title| || x.title[k] < y.title[k])))
  {
    order := Ranked(xs);
    RankedIsSorted(xs);
    NoInversionInLeaves(server, maxDepth, xs, 0);
    SortIsRanking(server, maxDepth, xs, 0);
    RankingSurvivesRewriting(xs);
    TaskSortPermutes(server, maxDepth, xs, 0);
    hide TaskSort, Ranked, LeavesKeepOrder, NoInversion;
    forall i, j | 0 <= i < j < |order|
      ensures var x, y := order[i], order[j];
              x.score > y.score ||
              (x.score == y.score &&
                (x.title == y.title ||
                 exists k :: 0 <= k <= |x.title| && k < |y.title| && x.title[..k] == y.title[..k]
                             && (k == |x.title| || x.title[k] < y.title[k])))
    {
      RankedInOrder(xs, i, j);
    }
  }

  lemma SingleHasNoInversion(x: Movie)
    ensures NoInversion([x])
  {
  }

  // ----- what selection sort and the merge loop do step by step

  /** k is the first index at which the leading movie of xs stands. */
  ghost predicate IsFirstBest(xs: seq<Movie>, k: int)
  {
    && 0 <= k < |xs|
    && (forall j :: 0 <= j < k ==> Before(xs[k], xs[j]))
    && (forall j :: k < j < |xs| ==> !Before(xs[j], xs[k]))
  }

  function Swapped(xs: seq<Movie>, i: nat, j: nat): seq<Movie>
    requires i < |xs| && j < |xs|
  {
    xs[i := xs[j]][j := xs[i]]
  }

  lemma SwapPermutes(xs: seq<Movie>, i: nat, j: nat)
    requires i < |xs| && j < |xs|
    ensures multiset(Swapped(xs, i, j)) == multiset(xs)
  {
  }

  /** Selecting the leading movie, swapping it to the front and rewriting it leaves the same work
      to be done on the rest. */
  lemma SelectStep(xs: seq<Movie>, k: nat)
    requires IsFirstBest(xs, k)
    ensures Leaf(xs) == [AddSecret(xs[k])] + Leaf(Swapped(xs, 0, k)[1..])
  {
    hide Before, AddSecret, Ranked;
    var ys := Swapped(xs, 0, k);
    SwapPermutes(xs, 0, k);
    NoneBeforeBest(xs, k);
    RankedHead(ys);
    RankedIsSorted(ys);
    RankedUnique(xs, Ranked(ys));
    AddSecretsConcat([ys[0]], Ranked(ys[1..]));
  }

  lemma NoneBeforeBest(xs: seq<Movie>, k: nat)
    requires IsFirstBest(xs, k)
    ensures forall y :: y in Swapped(xs, 0, k)[1..] ==> !Before(y, xs[k])
  {
    hide Before;
    var ys := Swapped(xs, 0, k);
    SwapPermutes(xs, 0, k);
    forall y | y in ys[1..] ensures !Before(y, xs[k]) {
      assert y in multiset(ys);
      assert y in multiset(xs);
      BeforeTotal(y, xs[k]);
    }
  }

  lemma RankedHead(ys: seq<Movie>)
    requires ys != [] && forall y :: y in ys[1..] ==> !Before(y, ys[0])
    ensures Ranked(ys) == [ys[0]] + Ranked(ys[1..])
  {
    var rest := Ranked(ys[1..]);
    RankedIsSorted(ys[1..]);
    if rest != [] {
      assert rest[0] in multiset(rest);
      assert rest[0] in ys[1..];
    }
  }

  lemma SingleLeaf(x: Movie)
    ensures Leaf([x]) == [AddSecret(x)]
  {
    assert Ranked([x]) == [x] by { assert [x][1..] == []; }
  }

  /** A leading movie exists, and only one index is the first one. */
  lemma {:induction false} FirstBestExists(xs: seq<Movie>) returns (k: nat)
    requires xs != []
    ensures IsFirstBest(xs, k)
    ensures forall j :: IsFirstBest(xs, j) ==> j == k
  {
    var n := |xs| - 1;
    if n == 0 {
      k := 0;
    } else {
      var front := xs[..n];
      k := FirstBestExists(front);
      assert forall j :: 0 <= j < n ==> front[j] == xs[j];
      if Before(xs[n], xs[k]) {
        forall j | 0 <= j < n ensures Before(xs[n], xs[j]) {
          BeforeTotal(xs[n], xs[j]);
          BeforeTotal(xs[n], xs[k]);
          BeforeTotal(xs[k], xs[j]);
          if !Before(xs[n], xs[j]) {
            NotBeforeTransitive(xs[k], xs[j], xs[n]);
          }
        }
        k := n;
      }
    }
    forall j | IsFirstBest(xs, j) ensures j == k {
      BeforeTotal(xs[j], xs[k]);
    }
  }

  // ----- when selection sort aborts

  /** At most one movie has a negative score. */
  ghost predicate FewNegative(xs: seq<Movie>)
  {
    forall i, j :: 0 <= i < j < |xs| ==> xs[i].score >= 0.0 || xs[j].score >= 0.0
  }

  /** Some round of selection sort finds no score that is zero or more, where argmax aborts; the last
      movie is not looked at. */
  ghost predicate SortAborts(xs: seq<Movie>)
    decreases |xs|
  {
    |xs| >= 2 && exists k :: IsFirstBest(xs, k) && (xs[k].score < 0.0 || SortAborts(Swapped(xs, 0, k)[1..]))
  }

  lemma {:induction false} SortAbortsExactly(xs: seq<Movie>)
    ensures SortAborts(xs) <==> !FewNegative(xs)
    decreases |xs|
  {
    hide Before;
    if |xs| >= 2 {
      var k := FirstBestExists(xs);
      if xs[k].score < 0.0 {
        BestIsHighest(xs, k, 0);
        BestIsHighest(xs, k, 1);
      } else {
        SortAbortsExactly(Swapped(xs, 0, k)[1..]);
        FewNegativeRest(xs, k);
      }
    }
  }

  lemma BestIsHighest(xs: seq<Movie>, k: int, j: nat)
    requires IsFirstBest(xs, k) && j < |xs|
    ensures xs[j].score <= xs[k].score
  {
  }

  /** The best movie taken away has no negative score, so the rest has as many as there were. */
  lemma FewNegativeRest(xs: seq<Movie>, k: nat)
    requires k < |xs| && xs[k].score >= 0.0
    ensures FewNegative(xs) <==> FewNegative(Swapped(xs, 0, k)[1..])
  {
    var ys := Swapped(xs, 0, k)[1..];
    assert forall i :: 0 < i < |xs| && i != k ==> ys[i - 1] == xs[i];
    assert k > 0 ==> ys[k - 1] == xs[0];
    if !FewNegative(xs) {
      var i, j :| 0 <= i < j < |xs| && xs[i].score < 0.0 && xs[j].score < 0.0;
      var i', j' := if i == 0 then k - 1 else i - 1, if j == 0 then k - 1 else j - 1;
      assert ys[i'] == xs[i] && ys[j'] == xs[j] && i' != j';
    }
  }

  /** No leaf aborts. */
  ghost predicate LeavesSortable(server: Server, maxDepth: nat, xs: seq<Movie>, depth: nat)
    requires xs != []
    decreases |xs|
  {
    if IsLeaf(server, maxDepth, |xs|, depth) then FewNegative(xs)
    else
      var h := LeftHalf(|xs|);
      && LeavesSortable(server, maxDepth, xs[..h], depth + 1)
      && LeavesSortable(server, maxDepth, xs[h..], depth + 1)
  }

  lemma {:induction false} FewNegativeSortable(server: Server, maxDepth: nat, xs: seq<Movie>, depth: nat)
    requires xs != [] && FewNegative(xs)
    ensures LeavesSortable(server, maxDepth, xs, depth)
    decreases |xs|
  {
    if !IsLeaf(server, maxDepth, |xs|, depth) {
      var h := LeftHalf(|xs|);
      FewNegativeSortable(server, maxDepth, xs[..h], depth + 1);
      FewNegativeSortable(server, maxDepth, xs[h..], depth + 1);
    }
  }

  // ----- the answers of the two servers

  datatype Answer = Aborted | Answers(movies: seq<Movie>)

  /** tserver is one process: an abort in any leaf ends it. */
  ghost function ThreadAnswer(maxDepth: nat, xs: seq<Movie>): Answer
    requires xs != []
  {
    if LeavesSortable(ThreadServer, maxDepth, xs, 0) then Answers(TaskSort(ThreadServer, maxDepth, xs, 0)) else Aborted
  }

  /** The last leaf is sorted by the process that took the request: it forks for every left half and goes
      on with the right half itself. */
  ghost predicate LastSortable(maxDepth: nat, xs: seq<Movie>, depth: nat)
    requires xs != []
    decreases |xs|
  {
    if IsLeaf(ProcessServer, maxDepth, |xs|, depth) then FewNegative(xs)
    else LastSortable(maxDepth, xs[LeftHalf(|xs|)..], depth + 1)
  }

  /** No process of pserver aborts, or the one that took the request does.  Otherwise a child aborts
      unnoticed, and its parent goes on with a range that has not been sorted. */
  ghost predicate Definite(maxDepth: nat, xs: seq<Movie>)
    requires xs != []
  {
    LeavesSortable(ProcessServer, maxDepth, xs, 0) || !LastSortable(maxDepth, xs, 0)
  }

  ghost function ProcessAnswer(maxDepth: nat, xs: seq<Movie>): Answer
    requires xs != [] && Definite(maxDepth, xs)
  {
    if LeavesSortable(ProcessServer, maxDepth, xs, 0) then Answers(TaskSort(ProcessServer, maxDepth, xs, 0))
    else Aborted
  }

  lemma {:induction false} SortableHasSortableLast(maxDepth: nat, xs: seq<Movie>, depth: nat)
    requires xs != [] && LeavesSortable(ProcessServer, maxDepth, xs, depth)
    ensures LastSortable(maxDepth, xs, depth)
    decreases |xs|
  {
    if !IsLeaf(ProcessServer, maxDepth, |xs|, depth) {
      SortableHasSortableLast(maxDepth, xs[LeftHalf(|xs|)..], depth + 1);
    }
  }

  /** A list of at most 1024 movies is one leaf of pserver, so that its answer is definite; and so is it
      where no leaf aborts. */
  lemma ShortIsDefinite(maxDepth: nat, xs: seq<Movie>)
    requires xs != [] && (|xs| <= 1024 || LeavesSortable(ProcessServer, maxDepth, xs, 0))
    ensures Definite(maxDepth, xs)
    ensures |xs| <= 1024 ==> (ProcessAnswer(maxDepth, xs) == Aborted <==> !FewNegative(xs))
  {
  }

  /** When the suffix changes no order, tserver and pserver give the same answer, whatever depth each of
      them splits to, exactly when both abort or neither does. */
  lemma ServersAgree(xs: seq<Movie>, threadDepth: nat, processDepth: nat)
    requires xs != [] && NoInversion(xs) && Definite(processDepth, xs)
    ensures ThreadAnswer(threadDepth, xs) == ProcessAnswer(processDepth, xs)
            <==> (LeavesSortable(ThreadServer, threadDepth, xs, 0)
                  <==> LeavesSortable(ProcessServer, processDepth, xs, 0))
    ensures var best := Answers(AddSecrets(Ranked(xs)));
            && (ThreadAnswer(threadDepth, xs) == best || ThreadAnswer(threadDepth, xs) == Aborted)
            && (ProcessAnswer(processDepth, xs) == best || ProcessAnswer(processDepth, xs) == Aborted)
  {
    hide LeavesSortable, TaskSort, LastSortable;
    NoInversionInLeaves(ThreadServer, threadDepth, xs, 0);
    NoInversionInLeaves(ProcessServer, processDepth, xs, 0);
    SortIsRanking(ThreadServer, threadDepth, xs, 0);
    SortIsRanking(ProcessServer, processDepth, xs, 0);
    RankingSurvivesRewriting(xs);
  }

  /** Where tserver splits as deep as pserver, its leaves lie in those of pserver: it aborts only where
      pserver does. */
  lemma {:induction false} FinerLeavesSortable(threadDepth: nat, processDepth: nat, xs: seq<Movie>, depth: nat)
    requires xs != [] && threadDepth >= processDepth && LeavesSortable(ProcessServer, processDepth, xs, depth)
    ensures LeavesSortable(ThreadServer, threadDepth, xs, depth)
    decreases |xs|
  {
    if IsLeaf(ProcessServer, processDepth, |xs|, depth) {
      FewNegativeSortable(ThreadServer, threadDepth, xs, depth);
    } else {
      var h := LeftHalf(|xs|);
      FinerLeavesSortable(threadDepth, processDepth, xs[..h], depth + 1);
      FinerLeavesSortable(threadDepth, processDepth, xs[h..], depth + 1);
    }
  }

  /** Two plain titles with negative scores: each is a leaf of its own in tserver, which compares nothing
      before it merges them; the two share a leaf in pserver, which aborts. */
  lemma OneServerAborts()
    ensures var xs := [Movie("a", -0.5), Movie("b", -0.25)];
            && NoInversion(xs) && Definite(5, xs)
            && ThreadAnswer(5, xs).Answers? && ProcessAnswer(5, xs).Aborted?
  {
    var x, y := Movie("a", -0.5), Movie("b", -0.25);
    var xs := [x, y];
    assert Plain("a") && Plain("b");
    PlainNoInversion(xs);
    assert xs[0].score < 0.0 && xs[1].score < 0.0 && !FewNegative(xs);
    ShortIsDefinite(5, xs);
    assert LeftHalf(|xs|) == 1 && xs[..1] == [x] && xs[1..] == [y];
    assert IsLeaf(ThreadServer, 5, 1, 1) && !IsLeaf(ThreadServer, 5, 2, 0);
    assert LeavesSortable(ThreadServer, 5, xs[..1], 1) && LeavesSortable(ThreadServer, 5, xs[1..], 1);
  }

  /** Where the leaves of one server keep the order, the servers agree exactly when both abort, or when
      neither does and the leaves of the other keep the order, too. */
  lemma ServersAgreeExactly(xs: seq<Movie>, threadDepth: nat, processDepth: nat)
    requires xs != [] && Definite(processDepth, xs)
    requires LeavesKeepOrder(ThreadServer, threadDepth, xs, 0) || LeavesKeepOrder(ProcessServer, processDepth, xs, 0)
    ensures ThreadAnswer(threadDepth, xs) == ProcessAnswer(processDepth, xs) <==>
              || (!LeavesSortable(ThreadServer, threadDepth, xs, 0)
                  && !LeavesSortable(ProcessServer, processDepth, xs, 0))
              || (LeavesSortable(ThreadServer, threadDepth, xs, 0) && LeavesSortable(ProcessServer, processDepth, xs, 0)
                  && LeavesKeepOrder(ThreadServer, threadDepth, xs, 0)
                  && LeavesKeepOrder(ProcessServer, processDepth, xs, 0))
  {
    hide LeavesSortable, TaskSort, LastSortable, LeavesKeepOrder;
    SortIsRanking(ThreadServer, threadDepth, xs, 0);
    SortIsRanking(ProcessServer, processDepth, xs, 0);
  }

  /** Where both servers split alike, they agree whatever the titles are, since they then do the same. */
  ghost predicate SplitAlike(threadDepth: nat, processDepth: nat, xs: seq<Movie>, depth: nat)
    requires xs != []
    decreases |xs|
  {
    var leaf := IsLeaf(ThreadServer, threadDepth, |xs|, depth);
    && leaf == IsLeaf(ProcessServer, processDepth, |xs|, depth)
    && (!leaf ==>
          var h := LeftHalf(|xs|);
          && SplitAlike(threadDepth, processDepth, xs[..h], depth + 1)
          && SplitAlike(threadDepth, processDepth, xs[h..], depth + 1))
  }

  lemma {:induction false} AlikeAgree(threadDepth: nat, processDepth: nat, xs: seq<Movie>, depth: nat)
    requires xs != [] && SplitAlike(threadDepth, processDepth, xs, depth)
    ensures TaskSort(ThreadServer, threadDepth, xs, depth) == TaskSort(ProcessServer, processDepth, xs, depth)
    ensures LeavesSortable(ThreadServer, threadDepth, xs, depth)
            <==> LeavesSortable(ProcessServer, processDepth, xs, depth)
    decreases |xs|
  {
    if !IsLeaf(ThreadServer, threadDepth, |xs|, depth) {
      var h := LeftHalf(|xs|);
      AlikeAgree(threadDepth, processDepth, xs[..h], depth + 1);
      AlikeAgree(threadDepth, processDepth, xs[h..], depth + 1);
    }
  }

  function Power2(n: nat): (p: nat)
    ensures p >= 1
  {
    if n == 0 then 1 else 2 * Power2(n - 1)
  }

  /** Ranges that are long enough are split to the depth limit by both. */
  lemma {:induction false} LongSplitAlike(maxDepth: nat, xs: seq<Movie>, depth: nat)
    requires depth <= maxDepth && |xs| >= (PROCESS_LEAF + 1) * Power2(maxDepth - depth)
    ensures xs != [] && SplitAlike(maxDepth, maxDepth, xs, depth)
    decreases |xs|
  {
    if depth < maxDepth {
      var h := LeftHalf(|xs|);
      assert Power2(maxDepth - depth) == 2 * Power2(maxDepth - (depth + 1));
      LongSplitAlike(maxDepth, xs[..h], depth + 1);
      LongSplitAlike(maxDepth, xs[h..], depth + 1);
    }
  }

  /** The servers agree on every list with a definite answer, inverted titles or not, that is one leaf for
      both, or that is long enough for both to split it to one and the same depth limit. */
  lemma ServersAgreeOnEqualSplits(xs: seq<Movie>, threadDepth: nat, processDepth: nat)
    requires xs != [] && Definite(processDepth, xs)
    requires (IsLeaf(ThreadServer, threadDepth, |xs|, 0) && IsLeaf(ProcessServer, processDepth, |xs|, 0))
          || (threadDepth == processDepth && |xs| >= 1025 * Power2(processDepth))
    ensures ThreadAnswer(threadDepth, xs) == ProcessAnswer(processDepth, xs)
  {
    hide LeavesSortable, TaskSort, LastSortable;
    if !IsLeaf(ThreadServer, threadDepth, |xs|, 0) || !IsLeaf(ProcessServer, processDepth, |xs|, 0) {
      LongSplitAlike(threadDepth, xs, 0);
    }
    AlikeAgree(threadDepth, processDepth, xs, 0);
  }

  /** A pair of titles on which the servers differ: each is a leaf of its own in tserver, and the
      two share a leaf in pserver. */
  lemma ServersDiffer()
    ensures var xs := [Movie("Up", 1.0), Movie("Up\t", 1.0)];
            && ThreadAnswer(5, xs).Answers? && Definite(5, xs) && ProcessAnswer(5, xs).Answers?
            && ThreadAnswer(5, xs) != ProcessAnswer(5, xs)
  {
    var xs := [Movie("Up", 1.0), Movie("Up\t", 1.0)];
    InversionExample();
    assert xs[0] in xs && xs[1] in xs && !NoInversion(xs);
    assert xs[..1] == [xs[0]] && xs[1..] == [xs[1]];
    assert LeftHalf(|xs|) == 1;
    SingleHasNoInversion(xs[0]);
    SingleHasNoInversion(xs[1]);
    assert IsLeaf(ThreadServer, 5, 1, 1) && !IsLeaf(ThreadServer, 5, 2, 0) && IsLeaf(ProcessServer, 5, 2, 0);
    assert LeavesKeepOrder(ThreadServer, 5, xs, 0);
    assert !LeavesKeepOrder(ProcessServer, 5, xs, 0);
    FewNegativeSortable(ThreadServer, 5, xs, 0);
    FewNegativeSortable(ProcessServer, 5, xs, 0);
    ServersAgreeExactly(xs, 5, 5);
  }

  // ----- the same in place, on a range of an array

  ghost predicate SameOutside(a: seq<Movie>, a': seq<Movie>, lo: nat, hi: nat)
  {
    |a| == |a'| && forall i :: 0 <= i < |a| && !(lo <= i < hi) ==> a'[i] == a[i]
  }

  lemma Halves(a: seq<Movie>, lo: nat, mid: nat, hi: nat)
    requires lo <= mid <= hi <= |a|
    ensures a[lo..hi][..mid - lo] == a[lo..mid] && a[lo..hi][mid - lo..] == a[mid..hi]
  {
  }

  /** The movie at next + k changes places with the one at next and is rewritten there. */
  function Selected(a: seq<Movie>, next: nat, k: nat): seq<Movie>
    requires next + k < |a|
  {
    var swapped := Swapped(a, next, next + k);
    swapped[next := AddSecret(swapped[next])]
  }

  lemma WriteStep(a: seq<Movie>, lo: nat, next: nat, x: Movie, a': seq<Movie>)
    requires lo <= next < |a| == |a'|
    requires a'[..next] == a[..next] && a'[next] == x
    ensures a'[lo..next + 1] == a[lo..next] + [x]
  {
    assert a'[lo..next] == a'[..next][lo..] == a[..next][lo..] == a[lo..next];
  }

  /** A write inside the range of a task. */
  lemma WriteInside(a: seq<Movie>, lo: nat, next: nat, hi: nat, x: Movie)
    requires lo <= next < hi <= |a|
    ensures a[next := x][lo..next + 1] == a[lo..next] + [x]
    ensures SameOutside(a, a[next := x], lo, hi)
  {
    WriteStep(a, lo, next, x, a[next := x]);
  }

  lemma SelectInPlace(a: seq<Movie>, lo: nat, next: nat, hi: nat, k: nat)
    requires lo <= next < hi <= |a| && IsFirstBest(a[next..hi], k)
    ensures var a' := Selected(a, next, k);
            && a'[lo..next + 1] + Leaf(a'[next + 1..hi]) == a[lo..next] + Leaf(a[next..hi])
            && SameOutside(a, a', lo, hi)
  {
    var a', xs := Selected(a, next, k), a[next..hi];
    SelectStep(xs, k);
    assert a'[next + 1..hi] == Swapped(xs, 0, k)[1..];
    WriteStep(a, lo, next, AddSecret(xs[k]), a');
    assert a[lo..next] + ([AddSecret(xs[k])] + Leaf(a'[next + 1..hi]))
        == a[lo..next] + [AddSecret(xs[k])] + Leaf(a'[next + 1..hi]);
  }

  /** A merge into lo <= k < hi has written i movies of l and j movies of r. */
  ghost predicate MergedUpTo(before: seq<Movie>, s: seq<Movie>, lo: nat, hi: nat,
                             l: seq<Movie>, r: seq<Movie>, i: nat, j: nat)
  {
    && i <= |l| && j <= |r| && lo + |l| + |r| == hi <= |s|
    && SameOutside(before, s, lo, hi)
    && s[lo..lo + i + j] + Merge(l[i..], r[j..]) == Merge(l, r)
  }

  lemma MergeStarts(before: seq<Movie>, lo: nat, hi: nat, l: seq<Movie>, r: seq<Movie>)
    requires lo + |l| + |r| == hi <= |before|
    ensures MergedUpTo(before, before, lo, hi, l, r, 0, 0)
  {
    assert before[lo..lo] + Merge(l, r) == Merge(l, r) && l[0..] == l && r[0..] == r;
  }

  lemma MergeTakesLeft(before: seq<Movie>, s: seq<Movie>, s': seq<Movie>, lo: nat, hi: nat,
                        l: seq<Movie>, r: seq<Movie>, i: nat, j: nat)
    requires MergedUpTo(before, s, lo, hi, l, r, i, j)
    requires i < |l| && (j < |r| ==> Before(l[i], r[j])) && s' == s[lo + i + j := l[i]]
    ensures MergedUpTo(before, s', lo, hi, l, r, i + 1, j)
  {
    hide Merge, Before;
    WriteStep(s, lo, lo + i + j, l[i], s');
    assert l[i..] == [l[i]] + l[i + 1..];
    MergeHeadLeft(l[i..], r[j..]);
    assert s[lo..lo + i + j] + ([l[i]] + Merge(l[i + 1..], r[j..]))
        == s[lo..lo + i + j] + [l[i]] + Merge(l[i + 1..], r[j..]);
  }

  lemma MergeTakesRight(before: seq<Movie>, s: seq<Movie>, s': seq<Movie>, lo: nat, hi: nat,
                        l: seq<Movie>, r: seq<Movie>, i: nat, j: nat)
    requires MergedUpTo(before, s, lo, hi, l, r, i, j)
    requires j < |r| && (i < |l| ==> !Before(l[i], r[j])) && s' == s[lo + i + j := r[j]]
    ensures MergedUpTo(before, s', lo, hi, l, r, i, j + 1)
  {
    hide Merge, Before;
    WriteStep(s, lo, lo + i + j, r[j], s');
    assert r[j..] == [r[j]] + r[j + 1..];
    MergeHeadRight(l[i..], r[j..]);
    assert s[lo..lo + i + j] + ([r[j]] + Merge(l[i..], r[j + 1..]))
        == s[lo..lo + i + j] + [r[j]] + Merge(l[i..], r[j + 1..]);
  }

  lemma MergeHeadLeft(l: seq<Movie>, r: seq<Movie>)
    requires l != [] && (r != [] ==> Before(l[0], r[0]))
    ensures Merge(l, r) == [l[0]] + Merge(l[1..], r)
  {
    if r == [] { assert l == [l[0]] + l[1..] && Merge(l[1..], r) == l[1..]; }
  }

  lemma MergeHeadRight(l: seq<Movie>, r: seq<Movie>)
    requires r != [] && (l != [] ==> !Before(l[0], r[0]))
    ensures Merge(l, r) == [r[0]] + Merge(l, r[1..])
  {
    if l == [] { assert r == [r[0]] + r[1..] && Merge(l, r[1..]) == r[1..]; }
  }

  lemma MergeEnds(before: seq<Movie>, s: seq<Movie>, lo: nat, hi: nat, l: seq<Movie>, r: seq<Movie>)
    requires MergedUpTo(before, s, lo, hi, l, r, |l|, |r|)
    ensures s[lo..hi] == Merge(l, r) && SameOutside(before, s, lo, hi)
  {
  }

  lemma SameOutsideTransitive(a: seq<Movie>, b: seq<Movie>, c: seq<Movie>, lo: nat, mid: nat, hi: nat)
    requires lo <= mid <= hi <= |a| && SameOutside(a, b, lo, mid) && SameOutside(b, c, mid, hi)
    ensures SameOutside(a, c, lo, hi)
    ensures b[mid..hi] == a[mid..hi] && c[lo..mid] == b[lo..mid]
  {
  }
}
