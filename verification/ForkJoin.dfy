/** The sort as it runs: a tree of tasks, spawned as threads or processes or called in line, that
    share one array.  Every movie copied, written or merged and every round of a selection sort is a
    step of its own, and any task that can move may move next.

    The proof rests on one function, Outcome: what the part of the array under a task is going to
    hold when the task is done.  No step of any task changes it. */
module ForkJoin {
  import opened MovieOrder
  import opened MovieSort

  datatype Setup = Setup(server: Server, maxDepth: nat)

  /** A task owns the array indices lo <= i < hi. */
  datatype Task =
    | Pending(lo: nat, hi: nat, depth: nat)                              // not started
    | Selecting(lo: nat, hi: nat, next: nat)                             // thread leaf: indices below next are final
    | CopyingOut(lo: nat, hi: nat, buffer: seq<Movie>)                   // process leaf: filling its private copy
    | CopyingBack(lo: nat, hi: nat, buffer: seq<Movie>, next: nat)       // process leaf: writing the sorted copy back
    | Forked(lo: nat, mid: nat, hi: nat, spawned: bool, left: Task, right: Task)
    | Gathering(lo: nat, mid: nat, hi: nat, buffer: seq<Movie>)          // merge: filling the two temporaries
    | Merging(lo: nat, hi: nat, l: seq<Movie>, r: seq<Movie>, next: nat) // merge: writing back
    | Done(lo: nat, hi: nat)

  /** A task on its own: neither about to start nor waiting for its halves. */
  predicate Alone(t: Task)
  {
    !t.Pending? && !t.Forked?
  }

  // ----- tasks on their own

  /** Work in progress adds up to the range of its task. */
  ghost predicate ValidAlone(t: Task, n: nat)
    requires Alone(t)
  {
    && t.lo < t.hi <= n
    && match t
       case Selecting(lo, hi, next) => lo <= next < hi
       case CopyingOut(lo, hi, buffer) => |buffer| <= hi - lo
       case CopyingBack(lo, hi, buffer, next) => |buffer| == hi - lo && lo <= next <= hi
       case Gathering(lo, mid, hi, buffer) => lo < mid < hi && |buffer| <= hi - lo
       case Merging(lo, hi, l, r, next) => lo <= next && |l| + |r| == hi - next
       case Done(lo, hi) => true
  }

  /** One round of selection sort, or one movie copied, written or merged.  A round on two movies or more
      needs a score that is not negative, and so does every round of the sort of a private copy. */
  ghost predicate Works(t: Task, a: seq<Movie>, t': Task, a': seq<Movie>)
    requires Alone(t) && ValidAlone(t, |a|)
  {
    match t
    case Selecting(lo, hi, next) =>
      && t' == (if next + 1 < hi then Selecting(lo, hi, next + 1) else Done(lo, hi))
      && exists k :: IsFirstBest(a[next..hi], k) && a' == Selected(a, next, k)
                     && (next + 1 < hi ==> a[next + k].score >= 0.0)
    case CopyingOut(lo, hi, buffer) =>
      && a' == a
      && (lo + |buffer| == hi ==> !SortAborts(buffer))
      && t' == if lo + |buffer| < hi then CopyingOut(lo, hi, buffer + [a[lo + |buffer|]])
               else CopyingBack(lo, hi, Leaf(buffer), lo)
    case CopyingBack(lo, hi, buffer, next) =>
      if next < hi then t' == CopyingBack(lo, hi, buffer, next + 1) && a' == a[next := buffer[next - lo]]
      else t' == Done(lo, hi) && a' == a
    case Gathering(lo, mid, hi, buffer) =>
      && a' == a
      && t' == if lo + |buffer| < hi then Gathering(lo, mid, hi, buffer + [a[lo + |buffer|]])
               else Merging(lo, hi, buffer[..mid - lo], buffer[mid - lo..], lo)
    case Merging(lo, hi, l, r, next) =>
      if next == hi then t' == Done(lo, hi) && a' == a
      else if r == [] || (l != [] && Before(l[0], r[0])) then
        t' == Merging(lo, hi, l[1..], r, next + 1) && a' == a[next := l[0]]
      else
        t' == Merging(lo, hi, l, r[1..], next + 1) && a' == a[next := r[0]]
    case Done(lo, hi) => false
  }

  /** A leaf is about to fail the assertion of argmax. */
  ghost predicate FailsAlone(t: Task, a: seq<Movie>)
    requires Alone(t) && ValidAlone(t, |a|)
  {
    match t
    case Selecting(lo, hi, next) =>
      next + 1 < hi && exists k :: IsFirstBest(a[next..hi], k) && a[next + k].score < 0.0
    case CopyingOut(lo, hi, buffer) => lo + |buffer| == hi && SortAborts(buffer)
    case _ => false
  }

  ghost function OutcomeAlone(t: Task, a: seq<Movie>): seq<Movie>
    requires Alone(t) && ValidAlone(t, |a|)
  {
    match t
    case Selecting(lo, hi, next) => a[lo..next] + Leaf(a[next..hi])
    case CopyingOut(lo, hi, buffer) => Leaf(buffer + a[lo + |buffer|..hi])
    case CopyingBack(lo, hi, buffer, next) => a[lo..next] + buffer[next - lo..]
    case Gathering(lo, mid, hi, buffer) =>
      var all := buffer + a[lo + |buffer|..hi];
      Merge(all[..mid - lo], all[mid - lo..])
    case Merging(lo, hi, l, r, next) => a[lo..next] + Merge(l, r)
    case Done(lo, hi) => a[lo..hi]
  }

  ghost function RemainingAlone(t: Task): int
    requires Alone(t)
  {
    match t
    case Selecting(lo, hi, next) => hi - next
    case CopyingOut(lo, hi, buffer) => 2 * (hi - lo) + 2 - |buffer|
    case CopyingBack(lo, hi, buffer, next) => hi - next + 1
    case Gathering(lo, mid, hi, buffer) => 2 * (hi - lo) + 2 - |buffer|
    case Merging(lo, hi, l, r, next) => hi - next + 1
    case Done(lo, hi) => 0
  }

  // ----- the task tree

  /** The shape of a task tree over array a: halves share no index. */
  ghost predicate Valid(setup: Setup, t: Task, a: seq<Movie>)
    decreases t
  {
    match t
    case Pending(lo, hi, _) => lo < hi <= |a|
    case Forked(lo, mid, hi, spawned, left, right) =>
      && lo < mid < hi <= |a|
      && (setup.server.ProcessServer? ==> spawned)
      && left.lo == lo && left.hi == mid && right.lo == mid && right.hi == hi
      && Valid(setup, left, a) && Valid(setup, right, a)
    case _ => ValidAlone(t, |a|)
  }

  /** Task t over array a may move to t' and a'. */
  ghost predicate Step(setup: Setup, t: Task, a: seq<Movie>, t': Task, a': seq<Movie>)
    requires Valid(setup, t, a)
    decreases t
  {
    match t
    case Pending(lo, hi, depth) => a' == a && Starts(setup, lo, hi, depth, t')
    case Forked(lo, mid, hi, spawned, left, right) =>
      || (exists left' :: t' == Forked(lo, mid, hi, spawned, left', right) && Step(setup, left, a, left', a'))
      || (exists right' :: t' == Forked(lo, mid, hi, spawned, left, right') && (spawned || left.Done?)
                           && Step(setup, right, a, right', a'))
      || (left.Done? && right.Done? && t' == Gathering(lo, mid, hi, []) && a' == a)
    case _ => Works(t, a, t', a')
  }

  /** Some leaf that can move fails the assertion.  That ends tserver.  In pserver it ends the process of
      that leaf; a run is followed up to that point. */
  ghost predicate Fails(setup: Setup, t: Task, a: seq<Movie>)
    requires Valid(setup, t, a)
    decreases t
  {
    match t
    case Pending(_, _, _) => false
    case Forked(_, _, _, spawned, left, right) =>
      Fails(setup, left, a) || ((spawned || left.Done?) && Fails(setup, right, a))
    case _ => FailsAlone(t, a)
  }

  /** No leaf of the task is ever going to fail. */
  ghost predicate Sortable(setup: Setup, t: Task, a: seq<Movie>)
    requires Valid(setup, t, a)
    decreases t
  {
    match t
    case Pending(lo, hi, depth) => LeavesSortable(setup.server, setup.maxDepth, a[lo..hi], depth)
    case Forked(_, _, _, _, left, right) => Sortable(setup, left, a) && Sortable(setup, right, a)
    case Selecting(lo, hi, next) => FewNegative(a[next..hi])
    case CopyingOut(lo, hi, buffer) => FewNegative(buffer + a[lo + |buffer|..hi])
    case _ => true
  }

  /** A task starts as a leaf, or hands its halves to two tasks; whether the left one runs beside
      the right one or before it depends on how many threads there are, so either may happen. */
  ghost predicate Starts(setup: Setup, lo: nat, hi: nat, depth: nat, t': Task)
    requires lo < hi
  {
    if IsLeaf(setup.server, setup.maxDepth, hi - lo, depth) then
      t' == if setup.server.ThreadServer? then Selecting(lo, hi, lo) else CopyingOut(lo, hi, [])
    else
      var mid := Middle(lo, hi);
      && t'.Forked?
      && (setup.server.ProcessServer? ==> t'.spawned)
      && t' == Forked(lo, mid, hi, t'.spawned, Pending(lo, mid, depth + 1), Pending(mid, hi, depth + 1))
  }

  /** What the range of the task will hold once the task is done. */
  ghost function Outcome(setup: Setup, t: Task, a: seq<Movie>): seq<Movie>
    requires Valid(setup, t, a)
    decreases t
  {
    match t
    case Pending(lo, hi, depth) => TaskSort(setup.server, setup.maxDepth, a[lo..hi], depth)
    case Forked(_, _, _, _, left, right) => Merge(Outcome(setup, left, a), Outcome(setup, right, a))
    case _ => OutcomeAlone(t, a)
  }

  /** An upper bound on the steps the task still has to take. */
  ghost function Remaining(setup: Setup, t: Task): int
    decreases t
  {
    match t
    case Pending(lo, hi, depth) => if lo < hi then Cost(setup, hi - lo, depth) else 0
    case Forked(lo, _, hi, _, left, right) =>
      Remaining(setup, left) + Remaining(setup, right) + 2 * (hi - lo) + 3
    case _ => RemainingAlone(t)
  }

  ghost function Cost(setup: Setup, n: nat, depth: nat): nat
    requires n > 0
    decreases n
  {
    if IsLeaf(setup.server, setup.maxDepth, n, depth) then 2 * n + 3
    else
      var h := LeftHalf(n);
      Cost(setup, h, depth + 1) + Cost(setup, n - h, depth + 1) + 2 * n + 4
  }

  // ----- one step of a task on its own

  ghost predicate KeepsOutcomeAlone(t: Task, a: seq<Movie>, t': Task, a': seq<Movie>)
    requires Alone(t) && ValidAlone(t, |a|)
  {
    && Alone(t') && t'.lo == t.lo && t'.hi == t.hi
    && SameOutside(a, a', t.lo, t.hi)
    && ValidAlone(t', |a'|) && OutcomeAlone(t', a') == OutcomeAlone(t, a)
    && 0 <= RemainingAlone(t') < RemainingAlone(t)
  }

  lemma Regroup(xs: seq<Movie>, x: Movie, ys: seq<Movie>)
    ensures xs + ([x] + ys) == xs + [x] + ys
  {
  }

  lemma LeafOfNothing(xs: seq<Movie>, none: seq<Movie>)
    requires none == []
    ensures xs + Leaf(none) == xs
  {
  }

  lemma SelectingWorks(t: Task, a: seq<Movie>, t': Task, a': seq<Movie>) returns (k: int)
    requires t.Selecting? && ValidAlone(t, |a|) && Works(t, a, t', a')
    ensures IsFirstBest(a[t.next..t.hi], k) && 0 <= k < t.hi - t.next && a' == Selected(a, t.next, k)
    ensures t' == if t.next + 1 < t.hi then Selecting(t.lo, t.hi, t.next + 1) else Done(t.lo, t.hi)
  {
    hide Before, Selected;
    k :| IsFirstBest(a[t.next..t.hi], k) && a' == Selected(a, t.next, k);
  }

  lemma SelectingStep(t: Task, a: seq<Movie>, t': Task, a': seq<Movie>)
    requires t.Selecting? && ValidAlone(t, |a|) && Works(t, a, t', a')
    ensures KeepsOutcomeAlone(t, a, t', a')
  {
    hide Works, OutcomeAlone, KeepsOutcomeAlone, IsFirstBest, Selected;
    var k := SelectingWorks(t, a, t', a');
    assert t == Selecting(t.lo, t.hi, t.next);
    SelectingMoves(a, t.lo, t.next, t.hi, k);
  }

  lemma SelectingMoves(a: seq<Movie>, lo: nat, next: nat, hi: nat, k: nat)
    requires lo <= next < hi <= |a| && k < hi - next && IsFirstBest(a[next..hi], k)
    ensures KeepsOutcomeAlone(Selecting(lo, hi, next), a,
                              if next + 1 < hi then Selecting(lo, hi, next + 1) else Done(lo, hi), Selected(a, next, k))
  {
    hide Leaf, Merge, Selected, IsFirstBest, SameOutside;
    SelectedKeepsLength(a, lo, next, hi, k);
    SelectInPlace(a, lo, next, hi, k);
    if next + 1 == hi {
      var a' := Selected(a, next, k);
      LeafOfNothing(a'[lo..hi], a'[hi..hi]);
    }
  }

  lemma SelectedKeepsLength(a: seq<Movie>, lo: nat, next: nat, hi: nat, k: nat)
    requires lo <= next < hi <= |a| && IsFirstBest(a[next..hi], k)
    ensures |Selected(a, next, k)| == |a|
  {
  }

  /** Copying one more movie out of the array. */
  lemma CopyStep(a: seq<Movie>, lo: nat, hi: nat, buffer: seq<Movie>)
    requires lo + |buffer| < hi <= |a|
    ensures var more := buffer + [a[lo + |buffer|]];
            more + a[lo + |more|..hi] == buffer + a[lo + |buffer|..hi]
  {
  }

  lemma CopyEnds(a: seq<Movie>, lo: nat, hi: nat, buffer: seq<Movie>)
    requires lo + |buffer| == hi <= |a|
    ensures buffer + a[lo + |buffer|..hi] == buffer
  {
  }

  lemma NothingBefore(a: seq<Movie>, lo: nat, xs: seq<Movie>)
    requires lo <= |a|
    ensures a[lo..lo] + xs == xs
  {
  }

  lemma CopyingOutWorks(t: Task, a: seq<Movie>, t': Task, a': seq<Movie>)
    requires t.CopyingOut? && ValidAlone(t, |a|) && Works(t, a, t', a')
    ensures a' == a
    ensures t' == if t.lo + |t.buffer| < t.hi then CopyingOut(t.lo, t.hi, t.buffer + [a[t.lo + |t.buffer|]])
                  else CopyingBack(t.lo, t.hi, Leaf(t.buffer), t.lo)
  {
    hide Leaf, SortAborts;
  }

  lemma CopyingOutStep(t: Task, a: seq<Movie>, t': Task, a': seq<Movie>)
    requires t.CopyingOut? && ValidAlone(t, |a|) && Works(t, a, t', a')
    ensures KeepsOutcomeAlone(t, a, t', a')
  {
    hide Works, OutcomeAlone, KeepsOutcomeAlone, Leaf;
    CopyingOutWorks(t, a, t', a');
    assert t == CopyingOut(t.lo, t.hi, t.buffer);
    if t.lo + |t.buffer| < t.hi {
      CopyingOutMoves(a, t.lo, t.hi, t.buffer);
    } else {
      CopyingOutEnds(a, t.lo, t.hi, t.buffer);
    }
  }

  lemma CopyingOutMoves(a: seq<Movie>, lo: nat, hi: nat, buffer: seq<Movie>)
    requires lo + |buffer| < hi <= |a|
    ensures KeepsOutcomeAlone(CopyingOut(lo, hi, buffer), a, CopyingOut(lo, hi, buffer + [a[lo + |buffer|]]), a)
  {
    hide Leaf, Merge, SameOutside;
    SameOutsideItself(a, lo, hi);
    CopyStep(a, lo, hi, buffer);
  }

  lemma CopyingOutEnds(a: seq<Movie>, lo: nat, hi: nat, buffer: seq<Movie>)
    requires lo < hi <= |a| && |buffer| == hi - lo
    ensures KeepsOutcomeAlone(CopyingOut(lo, hi, buffer), a, CopyingBack(lo, hi, Leaf(buffer), lo), a)
  {
    hide Leaf, Merge, SameOutside;
    SameOutsideItself(a, lo, hi);
    CopyEnds(a, lo, hi, buffer);
    LeafPermutes(buffer);
    NothingBefore(a, lo, Leaf(buffer));
  }

  lemma GatheringStep(t: Task, a: seq<Movie>, t': Task, a': seq<Movie>)
    requires t.Gathering? && ValidAlone(t, |a|) && Works(t, a, t', a')
    ensures KeepsOutcomeAlone(t, a, t', a')
  {
    hide Leaf, Merge, SameOutside;
    SameOutsideItself(a, t.lo, t.hi);
    if t.lo + |t.buffer| < t.hi {
      CopyStep(a, t.lo, t.hi, t.buffer);
    } else {
      CopyEnds(a, t.lo, t.hi, t.buffer);
      NothingBefore(a, t.lo, Merge(t'.l, t'.r));
    }
  }

  lemma CopyingBackWorks(t: Task, a: seq<Movie>, t': Task, a': seq<Movie>)
    requires t.CopyingBack? && ValidAlone(t, |a|) && Works(t, a, t', a')
    ensures t.next < t.hi ==>
              t' == CopyingBack(t.lo, t.hi, t.buffer, t.next + 1) && a' == a[t.next := t.buffer[t.next - t.lo]]
    ensures t.next == t.hi ==> t' == Done(t.lo, t.hi) && a' == a
  {
    hide Leaf, Merge, IsFirstBest, Selected, Before;
  }

  lemma CopyingBackStep(t: Task, a: seq<Movie>, t': Task, a': seq<Movie>)
    requires t.CopyingBack? && ValidAlone(t, |a|) && Works(t, a, t', a')
    ensures KeepsOutcomeAlone(t, a, t', a')
  {
    hide Works, OutcomeAlone, KeepsOutcomeAlone;
    CopyingBackWorks(t, a, t', a');
    assert t == CopyingBack(t.lo, t.hi, t.buffer, t.next);
    if t.next < t.hi {
      CopyingBackMoves(a, t.lo, t.next, t.hi, t.buffer);
    } else {
      CopyingBackEnds(a, t.lo, t.hi, t.buffer);
    }
  }

  lemma CopyingBackMoves(a: seq<Movie>, lo: nat, next: nat, hi: nat, buffer: seq<Movie>)
    requires lo <= next < hi <= |a| && |buffer| == hi - lo
    ensures KeepsOutcomeAlone(CopyingBack(lo, hi, buffer, next), a,
                              CopyingBack(lo, hi, buffer, next + 1), a[next := buffer[next - lo]])
  {
    hide Leaf, Merge, SameOutside;
    MovieCopiedBack(a, lo, next, hi, buffer);
  }

  lemma CopyingBackEnds(a: seq<Movie>, lo: nat, hi: nat, buffer: seq<Movie>)
    requires lo < hi <= |a| && |buffer| == hi - lo
    ensures KeepsOutcomeAlone(CopyingBack(lo, hi, buffer, hi), a, Done(lo, hi), a)
  {
    hide Leaf, Merge, SameOutside;
    SameOutsideItself(a, lo, hi);
    NothingAfter(a[lo..hi], buffer);
  }

  lemma MovieCopiedBack(a: seq<Movie>, lo: nat, next: nat, hi: nat, buffer: seq<Movie>)
    requires lo <= next < hi <= |a| && |buffer| == hi - lo
    ensures var k := next - lo;
            var a' := a[next := buffer[k]];
            && SameOutside(a, a', lo, hi)
            && a'[lo..next + 1] + buffer[k + 1..] == a[lo..next] + buffer[k..]
  {
    hide SameOutside;
    var k := next - lo;
    WriteInside(a, lo, next, hi, buffer[k]);
    Regroup(a[lo..next], buffer[k], buffer[k + 1..]);
    DropFirst(buffer, k);
  }

  lemma NothingAfter(xs: seq<Movie>, buffer: seq<Movie>)
    ensures xs + buffer[|buffer|..] == xs
  {
  }

  lemma DropFirst(xs: seq<Movie>, k: nat)
    requires k < |xs|
    ensures xs[k..] == [xs[k]] + xs[k + 1..]
  {
  }

  lemma MergingStep(t: Task, a: seq<Movie>, t': Task, a': seq<Movie>)
    requires t.Merging? && ValidAlone(t, |a|) && Works(t, a, t', a')
    ensures KeepsOutcomeAlone(t, a, t', a')
  {
    hide Leaf, Merge, Before, SameOutside;
    if t.next < t.hi {
      WriteInside(a, t.lo, t.next, t.hi, a'[t.next]);
      MergeHead(t.l, t.r);
      Regroup(a[t.lo..t.next], a'[t.next], Merge(t'.l, t'.r));
    } else {
      MergeOfNothing(t.l, t.r);
      SameOutsideItself(a, t.lo, t.hi);
    }
  }

  lemma SameOutsideItself(a: seq<Movie>, lo: nat, hi: nat)
    ensures SameOutside(a, a, lo, hi)
  {
  }

  lemma MergeHead(l: seq<Movie>, r: seq<Movie>)
    requires l != [] || r != []
    ensures if r == [] || (l != [] && Before(l[0], r[0])) then Merge(l, r) == [l[0]] + Merge(l[1..], r)
            else Merge(l, r) == [r[0]] + Merge(l, r[1..])
  {
    if r == [] || (l != [] && Before(l[0], r[0])) {
      MergeHeadLeft(l, r);
    } else {
      MergeHeadRight(l, r);
    }
  }

  lemma MergeOfNothing(l: seq<Movie>, r: seq<Movie>)
    requires l == [] && r == []
    ensures Merge(l, r) == []
  {
  }

  lemma AloneStep(t: Task, a: seq<Movie>, t': Task, a': seq<Movie>)
    requires Alone(t) && ValidAlone(t, |a|) && Works(t, a, t', a')
    ensures KeepsOutcomeAlone(t, a, t', a')
  {
    match t
    case Selecting(_, _, _) => SelectingStep(t, a, t', a');
    case CopyingOut(_, _, _) => CopyingOutStep(t, a, t', a');
    case Gathering(_, _, _, _) => GatheringStep(t, a, t', a');
    case CopyingBack(_, _, _, _) => CopyingBackStep(t, a, t', a');
    case Merging(_, _, _, _, _) => MergingStep(t, a, t', a');
    case Done(_, _) =>
  }

  // ----- one step anywhere in the tree

  /** What one step of a task may do: it keeps the tree well formed, writes inside the task's own
      range only, takes a step off the bound, and leaves the outcome as it was. */
  ghost predicate KeepsOutcome(setup: Setup, t: Task, a: seq<Movie>, t': Task, a': seq<Movie>)
    requires Valid(setup, t, a)
  {
    && t'.lo == t.lo && t'.hi == t.hi
    && SameOutside(a, a', t.lo, t.hi)
    && Valid(setup, t', a') && Outcome(setup, t', a') == Outcome(setup, t, a)
    && 0 <= Remaining(setup, t') < Remaining(setup, t)
  }

  lemma SubrangesAgree(a: seq<Movie>, b: seq<Movie>, lo: nat, hi: nat)
    requires lo <= hi <= |a| == |b| && a[lo..hi] == b[lo..hi]
    ensures forall i, j :: lo <= i <= j <= hi ==> a[i..j] == b[i..j]
  {
    forall i, j | lo <= i <= j <= hi ensures a[i..j] == b[i..j] {
      forall k | i <= k < j ensures a[k] == b[k] {
        assert a[k] == a[lo..hi][k - lo] && b[k] == b[lo..hi][k - lo];
      }
    }
  }

  /** A task depends on its own range only. */
  lemma {:induction false} OutcomeFrame(setup: Setup, t: Task, a: seq<Movie>, b: seq<Movie>)
    requires Valid(setup, t, a) && t.lo < t.hi <= |a| == |b| && a[t.lo..t.hi] == b[t.lo..t.hi]
    ensures Valid(setup, t, b) && Outcome(setup, t, a) == Outcome(setup, t, b)
    decreases t
  {
    hide TaskSort, Leaf, Merge;
    SubrangesAgree(a, b, t.lo, t.hi);
    if t.Forked? {
      OutcomeFrame(setup, t.left, a, b);
      OutcomeFrame(setup, t.right, a, b);
    }
  }

  lemma {:induction false} RemainingNonnegative(setup: Setup, t: Task, a: seq<Movie>)
    requires Valid(setup, t, a)
    ensures Remaining(setup, t) >= 0
    decreases t
  {
    if t.Forked? {
      RemainingNonnegative(setup, t.left, a);
      RemainingNonnegative(setup, t.right, a);
    }
  }

  lemma LeafStarts(setup: Setup, t: Task, a: seq<Movie>, t': Task)
    requires Valid(setup, t, a) && t.Pending? && Starts(setup, t.lo, t.hi, t.depth, t')
    requires IsLeaf(setup.server, setup.maxDepth, t.hi - t.lo, t.depth)
    ensures KeepsOutcome(setup, t, a, t', a)
  {
    hide Leaf, Merge;
    var lo, hi := t.lo, t.hi;
    assert a[lo..lo] + Leaf(a[lo..hi]) == Leaf(a[lo..hi]);
    var buffer: seq<Movie> := [];
    assert buffer + a[lo + |buffer|..hi] == a[lo..hi];
  }

  lemma ForkStarts(setup: Setup, t: Task, a: seq<Movie>, t': Task)
    requires Valid(setup, t, a) && t.Pending? && Starts(setup, t.lo, t.hi, t.depth, t')
    requires !IsLeaf(setup.server, setup.maxDepth, t.hi - t.lo, t.depth)
    ensures KeepsOutcome(setup, t, a, t', a)
  {
    hide TaskSort, Leaf, Merge, Cost;
    PendingTask(setup, t.lo, t'.mid, t.depth + 1, a);
    PendingTask(setup, t'.mid, t.hi, t.depth + 1, a);
    SplitSort(setup, a, t.lo, t.hi, t.depth);
    SplitCost(setup, t.lo, t.hi, t.depth);
  }

  lemma PendingTask(setup: Setup, lo: nat, hi: nat, depth: nat, a: seq<Movie>)
    requires lo < hi <= |a|
    ensures var t := Pending(lo, hi, depth);
            && Valid(setup, t, a)
            && Outcome(setup, t, a) == TaskSort(setup.server, setup.maxDepth, a[lo..hi], depth)
            && Remaining(setup, t) == Cost(setup, hi - lo, depth)
  {
    hide TaskSort, Leaf, Merge, Cost;
  }

  lemma SplitSort(setup: Setup, a: seq<Movie>, lo: nat, hi: nat, depth: nat)
    requires lo < hi <= |a| && !IsLeaf(setup.server, setup.maxDepth, hi - lo, depth)
    ensures var mid := Middle(lo, hi);
            && lo < mid < hi
            && TaskSort(setup.server, setup.maxDepth, a[lo..hi], depth)
               == Merge(TaskSort(setup.server, setup.maxDepth, a[lo..mid], depth + 1),
                        TaskSort(setup.server, setup.maxDepth, a[mid..hi], depth + 1))
  {
    hide Leaf, Merge;
    MiddleIsLeftHalf(lo, hi);
    Halves(a, lo, Middle(lo, hi), hi);
  }

  lemma SplitCost(setup: Setup, lo: nat, hi: nat, depth: nat)
    requires lo < hi && !IsLeaf(setup.server, setup.maxDepth, hi - lo, depth)
    ensures var mid := Middle(lo, hi);
            && lo < mid < hi
            && Cost(setup, hi - lo, depth)
               == Cost(setup, mid - lo, depth + 1) + Cost(setup, hi - mid, depth + 1) + 2 * (hi - lo) + 4
  {
    MiddleIsLeftHalf(lo, hi);
  }

  lemma LeftStep(setup: Setup, t: Task, a: seq<Movie>, left': Task, a': seq<Movie>)
    requires Valid(setup, t, a) && t.Forked? && KeepsOutcome(setup, t.left, a, left', a')
    ensures KeepsOutcome(setup, t, a, Forked(t.lo, t.mid, t.hi, t.spawned, left', t.right), a')
  {
    hide TaskSort, Leaf, Merge, Cost;
    OutcomeFrame(setup, t.right, a, a');
    RemainingNonnegative(setup, t.right, a);
  }

  lemma RightStep(setup: Setup, t: Task, a: seq<Movie>, right': Task, a': seq<Movie>)
    requires Valid(setup, t, a) && t.Forked? && KeepsOutcome(setup, t.right, a, right', a')
    ensures KeepsOutcome(setup, t, a, Forked(t.lo, t.mid, t.hi, t.spawned, t.left, right'), a')
  {
    hide TaskSort, Leaf, Merge, Cost;
    OutcomeFrame(setup, t.left, a, a');
    RemainingNonnegative(setup, t.left, a);
  }

  lemma JoinStep(setup: Setup, t: Task, a: seq<Movie>)
    requires Valid(setup, t, a) && t.Forked? && t.left.Done? && t.right.Done?
    ensures KeepsOutcome(setup, t, a, Gathering(t.lo, t.mid, t.hi, []), a)
  {
    hide TaskSort, Leaf, Merge, Cost, SameOutside;
    JoinOutcome(setup, t, a);
    SameOutsideItself(a, t.lo, t.hi);
    assert Remaining(setup, t.left) == 0 && Remaining(setup, t.right) == 0;
  }

  lemma JoinOutcome(setup: Setup, t: Task, a: seq<Movie>)
    requires Valid(setup, t, a) && t.Forked? && t.left.Done? && t.right.Done?
    ensures var g := Gathering(t.lo, t.mid, t.hi, []);
            Valid(setup, g, a) && Outcome(setup, g, a) == Outcome(setup, t, a)
  {
    hide TaskSort, Leaf, Merge, Cost;
    var lo, mid, hi := t.lo, t.mid, t.hi;
    assert Outcome(setup, t.left, a) == a[lo..mid] && Outcome(setup, t.right, a) == a[mid..hi];
    Halves(a, lo, mid, hi);
    var buffer: seq<Movie> := [];
    assert buffer + a[lo + |buffer|..hi] == a[lo..hi];
  }

  lemma AloneKeeps(setup: Setup, t: Task, a: seq<Movie>, t': Task, a': seq<Movie>)
    requires Valid(setup, t, a) && Alone(t) && KeepsOutcomeAlone(t, a, t', a')
    ensures KeepsOutcome(setup, t, a, t', a')
  {
    hide TaskSort, Leaf, Merge, Cost, SameOutside;
  }

  /** One step anywhere in a task tree. */
  lemma {:induction false} StepKeepsOutcome(setup: Setup, t: Task, a: seq<Movie>, t': Task, a': seq<Movie>)
    requires Valid(setup, t, a) && Step(setup, t, a, t', a')
    ensures KeepsOutcome(setup, t, a, t', a')
    decreases t
  {
    hide TaskSort, Leaf, Merge, Cost, SameOutside, KeepsOutcomeAlone;
    match t
    case Pending(lo, hi, depth) =>
      if IsLeaf(setup.server, setup.maxDepth, hi - lo, depth) {
        LeafStarts(setup, t, a, t');
      } else {
        ForkStarts(setup, t, a, t');
      }
    case Forked(lo, mid, hi, spawned, left, right) =>
      if left' :| t' == Forked(lo, mid, hi, spawned, left', right) && Step(setup, left, a, left', a') {
        StepKeepsOutcome(setup, left, a, left', a');
        LeftStep(setup, t, a, left', a');
      } else if right' :| t' == Forked(lo, mid, hi, spawned, left, right') && Step(setup, right, a, right', a') {
        StepKeepsOutcome(setup, right, a, right', a');
        RightStep(setup, t, a, right', a');
      } else {
        JoinStep(setup, t, a);
      }
    case _ =>
      AloneStep(t, a, t', a');
      AloneKeeps(setup, t, a, t', a');
  }

  /** A task that is not done can move, unless a leaf fails: no task waits for a child that cannot finish. */
  lemma {:induction false} Progress(setup: Setup, t: Task, a: seq<Movie>) returns (t': Task, a': seq<Movie>)
    requires Valid(setup, t, a) && !t.Done? && !Fails(setup, t, a)
    ensures Step(setup, t, a, t', a')
    decreases t
  {
    a' := a;
    match t
    case Pending(lo, hi, depth) =>
      var mid := Middle(lo, hi);
      if !IsLeaf(setup.server, setup.maxDepth, hi - lo, depth) {
        t' := Forked(lo, mid, hi, true, Pending(lo, mid, depth + 1), Pending(mid, hi, depth + 1));
      } else {
        t' := if setup.server.ThreadServer? then Selecting(lo, hi, lo) else CopyingOut(lo, hi, []);
      }
    case Selecting(lo, hi, next) =>
      var k := FirstBestExists(a[next..hi]);
      t' := if next + 1 < hi then Selecting(lo, hi, next + 1) else Done(lo, hi);
      a' := Selected(a, next, k);
    case CopyingOut(lo, hi, buffer) =>
      t' := if lo + |buffer| < hi then CopyingOut(lo, hi, buffer + [a[lo + |buffer|]])
            else CopyingBack(lo, hi, Leaf(buffer), lo);
    case CopyingBack(lo, hi, buffer, next) =>
      t' := if next < hi then CopyingBack(lo, hi, buffer, next + 1) else Done(lo, hi);
      a' := if next < hi then a[next := buffer[next - lo]] else a;
    case Forked(lo, mid, hi, spawned, left, right) =>
      if !left.Done? {
        var left', b := Progress(setup, left, a);
        t', a' := Forked(lo, mid, hi, spawned, left', right), b;
      } else if !right.Done? {
        var right', b := Progress(setup, right, a);
        t', a' := Forked(lo, mid, hi, spawned, left, right'), b;
      } else {
        t' := Gathering(lo, mid, hi, []);
      }
    case Gathering(lo, mid, hi, buffer) =>
      t' := if lo + |buffer| < hi then Gathering(lo, mid, hi, buffer + [a[lo + |buffer|]])
            else Merging(lo, hi, buffer[..mid - lo], buffer[mid - lo..], lo);
    case Merging(lo, hi, l, r, next) =>
      if next == hi {
        t' := Done(lo, hi);
      } else if r == [] || (l != [] && Before(l[0], r[0])) {
        t', a' := Merging(lo, hi, l[1..], r, next + 1), a[next := l[0]];
      } else {
        t', a' := Merging(lo, hi, l, r[1..], next + 1), a[next := r[0]];
      }
  }

  // ----- no step changes whether a leaf is going to fail

  lemma {:induction false} SortableFrame(setup: Setup, t: Task, a: seq<Movie>, b: seq<Movie>)
    requires Valid(setup, t, a) && t.lo < t.hi <= |a| == |b| && a[t.lo..t.hi] == b[t.lo..t.hi]
    ensures Valid(setup, t, b) && (Sortable(setup, t, a) <==> Sortable(setup, t, b))
    decreases t
  {
    hide LeavesSortable, FewNegative;
    SubrangesAgree(a, b, t.lo, t.hi);
    if t.Forked? {
      SortableFrame(setup, t.left, a, b);
      SortableFrame(setup, t.right, a, b);
    }
  }

  /** Where the assertion holds, the rest has two negative scores exactly if the range had. */
  lemma RoundKeepsSortable(a: seq<Movie>, next: nat, hi: nat, k: int)
    requires next < hi <= |a| && IsFirstBest(a[next..hi], k) && (next + 1 < hi ==> a[next + k].score >= 0.0)
    ensures |Selected(a, next, k)| == |a|
    ensures FewNegative(Selected(a, next, k)[next + 1..hi]) <==> FewNegative(a[next..hi])
  {
    hide Before, FewNegative;
    var rest := a[next..hi];
    if next + 1 == hi {
      OneIsFew(rest);
      OneIsFew(Selected(a, next, k)[next + 1..hi]);
    } else {
      assert rest[k] == a[next + k];
      FewNegativeRest(rest, k);
      assert Selected(a, next, k)[next + 1..hi] == Swapped(rest, 0, k)[1..];
    }
  }

  lemma OneIsFew(xs: seq<Movie>)
    requires |xs| <= 1
    ensures FewNegative(xs)
  {
  }

  lemma WorkKeepsSortable(setup: Setup, t: Task, a: seq<Movie>, t': Task, a': seq<Movie>)
    requires Alone(t) && Valid(setup, t, a) && Works(t, a, t', a') && Valid(setup, t', a')
    ensures Sortable(setup, t', a') <==> Sortable(setup, t, a)
  {
    hide Leaf, Merge, Before, Selected, FewNegative, SortAborts, LeavesSortable;
    match t
    case Selecting(lo, hi, next) =>
      var k :| IsFirstBest(a[next..hi], k) && a' == Selected(a, next, k)
               && (next + 1 < hi ==> a[next + k].score >= 0.0);
      RoundKeepsSortable(a, next, hi, k);
      if next + 1 == hi {
        OneIsFew(a[next..hi]);
      }
    case CopyingOut(lo, hi, buffer) =>
      if lo + |buffer| < hi {
        CopyStep(a, lo, hi, buffer);
      } else {
        assert buffer + a[lo + |buffer|..hi] == buffer;
        SortAbortsExactly(buffer);
      }
    case _ =>
  }

  lemma StartKeepsSortable(setup: Setup, t: Task, a: seq<Movie>, t': Task)
    requires t.Pending? && Valid(setup, t, a) && Starts(setup, t.lo, t.hi, t.depth, t') && Valid(setup, t', a)
    ensures Sortable(setup, t', a) <==> Sortable(setup, t, a)
  {
    hide FewNegative, Starts;
    StartsAs(setup, t.lo, t.hi, t.depth, t');
    if t'.Forked? {
      MiddleIsLeftHalf(t.lo, t.hi);
      Halves(a, t.lo, Middle(t.lo, t.hi), t.hi);
    } else {
      var buffer: seq<Movie> := [];
      assert buffer + a[t.lo + |buffer|..t.hi] == a[t.lo..t.hi];
    }
  }

  /** One step anywhere in a task tree. */
  lemma {:induction false} StepKeepsSortable(setup: Setup, t: Task, a: seq<Movie>, t': Task, a': seq<Movie>)
    requires Valid(setup, t, a) && Step(setup, t, a, t', a')
    ensures Valid(setup, t', a') && (Sortable(setup, t', a') <==> Sortable(setup, t, a))
    decreases t
  {
    hide Works, Starts, LeavesSortable, FewNegative, SameOutside;
    StepKeepsOutcome(setup, t, a, t', a');
    match t
    case Pending(_, _, _) => StartKeepsSortable(setup, t, a, t');
    case Forked(lo, mid, hi, spawned, left, right) =>
      if left' :| t' == Forked(lo, mid, hi, spawned, left', right) && Step(setup, left, a, left', a') {
        StepKeepsSortable(setup, left, a, left', a');
        StepKeepsOutcome(setup, left, a, left', a');
        OutsideSame(a, a', lo, mid, mid, hi);
        SortableFrame(setup, right, a, a');
      } else if right' :| t' == Forked(lo, mid, hi, spawned, left, right') && Step(setup, right, a, right', a') {
        StepKeepsSortable(setup, right, a, right', a');
        StepKeepsOutcome(setup, right, a, right', a');
        OutsideSame(a, a', mid, hi, lo, mid);
        SortableFrame(setup, left, a, a');
      }
    case _ => WorkKeepsSortable(setup, t, a, t', a');
  }

  lemma OutsideSame(a: seq<Movie>, a': seq<Movie>, lo: nat, hi: nat, from: nat, to: nat)
    requires SameOutside(a, a', lo, hi) && from <= to <= |a| && (to <= lo || hi <= from)
    ensures |a'| == |a| && a'[from..to] == a[from..to]
  {
  }

  /** A leaf that fails has two negative scores, and then the task was never sortable. */
  lemma {:induction false} FailingIsNotSortable(setup: Setup, t: Task, a: seq<Movie>)
    requires Valid(setup, t, a) && Fails(setup, t, a)
    ensures !Sortable(setup, t, a)
    decreases t
  {
    hide FewNegative, SortAborts, Before, LeavesSortable;
    match t
    case Selecting(lo, hi, next) =>
      var k :| IsFirstBest(a[next..hi], k) && a[next + k].score < 0.0;
      assert a[next..hi][k] == a[next + k];
      TwoNegative(a[next..hi], k);
    case CopyingOut(lo, hi, buffer) =>
      assert buffer + a[lo + |buffer|..hi] == buffer;
      SortAbortsExactly(buffer);
    case Forked(_, _, _, _, left, right) =>
      if Fails(setup, left, a) {
        FailingIsNotSortable(setup, left, a);
      } else {
        FailingIsNotSortable(setup, right, a);
      }
    case _ =>
  }

  lemma TwoNegative(xs: seq<Movie>, k: int)
    requires |xs| >= 2 && IsFirstBest(xs, k) && xs[k].score < 0.0
    ensures !FewNegative(xs)
  {
    hide Before;
    BestIsHighest(xs, k, 0);
    BestIsHighest(xs, k, 1);
  }

  // ----- runs

  datatype Config = Config(task: Task, movies: seq<Movie>)

  ghost predicate Moves(setup: Setup, c: Config, c': Config)
  {
    Valid(setup, c.task, c.movies) && Step(setup, c.task, c.movies, c'.task, c'.movies)
  }

  /** A run of one request on the movies xs: one task over all of them, then any tasks that can
      move, in any order. */
  ghost predicate Run(setup: Setup, xs: seq<Movie>, run: seq<Config>)
  {
    && run != []
    && run[0] == Config(Pending(0, |xs|, 0), xs)
    && forall i :: 0 < i < |run| ==> Moves(setup, run[i - 1], run[i])
  }

  lemma {:induction false} RunKeepsOutcome(setup: Setup, xs: seq<Movie>, run: seq<Config>)
    requires xs != [] && Run(setup, xs, run)
    ensures var last := run[|run| - 1];
            && Valid(setup, last.task, last.movies)
            && last.task.lo == 0 && last.task.hi == |xs| == |last.movies|
            && Outcome(setup, last.task, last.movies) == TaskSort(setup.server, setup.maxDepth, xs, 0)
            && |run| - 1 + Remaining(setup, last.task) <= Cost(setup, |xs|, 0)
            && Remaining(setup, last.task) >= 0
  {
    if |run| == 1 {
      assert xs[0..|xs|] == xs;
    } else {
      var before, last := run[|run| - 2], run[|run| - 1];
      RunKeepsOutcome(setup, xs, run[..|run| - 1]);
      assert Moves(setup, before, last);
      StepKeepsOutcome(setup, before.task, before.movies, last.task, last.movies);
    }
  }

  lemma {:induction false} RunKeepsSortable(setup: Setup, xs: seq<Movie>, run: seq<Config>)
    requires xs != [] && Run(setup, xs, run)
    ensures var last := run[|run| - 1];
            && Valid(setup, last.task, last.movies)
            && (Sortable(setup, last.task, last.movies) <==> LeavesSortable(setup.server, setup.maxDepth, xs, 0))
  {
    hide Step, Valid, Sortable, LeavesSortable;
    RunKeepsOutcome(setup, xs, run);
    if |run| == 1 {
      FirstSortable(setup, xs);
    } else {
      var before, last := run[|run| - 2], run[|run| - 1];
      RunKeepsSortable(setup, xs, run[..|run| - 1]);
      assert Moves(setup, before, last);
      StepKeepsSortable(setup, before.task, before.movies, last.task, last.movies);
    }
  }

  lemma FirstSortable(setup: Setup, xs: seq<Movie>)
    requires xs != []
    ensures var t := Pending(0, |xs|, 0);
            && Valid(setup, t, xs)
            && (Sortable(setup, t, xs) <==> LeavesSortable(setup.server, setup.maxDepth, xs, 0))
  {
    hide LeavesSortable;
    assert xs[0..|xs|] == xs;
  }

  /** Schedule independence.  No run is longer than Cost, and one that is not finished can go on unless a
      leaf fails the assertion of argmax.  Where no leaf of the list has two negative scores, none ever
      fails; otherwise no run finishes.  Every finished run, whichever tasks moved when and whichever
      were spawned, leaves the same array.  That array is the ranking of the rewritten movies exactly
      when no leaf holds two equally scored movies whose order the suffix changes. */
  lemma ScheduleIndependence(setup: Setup, xs: seq<Movie>, run: seq<Config>)
    requires xs != [] && Run(setup, xs, run)
    ensures |run| - 1 <= Cost(setup, |xs|, 0)
    ensures var last := run[|run| - 1];
            && Valid(setup, last.task, last.movies)
            && (last.task.Done? || Fails(setup, last.task, last.movies) || exists next :: Run(setup, xs, run + [next]))
            && (Fails(setup, last.task, last.movies) ==> !LeavesSortable(setup.server, setup.maxDepth, xs, 0))
            && (last.task.Done? ==>
                  && LeavesSortable(setup.server, setup.maxDepth, xs, 0)
                  && last.movies == TaskSort(setup.server, setup.maxDepth, xs, 0)
                  && (last.movies == Ranked(AddSecrets(xs))
                      <==> LeavesKeepOrder(setup.server, setup.maxDepth, xs, 0)))
  {
    hide Step, Sortable, LeavesSortable, LeavesKeepOrder, TaskSort, Ranked, AddSecrets, Fails, Cost;
    var last := run[|run| - 1];
    RunKeepsOutcome(setup, xs, run);
    RunKeepsSortable(setup, xs, run);
    SortIsRanking(setup.server, setup.maxDepth, xs, 0);
    if Fails(setup, last.task, last.movies) {
      FailingIsNotSortable(setup, last.task, last.movies);
    } else if !last.task.Done? {
      var next := GoesOn(setup, xs, run);
    }
    if last.task.Done? {
      DoneIs(setup, last.task, last.movies);
    }
  }

  lemma GoesOn(setup: Setup, xs: seq<Movie>, run: seq<Config>) returns (next: Config)
    requires xs != [] && Run(setup, xs, run)
    requires var last := run[|run| - 1];
             && Valid(setup, last.task, last.movies) && !last.task.Done?
             && !Fails(setup, last.task, last.movies)
    ensures Run(setup, xs, run + [next])
  {
    hide Step, Valid, Fails;
    var last := run[|run| - 1];
    var t', a' := Progress(setup, last.task, last.movies);
    next := Config(t', a');
    assert Moves(setup, last, next);
  }

  lemma DoneIs(setup: Setup, t: Task, a: seq<Movie>)
    requires t.Done? && Valid(setup, t, a) && t.lo == 0 && t.hi == |a|
    ensures Sortable(setup, t, a) && Outcome(setup, t, a) == a
  {
    assert a[0..|a|] == a;
  }

  /** Every run can be continued to an end: a finished one where no leaf has two negative scores, and
      otherwise one in which a leaf fails. */
  lemma {:induction false} RunEnds(setup: Setup, xs: seq<Movie>, run: seq<Config>) returns (whole: seq<Config>)
    requires xs != [] && Run(setup, xs, run)
    ensures Run(setup, xs, whole) && |run| <= |whole| && whole[..|run|] == run
    ensures var last := whole[|whole| - 1];
            && Valid(setup, last.task, last.movies)
            && (if LeavesSortable(setup.server, setup.maxDepth, xs, 0) then last.task.Done?
                else Fails(setup, last.task, last.movies))
    decreases Cost(setup, |xs|, 0) + 1 - |run|
  {
    hide Step, Valid, LeavesSortable, LeavesKeepOrder, TaskSort, Ranked, AddSecrets, Fails, Cost, Moves;
    ScheduleIndependence(setup, xs, run);
    var last := run[|run| - 1];
    if last.task.Done? || Fails(setup, last.task, last.movies) {
      whole := run;
    } else {
      var next :| Run(setup, xs, run + [next]);
      ScheduleIndependence(setup, xs, run + [next]);
      whole := RunEnds(setup, xs, run + [next]);
      assert whole[..|run|] == whole[..|run| + 1][..|run|] == run;
    }
  }

  // ----- the process that took the request

  /** The last leaf of the task, which the process of the task sorts itself, is never going to fail. */
  ghost predicate LastIsSortable(setup: Setup, t: Task, a: seq<Movie>)
    requires Valid(setup, t, a)
    decreases t
  {
    match t
    case Pending(lo, hi, depth) => LastSortable(setup.maxDepth, a[lo..hi], depth)
    case Forked(_, _, _, _, _, right) => LastIsSortable(setup, right, a)
    case _ => Sortable(setup, t, a)
  }

  ghost predicate LastFails(setup: Setup, t: Task, a: seq<Movie>)
    requires Valid(setup, t, a)
    decreases t
  {
    match t
    case Pending(_, _, _) => false
    case Forked(_, _, _, _, _, right) => LastFails(setup, right, a)
    case _ => FailsAlone(t, a)
  }

  lemma {:induction false} LastFrame(setup: Setup, t: Task, a: seq<Movie>, b: seq<Movie>)
    requires Valid(setup, t, a) && t.lo < t.hi <= |a| == |b| && a[t.lo..t.hi] == b[t.lo..t.hi]
    ensures Valid(setup, t, b) && (LastIsSortable(setup, t, a) <==> LastIsSortable(setup, t, b))
    decreases t
  {
    hide LastSortable, Sortable;
    SubrangesAgree(a, b, t.lo, t.hi);
    SortableFrame(setup, t, a, b);
    if t.Forked? {
      LastFrame(setup, t.right, a, b);
    }
  }

  lemma StartKeepsLast(setup: Setup, t: Task, a: seq<Movie>, t': Task)
    requires setup.server.ProcessServer?
    requires t.Pending? && Valid(setup, t, a) && Starts(setup, t.lo, t.hi, t.depth, t') && Valid(setup, t', a)
    ensures LastIsSortable(setup, t', a) <==> LastIsSortable(setup, t, a)
  {
    hide FewNegative, Starts, LeavesSortable;
    StartsAs(setup, t.lo, t.hi, t.depth, t');
    if t'.Forked? {
      MiddleIsLeftHalf(t.lo, t.hi);
      Halves(a, t.lo, Middle(t.lo, t.hi), t.hi);
    } else {
      var buffer: seq<Movie> := [];
      assert buffer + a[t.lo + |buffer|..t.hi] == a[t.lo..t.hi];
    }
  }

  lemma {:induction false} StepKeepsLast(setup: Setup, t: Task, a: seq<Movie>, t': Task, a': seq<Movie>)
    requires setup.server.ProcessServer? && Valid(setup, t, a) && Step(setup, t, a, t', a')
    ensures Valid(setup, t', a') && (LastIsSortable(setup, t', a') <==> LastIsSortable(setup, t, a))
    decreases t
  {
    hide Works, Starts, LastSortable, Sortable, SameOutside;
    StepKeepsOutcome(setup, t, a, t', a');
    match t
    case Pending(_, _, _) => StartKeepsLast(setup, t, a, t');
    case Forked(lo, mid, hi, spawned, left, right) =>
      if left' :| t' == Forked(lo, mid, hi, spawned, left', right) && Step(setup, left, a, left', a') {
        StepKeepsOutcome(setup, left, a, left', a');
        OutsideSame(a, a', lo, mid, mid, hi);
        LastFrame(setup, right, a, a');
      } else if right' :| t' == Forked(lo, mid, hi, spawned, left, right') && Step(setup, right, a, right', a') {
        StepKeepsLast(setup, right, a, right', a');
      } else {
        NoLeafLeft(setup, right, t', a);
      }
    case _ =>
      WorkKeepsSortable(setup, t, a, t', a');
      WorksKeepsRange(t, a, t', a');
  }

  lemma NoLeafLeft(setup: Setup, right: Task, t: Task, a: seq<Movie>)
    requires right.Done? && t.Gathering? && Valid(setup, right, a) && Valid(setup, t, a)
    ensures LastIsSortable(setup, right, a) && LastIsSortable(setup, t, a)
  {
  }

  /** Whatever has happened to other leaves, the process of the task can go on to its own last leaf. */
  lemma {:induction false} LastProgress(setup: Setup, t: Task, a: seq<Movie>) returns (t': Task, a': seq<Movie>)
    requires setup.server.ProcessServer? && Valid(setup, t, a)
    requires !LastIsSortable(setup, t, a) && !LastFails(setup, t, a)
    ensures Step(setup, t, a, t', a')
    decreases t
  {
    hide Works, Starts, LastSortable;
    if t.Forked? {
      var right', b := LastProgress(setup, t.right, a);
      t', a' := Forked(t.lo, t.mid, t.hi, t.spawned, t.left, right'), b;
    } else {
      t', a' := Progress(setup, t, a);
    }
  }

  /** In pserver, if the last leaf has two negative scores, every run can be continued to the point where
      that leaf fails, which ends the process that took the request. */
  lemma {:induction false} LastLeafFails(setup: Setup, xs: seq<Movie>, run: seq<Config>) returns (whole: seq<Config>)
    requires setup.server.ProcessServer? && xs != [] && Run(setup, xs, run)
    requires !LastSortable(setup.maxDepth, xs, 0)
    ensures Run(setup, xs, whole) && |run| <= |whole| && whole[..|run|] == run
    ensures var last := whole[|whole| - 1];
            Valid(setup, last.task, last.movies) && LastFails(setup, last.task, last.movies)
    decreases Cost(setup, |xs|, 0) + 1 - |run|
  {
    hide Step, Valid, LastSortable, LastIsSortable, LastFails, TaskSort, Cost;
    RunKeepsOutcome(setup, xs, run);
    RunKeepsLast(setup, xs, run);
    var last := run[|run| - 1];
    if LastFails(setup, last.task, last.movies) {
      whole := run;
    } else {
      var t', a' := LastProgress(setup, last.task, last.movies);
      var next := Config(t', a');
      assert Moves(setup, last, next);
      assert Run(setup, xs, run + [next]);
      RunKeepsOutcome(setup, xs, run + [next]);
      whole := LastLeafFails(setup, xs, run + [next]);
      assert whole[..|run|] == whole[..|run| + 1][..|run|] == run;
    }
  }

  lemma {:induction false} RunKeepsLast(setup: Setup, xs: seq<Movie>, run: seq<Config>)
    requires setup.server.ProcessServer? && xs != [] && Run(setup, xs, run)
    ensures var last := run[|run| - 1];
            && Valid(setup, last.task, last.movies)
            && (LastIsSortable(setup, last.task, last.movies) <==> LastSortable(setup.maxDepth, xs, 0))
  {
    hide Step, Valid, LastIsSortable, LastSortable;
    RunKeepsOutcome(setup, xs, run);
    if |run| == 1 {
      FirstLastSortable(setup, xs);
    } else {
      var before, last := run[|run| - 2], run[|run| - 1];
      RunKeepsLast(setup, xs, run[..|run| - 1]);
      assert Moves(setup, before, last);
      StepKeepsLast(setup, before.task, before.movies, last.task, last.movies);
    }
  }

  lemma FirstLastSortable(setup: Setup, xs: seq<Movie>)
    requires xs != []
    ensures var t := Pending(0, |xs|, 0);
            && Valid(setup, t, xs)
            && (LastIsSortable(setup, t, xs) <==> LastSortable(setup.maxDepth, xs, 0))
  {
    hide LastSortable;
    assert xs[0..|xs|] == xs;
  }

  // ----- the shape of the tree

  /** len is n / 2^d, rounded down or up. */
  ghost predicate Rounded(n: nat, d: nat, len: nat)
  {
    Power2(d) * (len - 1) < n < Power2(d) * (len + 1)
  }

  /** Every task at depth d of the tree over n movies has a range of length n / 2^d, rounded down or
      up, and only tasks above the depth limit are split. */
  ghost predicate Balanced(setup: Setup, t: Task, n: nat, d: nat)
    decreases t
  {
    && t.lo < t.hi
    && Rounded(n, d, t.hi - t.lo)
    && (t.Pending? ==> t.depth == d)
    && (t.Forked? ==> d < setup.maxDepth && Balanced(setup, t.left, n, d + 1) && Balanced(setup, t.right, n, d + 1))
  }

  /** The threads or processes a task tree has spawned and not yet joined. */
  ghost function Workers(t: Task): nat
    decreases t
  {
    if t.Forked? then (if t.spawned then 1 else 0) + Workers(t.left) + Workers(t.right) else 0
  }

  lemma HalvesBalanced(n: nat, d: nat, len: nat)
    requires len >= 2 && Rounded(n, d, len)
    ensures var h := LeftHalf(len); Rounded(n, d + 1, h) && Rounded(n, d + 1, len - h)
  {
    var p, h := Power2(d), LeftHalf(len);
    assert Power2(d + 1) == 2 * p;
    Scale(p, 2 * (h - 1), len - 1);
    Scale(p, len + 1, 2 * (h + 1));
    Scale(p, 2 * (len - h - 1), len - 1);
    Scale(p, len + 1, 2 * (len - h + 1));
    assert forall x: int :: 2 * p * x == p * (2 * x);
  }

  lemma Scale(p: nat, x: int, y: int)
    requires x <= y
    ensures p * x <= p * y
  {
  }

  lemma SplitBalanced(lo: nat, hi: nat, n: nat, d: nat)
    requires lo + 2 <= hi && Rounded(n, d, hi - lo)
    ensures var mid := Middle(lo, hi); lo < mid < hi && Rounded(n, d + 1, mid - lo) && Rounded(n, d + 1, hi - mid)
  {
    hide Rounded;
    MiddleIsLeftHalf(lo, hi);
    HalvesBalanced(n, d, hi - lo);
  }

  lemma NotLeaf(setup: Setup, n: nat, depth: nat)
    requires n > 0
    ensures !IsLeaf(setup.server, setup.maxDepth, n, depth) ==> n >= 2 && depth < setup.maxDepth
  {
  }

  lemma StartKeepsBalance(setup: Setup, t: Task, t': Task, n: nat, d: nat)
    requires t.Pending? && t.lo < t.hi && Starts(setup, t.lo, t.hi, t.depth, t') && Balanced(setup, t, n, d)
    ensures t'.lo == t.lo && t'.hi == t.hi && Balanced(setup, t', n, d)
  {
    hide Rounded, Middle, IsLeaf, Balanced, Starts;
    NotLeaf(setup, t.hi - t.lo, t.depth);
    BalancedIs(setup, t, n, d);
    StartsAs(setup, t.lo, t.hi, t.depth, t');
    if t'.Forked? {
      SplitBalanced(t.lo, t.hi, n, d);
      ForkBalanced(setup, t', Middle(t.lo, t.hi), n, d);
    } else {
      BalancedIs(setup, t', n, d);
    }
  }

  lemma StartsAs(setup: Setup, lo: nat, hi: nat, depth: nat, t': Task)
    requires lo < hi && Starts(setup, lo, hi, depth, t')
    ensures t'.lo == lo && t'.hi == hi && !t'.Pending?
    ensures t'.Forked? <==> !IsLeaf(setup.server, setup.maxDepth, hi - lo, depth)
    ensures !t'.Forked? ==> t' == Selecting(lo, hi, lo) || t' == CopyingOut(lo, hi, [])
    ensures t'.Forked? ==> t'.left == Pending(lo, Middle(lo, hi), depth + 1)
                           && t'.right == Pending(Middle(lo, hi), hi, depth + 1)
  {
    hide Middle, IsLeaf;
  }

  lemma ForkBalanced(setup: Setup, t: Task, mid: nat, n: nat, d: nat)
    requires t.Forked? && t.lo < mid < t.hi && d < setup.maxDepth
    requires t.left == Pending(t.lo, mid, d + 1) && t.right == Pending(mid, t.hi, d + 1)
    requires Rounded(n, d, t.hi - t.lo) && Rounded(n, d + 1, mid - t.lo) && Rounded(n, d + 1, t.hi - mid)
    ensures Balanced(setup, t, n, d)
  {
    hide Rounded, Balanced;
    BalancedIs(setup, t.left, n, d + 1);
    BalancedIs(setup, t.right, n, d + 1);
    BalancedIs(setup, t, n, d);
  }

  lemma BalancedIs(setup: Setup, t: Task, n: nat, d: nat)
    ensures Balanced(setup, t, n, d) <==>
              && t.lo < t.hi && Rounded(n, d, t.hi - t.lo) && (t.Pending? ==> t.depth == d)
              && (t.Forked? ==> d < setup.maxDepth
                                && Balanced(setup, t.left, n, d + 1) && Balanced(setup, t.right, n, d + 1))
  {
  }

  lemma {:induction false} StepKeepsBalance(setup: Setup, t: Task, a: seq<Movie>, t': Task, a': seq<Movie>,
                                            n: nat, d: nat)
    requires Valid(setup, t, a) && Step(setup, t, a, t', a') && Balanced(setup, t, n, d)
    ensures t'.lo == t.lo && t'.hi == t.hi && Balanced(setup, t', n, d)
    decreases t
  {
    hide Works, Rounded;
    match t
    case Pending(lo, hi, depth) => StartKeepsBalance(setup, t, t', n, d);
    case Forked(lo, mid, hi, spawned, left, right) =>
      if left' :| t' == Forked(lo, mid, hi, spawned, left', right) && Step(setup, left, a, left', a') {
        StepKeepsBalance(setup, left, a, left', a', n, d + 1);
      } else if right' :| t' == Forked(lo, mid, hi, spawned, left, right') && Step(setup, right, a, right', a') {
        StepKeepsBalance(setup, right, a, right', a', n, d + 1);
      }
    case _ => WorksKeepsRange(t, a, t', a');
  }

  lemma WorksKeepsRange(t: Task, a: seq<Movie>, t': Task, a': seq<Movie>)
    requires Alone(t) && ValidAlone(t, |a|) && Works(t, a, t', a')
    ensures Alone(t') && t'.lo == t.lo && t'.hi == t.hi
  {
    hide Leaf, Merge, IsFirstBest, Selected, Before;
  }

  lemma {:induction false} WorkersBounded(setup: Setup, t: Task, n: nat, d: nat)
    requires Balanced(setup, t, n, d) && d <= setup.maxDepth
    ensures Workers(t) + 1 <= Power2(setup.maxDepth - d)
    decreases t
  {
    if t.Forked? {
      WorkersBounded(setup, t.left, n, d + 1);
      WorkersBounded(setup, t.right, n, d + 1);
    }
  }

  /** The threads or processes that one step spawns. */
  ghost function Creates(t: Task, t': Task): nat
    decreases t
  {
    if t.Pending? then if t'.Forked? && t'.spawned then 1 else 0
    else if t.Forked? && t'.Forked? then Creates(t.left, t'.left) + Creates(t.right, t'.right)
    else 0
  }

  /** How many a tree may still spawn. */
  ghost function Room(setup: Setup, t: Task): nat
    decreases t
  {
    match t
    case Pending(_, _, depth) => if depth <= setup.maxDepth then Power2(setup.maxDepth - depth) - 1 else 0
    case Forked(_, _, _, _, left, right) => Room(setup, left) + Room(setup, right)
    case _ => 0
  }

  lemma {:induction false} CreatesNothing(t: Task)
    ensures Creates(t, t) == 0
    decreases t
  {
    if t.Forked? {
      CreatesNothing(t.left);
      CreatesNothing(t.right);
    }
  }

  /** What a step spawns is taken from what the tree may still spawn; nothing that is joined is given
      back. */
  lemma {:induction false} StepUsesRoom(setup: Setup, t: Task, a: seq<Movie>, t': Task, a': seq<Movie>)
    requires Valid(setup, t, a) && Step(setup, t, a, t', a')
    ensures Creates(t, t') + Room(setup, t') <= Room(setup, t)
    decreases t
  {
    hide Works;
    match t
    case Pending(lo, hi, depth) =>
    case Forked(lo, mid, hi, spawned, left, right) =>
      if left' :| t' == Forked(lo, mid, hi, spawned, left', right) && Step(setup, left, a, left', a') {
        StepUsesRoom(setup, left, a, left', a');
        CreatesNothing(right);
      } else if right' :| t' == Forked(lo, mid, hi, spawned, left, right') && Step(setup, right, a, right', a') {
        StepUsesRoom(setup, right, a, right', a');
        CreatesNothing(left);
      }
    case _ => WorksKeepsRange(t, a, t', a');
  }

  /** All the threads or processes spawned in a run, joined or not. */
  ghost function Created(run: seq<Config>): nat
  {
    if |run| <= 1 then 0
    else
      var n := |run| - 1;
      Created(run[..n]) + Creates(run[n - 1].task, run[n].task)
  }

  lemma PendingBalanced(setup: Setup, n: nat)
    requires n > 0
    ensures var t := Pending(0, n, 0);
            && Balanced(setup, t, n, 0) && Room(setup, t) == Power2(setup.maxDepth) - 1
  {
  }

  /** In every state of every run the tree is balanced, has at most 2^maxDepth - 1 workers beside the
      one that took the request, and no more have been created since the request came. */
  lemma {:induction false} RunBalanced(setup: Setup, xs: seq<Movie>, run: seq<Config>)
    requires xs != [] && Run(setup, xs, run)
    ensures Balanced(setup, run[|run| - 1].task, |xs|, 0)
    ensures Workers(run[|run| - 1].task) <= Power2(setup.maxDepth) - 1
    ensures Created(run) + Room(setup, run[|run| - 1].task) <= Power2(setup.maxDepth) - 1
  {
    hide Balanced, Workers, Power2, Room, Creates, Valid, Step;
    if |run| == 1 {
      PendingBalanced(setup, |xs|);
    } else {
      var before, last := run[|run| - 2], run[|run| - 1];
      RunBalanced(setup, xs, run[..|run| - 1]);
      assert Moves(setup, before, last);
      StepKeepsBalance(setup, before.task, before.movies, last.task, last.movies, |xs|, 0);
      StepUsesRoom(setup, before.task, before.movies, last.task, last.movies);
    }
    WorkersBounded(setup, run[|run| - 1].task, |xs|, 0);
  }

  /** With the depth limit of the source, 5, a request creates at most 31 workers. */
  lemma AtMost31Workers(setup: Setup, xs: seq<Movie>, run: seq<Config>)
    requires setup.maxDepth == 5 && xs != [] && Run(setup, xs, run)
    ensures Created(run) <= 31 && Workers(run[|run| - 1].task) <= 31
  {
    RunBalanced(setup, xs, run);
    hide Run, Created, Workers, Room, Balanced;
    assert Power2(2) == 4;
    assert Power2(5) == 32;
  }
}
