/** The scheduler over its fixed arrays, and the thread functions over their control blocks. */
module ThreadLibrary {
  import opened SchedulerQueues
  import opened Threads

  const THREAD_MAX := 16

  /** A thread control block; the jump buffer is the point at which func continues. */
  class Tcb {
    const func: Function
    var point: Point
    var arg: int
    var i: int
    var x: int
    var y: int

    ghost function View(): Frame
      reads this
    {
      Frame(func, point, arg, i, x, y)
    }

    constructor (func: Function, arg: int)
      ensures View() == Created(func, arg)
    {
      this.func, this.arg := func, arg;
      point := Start;
      i, x, y := 0, 0, 0;
    }

    /** The loop counter of a function that has just started, or has come back from a yield. */
    method Advance()
      modifies this`i
      ensures i == NextRound(old(View()))
    {
      if point.Start? {
        i := 1;
      } else {
        i := i + 1;
      }
    }

    method RunFibonacci() returns (code: Code, printed: seq<int>)
      requires func.Fibonacci?
      modifies this
      ensures Turn(View(), code, printed) == FibonacciTurn(old(View()))
    {
      Advance();
      if i <= 2 {
        y := 1;
        x := y;
      } else {
        var tmp := y;
        y := x + y;
        x := tmp;
      }
      printed := [y];
      point := AfterYield;
      code := if i == arg then Exit else Yield;
    }

    method RunCollatz() returns (code: Code, printed: seq<int>)
      requires func.Collatz?
      modifies this
      ensures Turn(View(), code, printed) == CollatzTurn(old(View()))
    {
      Advance();
      if arg % 2 == 0 {
        arg := arg / 2;
      } else {
        arg := arg * 3 + 1;
      }
      printed := [arg];
      point := AfterYield;
      code := if arg == 1 then Exit else Yield;
    }

    method RunMaxSubarray(input: int) returns (code: Code, printed: seq<int>)
      requires func.MaxSubarray?
      modifies this
      ensures Turn(View(), code, printed) == Resume(old(View()), input)
    {
      if !point.AfterRead? {
        Advance();
        point := AfterRead;
        return Read, [];
      }
      var tmp := input;
      if i == 1 {
        y := tmp;
        if tmp < 0 { x := 0; } else { x := tmp; }
      } else {
        if y > 0 {
          y := y + tmp;
        } else {
          y := tmp;
        }
        if x < y {
          x := y;
        }
      }
      printed := [x];
      point := AfterYield;
      code := if i == arg then Exit else Yield;
    }

    /** What longjmp to this block does until the next thread_yield, async_read or thread_exit. */
    method Run(input: int) returns (code: Code, printed: seq<int>)
      modifies this
      ensures Turn(View(), code, printed) == Resume(old(View()), input)
    {
      match func
      case Fibonacci => code, printed := RunFibonacci();
      case Collatz => code, printed := RunCollatz();
      case MaxSubarray => code, printed := RunMaxSubarray(input);
    }
  }

  // ----- compaction of the waiting queue

  /** The entries that are not null, in order. */
  function Kept(s: seq<Tcb?>): (r: seq<Tcb?>)
    ensures |r| <= |s| && null !in r
  {
    if s == [] then []
    else Kept(s[..|s| - 1]) + if s[|s| - 1] != null then [s[|s| - 1]] else []
  }

  /** The number of entries before the first null. */
  function FirstNull(s: seq<Tcb?>): (p: nat)
    ensures p <= |s| && null !in s[..p] && (p < |s| ==> s[p] == null)
  {
    if s == [] || s[0] == null then 0
    else
      var p := FirstNull(s[1..]);
      assert s[..p + 1] == [s[0]] + s[1..][..p];
      p + 1
  }

  function Nulls(n: nat): seq<Tcb?>
  {
    seq(n, i => null)
  }

  /** What the compaction loop leaves in the first |Kept(s)| slots: an entry that is already in
      place is copied onto itself and then cleared. */
  function Compacted(s: seq<Tcb?>): seq<Tcb?>
  {
    var p := FirstNull(s);
    Nulls(p) + Kept(s[p..])
  }

  lemma {:induction false} KeptConcat(s: seq<Tcb?>, t: seq<Tcb?>)
    ensures Kept(s + t) == Kept(s) + Kept(t)
  {
    if t == [] {
      assert s + t == s;
    } else {
      var n := |t| - 1;
      assert (s + t)[..|s + t| - 1] == s + t[..n];
      KeptConcat(s, t[..n]);
    }
  }

  lemma {:induction false} KeptAll(s: seq<Tcb?>)
    requires null !in s
    ensures Kept(s) == s
  {
    if s != [] {
      KeptAll(s[..|s| - 1]);
      assert s == s[..|s| - 1] + [s[|s| - 1]];
    }
  }

  /** Compaction keeps the threads that still wait exactly when no slot is in use or the first one
      was cleared before: otherwise the threads before the first cleared slot are lost. */
  lemma CompactionKeepsExactly(s: seq<Tcb?>)
    ensures Compacted(s) == Kept(s) <==> s == [] || s[0] == null
    ensures |Compacted(s)| == |Kept(s)|
  {
    hide Kept;
    var p := FirstNull(s);
    var rest := s[p..];
    assert s == s[..p] + rest;
    KeptConcat(s[..p], rest);
    KeptAll(s[..p]);
    if p > 0 {
      assert Compacted(s)[0] == null;
      assert Kept(s)[0] == s[0];
    } else {
      assert rest == s;
    }
  }

  // ----- waking up

  /** The entries whose fifo is readable, in order, and the slots once those are cleared. */
  function Readable(s: seq<Tcb?>, readable: set<Tcb>): (r: seq<Tcb?>)
    ensures |r| <= |s| && null !in r
  {
    if s == [] then []
    else Readable(s[..|s| - 1], readable) + if s[|s| - 1] != null && s[|s| - 1] in readable then [s[|s| - 1]] else []
  }

  function Cleared(s: seq<Tcb?>, readable: set<Tcb>): seq<Tcb?>
  {
    seq(|s|, i requires 0 <= i < |s| => if s[i] != null && s[i] in readable then null else s[i])
  }

  /** Waking up and compacting loses a thread unless the first waiting thread is woken. */
  lemma WakingKeepsExactly(s: seq<Tcb?>, readable: set<Tcb>)
    requires null !in s
    ensures Compacted(Cleared(s, readable)) == Kept(Cleared(s, readable)) <==> s == [] || s[0] in readable
  {
    CompactionKeepsExactly(Cleared(s, readable));
  }

  class Scheduler {
    const readyQueue: array<Tcb?>
    const waitingQueue: array<Tcb?>
    var rqSize: nat
    var rqCurrent: nat
    var wqSize: nat
    ghost var queues: Queues<Tcb>

    ghost predicate Linked()
      reads this, readyQueue, waitingQueue
    {
      && readyQueue.Length == waitingQueue.Length == THREAD_MAX && readyQueue != waitingQueue
      && rqSize == |queues.ready| <= THREAD_MAX && wqSize == |queues.waiting| <= THREAD_MAX
      && rqCurrent == queues.current
      && (forall k :: 0 <= k < rqSize ==> readyQueue[k] == queues.ready[k])
      && (forall k :: 0 <= k < wqSize ==> waitingQueue[k] == queues.waiting[k])
    }

    constructor ()
      ensures Linked() && queues == Queues([], 0, [])
    {
      readyQueue := new Tcb?[THREAD_MAX](i => null);
      waitingQueue := new Tcb?[THREAD_MAX](i => null);
      rqSize, rqCurrent, wqSize := 0, 0, 0;
      queues := Queues([], 0, []);
    }

    /** thread_setup appends the new block to the ready queue. */
    method ThreadSetup(tmp: Tcb)
      requires Linked() && rqSize < THREAD_MAX
      modifies this, readyQueue
      ensures Linked() && queues == old(queues).(ready := old(queues).ready + [tmp])
    {
      readyQueue[rqSize] := tmp;
      rqSize := rqSize + 1;
      queues := queues.(ready := queues.ready + [tmp]);
    }

    /** The first loop after a successful select. */
    method MoveReadable(readable: set<Tcb>)
      requires readyQueue != waitingQueue && wqSize <= waitingQueue.Length && rqSize + wqSize <= readyQueue.Length
      modifies `rqSize, readyQueue, waitingQueue
      ensures rqSize == old(rqSize) + |Readable(old(waitingQueue[..wqSize]), readable)| <= readyQueue.Length
      ensures readyQueue[..rqSize] == old(readyQueue[..rqSize]) + Readable(old(waitingQueue[..wqSize]), readable)
      ensures waitingQueue[..wqSize] == Cleared(old(waitingQueue[..wqSize]), readable)
    {
      hide Readable;
      ghost var ready, waiting := readyQueue[..rqSize], waitingQueue[..wqSize];
      var n := wqSize;
      ReadableNone(waiting[..0], readable);
      for i := 0 to n
        invariant rqSize == |ready| + |Readable(waiting[..i], readable)| <= |ready| + i
        invariant readyQueue[..rqSize] == ready + Readable(waiting[..i], readable)
        invariant waitingQueue[..i] == Cleared(waiting, readable)[..i] && waitingQueue[i..n] == waiting[i..]
      {
        ReadableStep(waiting, readable, i);
        assert waitingQueue[i] == waiting[i..][0];
        if waitingQueue[i] != null && waitingQueue[i] in readable {
          ghost var before := readyQueue[..rqSize];
          readyQueue[rqSize] := waitingQueue[i];
          waitingQueue[i] := null;
          rqSize := rqSize + 1;
          assert readyQueue[..rqSize] == before + [waiting[i]];
        }
      }
      assert waiting[..n] == waiting;
    }

    static lemma ReadableStep(s: seq<Tcb?>, readable: set<Tcb>, i: nat)
      requires i < |s|
      ensures Readable(s[..i + 1], readable)
           == Readable(s[..i], readable) + if s[i] != null && s[i] in readable then [s[i]] else []
    {
      assert s[..i + 1][..i] == s[..i];
    }

    static lemma ReadableNone(s: seq<Tcb?>, readable: set<Tcb>)
      requires s == []
      ensures Readable(s, readable) == []
    {
    }

    /** The second loop: as in the source, an entry that stays where it is gets cleared. */
    method Compact()
      requires wqSize <= waitingQueue.Length
      modifies `wqSize, waitingQueue
      ensures wqSize == |Kept(old(waitingQueue[..wqSize]))| <= old(wqSize)
      ensures waitingQueue[..wqSize] == Compacted(old(waitingQueue[..wqSize]))
    {
      hide Kept, FirstNull, Compacted, CompactedUpTo;
      var n := wqSize;
      ghost var s := waitingQueue[..n];
      var j := 0;
      CompactionStarts(s);
      for i := 0 to n
        invariant j <= i && CompactedUpTo(waitingQueue[..n], s, i, j)
      {
        ghost var q := waitingQueue[..n];
        CompactionAt(q, s, i, j);
        if waitingQueue[i] != null {
          waitingQueue[j] := waitingQueue[i];
          waitingQueue[i] := null;
          assert waitingQueue[..n] == q[j := q[i]][i := null];
          j := j + 1;
        }
      }
      wqSize := j;
      CompactionEnds(s, waitingQueue[..n], j);
      assert waitingQueue[..n][..j] == waitingQueue[..j];
    }

    /** The loop has reached index i, with j threads kept: null before the first cleared slot, the threads
        after that, and what has not been looked at. */
    static ghost predicate CompactedUpTo(q: seq<Tcb?>, s: seq<Tcb?>, i: nat, j: nat)
    {
      var p := FirstNull(s);
      && |q| == |s| && j <= i <= |s| && (i <= p ==> j == i)
      && (i > p ==> p <= j < i && q[p..j] == Kept(s[p..i]))
      && (forall k :: 0 <= k < p && k < i ==> q[k] == null)
      && (forall k :: i <= k < |s| ==> q[k] == s[k])
    }

    static lemma CompactionStarts(s: seq<Tcb?>)
      ensures CompactedUpTo(s, s, 0, 0)
    {
    }

    /** One round of the loop. */
    static lemma CompactionAt(q: seq<Tcb?>, s: seq<Tcb?>, i: nat, j: nat)
      requires CompactedUpTo(q, s, i, j) && i < |s|
      ensures j <= i < |q|
      ensures if q[i] == null then CompactedUpTo(q, s, i + 1, j)
              else CompactedUpTo(q[j := q[i]][i := null], s, i + 1, j + 1)
    {
      hide Kept, FirstNull;
      var p := FirstNull(s);
      if i >= p {
        KeptStep(s, p, i);
        if q[i] != null {
          var q' := q[j := q[i]][i := null];
          assert q'[p..j + 1] == q[p..j] + [s[i]];
        }
      }
    }

    /** Null as far as nothing had been cleared, and the threads after that. */
    static lemma CompactionEnds(s: seq<Tcb?>, q: seq<Tcb?>, j: nat)
      requires CompactedUpTo(q, s, |s|, j)
      ensures j <= |q| && q[..j] == Compacted(s) && j == |Kept(s)|
    {
      hide Kept, FirstNull;
      var p := FirstNull(s);
      CompactionKeepsExactly(s);
      assert s[p..|s|] == s[p..];
      if p == |s| {
        KeptNone(s[p..]);
      }
      assert q[..j] == q[..p] + q[p..j];
    }

    static lemma KeptNone(s: seq<Tcb?>)
      requires s == []
      ensures Kept(s) == []
    {
    }

    static lemma KeptStep(s: seq<Tcb?>, p: nat, i: nat)
      requires p <= i < |s|
      ensures Kept(s[p..i + 1]) == Kept(s[p..i]) + if s[i] != null then [s[i]] else []
      ensures Kept(s[p..p]) == []
    {
      assert s[p..i + 1][..i - p] == s[p..i] && s[p..i + 1][i - p] == s[i];
    }

    /** One select on the waiting threads and, if any is readable, the two loops after it. */
    method Poll(readable: set<Tcb>)
      requires Linked() && |queues.waiting| <= 1 && rqSize + wqSize <= THREAD_MAX
      modifies this, readyQueue, waitingQueue
      ensures Linked()
      ensures queues == WakeUp(old(queues), exists t :: t in old(queues).waiting && t in readable)
      ensures (exists t :: t in old(queues).waiting && t in readable) ==>
                queues == Queues(old(queues).ready + old(queues).waiting, old(queues).current, [])
      ensures (forall t :: t in old(queues).waiting ==> t !in readable) ==> queues == old(queues)
    {
      hide Compacted, Kept, Readable, FirstNull;
      ghost var q, s := queues, waitingQueue[..wqSize];
      if wqSize > 0 && waitingQueue[0] != null && waitingQueue[0] in readable {
        OneWaiting(s, readable);
        MoveReadable(readable);
        Compact();
        queues := WakeUp(q, true);
        assert q.waiting == [q.waiting[0]];
        assert readyQueue[..rqSize] == readyQueue[..|q.ready|] + [q.waiting[0]];
      }
    }

    /** The only waiting thread is woken, so that compaction finds its slot cleared. */
    static lemma OneWaiting(s: seq<Tcb?>, readable: set<Tcb>)
      requires |s| == 1 && s[0] != null && s[0] in readable
      ensures Readable(s, readable) == s && Kept(Cleared(s, readable)) == []
    {
      assert s[..0] == [] && s == [s[0]];
      assert Cleared(s, readable)[..0] == [];
    }

    /** Removes the running thread from the ready queue; the last one fills its place. */
    method FillHole()
      requires Linked() && rqCurrent < rqSize
      modifies this`rqSize, this`queues, readyQueue
      ensures Linked() && queues == old(queues).(ready := SwapOut(old(queues).ready, old(queues).current))
    {
      readyQueue[rqCurrent] := readyQueue[rqSize - 1];
      readyQueue[rqSize - 1] := null;
      rqSize := rqSize - 1;
      queues := queues.(ready := SwapOut(queues.ready, queues.current));
    }

    /** thread_exit, and async_read, which also puts the thread at the end of the waiting queue. */
    method Leave(code: Code)
      requires Linked() && rqCurrent < rqSize && wqSize < THREAD_MAX && !code.Yield?
      modifies this, readyQueue, waitingQueue
      ensures Linked()
      ensures queues == Left(old(queues), code)
    {
      if code.Read? {
        waitingQueue[wqSize] := readyQueue[rqCurrent];
        wqSize := wqSize + 1;
        queues := queues.(waiting := queues.waiting + [queues.ready[queues.current]]);
      }
      FillHole();
    }

    static lemma WakeUpAlone<T>(q: Queues<T>)
      requires q.ready == [] && |q.waiting| == 1
      ensures WakeUp(q, true) == Queues(q.waiting, q.current, []) && q.waiting[0] in q.waiting
    {
    }

    /** When no thread is ready, the scheduler returns, or polls until the waiting thread is readable. */
    method AwaitReader() returns (finished: bool)
      requires Linked() && |queues.waiting| <= 1
      modifies this, readyQueue, waitingQueue
      ensures Linked() && (finished <==> Finished(queues))
      ensures queues == Awaited(old(queues))
    {
      finished := false;
      if rqSize == 0 {
        if wqSize == 0 {
          return true;
        } else if wqSize == 1 {
          var t := waitingQueue[0];
          ghost var q := queues;
          assert t == q.waiting[0] && t in q.waiting;
          WakeUpAlone(q);
          hide WakeUp;
          Poll({t});
          assert queues == WakeUp(q, true);
          rqCurrent := 0;
          queues := queues.(current := 0);
        }
      }
    }

    /** An entry into the scheduler: thread_yield, async_read or thread_exit of the running thread. */
    method Enter(code: Code, readable: set<Tcb>, ghost reader: Tcb) returns (finished: bool)
      requires Linked() && Valid(queues, reader) && Allowed(queues, reader, code)
      requires rqSize + wqSize <= THREAD_MAX
      modifies this, readyQueue, waitingQueue
      ensures Linked() && rqSize + wqSize <= THREAD_MAX
      ensures queues == Reenter(old(queues), code, exists t :: t in old(queues).waiting && t in readable)
      ensures finished <==> Finished(queues)
      ensures !finished ==> Valid(queues, reader) && readyQueue[rqCurrent] == queues.ready[queues.current]
      ensures old(queues).waiting == [reader] ==>
                if reader in readable then reader in queues.ready && queues.waiting == []
                else if |old(queues).ready| > 1 || code.Yield? then queues.waiting == [reader]
                else queues == Queues([reader], 0, [])
    {
      hide SwapOut, WakeUp, Valid, Reenter, Awaited, Finished;
      ghost var q, woken := queues, exists t :: t in queues.waiting && t in readable;
      EntryInSteps(q, reader, code, woken);
      Poll(readable);
      ghost var w := queues;
      if code.Read? || code.Exit? {
        Leave(code);
      }
      if code.Yield? {
        rqCurrent := (rqCurrent + 1) % rqSize;
        queues := queues.(current := rqCurrent);
      } else if rqCurrent == rqSize {
        rqCurrent := 0;
        queues := queues.(current := 0);
      }
      assert queues == Turned(w, code);
      finished := AwaitReader();
      ReaderWokenExactly(q, reader, code, readable);
    }

    /** One turn: the thread that RUNNING names goes on from where it was suspended, up to its next
        thread_yield, async_read or thread_exit; a yield enters the scheduler only if a signal is
        pending.  No other control block changes. */
    method TakeTurn(input: int, signal: bool, readable: set<Tcb>, ghost reader: Tcb)
      returns (finished: bool, code: Code, printed: seq<int>)
      requires Linked() && Valid(queues, reader) && rqSize + wqSize <= THREAD_MAX
      requires queues.ready[queues.current].func.MaxSubarray? ==> queues.ready[queues.current] == reader
      modifies this, readyQueue, waitingQueue, queues.ready[queues.current]
      ensures Linked() && rqSize + wqSize <= THREAD_MAX
      ensures Turn(old(queues.ready[queues.current]).View(), code, printed)
           == old(Resume(queues.ready[queues.current].View(), input))
      ensures queues == if code.Yield? && !signal then old(queues)
                        else Reenter(old(queues), code, exists t :: t in old(queues).waiting && t in readable)
      ensures finished <==> Finished(queues)
      ensures !finished ==> Valid(queues, reader) && readyQueue[rqCurrent] == queues.ready[queues.current]
    {
      hide Reenter, Distinct;
      ghost var q := queues;
      var running := readyQueue[rqCurrent];
      assert running == q.ready[q.current];
      code, printed := running.Run(input);
      finished := false;
      if !code.Yield? || signal {
        finished := Enter(code, readable, reader);
      }
    }

    /** The arrays and the control blocks hold what the system s says. */
    ghost predicate Holds(s: System<Tcb>, tcbs: set<Tcb>)
      reads this, tcbs
    {
      s.queues == queues && forall t :: t in s.frames ==> t in tcbs && t.View() == s.frames[t]
    }

    lemma HoldsQueues(s: System<Tcb>, tcbs: set<Tcb>)
      requires Holds(s, tcbs)
      ensures s.queues == queues
    {
    }

    /** One turn on the arrays is one turn of the system. */
    method SystemTurn(choice: Choice, ghost s: System<Tcb>, ghost tcbs: set<Tcb>, ghost reader: Tcb)
      returns (finished: bool, out: seq<(Tcb, int)>, ghost chance: Chance)
      requires Linked() && Holds(s, tcbs) && Inv(s, reader) && Valid(queues, reader) && rqSize + wqSize <= THREAD_MAX
      modifies this, readyQueue, waitingQueue, tcbs
      ensures Running(s) && Linked() && Holds(Next(s, chance), tcbs) && rqSize + wqSize <= THREAD_MAX
      ensures finished <==> Finished(queues)
      ensures !finished ==> Valid(queues, reader)
      ensures out == Lines(Runner(s), Resume(s.frames[Runner(s)], chance.input).printed)
    {
      hide Reenter, Distinct, Resume, Live, FrameFits, PrintsRightly, PrintedAll, Inv, ThreadFits;
      RunnerIs(s, reader);
      var running := readyQueue[rqCurrent];
      assert running == Runner(s) && running in tcbs;
      chance := Chance(choice.input, choice.signal, exists t :: t in queues.waiting && t in choice.readable);
      var code, printed;
      finished, code, printed := TakeTurn(choice.input, choice.signal, choice.readable, reader);
      out := Lines(running, printed);
    }

    /** Turns are taken until the scheduler returns or the choices are used up: the states gone through
        form a schedule, and each thread has printed what it is to print, up to where it has come.  With
        choices for the turns that the threads need together the scheduler returns. */
    method RunTurns(choices: seq<Choice>, ghost start: System<Tcb>, ghost tcbs: set<Tcb>, ghost reader: Tcb)
      returns (finished: bool, out: seq<(Tcb, int)>, ghost ss: seq<System<Tcb>>, ghost cs: seq<Chance>)
      requires Linked() && Fresh(start, reader) && Holds(start, tcbs) && rqSize + wqSize <= THREAD_MAX
      modifies this, readyQueue, waitingQueue, tcbs
      ensures Linked() && rqSize + wqSize <= THREAD_MAX
      ensures Schedule(ss, cs, reader) && ss[0] == start && Holds(ss[|cs|], tcbs)
      ensures finished <==> Finished(ss[|cs|].queues)
      ensures finished || |cs| == |choices|
      ensures PrintedBy(out, start, ss[|cs|])
      ensures forall t :: t in start.frames ==> RightLines(start.frames[t], LinesOf(out, t), t !in ss[|cs|].frames)
      ensures EndsAlone(start) && |choices| >= TotalNeeds(start.frames, start.queues.ready) ==> finished
    {
      hide Next, Inv, Fresh, Linked, Holds, Schedule, PrintedBy, Valid, RightLines, TotalNeeds;
      ss, cs, out, finished := [start], [], [], false;
      FreshReady(start, reader);
      HoldsQueues(start, tcbs);
      NothingPrinted(start, reader);
      var n := 0;
      while n < |choices| && !finished
        invariant n <= |choices| && |cs| == n && |ss| == n + 1 && Schedule(ss, cs, reader) && ss[0] == start
        invariant Linked() && rqSize + wqSize <= THREAD_MAX && Holds(ss[n], tcbs)
        invariant ss[n].queues == queues && (finished <==> Finished(queues)) && (!finished ==> Valid(queues, reader))
        invariant PrintedBy(out, start, ss[n])
        decreases |choices| - n
      {
        ScheduleInv(ss, cs, reader);
        ghost var s := ss[n];
        ghost var chance;
        var lines;
        finished, lines, chance := SystemTurn(choices[n], s, tcbs, reader);
        HistoriesGrow(s, chance, start, out);
        ScheduleGrows(ss, cs, reader, chance);
        ss, cs := ss + [Next(s, chance)], cs + [chance];
        out := out + lines;
        n := n + 1;
        HoldsQueues(ss[n], tcbs);
      }
      forall t | t in start.frames ensures RightLines(start.frames[t], LinesOf(out, t), t !in ss[n].frames) {
        LinesAreRight(ss, cs, reader, out, t);
      }
      if EndsAlone(start) {
        ScheduleEnds(ss, cs, reader);
      }
    }
  }

  // ----- many turns

  /** What a turn meets, with the threads whose fifo is readable. */
  datatype Choice = Choice(input: int, signal: bool, readable: set<Tcb>)

  /** The numbers that thread t has printed, of all the lines printed. */
  function LinesOf(out: seq<(Tcb, int)>, t: Tcb): seq<int>
  {
    if out == [] then []
    else LinesOf(out[..|out| - 1], t) + if out[|out| - 1].0 == t then [out[|out| - 1].1] else []
  }

  function Lines(t: Tcb, printed: seq<int>): seq<(Tcb, int)>
  {
    seq(|printed|, i requires 0 <= i < |printed| => (t, printed[i]))
  }

  lemma {:induction false} LinesGrow(out: seq<(Tcb, int)>, t: Tcb, printed: seq<int>, u: Tcb)
    ensures LinesOf(out + Lines(t, printed), u) == LinesOf(out, u) + if t == u then printed else []
  {
    var all := out + Lines(t, printed);
    if printed == [] {
      assert all == out;
    } else {
      var n := |printed| - 1;
      assert all[..|all| - 1] == out + Lines(t, printed[..n]);
      LinesGrow(out, t, printed[..n], u);
      assert printed == printed[..n] + [printed[n]];
    }
  }

  lemma RunnerIs<T>(s: System<T>, reader: T)
    requires Inv(s, reader) && Valid(s.queues, reader)
    ensures Running(s) && Runner(s) == s.queues.ready[s.queues.current]
    ensures s.frames[Runner(s)].func.MaxSubarray? ==> Runner(s) == reader
  {
    RunningIsLive(s.queues);
    var t := s.queues.ready[s.queues.current];
    assert t in s.frames && ThreadFits(s, reader, t);
  }

  lemma FreshReady<T>(s: System<T>, reader: T)
    requires Fresh(s, reader)
    ensures Valid(s.queues, reader) && !Finished(s.queues) && Schedule([s], [], reader)
  {
  }

  lemma ScheduleGrows<T>(ss: seq<System<T>>, cs: seq<Chance>, reader: T, c: Chance)
    requires Schedule(ss, cs, reader) && Running(ss[|cs|])
    ensures Schedule(ss + [Next(ss[|cs|], c)], cs + [c], reader)
  {
    hide Next, Fresh;
  }

  /** Each thread that start created has printed its history in s. */
  ghost predicate PrintedBy(out: seq<(Tcb, int)>, start: System<Tcb>, s: System<Tcb>)
  {
    forall t :: t in start.frames ==> t in s.histories && LinesOf(out, t) == s.histories[t].out
  }

  /** No collatz, and positive arguments. */
  ghost predicate EndsAlone(s: System<Tcb>)
  {
    && (forall t :: t in s.frames ==> !s.frames[t].func.Collatz? && s.frames[t].arg >= 1)
    && (forall t :: t in s.queues.ready ==> t in s.frames)
  }

  /** The lines of a thread created as f: the first numbers of its sequence, and all of them exactly if it
      has exited. */
  ghost predicate RightLines(f: Frame, lines: seq<int>, exited: bool)
  {
    match f.func
    case Fibonacci => (forall k :: 0 <= k < |lines| ==> lines[k] == Fib(k + 1)) && (exited <==> |lines| == f.arg >= 1)
    case Collatz =>
      && (f.arg >= 0 ==> forall k :: 0 <= k < |lines| ==> lines[k] == CollatzAt(f.arg, k + 1))
      && (exited <==> lines != [] && lines[|lines| - 1] == 1 && forall k :: 0 <= k < |lines| - 1 ==> lines[k] != 1)
    case MaxSubarray =>
      && (exists ins: seq<int> ::
            |lines| <= |ins| && forall k :: 0 <= k < |lines| ==> IsBestSegment(lines[k], ins[..k + 1]))
      && (exited <==> |lines| == f.arg >= 1)
  }

  lemma LinesAreRight(ss: seq<System<Tcb>>, cs: seq<Chance>, reader: Tcb, out: seq<(Tcb, int)>, t: Tcb)
    requires Schedule(ss, cs, reader) && PrintedBy(out, ss[0], ss[|cs|]) && t in ss[0].frames
    ensures RightLines(ss[0].frames[t], LinesOf(out, t), t !in ss[|cs|].frames)
  {
    hide Next, Fresh, IsBestSegment, Fib, CollatzAt;
    OutputsDoNotDependOnSchedule(ss, cs, reader, t);
    var h := ss[|cs|].histories[t];
    assert LinesOf(out, t) == h.out;
    if h.func.MaxSubarray? {
      assert |h.out| <= |h.ins|;
    }
  }

  lemma NothingPrinted(start: System<Tcb>, reader: Tcb)
    requires Fresh(start, reader)
    ensures PrintedBy([], start, start)
  {
  }

  lemma HistoriesGrow(s: System<Tcb>, c: Chance, start: System<Tcb>, out: seq<(Tcb, int)>)
    requires Running(s)
    requires PrintedBy(out, start, s)
    ensures PrintedBy(out + Lines(Runner(s), Resume(s.frames[Runner(s)], c.input).printed), start, Next(s, c))
  {
    hide Reenter, Resume, LinesOf;
    var r := Runner(s);
    forall t | t in start.frames
      ensures t in Next(s, c).histories
      ensures LinesOf(out + Lines(r, Resume(s.frames[r], c.input).printed), t) == Next(s, c).histories[t].out
    {
      LinesGrow(out, r, Resume(s.frames[r], c.input).printed, t);
    }
  }

  /** What an entry does to the reader if it waits, on the set of readable threads. */
  lemma ReaderWokenExactly(q: Queues<Tcb>, reader: Tcb, code: Code, readable: set<Tcb>)
    requires Valid(q, reader) && Allowed(q, reader, code)
    ensures var e := Reenter(q, code, exists t :: t in q.waiting && t in readable);
            q.waiting == [reader] ==>
              if reader in readable then reader in e.ready && e.waiting == []
              else if |q.ready| > 1 || code.Yield? then e.waiting == [reader]
              else e == Queues([reader], 0, [])
  {
    hide Reenter;
    if q.waiting == [reader] {
      var woken := exists t :: t in q.waiting && t in readable;
      assert woken == (reader in readable) by { assert reader in q.waiting; }
      if woken {
        ReaderWakes(q, reader, code);
      } else if code.Yield? {
        YieldTurns(q, reader, false);
      } else {
        LeavingMovesLast(q, reader, code, false);
      }
    }
  }

  lemma EntryInSteps<T>(q: Queues<T>, reader: T, code: Code, readable: bool)
    requires Valid(q, reader) && Allowed(q, reader, code)
    ensures var w, e := WakeUp(q, readable), Reenter(q, code, readable);
            && w.current < |w.ready| && |w.ready| + |w.waiting| == |q.ready| + |q.waiting|
            && |q.waiting| <= 1 && |Turned(w, code).waiting| <= 1
            && Awaited(Turned(w, code)) == e
            && |e.ready| + |e.waiting| <= |q.ready| + |q.waiting|
            && (Valid(e, reader) || Finished(e)) && (Valid(e, reader) ==> e.current < |e.ready|)
  {
    hide SwapOut, Distinct, Turned, Awaited, WakeUp;
    RunningIsLive(q);
    ReenterValid(q, reader, code, readable);
    LiveSize(q, Reenter(q, code, readable), if code.Exit? then multiset{q.ready[q.current]} else multiset{});
    WakeUpWaiting(q, reader, code, readable);
  }

  lemma WakeUpWaiting<T>(q: Queues<T>, reader: T, code: Code, readable: bool)
    requires Valid(q, reader) && Allowed(q, reader, code)
    ensures var w := WakeUp(q, readable);
            && w.current < |w.ready| && |w.ready| + |w.waiting| == |q.ready| + |q.waiting|
            && |Turned(w, code).waiting| <= 1
  {
    hide SwapOut, Distinct;
    WakeUpValid(q, reader, readable);
  }
}
