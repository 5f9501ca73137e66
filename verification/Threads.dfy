/** The three thread functions as they are resumed and suspended, and what every schedule of them
    prints. */
module Threads {
  import opened SchedulerQueues

  datatype Function = Fibonacci | Collatz | MaxSubarray

  /** Where the jump buffer of a suspended thread continues. */
  datatype Point = Start | AfterYield | AfterRead

  /** The part of a thread control block that outlives a switch. */
  datatype Frame = Frame(func: Function, point: Point, arg: int, i: int, x: int, y: int)

  datatype Turn = Turn(frame: Frame, code: Code, printed: seq<int>)

  /** The loop counter on a new round. */
  function NextRound(f: Frame): int
  {
    if f.point.Start? then 1 else f.i + 1
  }

  /** A thread runs from where it was suspended to its next thread_yield, async_read or
      thread_exit; input is the number in its buffer after a read. */
  function Resume(f: Frame, input: int): Turn
  {
    match f.func
    case Fibonacci => FibonacciTurn(f)
    case Collatz => CollatzTurn(f)
    case MaxSubarray => if f.point.AfterRead? then MaxSubarrayTurn(f, input)
                        else Turn(f.(point := AfterRead, i := NextRound(f)), Read, [])
  }

  function FibonacciTurn(f: Frame): Turn
  {
    var i := NextRound(f);
    var (x, y) := if i <= 2 then (1, 1) else (f.y, f.x + f.y);
    Turn(f.(point := AfterYield, i := i, x := x, y := y), if i == f.arg then Exit else Yield, [y])
  }

  function CollatzTurn(f: Frame): Turn
  {
    var arg := if f.arg % 2 == 0 then f.arg / 2 else 3 * f.arg + 1;
    Turn(f.(point := AfterYield, i := NextRound(f), arg := arg), if arg == 1 then Exit else Yield, [arg])
  }

  function MaxSubarrayTurn(f: Frame, input: int): Turn
  {
    var y := if f.i == 1 then input else if f.y > 0 then f.y + input else input;
    var x := if f.i == 1 then (if input < 0 then 0 else input) else if f.x < y then y else f.x;
    Turn(f.(point := AfterYield, x := x, y := y), if f.i == f.arg then Exit else Yield, [x])
  }

  // ----- what each function is to print

  function Fib(n: nat): nat
  {
    if n <= 2 then 1 else Fib(n - 2) + Fib(n - 1)
  }

  /** The k-th number of the sequence that starts with a. */
  function CollatzAt(a: nat, k: nat): nat
  {
    if k == 0 then a
    else
      var n := CollatzAt(a, k - 1);
      if n % 2 == 0 then n / 2 else 3 * n + 1
  }

  function Sum(s: seq<int>): int
  {
    if s == [] then 0 else Sum(s[..|s| - 1]) + s[|s| - 1]
  }

  /** The largest sum of a non-empty segment that ends with the last number. */
  ghost predicate IsBestEnding(y: int, s: seq<int>)
  {
    && (exists j :: 0 <= j < |s| && y == Sum(s[j..]))
    && (forall j :: 0 <= j < |s| ==> Sum(s[j..]) <= y)
  }

  /** The largest sum of a segment, the empty one included. */
  ghost predicate IsBestSegment(x: int, s: seq<int>)
  {
    && (exists j, k :: 0 <= j <= k <= |s| && x == Sum(s[j..k]))
    && (forall j, k :: 0 <= j <= k <= |s| ==> Sum(s[j..k]) <= x)
  }

  /** A thread created as func(arg) that has printed out and read ins. */
  datatype History = History(func: Function, arg: int, out: seq<int>, ins: seq<int>)

  /** The output so far is right: a beginning of the numbers the function is to print. */
  ghost predicate PrintsRightly(h: History)
  {
    match h.func
    case Fibonacci => forall k :: 0 <= k < |h.out| ==> h.out[k] == Fib(k + 1)
    case Collatz => h.arg >= 0 ==> forall k :: 0 <= k < |h.out| ==> h.out[k] == CollatzAt(h.arg, k + 1)
    case MaxSubarray => |h.out| <= |h.ins| && forall k :: 0 <= k < |h.out| ==> IsBestSegment(h.out[k], h.ins[..k + 1])
  }

  /** A thread exits when it has printed arg numbers, or the first 1 of its sequence; with an argument
      that is not positive, fibonacci and max_subarray never do. */
  ghost predicate PrintedAll(h: History)
  {
    match h.func
    case Fibonacci => |h.out| == h.arg >= 1
    case Collatz => h.out != [] && h.out[|h.out| - 1] == 1 && forall k :: 0 <= k < |h.out| - 1 ==> h.out[k] != 1
    case MaxSubarray => |h.out| == h.arg >= 1
  }

  // ----- the same in numbers

  /** The numbers printed by fibonacci: two ones, and from then on each the sum of the two before it. */
  lemma FibonacciInNumbers(h: History)
    requires h.func.Fibonacci? && PrintsRightly(h)
    ensures forall k :: 0 <= k < |h.out| && k < 2 ==> h.out[k] == 1
    ensures forall k :: 2 <= k < |h.out| ==> h.out[k] == h.out[k - 2] + h.out[k - 1]
  {
    forall k | 2 <= k < |h.out| ensures h.out[k] == h.out[k - 2] + h.out[k - 1] {
      assert h.out[k] == Fib(k + 1) && h.out[k - 2] == Fib(k - 1) && h.out[k - 1] == Fib(k);
    }
  }

  /** The numbers printed by collatz: each is half of the one before it, if that is even, and otherwise one more
      than its triple; the first one comes after the argument. */
  lemma CollatzInNumbers(h: History)
    requires h.func.Collatz? && h.arg >= 0 && PrintsRightly(h)
    ensures forall k :: 0 <= k < |h.out| ==>
              var before := if k == 0 then h.arg else h.out[k - 1];
              if before % 2 == 0 then 2 * h.out[k] == before else h.out[k] == 3 * before + 1
  {
    forall k | 0 <= k < |h.out|
      ensures var before := if k == 0 then h.arg else h.out[k - 1];
              if before % 2 == 0 then 2 * h.out[k] == before else h.out[k] == 3 * before + 1
    {
      assert h.out[k] == CollatzAt(h.arg, k + 1);
      assert k > 0 ==> h.out[k - 1] == CollatzAt(h.arg, k);
    }
  }

  /** A segment sums up to what the partial sums grow by over it. */
  lemma {:induction false} SumOfSegment(s: seq<int>, partial: seq<int>, j: nat, k: nat)
    requires |partial| == |s| + 1 && forall i :: 0 <= i < |s| ==> partial[i + 1] == partial[i] + s[i]
    requires j <= k <= |s|
    ensures Sum(s[j..k]) == partial[k] - partial[j]
  {
    if j < k {
      SumOfSegment(s, partial, j, k - 1);
      assert s[j..k][..k - 1 - j] == s[j..k - 1];
    }
  }

  /** The best segment in terms of partial sums. */
  lemma BestSegmentInNumbers(x: int, s: seq<int>, partial: seq<int>)
    requires |partial| == |s| + 1 && forall i :: 0 <= i < |s| ==> partial[i + 1] == partial[i] + s[i]
    ensures IsBestSegment(x, s) <==>
              && (exists j, k :: 0 <= j <= k <= |s| && x == partial[k] - partial[j])
              && (forall j, k :: 0 <= j <= k <= |s| ==> partial[k] - partial[j] <= x)
  {
    hide Sum;
    forall j, k | 0 <= j <= k <= |s| ensures Sum(s[j..k]) == partial[k] - partial[j] {
      SumOfSegment(s, partial, j, k);
    }
    if j, k :| 0 <= j <= k <= |s| && x == partial[k] - partial[j] {
      assert x == Sum(s[j..k]);
    }
  }

  // ----- one thread, turn by turn

  /** A suspended thread's frame matches its history, and it has not printed everything. */
  ghost predicate FrameFits(f: Frame, h: History)
  {
    && f.func == h.func && PrintsRightly(h)
    && (f.point.Start? ==> h.out == [] && h.ins == [] && f.arg == h.arg)
    && match f.func
       case Fibonacci =>
         && !f.point.AfterRead? && f.arg == h.arg && (h.arg >= 1 ==> |h.out| < h.arg)
         && (f.point.AfterYield? ==>
               f.i == |h.out| >= 1 && f.y == Fib(f.i) && f.x == if f.i == 1 then 1 else Fib(f.i - 1))
       case Collatz =>
         && !f.point.AfterRead? && 1 !in h.out
         && (f.point.AfterYield? ==> h.out != [] && f.arg == h.out[|h.out| - 1])
       case MaxSubarray =>
         && f.arg == h.arg && |h.ins| == |h.out| && (h.arg >= 1 ==> |h.out| < h.arg)
         && (!f.point.Start? ==> f.i == |h.out| + if f.point.AfterRead? then 1 else 0)
         && (h.ins != [] ==> IsBestEnding(f.y, h.ins) && IsBestSegment(f.x, h.ins))
  }

  /** The history after a turn; a number is read only on the way back from async_read. */
  function Extended(h: History, f: Frame, input: int): History
  {
    h.(out := h.out + Resume(f, input).printed, ins := h.ins + if f.point.AfterRead? then [input] else [])
  }

  lemma FibonacciFits(f: Frame, h: History, input: int)
    requires f.func.Fibonacci? && FrameFits(f, h)
    ensures var r, h' := Resume(f, input), Extended(h, f, input);
            PrintsRightly(h') && if r.code.Exit? then PrintedAll(h') else r.code.Yield? && FrameFits(r.frame, h')
  {
    var r := Resume(f, input);
    assert r.frame.y == Fib(r.frame.i);
  }

  lemma CollatzFits(f: Frame, h: History, input: int)
    requires f.func.Collatz? && FrameFits(f, h)
    ensures var r, h' := Resume(f, input), Extended(h, f, input);
            PrintsRightly(h') && if r.code.Exit? then PrintedAll(h') else r.code.Yield? && FrameFits(r.frame, h')
  {
    var r, h' := Resume(f, input), Extended(h, f, input);
    if h.arg >= 0 {
      assert f.arg == CollatzAt(h.arg, |h.out|);
      assert r.printed[0] == CollatzAt(h.arg, |h.out| + 1);
    }
    assert forall k :: 0 <= k < |h.out| ==> h'.out[k] == h.out[k] && h.out[k] in h.out;
  }

  lemma SumAppend(s: seq<int>, v: int)
    ensures Sum(s + [v]) == Sum(s) + v
  {
    assert (s + [v])[..|s|] == s;
  }

  /** A number more: the best segment that ends with it extends the best one before, or starts
      with it. */
  lemma BestEndingGrows(y: int, s: seq<int>, v: int)
    requires s == [] || IsBestEnding(y, s)
    ensures IsBestEnding(if s != [] && y > 0 then y + v else v, s + [v])
  {
    var t, y' := s + [v], if s != [] && y > 0 then y + v else v;
    assert t[|s|..] == [] + [v];
    SumAppend([], v);
    forall j | 0 <= j < |s| ensures Sum(t[j..]) == Sum(s[j..]) + v {
      assert t[j..] == s[j..] + [v];
      SumAppend(s[j..], v);
    }
    assert Sum(t[|s|..]) == v;
    if s != [] && y > 0 {
      var j :| 0 <= j < |s| && y == Sum(s[j..]);
      assert y' == Sum(t[j..]);
    }
  }

  lemma BestSegmentGrows(x: int, y: int, s: seq<int>, v: int)
    requires IsBestSegment(x, s) && IsBestEnding(y, s + [v])
    ensures IsBestSegment(if x < y then y else x, s + [v])
  {
    var t, x' := s + [v], if x < y then y else x;
    forall j, k | 0 <= j <= k <= |s| ensures t[j..k] == s[j..k] {
    }
    forall j, k | 0 <= j <= k <= |t| ensures Sum(t[j..k]) <= x' {
      if k <= |s| {
        assert Sum(t[j..k]) == Sum(s[j..k]);
      } else if j < |t| {
        assert t[j..k] == t[j..];
      } else {
        assert t[j..k] == s[0..0];
      }
    }
    if x < y {
      var j :| 0 <= j < |t| && y == Sum(t[j..]);
      assert t[j..|t|] == t[j..];
    } else {
      var j, k :| 0 <= j <= k <= |s| && x == Sum(s[j..k]);
      assert x' == Sum(t[j..k]);
    }
  }

  lemma NothingIsBest()
    ensures IsBestSegment(0, [])
  {
    var s: seq<int> := [];
    assert forall j, k :: 0 <= j <= k <= |s| ==> s[j..k] == [];
    assert Sum(s[0..0]) == 0;
  }

  lemma MaxSubarrayFits(f: Frame, h: History, input: int)
    requires f.func.MaxSubarray? && FrameFits(f, h)
    ensures var r, h' := Resume(f, input), Extended(h, f, input);
            PrintsRightly(h') && if r.code.Exit? then PrintedAll(h') else FrameFits(r.frame, h')
  {
    hide IsBestSegment, IsBestEnding;
    var r, h' := Resume(f, input), Extended(h, f, input);
    if f.point.AfterRead? {
      MaxSubarrayGrows(f, h.ins, input);
      assert h'.ins[..|h.out| + 1] == h'.ins;
      forall k | 0 <= k < |h.out| ensures IsBestSegment(h'.out[k], h'.ins[..k + 1]) {
        assert h'.out[k] == h.out[k] && h'.ins[..k + 1] == h.ins[..k + 1];
      }
    } else {
      assert h' == h;
    }
  }

  /** The running maxima after one number more. */
  lemma MaxSubarrayGrows(f: Frame, ins: seq<int>, input: int)
    requires f.i == |ins| + 1 && (ins != [] ==> IsBestEnding(f.y, ins) && IsBestSegment(f.x, ins))
    ensures var g := MaxSubarrayTurn(f, input).frame;
            IsBestEnding(g.y, ins + [input]) && IsBestSegment(g.x, ins + [input])
  {
    hide IsBestSegment, IsBestEnding;
    BestEndingGrows(f.y, ins, input);
    if ins == [] {
      NothingIsBest();
      BestSegmentGrows(0, input, ins, input);
    } else {
      BestSegmentGrows(f.x, MaxSubarrayTurn(f, input).frame.y, ins, input);
    }
  }

  /** A turn keeps the frame and the history in step, or ends the thread with everything printed. */
  lemma TurnFits(f: Frame, h: History, input: int)
    requires FrameFits(f, h)
    ensures var r, h' := Resume(f, input), Extended(h, f, input);
            && PrintsRightly(h')
            && (if r.code.Exit? then PrintedAll(h') else FrameFits(r.frame, h'))
            && (r.code.Read? ==> f.func.MaxSubarray?)
  {
    match f.func
    case Fibonacci => FibonacciFits(f, h, input);
    case Collatz => CollatzFits(f, h, input);
    case MaxSubarray => MaxSubarrayFits(f, h, input);
  }

  // ----- all threads under the scheduler

  /** Threads by number: the queues, the control blocks of the live threads, and the histories of
      all that were created. */
  datatype System<T> = System(queues: Queues<T>, frames: map<T, Frame>, histories: map<T, History>)

  /** What a turn meets: the number read after an async_read, whether a signal is pending at a
      yield, and whether the reader's fifo is readable when the scheduler looks. */
  datatype Chance = Chance(input: int, signal: bool, readable: bool)

  /** The running thread takes a turn.  A yield enters the scheduler only if a signal is pending. */
  ghost function Next<T>(s: System<T>, c: Chance): System<T>
    requires s.queues.current < |s.queues.ready|
    requires s.queues.ready[s.queues.current] in s.frames && s.queues.ready[s.queues.current] in s.histories
  {
    var t := s.queues.ready[s.queues.current];
    var r := Resume(s.frames[t], c.input);
    System(
      if r.code.Yield? && !c.signal then s.queues else Reenter(s.queues, r.code, c.readable),
      if r.code.Exit? then s.frames - {t} else s.frames[t := r.frame],
      s.histories[t := Extended(s.histories[t], s.frames[t], c.input)])
  }

  /** The live threads have frames that fit their histories, the others have printed everything,
      and only the reader runs max_subarray. */
  ghost predicate Inv<T>(s: System<T>, reader: T)
  {
    && (Valid(s.queues, reader) || Finished(s.queues))
    && s.frames.Keys <= s.histories.Keys
    && (forall t :: t in s.frames ==> t in Live(s.queues))
    && (forall t :: t in Live(s.queues) ==> t in s.frames && Live(s.queues)[t] == 1)
    && (forall t :: t in s.histories ==> ThreadFits(s, reader, t))
  }

  ghost predicate ThreadFits<T>(s: System<T>, reader: T, t: T)
    requires t in s.histories
  {
    && PrintsRightly(s.histories[t])
    && (s.histories[t].func.MaxSubarray? ==> t == reader)
    && if t in s.frames then FrameFits(s.frames[t], s.histories[t]) else PrintedAll(s.histories[t])
  }

  lemma TurnKeepsInv<T>(s: System<T>, reader: T, c: Chance)
    requires Inv(s, reader) && Valid(s.queues, reader)
    ensures Running(s) && Inv(Next(s, c), reader)
    ensures Next(s, c).histories.Keys == s.histories.Keys
    ensures forall t :: t in s.histories ==>
              Next(s, c).histories[t].func == s.histories[t].func && Next(s, c).histories[t].arg == s.histories[t].arg
  {
    hide Reenter, FrameFits, PrintsRightly, PrintedAll, Resume, Live;
    var q := s.queues;
    var t := q.ready[q.current];
    RunningIsLive(q);
    assert ThreadFits(s, reader, t);
    TurnFits(s.frames[t], s.histories[t], c.input);
    FrameFunction(s.frames[t], s.histories[t]);
    var r, s' := Resume(s.frames[t], c.input), Next(s, c);
    if !(r.code.Yield? && !c.signal) {
      ReenterValid(q, reader, r.code, c.readable);
    }
    assert Live(s'.queues) == if r.code.Exit? then Live(q) - multiset{t} else Live(q);
    forall u | u in s'.histories ensures ThreadFits(s', reader, u) {
      if u != t {
        assert ThreadFits(s, reader, u);
      }
    }
  }

  lemma FrameFunction(f: Frame, h: History)
    requires FrameFits(f, h)
    ensures f.func == h.func
  {
  }

  ghost predicate Running<T>(s: System<T>)
  {
    && s.queues.current < |s.queues.ready|
    && s.queues.ready[s.queues.current] in s.frames && s.queues.ready[s.queues.current] in s.histories
  }

  /** A fresh thread, as thread_setup queues it. */
  function Created(func: Function, arg: int): Frame
  {
    Frame(func, Start, arg, 0, 0, 0)
  }

  /** A run of the threads created in ss[0], which are queued in some order and have not run; at
      most one of them, the reader, is a max_subarray. */
  ghost predicate Schedule<T>(ss: seq<System<T>>, cs: seq<Chance>, reader: T)
  {
    && |ss| == |cs| + 1
    && Fresh(ss[0], reader)
    && forall i :: 0 <= i < |cs| ==> Running(ss[i]) && ss[i + 1] == Next(ss[i], cs[i])
  }

  ghost predicate Fresh<T>(s: System<T>, reader: T)
  {
    && s.queues.ready != [] && s.queues.current == 0 && s.queues.waiting == [] && Distinct(s.queues.ready)
    && (forall t :: t in s.frames ==> t in s.queues.ready)
    && (forall t :: t in s.queues.ready ==> t in s.frames)
    && s.histories.Keys == s.frames.Keys
    && forall t :: t in s.frames ==>
         && s.histories[t].out == [] && s.histories[t].ins == []
         && s.frames[t] == Created(s.histories[t].func, s.histories[t].arg)
         && (s.histories[t].func.MaxSubarray? ==> t == reader)
  }

  lemma {:induction false} ScheduleInv<T>(ss: seq<System<T>>, cs: seq<Chance>, reader: T)
    requires Schedule(ss, cs, reader)
    ensures Inv(ss[|cs|], reader)
    ensures ss[|cs|].histories.Keys == ss[0].histories.Keys
    ensures forall t :: t in ss[0].histories ==>
              ss[|cs|].histories[t].func == ss[0].histories[t].func
              && ss[|cs|].histories[t].arg == ss[0].histories[t].arg
  {
    var n := |cs|;
    if n == 0 {
      FreshInv(ss[0], reader);
    } else {
      ScheduleInv(ss[..n], cs[..n - 1], reader);
      assert Running(ss[n - 1]);
      TurnKeepsInv(ss[n - 1], reader, cs[n - 1]);
    }
  }

  lemma FreshInv<T>(s: System<T>, reader: T)
    requires Fresh(s, reader)
    ensures Inv(s, reader)
  {
    var q := s.queues;
    assert Live(q) == multiset(q.ready);
    forall t | t in Live(q) ensures Live(q)[t] <= 1 {
      DistinctOnce(q.ready, t);
    }
  }

  lemma {:induction false} DistinctOnce<T>(s: seq<T>, x: T)
    requires Distinct(s)
    ensures multiset(s)[x] <= 1
  {
    if s != [] {
      var n := |s| - 1;
      assert s == s[..n] + [s[n]];
      DistinctOnce(s[..n], x);
      if s[n] == x {
        assert x !in s[..n];
      }
    }
  }

  // ----- turns

  /** The thread that takes the next turn. */
  ghost function Runner<T>(s: System<T>): T
    requires Running(s)
  {
    s.queues.ready[s.queues.current]
  }

  /** How many turns thread t takes in the states ss. */
  ghost function Turns<T>(ss: seq<System<T>>, t: T): nat
    requires forall i :: 0 <= i < |ss| ==> Running(ss[i])
  {
    if ss == [] then 0
    else
      var n := |ss| - 1;
      Turns(ss[..n], t) + if Runner(ss[n]) == t then 1 else 0
  }

  /** The turns of thread t, as its output shows them: max_subarray takes two for each number. */
  ghost function TurnsShown<T>(s: System<T>, t: T): nat
    requires t in s.histories
  {
    var k := |s.histories[t].out|;
    if s.histories[t].func.MaxSubarray? then
      2 * k + if t in s.frames && s.frames[t].point.AfterRead? then 1 else 0
    else k
  }

  lemma TurnShows<T>(s: System<T>, reader: T, c: Chance, t: T)
    requires Inv(s, reader) && Valid(s.queues, reader) && t in s.histories
    ensures Running(s)
    ensures TurnsShown(Next(s, c), t) == TurnsShown(s, t) + if Runner(s) == t then 1 else 0
  {
    hide Reenter, Live, PrintsRightly, PrintedAll;
    RunningIsLive(s.queues);
    assert ThreadFits(s, reader, s.queues.ready[s.queues.current]);
  }

  lemma {:induction false} TurnsAreShown<T>(ss: seq<System<T>>, cs: seq<Chance>, reader: T, t: T)
    requires Schedule(ss, cs, reader) && t in ss[0].frames
    ensures t in ss[|cs|].histories && Turns(ss[..|cs|], t) == TurnsShown(ss[|cs|], t)
  {
    hide Next, Fresh;
    ScheduleInv(ss, cs, reader);
    var n := |cs|;
    if n == 0 {
      FreshShowsNone(ss[0], reader, t);
      assert ss[..0] == [];
    } else {
      TurnsAreShown(ss[..n], cs[..n - 1], reader, t);
      assert ss[..n][..n - 1] == ss[..n - 1];
      ScheduleInv(ss[..n], cs[..n - 1], reader);
      assert Running(ss[n - 1]);
      TurnShows(ss[n - 1], reader, cs[n - 1], t);
    }
  }

  lemma FreshShowsNone<T>(s: System<T>, reader: T, t: T)
    requires Fresh(s, reader) && t in s.frames
    ensures t in s.histories && TurnsShown(s, t) == 0
  {
  }

  /** The turns after which fibonacci(arg) or max_subarray(arg) exits. */
  function Needs(f: Frame): int
  {
    if f.func.MaxSubarray? then 2 * f.arg else f.arg
  }

  /** Whatever the schedule, the signals and the readiness of the fifo: each thread prints a
      beginning of the right numbers, it has exited exactly when it has printed them all, and the
      scheduler has returned exactly when every thread has exited. */
  lemma OutputsDoNotDependOnSchedule<T>(ss: seq<System<T>>, cs: seq<Chance>, reader: T, t: T)
    requires Schedule(ss, cs, reader) && t in ss[0].frames
    ensures t in ss[|cs|].histories
    ensures var h, f := ss[|cs|].histories[t], ss[0].frames[t];
            && h.func == f.func && h.arg == f.arg
            && PrintsRightly(h)
            && (t !in ss[|cs|].frames <==> PrintedAll(h))
    ensures Finished(ss[|cs|].queues) <==> ss[|cs|].frames == map[]
  {
    ScheduleInv(ss, cs, reader);
    var s := ss[|cs|];
    assert ThreadFits(s, reader, t);
    if Finished(s.queues) {
      assert forall u :: u in s.frames <==> u in Live(s.queues);
    } else {
      var running := s.queues.ready[s.queues.current];
      assert running in Live(s.queues);
      assert running in s.frames;
    }
  }

  /** On every schedule a fibonacci or max_subarray thread exits exactly at its turn number arg, or
      2 * arg, and never if arg is not positive. */
  lemma ExitsAtItsTurn<T>(ss: seq<System<T>>, cs: seq<Chance>, reader: T, t: T)
    requires Schedule(ss, cs, reader) && t in ss[0].frames && !ss[0].frames[t].func.Collatz?
    ensures var f, turns := ss[0].frames[t], Turns(ss[..|cs|], t);
            && (t !in ss[|cs|].frames <==> f.arg >= 1 && turns == Needs(f))
            && (f.arg >= 1 ==> turns <= Needs(f))
  {
    OutputsDoNotDependOnSchedule(ss, cs, reader, t);
    TurnsAreShown(ss, cs, reader, t);
    ScheduleInv(ss, cs, reader);
    assert ThreadFits(ss[|cs|], reader, t);
    hide Schedule, PrintsRightly;
  }

  /** The turns of all threads in ts, and those that they need. */
  ghost function TotalTurns<T>(ss: seq<System<T>>, ts: seq<T>): nat
    requires forall i :: 0 <= i < |ss| ==> Running(ss[i])
  {
    if ts == [] then 0 else TotalTurns(ss, ts[1..]) + Turns(ss, ts[0])
  }

  ghost function TotalNeeds<T>(frames: map<T, Frame>, ts: seq<T>): int
    requires forall t :: t in ts ==> t in frames
  {
    if ts == [] then 0
    else
      var t := ts[0];
      TotalNeeds(frames, ts[1..]) + Needs(frames[t])
  }

  lemma {:induction false} NoTurns<T>(ts: seq<T>)
    ensures TotalTurns([], ts) == 0
  {
    if ts != [] {
      NoTurns(ts[1..]);
    }
  }

  /** A turn is the turn of one thread. */
  lemma {:induction false} OneMoreTurn<T>(ss: seq<System<T>>, s: System<T>, ts: seq<T>)
    requires (forall i :: 0 <= i < |ss| ==> Running(ss[i])) && Running(s) && Distinct(ts)
    ensures forall i :: 0 <= i < |ss + [s]| ==> Running((ss + [s])[i])
    ensures TotalTurns(ss + [s], ts) == TotalTurns(ss, ts) + if Runner(s) in ts then 1 else 0
  {
    hide Running;
    assert (ss + [s])[..|ss|] == ss;
    if ts != [] {
      OneMoreTurn(ss, s, ts[1..]);
      assert ts == [ts[0]] + ts[1..];
      assert Turns(ss + [s], ts[0]) == Turns(ss, ts[0]) + if Runner(s) == ts[0] then 1 else 0;
      assert ts[0] !in ts[1..];
    }
  }

  /** Every turn is one of the threads that were created. */
  lemma {:induction false} TurnsAddUp<T>(ss: seq<System<T>>, cs: seq<Chance>, reader: T)
    requires Schedule(ss, cs, reader)
    ensures TotalTurns(ss[..|cs|], ss[0].queues.ready) == |cs|
  {
    hide Next;
    var n, ts := |cs|, ss[0].queues.ready;
    if n == 0 {
      assert ss[..0] == [];
      NoTurns(ts);
    } else {
      TurnsAddUp(ss[..n], cs[..n - 1], reader);
      assert ss[..n][..n - 1] == ss[..n - 1] && ss[..n] == ss[..n - 1] + [ss[n - 1]];
      ScheduleInv(ss[..n], cs[..n - 1], reader);
      assert Running(ss[n - 1]);
      assert Runner(ss[n - 1]) in ss[0].histories;
      assert Runner(ss[n - 1]) in ts;
      OneMoreTurn(ss[..n - 1], ss[n - 1], ts);
    }
  }

  lemma {:induction false} AllInTime<T>(ss: seq<System<T>>, frames: map<T, Frame>, ts: seq<T>)
    requires forall i :: 0 <= i < |ss| ==> Running(ss[i])
    requires forall t :: t in ts ==> t in frames && Turns(ss, t) <= Needs(frames[t])
    ensures TotalTurns(ss, ts) <= TotalNeeds(frames, ts)
    ensures TotalTurns(ss, ts) == TotalNeeds(frames, ts) <==> forall t :: t in ts ==> Turns(ss, t) == Needs(frames[t])
  {
    hide Turns, Needs;
    if ts != [] {
      assert ts == [ts[0]] + ts[1..];
      AllInTime(ss, frames, ts[1..]);
    }
  }

  /** Without collatz threads and with positive arguments every schedule ends: it has at most as many
      turns as the threads need together, a schedule that has not returned can go on, and it has
      returned exactly when it has that many. */
  lemma ScheduleEnds<T>(ss: seq<System<T>>, cs: seq<Chance>, reader: T)
    requires Schedule(ss, cs, reader)
    requires forall t :: t in ss[0].frames ==> !ss[0].frames[t].func.Collatz? && ss[0].frames[t].arg >= 1
    ensures forall t :: t in ss[0].queues.ready ==> t in ss[0].frames
    ensures |cs| <= TotalNeeds(ss[0].frames, ss[0].queues.ready)
    ensures Finished(ss[|cs|].queues) <==> |cs| == TotalNeeds(ss[0].frames, ss[0].queues.ready)
    ensures !Finished(ss[|cs|].queues) ==> Running(ss[|cs|])
  {
    hide Schedule, Fresh, Turns, Needs, TotalNeeds, TotalTurns, Running, Finished;
    StartIsFresh(ss, cs, reader);
    var ts, s := ss[0].queues.ready, ss[|cs|];
    forall t | t in ts
      ensures Turns(ss[..|cs|], t) <= Needs(ss[0].frames[t])
      ensures t !in s.frames <==> Turns(ss[..|cs|], t) == Needs(ss[0].frames[t])
    {
      ExitsAtItsTurn(ss, cs, reader, t);
    }
    TurnsAddUp(ss, cs, reader);
    AllInTime(ss[..|cs|], ss[0].frames, ts);
    OutputsDoNotDependOnSchedule(ss, cs, reader, ts[0]);
    NoOtherThreads(ss, cs, reader);
    if forall t :: t in ts ==> t !in s.frames {
      assert forall t :: t !in s.frames;
      assert s.frames == map[];
    }
  }

  lemma StartIsFresh<T>(ss: seq<System<T>>, cs: seq<Chance>, reader: T)
    requires Schedule(ss, cs, reader)
    ensures |ss| == |cs| + 1 && ss[0].queues.ready != [] && forall i :: 0 <= i < |cs| ==> Running(ss[i])
    ensures forall t :: t in ss[0].queues.ready <==> t in ss[0].frames
  {
  }

  lemma NoOtherThreads<T>(ss: seq<System<T>>, cs: seq<Chance>, reader: T)
    requires Schedule(ss, cs, reader)
    ensures forall t :: t in ss[|cs|].frames ==> t in ss[0].queues.ready
    ensures Finished(ss[|cs|].queues) || Running(ss[|cs|])
  {
    ScheduleInv(ss, cs, reader);
    var s := ss[|cs|];
    if !Finished(s.queues) {
      var running := s.queues.ready[s.queues.current];
      assert running in Live(s.queues);
      assert running in s.frames;
    }
  }

  /** init_threads: number and function of each thread in the order of creation; a negative argument
      creates none. */
  function Wanted(args: seq<int>): (r: seq<int>)
    requires |args| == 3
    ensures Distinct(r) && forall t :: t in r <==> 0 <= t < 3 && args[t] >= 0
  {
    (if args[0] >= 0 then [0] else []) + (if args[1] >= 0 then [1] else []) + (if args[2] >= 0 then [2] else [])
  }

  function FunctionOf(t: int): Function
  {
    if t == 0 then Fibonacci else if t == 1 then Collatz else MaxSubarray
  }

  ghost function InitThreads(args: seq<int>): System<int>
    requires |args| == 3
  {
    System(Queues(Wanted(args), 0, []),
           map t | t in Wanted(args) :: Created(FunctionOf(t), args[t]),
           map t | t in Wanted(args) :: History(FunctionOf(t), args[t], [], []))
  }

  /** What init_threads sets up is a start from which the results above follow, with the third
      thread as the reader, exactly when some argument is not negative: otherwise the scheduler
      would jump to a thread that was never created. */
  lemma InitThreadsIsFresh(args: seq<int>)
    requires |args| == 3
    ensures Fresh(InitThreads(args), 2) <==> args[0] >= 0 || args[1] >= 0 || args[2] >= 0
  {
    hide Wanted;
    var wanted := Wanted(args);
    assert (0 in wanted <==> args[0] >= 0) && (1 in wanted <==> args[1] >= 0) && (2 in wanted <==> args[2] >= 0);
    var s := InitThreads(args);
    assert s.histories.Keys == s.frames.Keys;
    if wanted != [] {
      assert wanted[0] in wanted;
      assert s.queues.ready == wanted && Distinct(wanted);
      assert forall t :: t in s.frames <==> t in s.queues.ready;
      assert forall t :: t in s.frames ==> s.frames[t] == Created(s.histories[t].func, s.histories[t].arg);
    } else {
      assert forall t :: t !in wanted;
    }
  }

  /** The first argument is that of fibonacci, the second that of collatz and the third that of max_subarray;
      those that are not negative are queued in this order. */
  lemma InitThreadsInOrder(args: seq<int>)
    requires |args| == 3
    ensures var s := InitThreads(args);
            && (forall i, j :: 0 <= i < j < |s.queues.ready| ==> s.queues.ready[i] < s.queues.ready[j])
            && (forall t :: t in s.queues.ready <==> t in s.frames)
            && (0 in s.frames <==> args[0] >= 0) && (1 in s.frames <==> args[1] >= 0)
            && (2 in s.frames <==> args[2] >= 0)
            && (forall t :: t in s.frames ==> 0 <= t < 3 && s.frames[t].arg == args[t] && s.frames[t].point == Start)
            && (0 in s.frames ==> s.frames[0].func == Fibonacci)
            && (1 in s.frames ==> s.frames[1].func == Collatz)
            && (2 in s.frames ==> s.frames[2].func == MaxSubarray)
  {
    var w := Wanted(args);
    assert forall i :: 0 <= i < |w| ==> w[i] in w;
    assert forall t :: t in w <==> 0 <= t < 3 && args[t] >= 0;
  }
}
