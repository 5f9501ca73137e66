/** The ready and the waiting queue of the thread library and what one entry into the scheduler does
    to them, over whole runs in which one thread reads from its fifo. */
module SchedulerQueues {

  /** How a thread enters the scheduler: thread_yield, async_read or thread_exit. */
  datatype Code = Yield | Read | Exit

  /** The thread at ready[current] runs. */
  datatype Queues<T> = Queues(ready: seq<T>, current: nat, waiting: seq<T>)

  ghost predicate Distinct<T>(s: seq<T>)
  {
    forall i, j :: 0 <= i < j < |s| ==> s[i] != s[j]
  }

  /** The last element fills the hole at k. */
  function SwapOut<T>(s: seq<T>, k: nat): (r: seq<T>)
    requires k < |s|
    ensures |r| == |s| - 1
  {
    s[k := s[|s| - 1]][..|s| - 1]
  }

  /** Some thread runs, no thread is in a queue twice, and only the reader waits. */
  ghost predicate Valid<T>(q: Queues<T>, reader: T)
  {
    && q.current < |q.ready|
    && Distinct(q.ready)
    && (q.waiting == [] || (q.waiting == [reader] && reader !in q.ready))
  }

  /** A waiting thread whose fifo can be read goes to the end of the ready queue. */
  function WakeUp<T>(q: Queues<T>, readable: bool): Queues<T>
  {
    if readable then Queues(q.ready + q.waiting, q.current, []) else q
  }

  /** The queues once the running thread has left the ready queue. */
  function Left<T>(w: Queues<T>, code: Code): Queues<T>
    requires w.current < |w.ready|
  {
    Queues(SwapOut(w.ready, w.current), w.current,
           if code.Read? then w.waiting + [w.ready[w.current]] else w.waiting)
  }

  /** The index wraps at the end of the ready queue. */
  function Wrapped<T>(q: Queues<T>): Queues<T>
  {
    if q.current == |q.ready| then q.(current := 0) else q
  }

  /** An empty ready queue waits for the reader. */
  function Awaited<T>(q: Queues<T>): Queues<T>
  {
    if q.ready == [] && |q.waiting| == 1 then Queues(q.waiting, 0, []) else q
  }

  /** The queues once the next thread has been chosen. */
  function Turned<T>(w: Queues<T>, code: Code): Queues<T>
    requires w.current < |w.ready|
  {
    if code.Yield? then w.(current := (w.current + 1) % |w.ready|) else Wrapped(Left(w, code))
  }

  /** One entry into the scheduler by the running thread. */
  function Reenter<T>(q: Queues<T>, code: Code, readable: bool): Queues<T>
    requires q.current < |q.ready|
  {
    Awaited(Turned(WakeUp(q, readable), code))
  }

  /** Only the reader may ask to read. */
  ghost predicate Allowed<T>(q: Queues<T>, reader: T, code: Code)
  {
    q.current < |q.ready| && (code.Read? ==> q.ready[q.current] == reader)
  }

  ghost predicate Finished<T>(q: Queues<T>)
  {
    q.ready == [] && q.waiting == []
  }

  /** The threads that have been created and have not exited. */
  ghost function Live<T>(q: Queues<T>): multiset<T>
  {
    multiset(q.ready) + multiset(q.waiting)
  }

  // ----- one entry

  lemma SwapOutElements<T>(s: seq<T>, k: nat)
    requires k < |s|
    ensures multiset(SwapOut(s, k)) == multiset(s) - multiset{s[k]}
  {
    var n := |s| - 1;
    assert s == s[..n] + [s[n]];
    if k < n {
      assert SwapOut(s, k) == s[..k] + [s[n]] + s[k + 1..n];
      assert s[..n] == s[..k] + [s[k]] + s[k + 1..n];
    } else {
      assert SwapOut(s, k) == s[..n];
    }
  }

  lemma SwapOutDistinct<T>(s: seq<T>, k: nat)
    requires k < |s| && Distinct(s)
    ensures Distinct(SwapOut(s, k)) && s[k] !in SwapOut(s, k)
  {
  }

  lemma WakeUpValid<T>(q: Queues<T>, reader: T, readable: bool)
    requires Valid(q, reader)
    ensures var w := WakeUp(q, readable);
            Valid(w, reader) && Live(w) == Live(q) && w.current == q.current && w.ready[w.current] == q.ready[q.current]
  {
  }

  /** The thread at the hole leaves the ready queue, to wait or for good. */
  lemma LeaveValid<T>(w: Queues<T>, reader: T, waiting: seq<T>)
    requires Valid(w, reader)
    requires waiting == w.waiting || (waiting == [reader] && w.ready[w.current] == reader)
    ensures var q' := Awaited(Wrapped(Queues(SwapOut(w.ready, w.current), w.current, waiting)));
            && (Valid(q', reader) || Finished(q'))
            && Live(q') == multiset(w.ready) - multiset{w.ready[w.current]} + multiset(waiting)
  {
    hide SwapOut;
    SwapOutElements(w.ready, w.current);
    SwapOutDistinct(w.ready, w.current);
    var r := SwapOut(w.ready, w.current);
    if reader in r {
      assert reader in multiset(r);
      assert reader in w.ready;
    }
    if r == [] && |waiting| == 1 {
      assert waiting == [reader];
    }
  }

  /** An entry keeps the queues valid, unless the last thread has exited; exactly the running thread
      leaves, and only when it exits. */
  lemma ReenterValid<T>(q: Queues<T>, reader: T, code: Code, readable: bool)
    requires Valid(q, reader) && Allowed(q, reader, code)
    ensures var q' := Reenter(q, code, readable);
            && (Valid(q', reader) || Finished(q'))
            && Live(q') == (if code.Exit? then Live(q) - multiset{q.ready[q.current]} else Live(q))
  {
    hide SwapOut, Wrapped, Awaited, Live;
    WakeUpValid(q, reader, readable);
    var w := WakeUp(q, readable);
    if code.Read? {
      assert w.waiting == [] && w.waiting + [w.ready[w.current]] == [reader];
      assert Turned(w, code) == Wrapped(Queues(SwapOut(w.ready, w.current), w.current, [reader]));
      LeaveValid(w, reader, [reader]);
      LiveAfterRead(w, reader);
    } else if code.Exit? {
      assert Turned(w, code) == Wrapped(Queues(SwapOut(w.ready, w.current), w.current, w.waiting));
      LeaveValid(w, reader, w.waiting);
      LiveAfterExit(w);
    } else {
      NobodyAwaited(w.(current := (w.current + 1) % |w.ready|));
      LiveAfterYield(w, (w.current + 1) % |w.ready|);
    }
  }

  lemma NobodyAwaited<T>(q: Queues<T>)
    requires q.ready != []
    ensures Awaited(q) == q
  {
  }

  lemma LiveAfterRead<T>(w: Queues<T>, reader: T)
    requires w.current < |w.ready| && w.ready[w.current] == reader && w.waiting == []
    ensures multiset(w.ready) - multiset{reader} + multiset([reader]) == Live(w)
  {
    assert reader in multiset(w.ready);
  }

  lemma LiveAfterExit<T>(w: Queues<T>)
    requires w.current < |w.ready|
    ensures multiset(w.ready) - multiset{w.ready[w.current]} + multiset(w.waiting)
         == Live(w) - multiset{w.ready[w.current]}
  {
    assert w.ready[w.current] in multiset(w.ready);
  }

  lemma LiveAfterYield<T>(w: Queues<T>, current: nat)
    ensures Live(w.(current := current)) == Live(w)
  {
  }

  /** The scheduler returns exactly when the last live thread exits. */
  lemma ReturnsWhenAllExited<T>(q: Queues<T>, reader: T, code: Code, readable: bool)
    requires Valid(q, reader) && Allowed(q, reader, code)
    ensures Finished(Reenter(q, code, readable)) <==> code.Exit? && |Live(q)| == 1
  {
    var q' := Reenter(q, code, readable);
    ReenterValid(q, reader, code, readable);
    assert q.ready[q.current] in Live(q);
    assert |Live(q')| == |q'.ready| + |q'.waiting|;
  }

  lemma NextIndex(c: nat, n: nat)
    requires c < n
    ensures (c + 1) % n == if c + 1 == n then 0 else c + 1
  {
  }

  /** A reader that waits and can read is woken, whatever else is ready: it goes to the end of the ready queue,
      and after a yield the next thread runs, after an exit the reader itself in the place that is left. */
  lemma ReaderWakes<T>(q: Queues<T>, reader: T, code: Code)
    requires Valid(q, reader) && Allowed(q, reader, code) && q.waiting == [reader]
    ensures Reenter(q, code, true) == match code
                                      case Yield => Queues(q.ready + [reader], q.current + 1, [])
                                      case Exit => Queues(q.ready[q.current := reader], q.current, [])
                                      case Read => q
    ensures reader in Reenter(q, code, true).ready && Reenter(q, code, true).waiting == []
  {
    var c, r := q.current, q.ready + [reader];
    assert WakeUp(q, true) == Queues(r, c, []);
    if code.Yield? {
      NextIndex(c, |r|);
    } else {
      assert q.ready[c] in q.ready;
      assert SwapOut(r, c) == q.ready[c := reader];
      assert q.ready[c := reader][c] == reader;
    }
  }

  /** A yield with nobody to wake leaves both queues alone, and the next thread in the circle runs. */
  lemma YieldTurns<T>(q: Queues<T>, reader: T, readable: bool)
    requires Valid(q, reader) && (q.waiting == [] || !readable)
    ensures Reenter(q, Yield, readable)
         == Queues(q.ready, if q.current + 1 < |q.ready| then q.current + 1 else 0, q.waiting)
  {
    assert q.ready + [] == q.ready;
    NextIndex(q.current, |q.ready|);
  }

  /** A thread that leaves with nobody to wake: the last thread of the ready queue moves to its place and
      runs next; if it was the last one itself, the first one runs; and if it was the only one, the scheduler
      waits for the reader, if there is one.  Otherwise the waiting queue is kept, up to the thread that has
      asked to read. */
  lemma LeavingMovesLast<T>(q: Queues<T>, reader: T, code: Code, readable: bool)
    requires Valid(q, reader) && Allowed(q, reader, code) && (q.waiting == [] || !readable) && !code.Yield?
    ensures var n, c, waiting := |q.ready|, q.current, if code.Read? then [reader] else q.waiting;
            Reenter(q, code, readable) ==
            if c + 1 < n then Queues(q.ready[..c] + [q.ready[n - 1]] + q.ready[c + 1..n - 1], c, waiting)
            else if n > 1 then Queues(q.ready[..c], 0, waiting)
            else Queues(waiting, 0, [])
  {
    var n, c, waiting := |q.ready|, q.current, if code.Read? then [reader] else q.waiting;
    assert q.ready + [] == q.ready;
    assert Left(q, code).waiting == waiting;
    if c + 1 < n {
      assert SwapOut(q.ready, c) == q.ready[..c] + [q.ready[n - 1]] + q.ready[c + 1..n - 1];
    } else {
      assert SwapOut(q.ready, c) == q.ready[..c];
    }
  }

  // ----- whole runs

  /** qs[i + 1] is what entry i leaves of qs[i]. */
  ghost predicate Run<T>(qs: seq<Queues<T>>, codes: seq<Code>, readable: seq<bool>, reader: T)
  {
    && |qs| == |codes| + 1 == |readable| + 1
    && Valid(qs[0], reader)
    && forall i :: 0 <= i < |codes| ==>
         Allowed(qs[i], reader, codes[i]) && qs[i + 1] == Reenter(qs[i], codes[i], readable[i])
  }

  /** The threads that the entries so far have ended. */
  ghost function Exited<T>(qs: seq<Queues<T>>, codes: seq<Code>): multiset<T>
    requires |codes| <= |qs|
    requires forall i :: 0 <= i < |codes| ==> qs[i].current < |qs[i].ready|
  {
    if codes == [] then multiset{}
    else
      var n := |codes| - 1;
      var before := Exited(qs[..n], codes[..n]);
      if codes[n].Exit? then before + multiset{qs[n].ready[qs[n].current]} else before
  }

  /** In every state of a run, up to the return of the scheduler, a thread runs, no thread is queued
      twice, only the reader waits, and the threads in the queues are those created less those
      that have exited; so the arrays never hold more threads than were created. */
  lemma {:induction false} RunValid<T>(qs: seq<Queues<T>>, codes: seq<Code>, readable: seq<bool>, reader: T)
    requires Run(qs, codes, readable, reader)
    ensures Valid(qs[|codes|], reader) || Finished(qs[|codes|])
    ensures Exited(qs[..|codes|], codes) <= Live(qs[0])
    ensures Live(qs[|codes|]) == Live(qs[0]) - Exited(qs[..|codes|], codes)
    ensures |qs[|codes|].ready| + |qs[|codes|].waiting| <= |Live(qs[0])|
  {
    hide Reenter, Valid, Live;
    var n := |codes|;
    if n == 0 {
      assert Exited(qs[..0], codes) == multiset{};
    } else {
      var m := n - 1;
      assert qs[..n][..m] == qs[..m];
      RunValid(qs[..n], codes[..m], readable[..m], reader);
      assert Allowed(qs[m], reader, codes[m]);
      ReenterValid(qs[m], reader, codes[m], readable[m]);
      RunningIsLive(qs[m]);
    }
    LiveSize(qs[0], qs[n], Exited(qs[..n], codes));
  }

  lemma RunningIsLive<T>(q: Queues<T>)
    requires q.current < |q.ready|
    ensures q.ready[q.current] in Live(q)
  {
  }

  lemma LiveSize<T>(q: Queues<T>, q': Queues<T>, gone: multiset<T>)
    requires gone <= Live(q) && Live(q') == Live(q) - gone
    ensures |q'.ready| + |q'.waiting| <= |Live(q)|
  {
    assert |Live(q')| == |q'.ready| + |q'.waiting|;
    assert |Live(q)| == |Live(q') + gone| by { assert Live(q) == Live(q') + gone; }
  }

  // ----- bounded waiting

  ghost function IndexOf<T>(s: seq<T>, x: T): (i: nat)
    requires x in s
    ensures i < |s| && s[i] == x
  {
    var i :| 0 <= i < |s| && s[i] == x;
    i
  }

  lemma IndexIs<T>(s: seq<T>, x: T, i: nat)
    requires Distinct(s) && i < |s| && s[i] == x
    ensures x in s && IndexOf(s, x) == i
  {
  }

  /** How far index p is ahead of index c in a circle of n. */
  function Ahead(n: nat, c: nat, p: nat): int
  {
    if p >= c then p - c else p + n - c
  }

  /** The threads that are to run before t, if all of them yield. */
  ghost function Distance<T>(q: Queues<T>, t: T): int
    requires t in q.ready
  {
    Ahead(|q.ready|, q.current, IndexOf(q.ready, t))
  }

  /** Whether the reader may still come between: it is queued before t, or it waits and would be
      queued before t. */
  ghost function Intrusion<T>(q: Queues<T>, reader: T, t: T): nat
    requires t in q.ready
  {
    if reader in q.ready then
      if reader != t && Distance(q, reader) < Distance(q, t) then 1 else 0
    else if q.waiting != [] && IndexOf(q.ready, t) < q.current then 2
    else 0
  }

  /** A bound on the entries before t runs. */
  ghost function Delay<T>(q: Queues<T>, reader: T, t: T): int
    requires t in q.ready
  {
    3 * Distance(q, t) + 2 * (|q.ready| + |q.waiting|) + Intrusion(q, reader, t)
  }

  /** The next thread in the circle runs, with or without the reader at its end. */
  lemma TurnShortens<T>(q: Queues<T>, reader: T, q': Queues<T>, t: T)
    requires Valid(q, reader) && Valid(q', reader) && t in q.ready && q.ready[q.current] != t
    requires (q'.ready == q.ready && q'.waiting == q.waiting) ||
             (q'.ready == q.ready + [reader] && q.waiting == [reader] && q'.waiting == [])
    requires q'.current == if q.current + 1 == |q'.ready| then 0 else q.current + 1
    ensures t in q'.ready && Delay(q', reader, t) < Delay(q, reader, t)
  {
    var p := IndexOf(q.ready, t);
    assert q'.ready[p] == t;
    IndexIs(q'.ready, t, p);
    if reader in q.ready {
      IndexIs(q'.ready, reader, IndexOf(q.ready, reader));
    } else if q'.ready != q.ready {
      assert q'.ready[|q.ready|] == reader;
      IndexIs(q'.ready, reader, |q.ready|);
    }
  }

  lemma YieldShortens<T>(q: Queues<T>, reader: T, readable: bool, t: T)
    requires Valid(q, reader) && t in q.ready && q.ready[q.current] != t
    ensures var q' := Reenter(q, Yield, readable);
            t in q'.ready && Delay(q', reader, t) < Delay(q, reader, t)
  {
    hide Delay;
    WakeUpValid(q, reader, readable);
    NextIndex(q.current, |WakeUp(q, readable).ready|);
    if q.waiting == [] {
      assert q.ready + q.waiting == q.ready;
    }
    TurnShortens(q, reader, Reenter(q, Yield, readable), t);
  }

  /** The thread at the hole leaves and nobody wakes up. */
  lemma LeaveShortens<T>(q: Queues<T>, reader: T, waiting: seq<T>, t: T)
    requires Valid(q, reader) && t in q.ready && q.ready[q.current] != t
    requires waiting == q.waiting || (waiting == [reader] && q.ready[q.current] == reader)
    ensures var q' := Awaited(Wrapped(Queues(SwapOut(q.ready, q.current), q.current, waiting)));
            t in q'.ready && Delay(q', reader, t) < Delay(q, reader, t)
  {
    var p, n, c := IndexOf(q.ready, t), |q.ready|, q.current;
    var s := SwapOut(q.ready, c);
    var q' := Awaited(Wrapped(Queues(s, c, waiting)));
    SwapOutDistinct(q.ready, c);
    var p' := if p == n - 1 then c else p;
    assert s[p'] == t;
    IndexIs(s, t, p');
    assert q'.ready == s && q'.current == (if c == n - 1 then 0 else c) && q'.waiting == waiting;
    if reader in q.ready && q.ready[c] != reader {
      var r := IndexOf(q.ready, reader);
      var r' := if r == n - 1 then c else r;
      assert s[r'] == reader;
      IndexIs(s, reader, r');
    } else if q.ready[c] == reader {
      IndexIs(q.ready, reader, c);
    } else {
      SwapOutSubset(q.ready, c, reader);
    }
  }

  lemma SwapOutSubset<T>(s: seq<T>, k: nat, x: T)
    requires k < |s| && x !in s
    ensures x !in SwapOut(s, k)
  {
  }

  /** The running thread exits while the reader wakes up and so fills the hole. */
  lemma ExitAndWakeShortens<T>(q: Queues<T>, reader: T, t: T)
    requires Valid(q, reader) && q.waiting == [reader] && t in q.ready && q.ready[q.current] != t
    ensures var q' := Reenter(q, Exit, true);
            t in q'.ready && Delay(q', reader, t) < Delay(q, reader, t)
  {
    var q' := Reenter(q, Exit, true);
    var p, c := IndexOf(q.ready, t), q.current;
    assert q'.ready == q.ready[c := reader];
    IndexIs(q'.ready, t, p);
    IndexIs(q'.ready, reader, c);
  }

  /** Every entry by another thread brings a ready thread nearer to running: it stays ready, and its
      bound goes down. */
  lemma EntryShortens<T>(q: Queues<T>, reader: T, code: Code, readable: bool, t: T)
    requires Valid(q, reader) && Allowed(q, reader, code) && t in q.ready && q.ready[q.current] != t
    ensures var q' := Reenter(q, code, readable);
            t in q'.ready && Delay(q', reader, t) < Delay(q, reader, t)
  {
    match code
    case Yield => YieldShortens(q, reader, readable, t);
    case Read =>
      assert q.waiting == [] && WakeUp(q, readable) == q;
      assert q.waiting + [reader] == [reader];
      LeaveShortens(q, reader, [reader], t);
    case Exit =>
      if readable && q.waiting != [] {
        ExitAndWakeShortens(q, reader, t);
      } else {
        assert WakeUp(q, readable) == q;
        LeaveShortens(q, reader, q.waiting, t);
      }
  }

  lemma DelayBounded<T>(q: Queues<T>, reader: T, t: T)
    requires Valid(q, reader) && t in q.ready
    ensures 0 <= Delay(q, reader, t) < 5 * (|q.ready| + |q.waiting|)
    ensures q.ready[q.current] != t ==> Delay(q, reader, t) > 2
  {
    if q.ready[q.current] != t {
      assert Distance(q, t) > 0;
    }
  }

  /** Bounded waiting: while a ready thread has not run, the entries number less than five times
      the live threads, whatever the others do and whenever the reader is woken. */
  lemma {:induction false} BoundedWaiting<T>(qs: seq<Queues<T>>, codes: seq<Code>, readable: seq<bool>, reader: T, t: T)
    requires Run(qs, codes, readable, reader) && t in qs[0].ready
    requires forall i :: 0 <= i < |codes| ==> qs[i].ready[qs[i].current] != t
    ensures |codes| < 5 * |Live(qs[0])|
    ensures t in qs[|codes|].ready && Valid(qs[|codes|], reader)
  {
    WaitShortens(qs, codes, readable, reader, t);
    DelayBounded(qs[0], reader, t);
    DelayBounded(qs[|codes|], reader, t);
    assert |Live(qs[0])| == |qs[0].ready| + |qs[0].waiting|;
  }

  lemma {:induction false} WaitShortens<T>(qs: seq<Queues<T>>, codes: seq<Code>, readable: seq<bool>, reader: T, t: T)
    requires Run(qs, codes, readable, reader) && t in qs[0].ready
    requires forall i :: 0 <= i < |codes| ==> qs[i].ready[qs[i].current] != t
    ensures t in qs[|codes|].ready && Valid(qs[|codes|], reader)
    ensures Delay(qs[|codes|], reader, t) + |codes| <= Delay(qs[0], reader, t)
  {
    hide Reenter, Delay, Valid;
    if codes != [] {
      var m := |codes| - 1;
      WaitShortens(qs[..m + 1], codes[..m], readable[..m], reader, t);
      assert Allowed(qs[m], reader, codes[m]) && qs[m].ready[qs[m].current] != t;
      EntryShortens(qs[m], reader, codes[m], readable[m], t);
      ReenterValid(qs[m], reader, codes[m], readable[m]);
    }
  }

  /** A reader that waits with something to read is ready after the next entry, and runs within five entries
      for each live thread. */
  lemma ReaderWaitsBounded<T>(qs: seq<Queues<T>>, codes: seq<Code>, readable: seq<bool>, reader: T)
    requires Run(qs, codes, readable, reader) && qs[0].waiting == [reader] && codes != [] && readable[0]
    requires forall i :: 0 <= i < |codes| ==> qs[i].ready[qs[i].current] != reader
    ensures reader in qs[1].ready && reader in qs[|codes|].ready
    ensures |codes| <= 5 * |Live(qs[0])|
  {
    hide Reenter, Valid, Live;
    assert Allowed(qs[0], reader, codes[0]);
    ReaderWakes(qs[0], reader, codes[0]);
    ReenterValid(qs[0], reader, codes[0], true);
    RunningIsLive(qs[0]);
    assert qs[1] == Reenter(qs[0], codes[0], true) && qs[1].ready != [];
    assert Run(qs[1..], codes[1..], readable[1..], reader);
    BoundedWaiting(qs[1..], codes[1..], readable[1..], reader, reader);
  }
}
