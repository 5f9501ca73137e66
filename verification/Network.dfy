/** The processes of the championship and their channels, any process moving at any time: each edge
    carries one message at most, and no order of the moves changes the outcome. */
module Network {
  import opened Battle
  import opened Bracket

  /** The two pipes between a child and its parent, and the fifo of an agent. */
  datatype Chan = Up(child: Node) | Down(child: Node) | Fifo(agent: int)

  /** Where a process stands, with the variables it will still read.  The first five are those of a
      player, the others those of a battle. */
  datatype Local =
    | AwaitFifo
    | Sending(st: Status, orig: int)
    | Receiving(orig: int)
    | HandingOver(st: Status)
    | Gone(st: Status)
    | Reading0
    | Reading1(st0: Status)
    | Writing0(st0: Status, st1: Status, winner: Side)
    | Writing1(st0: Status, st1: Status, winner: Side)
    | AwaitLoser(winner: Side, id: nat)
    | ReadChild(winner: Side)
    | WriteParent(winner: Side, st: Status)
    | ReadParent(winner: Side)
    | WriteChild(winner: Side, st: Status)
    | AwaitLast
    | Finished
    | AwaitFinal(id: nat)
    | Crowned(id: nat)

  /** The next system call: a read, a write, a wait until n children have exited, or none. */
  datatype Act = Recv(c: Chan) | Put(c: Chan, m: Status) | Wait(n: nat) | Halt

  function PlayerAct(j: nat, l: Local): Act
  {
    match l
    case AwaitFifo => Recv(Fifo(j))
    case Sending(st, _) => Put(Up(P(j)), st)
    case Receiving(_) => Recv(Down(P(j)))
    case HandingOver(st) => Put(Fifo(FifoOf(st.cur)), st)
    case _ => Halt
  }

  function PlayerNext(j: nat, l: Local, m: Status): Local
  {
    match l
    case AwaitFifo => Sending(m, m.hp)
    case Sending(_, orig) => Receiving(orig)
    case Receiving(orig) => Answer(j, m, orig)
    case HandingOver(st) => Gone(st)
    case _ => l
  }

  /** A player sends a round's status back, heals after a victory, hands over after a defeat outside of
      battle A if it is real, and exits otherwise. */
  function Answer(j: nat, m: Status, orig: int): Local
  {
    if !m.ended then Sending(m, orig)
    else if m.hp <= 0 then
      if m.cur != 0 && j <= 7 then HandingOver(m.(hp := orig, ended := false)) else Gone(m)
    else if m.cur == 0 then Gone(m)
    else Sending(Heal(m, orig), orig)
  }

  /** The same on the record in memory, between the read and the next write or exit. */
  method AnswerIn(ptr: Record, player: nat, orig: int) returns (next: Local)
    modifies ptr`hp, ptr`ended
    ensures next == Answer(player, old(ptr.View()), orig)
    ensures next.Sending? || next.Gone? || next.HandingOver?
    ensures ptr.View() == next.st
  {
    if !ptr.ended {
      return Sending(ptr.View(), orig);
    }
    if ptr.hp > 0 {
      if ptr.cur == 0 {
        return Gone(ptr.View());
      }
      ptr.ended := false;
      ptr.hp := Half(orig - ptr.hp) + ptr.hp;
      return Sending(ptr.View(), orig);
    }
    if ptr.cur != 0 && player <= 7 {
      ptr.hp := orig;
      ptr.ended := false;
      return HandingOver(ptr.View());
    }
    return Gone(ptr.View());
  }

  function BattleAct(b: nat, l: Local): Act
  {
    match l
    case Reading0 => Recv(Up(Child(b, Left)))
    case Reading1(_) => Recv(Up(Child(b, Right)))
    case Writing0(st0, _, _) => Put(Down(Child(b, Left)), st0)
    case Writing1(_, st1, _) => Put(Down(Child(b, Right)), st1)
    case AwaitLoser(_, _) => Wait(1)
    case ReadChild(winner) => Recv(Up(Child(b, winner)))
    case WriteParent(_, st) => Put(Up(B(b)), st)
    case ReadParent(_) => Recv(Down(B(b)))
    case WriteChild(winner, st) => Put(Down(Child(b, winner)), st)
    case AwaitLast => Wait(2)
    case AwaitFinal(_) => Wait(2)
    case _ => Halt
  }

  /** The status after which a battle stops passing messages. */
  predicate Last(st: Status)
  {
    st.hp <= 0 || (st.cur == 0 && st.ended)
  }

  function BattleNext(b: nat, l: Local, m: Status): Local
  {
    match l
    case Reading0 => Reading1(m)
    case Reading1(st0) =>
      // No player sends an ended status; the loop would then be skipped, with no attacker set.
      if st0.ended then AwaitLoser(Left, st0.id)
      else
        var o := PlayRound(st0, m, b);
        Writing0(o.p0, o.p1, o.attacker)
    case Writing0(st0, st1, winner) => Writing1(st0, st1, winner)
    case Writing1(st0, st1, winner) =>
      if st0.ended then AwaitLoser(winner, if winner.Left? then st0.id else st1.id) else Reading0
    case AwaitLoser(winner, id) => if b == 0 then AwaitFinal(id) else ReadChild(winner)
    case ReadChild(winner) => WriteParent(winner, m)
    case WriteParent(winner, _) => ReadParent(winner)
    case ReadParent(winner) => WriteChild(winner, m)
    case WriteChild(winner, st) => if Last(st) then AwaitLast else ReadChild(winner)
    case AwaitLast => Finished
    case AwaitFinal(id) => Crowned(id)
    case _ => l
  }

  function ActOf(x: Node, l: Local): Act
  {
    match x
    case P(j) => PlayerAct(j, l)
    case B(b) => if b < 14 then BattleAct(b, l) else Halt
  }

  function NextOf(x: Node, l: Local, m: Status): Local
  {
    match x
    case P(j) => PlayerNext(j, l, m)
    case B(b) => BattleNext(b, l, m)
  }

  // ----- global steps

  datatype State = State(local: map<Node, Local>, chan: map<Chan, seq<Status>>)

  function At(s: State, x: Node): Local
  {
    if x in s.local then s.local[x] else Finished
  }

  function In(chan: map<Chan, seq<Status>>, c: Chan): seq<Status>
  {
    if c in chan then chan[c] else []
  }

  function Queue(s: State, c: Chan): seq<Status>
  {
    In(s.chan, c)
  }

  predicate Exited(l: Local)
  {
    l.Gone? || l.Finished? || l.Crowned?
  }

  function ExitedChildren(s: State, x: Node): nat
  {
    match x
    case P(_) => 0
    case B(b) => (if Exited(At(s, Child(b, Left))) then 1 else 0) + (if Exited(At(s, Child(b, Right))) then 1 else 0)
  }

  /** Process x can make its next call without blocking. */
  predicate Enabled(s: State, x: Node)
  {
    match ActOf(x, At(s, x))
    case Recv(c) => Queue(s, c) != []
    case Put(_, _) => true
    case Wait(n) => ExitedChildren(s, x) >= n
    case Halt => false
  }

  const BLANK := Status(0, 0, 0, 0, 0, false)

  /** The message a call returns, and the channels after it. */
  function Received(chan: map<Chan, seq<Status>>, act: Act): Status
  {
    if act.Recv? && In(chan, act.c) != [] then In(chan, act.c)[0] else BLANK
  }

  function Passed(chan: map<Chan, seq<Status>>, act: Act): map<Chan, seq<Status>>
  {
    match act
    case Recv(c) => if In(chan, c) == [] then chan else chan[c := In(chan, c)[1..]]
    case Put(c, m) => chan[c := In(chan, c) + [m]]
    case _ => chan
  }

  function Step(s: State, x: Node): State
  {
    var act := ActOf(x, At(s, x));
    State(s.local[x := NextOf(x, At(s, x), Received(s.chan, act))], Passed(s.chan, act))
  }

  /** The moves of the processes in w lead from s to t. */
  ghost predicate Runs(s: State, w: seq<Node>, t: State)
    decreases |w|
  {
    if w == [] then s == t else Enabled(s, w[0]) && Runs(Step(s, w[0]), w[1..], t)
  }

  // ----- one reader and one writer

  lemma ReaderIs(x: Node, l: Local, c: Chan)
    requires ActOf(x, l) == Recv(c)
    ensures match c
            case Up(n) => x.B? && x.b == Parent(n)
            case Down(n) => x == n
            case Fifo(a) => x.P? && x.j == a
  {
    match x
    case P(_) =>
    case B(b) =>
      hide Child, Parent;
      ParentOfChild(b, Left);
      ParentOfChild(b, Right);
  }

  lemma WriterIs(x: Node, l: Local, c: Chan, m: Status)
    requires ActOf(x, l) == Put(c, m)
    ensures match c
            case Up(n) => x == n
            case Down(n) => x.B? && x.b == Parent(n)
            case Fifo(a) => l.HandingOver? && x.P?
  {
    match x
    case P(_) =>
    case B(b) =>
      hide Child, Parent;
      ParentOfChild(b, Left);
      ParentOfChild(b, Right);
  }

  // ----- steps commute

  /** Process x is about to write to the fifo of a. */
  predicate Pending(s: State, x: Node, a: int)
  {
    var act := ActOf(x, At(s, x));
    act.Put? && act.c == Fifo(a)
  }

  /** Two processes at the fifo of the same agent. */
  ghost predicate Clash(s: State, x: Node, y: Node)
  {
    exists a :: Pending(s, x, a) && Pending(s, y, a)
  }

  lemma ExitedStays(s: State, x: Node, y: Node)
    requires Enabled(s, y)
    ensures ExitedChildren(Step(s, y), x) >= ExitedChildren(s, x)
  {
    hide Child;
    assert !Exited(At(s, y));
  }

  /** Moves of two processes are on different channels, or at the two ends of one. */
  lemma Apart(s: State, x: Node, y: Node)
    requires x != y && Enabled(s, x) && Enabled(s, y) && !Clash(s, x, y)
    ensures var a, b := ActOf(x, At(s, x)), ActOf(y, At(s, y));
            && (a.Recv? && b.Recv? ==> a.c != b.c)
            && (a.Put? && b.Put? ==> a.c != b.c)
  {
    hide ActOf;
    var a, b := ActOf(x, At(s, x)), ActOf(y, At(s, y));
    if a.Recv? && b.Recv? {
      ReaderIs(x, At(s, x), a.c);
      ReaderIs(y, At(s, y), b.c);
    } else if a.Put? && b.Put? {
      WriterIs(x, At(s, x), a.c, a.m);
      WriterIs(y, At(s, y), b.c, b.m);
      if a.c.Fifo? {
        var k := a.c.agent;
        assert Pending(s, x, k);
        assert b.c == Fifo(k) ==> Pending(s, y, k);
      }
    }
  }

  lemma StaysEnabled(s: State, x: Node, y: Node)
    requires x != y && Enabled(s, x) && Enabled(s, y) && !Clash(s, x, y)
    ensures Enabled(Step(s, x), y)
  {
    Apart(s, x, y);
    ExitedStays(s, y, x);
    hide ActOf, NextOf, ExitedChildren, Clash;
  }

  lemma CallsCommute(chan: map<Chan, seq<Status>>, a: Act, b: Act)
    requires (a.Recv? ==> In(chan, a.c) != []) && (b.Recv? ==> In(chan, b.c) != [])
    requires (a.Recv? && b.Recv? ==> a.c != b.c) && (a.Put? && b.Put? ==> a.c != b.c)
    ensures Received(Passed(chan, a), b) == Received(chan, b)
    ensures Passed(Passed(chan, a), b) == Passed(Passed(chan, b), a)
  {
    if a.Recv? && b.Put? && a.c == b.c {
      assert (In(chan, a.c) + [b.m])[1..] == In(chan, a.c)[1..] + [b.m];
    } else if b.Recv? && a.Put? && a.c == b.c {
      assert (In(chan, a.c) + [a.m])[1..] == In(chan, a.c)[1..] + [a.m];
    }
  }

  /** Either of two processes that can move may move first. */
  lemma Diamond(s: State, x: Node, y: Node)
    requires x != y && Enabled(s, x) && Enabled(s, y) && !Clash(s, x, y)
    ensures Enabled(Step(s, x), y) && Enabled(Step(s, y), x)
    ensures Step(Step(s, x), y) == Step(Step(s, y), x)
  {
    hide ActOf, NextOf, ExitedChildren, Clash, Passed, Received;
    assert !Clash(s, y, x) by { ClashSymmetric(s, x, y); }
    StaysEnabled(s, x, y);
    StaysEnabled(s, y, x);
    Apart(s, x, y);
    var a, b := ActOf(x, At(s, x)), ActOf(y, At(s, y));
    CallsCommute(s.chan, a, b);
    CallsCommute(s.chan, b, a);
    var u, v := Step(Step(s, x), y), Step(Step(s, y), x);
    assert u.local == v.local;
  }

  lemma ClashSymmetric(s: State, x: Node, y: Node)
    requires !Clash(s, x, y)
    ensures !Clash(s, y, x)
  {
    forall a ensures !(Pending(s, y, a) && Pending(s, x, a)) {
    }
  }

  // ----- no two processes meet at a fifo

  /** The agent has not read its fifo yet. */
  predicate Awaiting(s: State, a: int)
  {
    a >= 0 && At(s, P(a)).AwaitFifo?
  }

  /** More than one status is on its way to agent a, or has been read by it. */
  ghost predicate Crowded(s: State, a: int)
  {
    || (exists x, y :: x != y && Pending(s, x, a) && Pending(s, y, a))
    || ((exists x :: Pending(s, x, a)) && (Queue(s, Fifo(a)) != [] || !Awaiting(s, a)))
    || |Queue(s, Fifo(a))| >= 2
    || (Queue(s, Fifo(a)) != [] && !Awaiting(s, a))
  }

  /** Once crowded, a fifo stays so. */
  lemma CrowdedStays(s: State, x: Node, a: int)
    requires Crowded(s, a) && Enabled(s, x)
    ensures Crowded(Step(s, x), a)
  {
    var act := ActOf(x, At(s, x));
    var s' := Step(s, x);
    AwaitingStays(s, x, a);
    forall y | y != x && Pending(s, y, a) ensures Pending(s', y, a) {
    }
    match act
    case Recv(c) => ReaderIs(x, At(s, x), c);
    case Put(c, m) => WriterIs(x, At(s, x), c, m);
    case Wait(_) =>
  }

  lemma AwaitingStays(s: State, x: Node, a: int)
    requires Enabled(s, x)
    ensures !Awaiting(s, a) ==> !Awaiting(Step(s, x), a)
  {
  }

  /** Everything has exited and every message has been read. */
  ghost predicate AllOver(s: State)
  {
    && (forall x :: Exited(At(s, x)))
    && (forall c :: Queue(s, c) == [])
  }

  lemma OverIsFinal(s: State)
    requires AllOver(s)
    ensures forall x :: !Enabled(s, x)
    ensures forall a :: !Crowded(s, a)
  {
    forall x ensures !Enabled(s, x) && forall a :: !Pending(s, x, a) {
      assert Exited(At(s, x));
    }
  }

  /** On the way to a state where all is over, no two processes meet at a fifo. */
  lemma {:induction false} NeverCrowded(s: State, w: seq<Node>, f: State, a: int)
    requires Runs(s, w, f) && AllOver(f)
    ensures !Crowded(s, a)
    decreases |w|
  {
    hide Crowded, Step, Enabled, AllOver;
    if w == [] {
      OverIsFinal(f);
    } else {
      NeverCrowded(Step(s, w[0]), w[1..], f, a);
      if Crowded(s, a) {
        CrowdedStays(s, w[0], a);
      }
    }
  }

  lemma ClashCrowds(s: State, x: Node, y: Node)
    requires x != y && Clash(s, x, y)
    ensures exists a :: Crowded(s, a)
  {
    var a :| Pending(s, x, a) && Pending(s, y, a);
    assert Crowded(s, a);
  }

  // ----- points

  /** No more points than the player started with. */
  ghost predicate Fits(stats: map<int, Status>, st: Status)
  {
    st.id in stats && st.hp <= stats[st.id].hp
  }

  /** A player on its way to a battle. */
  ghost predicate Live(stats: map<int, Status>, st: Status)
  {
    Fits(stats, st) && st.hp >= 1 && !st.ended
  }

  /** A player on its way to its agent. */
  ghost predicate Full(stats: map<int, Status>, st: Status)
  {
    Live(stats, st) && st.hp == stats[st.id].hp
  }

  /** The points of every status that a process holds are in bounds, and a player that is about to send
      one remembers the points it started with. */
  ghost predicate Sound(stats: map<int, Status>, l: Local)
  {
    match l
    case Sending(st, orig) => Live(stats, st) && orig == stats[st.id].hp
    case HandingOver(st) => Full(stats, st)
    case Gone(st) => Fits(stats, st)
    case Reading1(st0) => Live(stats, st0)
    case Writing0(st0, st1, _) => Fits(stats, st0) && Fits(stats, st1)
    case Writing1(st0, st1, _) => Fits(stats, st0) && Fits(stats, st1)
    case WriteParent(_, st) => Live(stats, st)
    case WriteChild(_, st) => Fits(stats, st)
    case _ => true
  }

  ghost predicate Carries(stats: map<int, Status>, c: Chan, m: Status)
  {
    match c
    case Up(_) => Live(stats, m)
    case Down(_) => Fits(stats, m)
    case Fifo(_) => Full(stats, m)
  }

  /** Every process is sound, and so is every message. */
  ghost predicate AllSound(stats: map<int, Status>, s: State)
  {
    && (forall x :: Sound(stats, At(s, x)))
    && (forall c, m :: m in Queue(s, c) ==> Carries(stats, c, m))
  }

  lemma SoundPut(stats: map<int, Status>, x: Node, l: Local, c: Chan, m: Status)
    requires Sound(stats, l) && ActOf(x, l) == Put(c, m)
    ensures Carries(stats, c, m)
  {
    hide Fits, Live, Full;
    FullIsLive(stats, m);
    hide Child, FifoOf;
  }

  lemma FullIsLive(stats: map<int, Status>, m: Status)
    ensures (Full(stats, m) ==> Live(stats, m)) && (Live(stats, m) ==> Fits(stats, m))
  {
  }

  /** If a move leaves its process sound, it leaves everything sound. */
  lemma SoundStep(stats: map<int, Status>, s: State, x: Node)
    requires AllSound(stats, s) && Enabled(s, x) && Sound(stats, At(Step(s, x), x))
    ensures AllSound(stats, Step(s, x))
  {
    hide Sound, Carries, NextOf;
    var act, t := ActOf(x, At(s, x)), Step(s, x);
    forall y ensures Sound(stats, At(t, y)) {
      assert Sound(stats, At(s, y));
    }
    if act.Put? {
      SoundPut(stats, x, At(s, x), act.c, act.m);
    }
    hide ActOf;
    forall c, m | m in Queue(t, c) ensures Carries(stats, c, m) {
      assert m in Queue(s, c) || act == Put(c, m);
    }
  }

  /** Everything is sound all along a run. */
  ghost predicate SoundRun(stats: map<int, Status>, s: State, w: seq<Node>)
    decreases |w|
  {
    AllSound(stats, s) && (w != [] ==> Enabled(s, w[0]) && SoundRun(stats, Step(s, w[0]), w[1..]))
  }

  // ----- every run

  /** If q is sound after x and q have moved, it is sound after q alone has. */
  lemma SoundFirst(stats: map<int, Status>, s: State, x: Node, q: Node)
    requires x != q && Enabled(s, x) && Enabled(s, q) && Step(Step(s, x), q) == Step(Step(s, q), x)
    requires AllSound(stats, s) && AllSound(stats, Step(Step(s, x), q)) && Enabled(Step(s, q), x)
    ensures AllSound(stats, Step(s, q))
  {
    hide Sound, Carries;
    assert At(Step(Step(s, q), x), q) == At(Step(s, q), q);
    SoundStep(stats, s, q);
  }

  /** A process that can move may move first, and the run gets no longer. */
  lemma {:induction false} Overtake(s: State, w: seq<Node>, f: State, q: Node) returns (w': seq<Node>)
    requires Runs(s, w, f) && AllOver(f) && Enabled(s, q)
    ensures |w'| + 1 == |w| && Runs(Step(s, q), w', f)
    ensures forall stats :: SoundRun(stats, s, w) ==> SoundRun(stats, Step(s, q), w')
    decreases |w|
  {
    hide Step, Enabled, AllOver, Clash, AllSound;
    if w == [] {
      OverIsFinal(f);
      assert false;
    } else if w[0] == q {
      w' := w[1..];
    } else {
      var s1 := Step(s, w[0]);
      if Clash(s, w[0], q) {
        ClashCrowds(s, w[0], q);
        var a :| Crowded(s, a);
        NeverCrowded(s, w, f, a);
      }
      Diamond(s, w[0], q);
      var u := Overtake(s1, w[1..], f, q);
      w' := [w[0]] + u;
      assert w'[1..] == u;
      forall stats | SoundRun(stats, s, w) ensures SoundRun(stats, Step(s, q), w') {
        assert SoundRun(stats, s1, w[1..]) && SoundRun(stats, Step(s1, q), u);
        SoundFirst(stats, s, w[0], q);
      }
    }
  }

  /** If one run ends with all over, every run can be continued to that same end, and none is longer:
      so no run gets stuck before it and none goes on after it. */
  lemma {:induction false} EveryRun(s: State, w: seq<Node>, f: State, v: seq<Node>, t: State) returns (u: seq<Node>)
    requires Runs(s, w, f) && AllOver(f) && Runs(s, v, t)
    ensures |v| + |u| == |w| && Runs(t, u, f)
    ensures forall stats :: SoundRun(stats, s, w) ==> SoundRun(stats, t, u)
    decreases |v|
  {
    hide Step, Enabled, AllOver, AllSound, SoundRun;
    if v == [] {
      u := w;
    } else {
      var w' := Overtake(s, w, f, v[0]);
      u := EveryRun(Step(s, v[0]), w', f, v[1..], t);
    }
  }

  // ----- one message in flight

  /** The child is to write to its parent before it reads from it again. */
  predicate ChildTurn(l: Local)
  {
    !l.Receiving? && !l.ReadParent?
  }

  /** The battle is to write to its child on this side before it reads from it again. */
  predicate ParentTurn(l: Local, side: Side)
  {
    match l
    case Reading1(_) => side.Left?
    case Writing0(_, _, _) => true
    case Writing1(_, _, _) => side.Right?
    case WriteParent(winner, _) => winner == side
    case ReadParent(winner) => winner == side
    case WriteChild(winner, _) => winner == side
    case _ => false
  }

  /** The messages on an edge, and the turns of its two ends. */
  function Tokens(s: State, b: nat, side: Side): nat
  {
    var c := Child(b, side);
    |Queue(s, Up(c))| + |Queue(s, Down(c))|
    + (if ChildTurn(At(s, c)) then 1 else 0)
    + (if ParentTurn(At(s, B(b)), side) then 1 else 0)
  }

  /** No move adds to the tokens of an edge. */
  lemma TokensStay(s: State, x: Node, b: nat, side: Side)
    requires Enabled(s, x) && b < 14
    ensures Tokens(Step(s, x), b, side) <= Tokens(s, b, side)
  {
    hide Child, Parent;
    var c := Child(b, side);
    ParentOfChild(b, side);
    var act := ActOf(x, At(s, x));
    match act
    case Recv(d) => ReaderIs(x, At(s, x), d);
    case Put(d, m) => WriterIs(x, At(s, x), d, m);
    case Wait(_) =>
  }

  lemma {:induction false} TokensStayInRun(s: State, v: seq<Node>, t: State, b: nat, side: Side)
    requires Runs(s, v, t) && b < 14
    ensures Tokens(t, b, side) <= Tokens(s, b, side)
    decreases |v|
  {
    hide Step, Enabled, Tokens;
    if v != [] {
      TokensStay(s, v[0], b, side);
      TokensStayInRun(Step(s, v[0]), v[1..], t, b, side);
    }
  }

  // ----- the start

  /** All processes before their first call; the real players have read their status. */
  function StartOf(n: Node, stats: map<int, Status>): Local
  {
    match n
    case B(_) => Reading0
    case P(j) => if j < 8 && j in stats then Sending(stats[j], stats[j].hp) else AwaitFifo
  }

  function Processes(): (r: set<Node>)
  {
    (set b: nat | b < 14 :: B(b)) + (set j: nat | j < 15 :: P(j))
  }

  function Init(stats: map<int, Status>): State
  {
    State(map n | n in Processes() :: StartOf(n, stats), map[])
  }

  /** In every state that the championship can reach, the two pipes between a battle and each of its
      children hold one message at most, together. */
  lemma OneInFlight(stats: map<int, Status>, v: seq<Node>, t: State, b: nat, side: Side)
    requires Runs(Init(stats), v, t) && b < 14
    ensures |Queue(t, Up(Child(b, side)))| + |Queue(t, Down(Child(b, side)))| <= 1
  {
    hide Child;
    TokensStayInRun(Init(stats), v, t, b, side);
    hide Runs;
    ChildIsProcess(b, side);
    var c := Child(b, side);
    assert B(b) in Processes();
    assert ChildTurn(At(Init(stats), c));
  }

  lemma ChildIsProcess(b: nat, side: Side)
    requires b < 14
    ensures Child(b, side) in Processes()
  {
    hide Processes;
    var c := Child(b, side);
    assert match c case B(d) => d < 14 case P(j) => j < 15;
    ProcessesAre(c);
  }

  lemma ProcessesAre(n: Node)
    ensures n in Processes() <==> match n case B(b) => b < 14 case P(j) => j < 15
  {
  }
}
