/** One run of the championship, built along the bracket; with the results on the network, it decides
    every run. */
module Championship {
  import opened Battle
  import opened Bracket
  import opened Network
  import opened Elimination

  // ----- reachability

  /** Some run leads from s to t, and everything is sound all along it. */
  ghost predicate Reaches(stats: map<int, Status>, s: State, t: State)
  {
    exists w :: Runs(s, w, t) && SoundRun(stats, s, w)
  }

  lemma {:induction false} RunsConcat(stats: map<int, Status>, s: State, v: seq<Node>, t: State, w: seq<Node>, u: State)
    requires Runs(s, v, t) && Runs(t, w, u) && SoundRun(stats, s, v) && SoundRun(stats, t, w)
    ensures Runs(s, v + w, u) && SoundRun(stats, s, v + w)
    decreases |v|
  {
    hide Step, Enabled, AllSound;
    if v == [] {
      assert v + w == w;
    } else {
      RunsConcat(stats, Step(s, v[0]), v[1..], t, w, u);
      assert (v + w)[1..] == v[1..] + w;
    }
  }

  lemma Then(stats: map<int, Status>, s: State, t: State, u: State)
    requires Reaches(stats, s, t) && Reaches(stats, t, u)
    ensures Reaches(stats, s, u)
  {
    hide Runs, SoundRun;
    var v :| Runs(s, v, t) && SoundRun(stats, s, v);
    var w :| Runs(t, w, u) && SoundRun(stats, t, w);
    RunsConcat(stats, s, v, t, w, u);
  }

  /** Only process x and channel c differ. */
  ghost predicate Only(s: State, t: State, x: Node, c: Chan)
  {
    && (forall n :: n != x ==> At(t, n) == At(s, n))
    && (forall d :: d != c ==> Queue(t, d) == Queue(s, d))
  }

  lemma OneStep(stats: map<int, Status>, s: State, x: Node)
    requires Enabled(s, x) && AllSound(stats, s) && Sound(stats, At(Step(s, x), x))
    ensures Reaches(stats, s, Step(s, x)) && AllSound(stats, Step(s, x))
  {
    SoundStep(stats, s, x);
    hide Step, Enabled, AllSound;
    var t := Step(s, x);
    assert Runs(t, [], t) && SoundRun(stats, t, []);
    assert [x][1..] == [];
    assert Runs(s, [x], t) && SoundRun(stats, s, [x]);
  }

  /** Process x writes. */
  lemma Write(stats: map<int, Status>, s: State, x: Node, c: Chan, m: Status) returns (t: State)
    requires AllSound(stats, s) && Sound(stats, NextOf(x, At(s, x), BLANK))
    requires ActOf(x, At(s, x)) == Put(c, m)
    ensures Reaches(stats, s, t) && AllSound(stats, t) && Only(s, t, x, c)
    ensures At(t, x) == NextOf(x, At(s, x), BLANK) && Queue(t, c) == Queue(s, c) + [m]
  {
    hide ActOf, NextOf, AllSound, Sound;
    OneStep(stats, s, x);
    t := Step(s, x);
  }

  /** Process x reads. */
  lemma Read(stats: map<int, Status>, s: State, x: Node, c: Chan, m: Status) returns (t: State)
    requires AllSound(stats, s) && Sound(stats, NextOf(x, At(s, x), m))
    requires ActOf(x, At(s, x)) == Recv(c) && Queue(s, c) == [m]
    ensures Reaches(stats, s, t) && AllSound(stats, t) && Only(s, t, x, c)
    ensures At(t, x) == NextOf(x, At(s, x), m) && Queue(t, c) == []
  {
    hide ActOf, NextOf, AllSound, Sound;
    OneStep(stats, s, x);
    t := Step(s, x);
  }

  /** Process x reads from c and then writes to d, and nothing else happens. */
  ghost predicate OnlyTwo(s: State, t: State, x: Node, c: Chan, d: Chan)
  {
    && (forall n :: n != x ==> At(t, n) == At(s, n))
    && (forall e :: e != c && e != d ==> Queue(t, e) == Queue(s, e))
  }

  lemma Relay(stats: map<int, Status>, s: State, x: Node, c: Chan, m: Status, between: Local, d: Chan, m': Status)
    returns (t: State)
    requires AllSound(stats, s) && c != d && Sound(stats, between) && Sound(stats, NextOf(x, between, BLANK))
    requires ActOf(x, At(s, x)) == Recv(c) && Queue(s, c) == [m] && NextOf(x, At(s, x), m) == between
    requires ActOf(x, between) == Put(d, m')
    ensures Reaches(stats, s, t) && AllSound(stats, t) && OnlyTwo(s, t, x, c, d)
    ensures At(t, x) == NextOf(x, between, BLANK) && Queue(t, c) == [] && Queue(t, d) == Queue(s, d) + [m']
  {
    hide At, Queue, ActOf, NextOf, AllSound, Sound, Reaches;
    var s1 := Read(stats, s, x, c, m);
    t := Write(stats, s1, x, d, m');
    Then(stats, s, s1, t);
  }

  /** Process x has waited for its children. */
  lemma Waited(stats: map<int, Status>, s: State, x: Node, n: nat) returns (t: State)
    requires AllSound(stats, s) && Sound(stats, NextOf(x, At(s, x), BLANK))
    requires ActOf(x, At(s, x)) == Wait(n) && ExitedChildren(s, x) >= n
    ensures Reaches(stats, s, t) && AllSound(stats, t)
    ensures At(t, x) == NextOf(x, At(s, x), BLANK)
    ensures (forall y :: y != x ==> At(t, y) == At(s, y)) && (forall d :: Queue(t, d) == Queue(s, d))
  {
    hide ActOf, NextOf, ExitedChildren, AllSound, Sound;
    OneStep(stats, s, x);
    t := Step(s, x);
  }

  // ----- parts of the bracket

  function Part(t: Tree, side: Side): Tree
    requires t.Match?
  {
    if side.Left? then t.left else t.right
  }

  lemma PartOf(t: Tree, w: Side)
    requires t.Match? && Drawn(t)
    ensures var c, o := Part(t, w), Part(t, Other(w));
            && t.b < 14 && Root(c) == Child(t.b, w) && Drawn(c) && Nodes(c) !! Nodes(o)
            && Nodes(c) <= Nodes(t) && Root(t) !in Nodes(c) && Root(t) !in Nodes(o)
            && Root(t) in Nodes(t) && Root(c) in Nodes(c)
  {
  }

  lemma RootIs(t: Tree)
    requires t.Match?
    ensures Root(t) == B(t.b)
  {
  }

  /** Nothing happens outside of the processes in X, but at the fifos. */
  ghost predicate SameOutside(s: State, t: State, X: set<Node>)
  {
    forall n :: n !in X ==>
      At(t, n) == At(s, n) && Queue(t, Up(n)) == Queue(s, Up(n)) && Queue(t, Down(n)) == Queue(s, Down(n))
  }

  ghost predicate SameFifos(s: State, t: State)
  {
    forall a :: Queue(t, Fifo(a)) == Queue(s, Fifo(a))
  }

  /** All processes of the tree have exited, its pipes are empty, and each player still holds the
      status of the one that started there. */
  ghost predicate Over(s: State, t: Tree, start: map<int, Status>)
  {
    forall n :: n in Nodes(t) ==>
      && Exited(At(s, n)) && Queue(s, Up(n)) == [] && Queue(s, Down(n)) == []
      && (n.P? ==> n.j in start && At(s, n).Gone? && At(s, n).st.id == start[n.j].id)
  }

  /** The tree waits for its parent: the player at leaf j, that started with orig points, is left in it,
      the battles above that player pass messages, and the others are over. */
  ghost predicate Idle(s: State, t: Tree, j: nat, orig: int, start: map<int, Status>)
  {
    match t
    case Entry(k) => k == j && At(s, P(k)) == Receiving(orig)
    case Match(b, _, _) =>
      At(s, B(b)).ReadParent? &&
      var w := At(s, B(b)).winner;
      && Idle(s, Part(t, w), j, orig, start)
      && Queue(s, Up(Root(Part(t, w)))) == [] && Queue(s, Down(Root(Part(t, w)))) == []
      && Over(s, Part(t, Other(w)), start)
  }

  /** The two states agree on a tree, its pipes to the parent aside. */
  ghost predicate SameInside(s: State, s': State, t: Tree)
  {
    forall n :: n in Nodes(t) ==>
      && At(s', n) == At(s, n)
      && (n != Root(t) ==> Queue(s', Up(n)) == Queue(s, Up(n)) && Queue(s', Down(n)) == Queue(s, Down(n)))
  }

  lemma OverFrame(s: State, s': State, t: Tree, start: map<int, Status>)
    requires Over(s, t, start)
    requires forall n :: n in Nodes(t) ==>
      At(s', n) == At(s, n) && Queue(s', Up(n)) == Queue(s, Up(n)) && Queue(s', Down(n)) == Queue(s, Down(n))
    ensures Over(s', t, start)
  {
    hide At, Queue, Exited;
  }

  lemma {:induction false} IdleFrame(s: State, s': State, t: Tree, j: nat, orig: int, start: map<int, Status>)
    requires Idle(s, t, j, orig, start) && Drawn(t) && SameInside(s, s', t)
    ensures Idle(s', t, j, orig, start)
  {
    hide At, Queue, Child, Over;
    match t
    case Entry(_) =>
    case Match(b, _, _) =>
      var w := At(s, B(b)).winner;
      IdleFrame(s, s', Part(t, w), j, orig, start);
      OverFrame(s, s', Part(t, Other(w)), start);
  }

  // ----- a tree answers its parent

  /** What comes back from the player that is left in a tree. */
  function Reply(st: Status, orig: int): Status
  {
    if st.ended then Heal(st, orig) else st
  }

  lemma ReplyLive(stats: map<int, Status>, st: Status, orig: int)
    requires !Last(st) && Fits(stats, st) && orig == stats[st.id].hp
    ensures Live(stats, Reply(st, orig))
  {
  }

  lemma PlayerReplies(stats: map<int, Status>, s: State, k: nat, orig: int, st: Status) returns (s': State)
    requires AllSound(stats, s)
    requires At(s, P(k)) == Receiving(orig) && !Last(st) && Fits(stats, st) && orig == stats[st.id].hp
    requires Queue(s, Down(P(k))) == [st] && Queue(s, Up(P(k))) == []
    ensures Reaches(stats, s, s') && AllSound(stats, s') && SameOutside(s, s', {P(k)}) && SameFifos(s, s')
    ensures At(s', P(k)) == Receiving(orig)
    ensures Queue(s', Down(P(k))) == [] && Queue(s', Up(P(k))) == [Reply(st, orig)]
  {
    hide At, Queue, Reaches, AllSound;
    var s1 := Read(stats, s, P(k), Down(P(k)), st);
    s' := Write(stats, s1, P(k), Up(P(k)), Reply(st, orig));
    Then(stats, s, s1, s');
  }

  /** A battle that passes messages hands the status down to the side on which its winner is left. */
  lemma PassDown(stats: map<int, Status>, s: State, t: Tree, j: nat, orig: int, start: map<int, Status>, st: Status)
    returns (s': State)
    requires AllSound(stats, s)
    requires t.Match? && Drawn(t) && Idle(s, t, j, orig, start) && Fits(stats, st)
    requires Queue(s, Down(Root(t))) == [st] && Queue(s, Up(Root(t))) == []
    ensures Reaches(stats, s, s') && AllSound(stats, s') && SameOutside(s, s', Nodes(t)) && SameFifos(s, s')
    ensures var w := At(s, Root(t)).winner;
            && At(s', Root(t)) == (if Last(st) then AwaitLast else ReadChild(w))
            && Queue(s', Down(Root(t))) == [] && Queue(s', Up(Root(t))) == []
            && Idle(s', Part(t, w), j, orig, start) && Over(s', Part(t, Other(w)), start)
            && Queue(s', Down(Root(Part(t, w)))) == [st] && Queue(s', Up(Root(Part(t, w)))) == []
  {
    hide At, Queue, Reaches, AllSound, Over, Child, Nodes, Drawn, Part, Root, Fits, Last;
    var x := Root(t);
    RootIs(t);
    var w := At(s, x).winner;
    PartOf(t, w);
    var c := Part(t, w);
    s' := Relay(stats, s, x, Down(x), st, WriteChild(w, st), Down(Root(c)), st);
    IdleFrame(s, s', c, j, orig, start);
    OverFrame(s, s', Part(t, Other(w)), start);
  }

  /** The battle passes the answer up. */
  lemma PassUp(stats: map<int, Status>, s: State, t: Tree, w: Side, j: nat, orig: int, start: map<int, Status>,
    st: Status)
    returns (s': State)
    requires AllSound(stats, s)
    requires t.Match? && Drawn(t) && At(s, Root(t)) == ReadChild(w) && Live(stats, st)
    requires Idle(s, Part(t, w), j, orig, start) && Over(s, Part(t, Other(w)), start)
    requires Queue(s, Up(Root(Part(t, w)))) == [st] && Queue(s, Down(Root(Part(t, w)))) == []
    requires Queue(s, Down(Root(t))) == [] && Queue(s, Up(Root(t))) == []
    ensures Reaches(stats, s, s') && AllSound(stats, s') && SameOutside(s, s', Nodes(t)) && SameFifos(s, s')
    ensures Idle(s', t, j, orig, start)
    ensures Queue(s', Down(Root(t))) == [] && Queue(s', Up(Root(t))) == [st]
  {
    hide At, Queue, Reaches, AllSound, Over, Child, Nodes, Drawn, Part;
    var x := Root(t);
    var c := Part(t, w);
    PartOf(t, w);
    s' := Relay(stats, s, x, Up(Root(c)), st, WriteParent(w, st), Up(x), st);
    IdleFrame(s, s', c, j, orig, start);
    OverFrame(s, s', Part(t, Other(w)), start);
  }

  /** A tree that waits answers every status but the last, and waits again. */
  lemma {:induction false} Respond(stats: map<int, Status>, s: State, t: Tree, j: nat, orig: int,
    start: map<int, Status>, st: Status)
    returns (s': State)
    requires AllSound(stats, s)
    requires Drawn(t) && Idle(s, t, j, orig, start) && !Last(st) && Fits(stats, st) && orig == stats[st.id].hp
    requires Queue(s, Down(Root(t))) == [st] && Queue(s, Up(Root(t))) == []
    ensures Reaches(stats, s, s') && AllSound(stats, s') && SameOutside(s, s', Nodes(t)) && SameFifos(s, s')
    ensures Idle(s', t, j, orig, start)
    ensures Queue(s', Down(Root(t))) == [] && Queue(s', Up(Root(t))) == [Reply(st, orig)]
    decreases t
  {
    hide At, Queue, Reaches, AllSound, Over, Child, Last, Reply;
    match t
    case Entry(k) => s' := PlayerReplies(stats, s, k, orig, st);
    case Match(b, left, right) =>
      var w := At(s, B(b)).winner;
      var s1 := PassDown(stats, s, t, j, orig, start, st);
      var s2 := Respond(stats, s1, Part(t, w), j, orig, start, st);
      OverFrame(s1, s2, Part(t, Other(w)), start);
      ReplyLive(stats, st, orig);
      s' := PassUp(stats, s2, t, w, j, orig, start, Reply(st, orig));
      Then(stats, s, s1, s2);
      Then(stats, s, s2, s');
  }

  // ----- a tree exits

  /** What the player at leaf j, that started with orig points, does to the fifos when its last status
      comes down. */
  ghost predicate HandsOver(s: State, s': State, j: nat, orig: int, st: Status)
  {
    forall a :: Queue(s', Fifo(a)) == Queue(s, Fifo(a)) +
      if st.hp <= 0 && st.cur != 0 && j <= 7 && a == FifoOf(st.cur) then [st.(hp := orig, ended := false)] else []
  }

  lemma PlayerRetires(stats: map<int, Status>, s: State, k: nat, orig: int, start: map<int, Status>, st: Status)
    returns (s': State)
    requires AllSound(stats, s)
    requires At(s, P(k)) == Receiving(orig) && Last(st) && st.ended && k in start && st.id == start[k].id
    requires Fits(stats, st) && orig == stats[st.id].hp >= 1
    requires Queue(s, Down(P(k))) == [st] && Queue(s, Up(P(k))) == []
    ensures Reaches(stats, s, s') && AllSound(stats, s') && SameOutside(s, s', {P(k)}) && HandsOver(s, s', k, orig, st)
    ensures Over(s', Entry(k), start)
  {
    hide At, Queue, Reaches, AllSound, FifoOf;
    s' := Read(stats, s, P(k), Down(P(k)), st);
    if st.hp <= 0 && st.cur != 0 && k <= 7 {
      var s1 := s';
      s' := Write(stats, s1, P(k), Fifo(FifoOf(st.cur)), st.(hp := orig, ended := false));
      Then(stats, s, s1, s');
    }
  }

  lemma OverWhole(s: State, t: Tree, start: map<int, Status>)
    requires t.Match? && Over(s, t.left, start) && Over(s, t.right, start) && Exited(At(s, Root(t)))
    requires Queue(s, Down(Root(t))) == [] && Queue(s, Up(Root(t))) == []
    ensures Over(s, t, start)
  {
    hide At, Queue, Exited;
  }

  lemma OverExited(s: State, t: Tree, start: map<int, Status>)
    requires Over(s, t, start)
    ensures Exited(At(s, Root(t)))
  {
    hide At, Queue, Exited;
  }

  lemma ChildrenExited(s: State, b: nat)
    ensures ExitedChildren(s, B(b)) == (if Exited(At(s, Child(b, Left))) then 1 else 0)
                                     + (if Exited(At(s, Child(b, Right))) then 1 else 0)
  {
  }

  /** The battle has waited for both children. */
  lemma BattleRetires(stats: map<int, Status>, s: State, t: Tree, start: map<int, Status>) returns (s': State)
    requires AllSound(stats, s)
    requires t.Match? && Drawn(t) && At(s, Root(t)) == AwaitLast
    requires Over(s, t.left, start) && Over(s, t.right, start)
    requires Queue(s, Down(Root(t))) == [] && Queue(s, Up(Root(t))) == []
    ensures Reaches(stats, s, s') && AllSound(stats, s') && SameOutside(s, s', Nodes(t)) && SameFifos(s, s')
    ensures Over(s', t, start)
  {
    hide At, Queue, Reaches, AllSound, Child, Drawn, Over, Nodes, ExitedChildren;
    PartOf(t, Left);
    PartOf(t, Right);
    OverExited(s, t.left, start);
    OverExited(s, t.right, start);
    ChildrenExited(s, t.b);
    s' := Waited(stats, s, Root(t), 2);
    OverFrame(s, s', t.left, start);
    OverFrame(s, s', t.right, start);
    OverWhole(s', t, start);
  }

  /** A tree that waits exits on the last status of its player. */
  lemma {:induction false} Retire(stats: map<int, Status>, s: State, t: Tree, j: nat, orig: int,
    start: map<int, Status>, st: Status)
    returns (s': State)
    requires AllSound(stats, s)
    requires Drawn(t) && Idle(s, t, j, orig, start) && Last(st) && st.ended && j in start && st.id == start[j].id
    requires Fits(stats, st) && orig == stats[st.id].hp >= 1
    requires Queue(s, Down(Root(t))) == [st] && Queue(s, Up(Root(t))) == []
    ensures Reaches(stats, s, s') && AllSound(stats, s')
    ensures SameOutside(s, s', Nodes(t)) && HandsOver(s, s', j, orig, st)
    ensures Over(s', t, start)
    decreases t
  {
    hide At, Queue, Reaches, AllSound, Over, Child, Last, FifoOf;
    match t
    case Entry(k) => s' := PlayerRetires(stats, s, k, orig, start, st);
    case Match(b, left, right) =>
      var w := At(s, B(b)).winner;
      var s1 := PassDown(stats, s, t, j, orig, start, st);
      var s2 := Retire(stats, s1, Part(t, w), j, orig, start, st);
      OverFrame(s1, s2, Part(t, Other(w)), start);
      s' := BattleRetires(stats, s2, t, start);
      Then(stats, s, s1, s2);
      Then(stats, s, s2, s');
  }

  // ----- a battle

  /** The tree has sent a player up and waits for the answer. */
  ghost predicate Presents(stats: map<int, Status>, s: State, t: Tree, e: Entrant, start: map<int, Status>)
  {
    && Idle(s, t, e.leaf, e.orig, start) && e.leaf in start && e.status.id == start[e.leaf].id
    && Live(stats, e.status) && e.orig == stats[e.status.id].hp
    && Queue(s, Up(Root(t))) == [e.status] && Queue(s, Down(Root(t))) == []
  }

  /** The tree waits and the answer is there. */
  ghost predicate Answered(stats: map<int, Status>, s: State, t: Tree, e: Entrant, start: map<int, Status>, st: Status)
  {
    && Idle(s, t, e.leaf, e.orig, start) && e.leaf in start && st.id == start[e.leaf].id
    && Fits(stats, st) && e.orig == stats[st.id].hp >= 1
    && Queue(s, Up(Root(t))) == [] && Queue(s, Down(Root(t))) == [st]
  }

  lemma AnsweredFrame(stats: map<int, Status>, s: State, s': State, t: Tree, e: Entrant, start: map<int, Status>,
    st: Status)
    requires Answered(stats, s, t, e, start, st) && Drawn(t)
    requires forall n :: n in Nodes(t) ==>
      At(s', n) == At(s, n) && Queue(s', Up(n)) == Queue(s, Up(n)) && Queue(s', Down(n)) == Queue(s, Down(n))
    ensures Answered(stats, s', t, e, start, st)
  {
    hide At, Queue, Drawn;
    IdleFrame(s, s', t, e.leaf, e.orig, start);
  }

  lemma PresentsFrame(stats: map<int, Status>, s: State, s': State, t: Tree, e: Entrant, start: map<int, Status>)
    requires Presents(stats, s, t, e, start) && Drawn(t)
    requires forall n :: n in Nodes(t) ==>
      At(s', n) == At(s, n) && Queue(s', Up(n)) == Queue(s, Up(n)) && Queue(s', Down(n)) == Queue(s, Down(n))
    ensures Presents(stats, s', t, e, start)
  {
    hide At, Queue, Drawn;
    IdleFrame(s, s', t, e.leaf, e.orig, start);
  }

  function Judged(o: Bout): Local
  {
    if o.p0.ended then AwaitLoser(o.attacker, o.At(o.attacker).id) else Reading0
  }

  /** The tree waits, with nothing in the pipes. */
  ghost predicate Waits(s: State, t: Tree, e: Entrant, start: map<int, Status>)
  {
    && Idle(s, t, e.leaf, e.orig, start) && e.leaf in start
    && Queue(s, Up(Root(t))) == [] && Queue(s, Down(Root(t))) == []
  }

  /** The battle reads both players and plays a round. */
  lemma ReadBoth(stats: map<int, Status>, s: State, t: Tree, e0: Entrant, e1: Entrant, start: map<int, Status>)
    returns (s': State)
    requires AllSound(stats, s)
    requires t.Match? && Drawn(t) && At(s, Root(t)) == Reading0
    requires Presents(stats, s, t.left, e0, start) && Presents(stats, s, t.right, e1, start)
    requires Able(e0.status) && Able(e1.status)
    ensures Reaches(stats, s, s') && AllSound(stats, s') && SameOutside(s, s', Nodes(t)) && SameFifos(s, s')
    ensures Queue(s', Up(Root(t))) == Queue(s, Up(Root(t))) && Queue(s', Down(Root(t))) == Queue(s, Down(Root(t)))
    ensures var o := PlayRound(e0.status, e1.status, t.b);
            && At(s', Root(t)) == Writing0(o.p0, o.p1, o.attacker)
            && Waits(s', t.left, e0, start) && Waits(s', t.right, e1, start)
  {
    hide At, Queue, Reaches, AllSound, Child, Nodes, Drawn, PlayRound, Idle;
    PartOf(t, Left);
    PartOf(t, Right);
    var x := Root(t);
    RoundFits(stats, e0.status, e1.status, t.b);
    var s1 := Read(stats, s, x, Up(Root(t.left)), e0.status);
    s' := Read(stats, s1, x, Up(Root(t.right)), e1.status);
    Then(stats, s, s1, s');
    IdleFrame(s, s', t.left, e0.leaf, e0.orig, start);
    IdleFrame(s, s', t.right, e1.leaf, e1.orig, start);
  }

  /** The battle writes the result of the round to both. */
  lemma WriteBoth(stats: map<int, Status>, s: State, t: Tree, o: Bout, e0: Entrant, e1: Entrant,
    start: map<int, Status>)
    returns (s': State)
    requires AllSound(stats, s)
    requires t.Match? && Drawn(t) && At(s, Root(t)) == Writing0(o.p0, o.p1, o.attacker)
    requires Waits(s, t.left, e0, start) && o.p0.id == start[e0.leaf].id
    requires Waits(s, t.right, e1, start) && o.p1.id == start[e1.leaf].id
    requires Fits(stats, o.p0) && e0.orig == stats[o.p0.id].hp >= 1
    requires Fits(stats, o.p1) && e1.orig == stats[o.p1.id].hp >= 1
    ensures Reaches(stats, s, s') && AllSound(stats, s') && SameOutside(s, s', Nodes(t)) && SameFifos(s, s')
    ensures Queue(s', Up(Root(t))) == Queue(s, Up(Root(t))) && Queue(s', Down(Root(t))) == Queue(s, Down(Root(t)))
    ensures At(s', Root(t)) == Judged(o)
    ensures Answered(stats, s', t.left, e0, start, o.p0) && Answered(stats, s', t.right, e1, start, o.p1)
  {
    hide At, Queue, Reaches, AllSound, Child, Nodes, Drawn, PlayRound, Idle;
    PartOf(t, Left);
    PartOf(t, Right);
    var x := Root(t);
    var s1 := Write(stats, s, x, Down(Root(t.left)), o.p0);
    s' := Write(stats, s1, x, Down(Root(t.right)), o.p1);
    Then(stats, s, s1, s');
    IdleFrame(s, s', t.left, e0.leaf, e0.orig, start);
    IdleFrame(s, s', t.right, e1.leaf, e1.orig, start);
  }

  lemma RoundIn(stats: map<int, Status>, s: State, t: Tree, e0: Entrant, e1: Entrant, start: map<int, Status>)
    returns (s': State)
    requires AllSound(stats, s)
    requires t.Match? && Drawn(t) && At(s, Root(t)) == Reading0
    requires Presents(stats, s, t.left, e0, start) && Presents(stats, s, t.right, e1, start)
    requires Able(e0.status) && Able(e1.status)
    ensures Reaches(stats, s, s') && AllSound(stats, s') && SameOutside(s, s', Nodes(t)) && SameFifos(s, s')
    ensures Queue(s', Up(Root(t))) == Queue(s, Up(Root(t))) && Queue(s', Down(Root(t))) == Queue(s, Down(Root(t)))
    ensures var o := PlayRound(e0.status, e1.status, t.b);
            && At(s', Root(t)) == Judged(o)
            && Answered(stats, s', t.left, e0, start, o.p0) && Answered(stats, s', t.right, e1, start, o.p1)
  {
    hide At, Queue, Reaches, AllSound, Nodes, Drawn, PlayRound, Idle;
    RoundKeepsIds(e0.status, e1.status, t.b);
    RoundFits(stats, e0.status, e1.status, t.b);
    var s1 := ReadBoth(stats, s, t, e0, e1, start);
    s' := WriteBoth(stats, s1, t, PlayRound(e0.status, e1.status, t.b), e0, e1, start);
    Then(stats, s, s1, s');
  }

  lemma RoundKeepsIds(p0: Status, p1: Status, b: nat)
    ensures var o := PlayRound(p0, p1, b);
            o.p0.id == p0.id && o.p1.id == p1.id && o.p0.cur == b && o.p1.cur == b
  {
    hide Attr;
  }

  lemma RoundFits(stats: map<int, Status>, p0: Status, p1: Status, b: nat)
    requires Able(p0) && Able(p1) && Fits(stats, p0) && Fits(stats, p1)
    ensures var o := PlayRound(p0, p1, b); Fits(stats, o.p0) && Fits(stats, o.p1)
  {
    hide Attr;
  }

  /** Both players send the status of a round back. */
  lemma BothEcho(stats: map<int, Status>, s: State, t: Tree, e0: Entrant, e1: Entrant, start: map<int, Status>,
    p0: Status, p1: Status)
    returns (s': State)
    requires AllSound(stats, s)
    requires t.Match? && Drawn(t) && Able(p0) && Able(p1)
    requires Answered(stats, s, t.left, e0, start, p0) && Answered(stats, s, t.right, e1, start, p1)
    ensures Reaches(stats, s, s') && AllSound(stats, s') && SameOutside(s, s', Nodes(t)) && SameFifos(s, s')
    ensures At(s', Root(t)) == At(s, Root(t))
    ensures Queue(s', Up(Root(t))) == Queue(s, Up(Root(t))) && Queue(s', Down(Root(t))) == Queue(s, Down(Root(t)))
    ensures Presents(stats, s', t.left, e0.(status := p0), start)
    ensures Presents(stats, s', t.right, e1.(status := p1), start)
  {
    hide At, Queue, Reaches, AllSound, Child, Nodes, Drawn, Idle;
    PartOf(t, Left);
    PartOf(t, Right);
    var s1 := Respond(stats, s, t.left, e0.leaf, e0.orig, start, p0);
    AnsweredFrame(stats, s, s1, t.right, e1, start, p1);
    s' := Respond(stats, s1, t.right, e1.leaf, e1.orig, start, p1);
    PresentsFrame(stats, s1, s', t.left, e0.(status := p0), start);
    Then(stats, s, s1, s');
  }

  /** A battle is fought to its end. */
  lemma {:induction false} FightIn(stats: map<int, Status>, s: State, t: Tree, e0: Entrant, e1: Entrant,
    start: map<int, Status>)
    returns (s': State)
    requires AllSound(stats, s)
    requires t.Match? && Drawn(t) && At(s, Root(t)) == Reading0 && Able(e0.status) && Able(e1.status)
    requires Presents(stats, s, t.left, e0, start) && Presents(stats, s, t.right, e1, start)
    ensures Reaches(stats, s, s') && AllSound(stats, s') && SameOutside(s, s', Nodes(t)) && SameFifos(s, s')
    ensures Queue(s', Up(Root(t))) == Queue(s, Up(Root(t))) && Queue(s', Down(Root(t))) == Queue(s, Down(Root(t)))
    ensures var o := Fight(e0.status, e1.status, t.b);
            && At(s', Root(t)) == AwaitLoser(o.attacker, o.At(o.attacker).id)
            && Answered(stats, s', t.left, e0, start, o.p0) && Answered(stats, s', t.right, e1, start, o.p1)
    decreases e0.status.hp + e1.status.hp
  {
    hide At, Queue, Reaches, AllSound, Child, Nodes, Drawn, PlayRound, Presents;
    var o := PlayRound(e0.status, e1.status, t.b);
    var s1 := RoundIn(stats, s, t, e0, e1, start);
    if o.p0.ended {
      s' := s1;
    } else {
      EarlierRound(e0.status, e1.status, t.b);
      RoundShortens(e0.status, e1.status, t.b);
      var s2 := BothEcho(stats, s1, t, e0, e1, start, o.p0, o.p1);
      s' := FightIn(stats, s2, t, e0.(status := o.p0), e1.(status := o.p1), start);
      Then(stats, s, s1, s2);
      Then(stats, s, s2, s');
    }
  }

  /** The fight is over, and both sides have been told. */
  ghost predicate Fought(stats: map<int, Status>, s: State, t: Tree, e0: Entrant, e1: Entrant, start: map<int, Status>)
  {
    && t.Match? && Able(e0.status) && Able(e1.status)
    && var o := Fight(e0.status, e1.status, t.b);
    && At(s, Root(t)) == AwaitLoser(o.attacker, o.At(o.attacker).id)
    && Answered(stats, s, t.left, e0, start, o.p0) && Answered(stats, s, t.right, e1, start, o.p1)
    && Queue(s, Up(Root(t))) == [] && Queue(s, Down(Root(t))) == []
  }

  lemma FightEnds(p0: Status, p1: Status, b: nat)
    requires Able(p0) && Able(p1)
    ensures var o := Fight(p0, p1, b);
            && o.p0.cur == b && o.p1.cur == b && o.p0.ended && o.p1.ended
            && Last(o.At(Other(o.attacker))) && (Last(o.At(o.attacker)) <==> b == 0)
  {
    FightKeepsPlayers(p0, p1, b);
    hide Fight;
  }

  /** The loser's side exits and the winner's side sends its player up again. */
  lemma SidesReact(stats: map<int, Status>, s: State, t: Tree, e0: Entrant, e1: Entrant, start: map<int, Status>)
    returns (s': State)
    requires AllSound(stats, s)
    requires Drawn(t) && Fought(stats, s, t, e0, e1, start) && t.b != 0
    ensures Reaches(stats, s, s') && AllSound(stats, s')
    ensures SameOutside(s, s', Nodes(t)) && At(s', Root(t)) == At(s, Root(t))
    ensures Queue(s', Up(Root(t))) == [] && Queue(s', Down(Root(t))) == []
    ensures var o, loser := Fight(e0.status, e1.status, t.b), Loser(t.b, e0, e1);
            && HandsOver(s, s', loser.leaf, loser.orig, loser.status)
            && Over(s', Part(t, Other(o.attacker)), start)
            && Presents(stats, s', Part(t, o.attacker), Winner(t.b, e0, e1), start)
  {
    hide At, Queue, Reaches, AllSound, Child, Nodes, Drawn, Idle, Fight, Last, FifoOf, Over;
    PartOf(t, Left);
    PartOf(t, Right);
    FightEnds(e0.status, e1.status, t.b);
    var o := Fight(e0.status, e1.status, t.b);
    var w, loser := o.attacker, Loser(t.b, e0, e1);
    var we := if w.Left? then e0 else e1;
    var s1 := Retire(stats, s, Part(t, Other(w)), loser.leaf, loser.orig, start, loser.status);
    AnsweredFrame(stats, s, s1, Part(t, w), we, start, o.At(w));
    s' := Respond(stats, s1, Part(t, w), we.leaf, we.orig, start, o.At(w));
    OverFrame(s1, s', Part(t, Other(w)), start);
    Then(stats, s, s1, s');
  }

  /** The battle has waited for the loser and passes the winner up. */
  lemma Promotes(stats: map<int, Status>, s: State, t: Tree, w: Side, id: nat, e: Entrant, start: map<int, Status>)
    returns (s': State)
    requires AllSound(stats, s)
    requires t.Match? && Drawn(t) && At(s, Root(t)) == AwaitLoser(w, id) && t.b != 0
    requires Over(s, Part(t, Other(w)), start) && Presents(stats, s, Part(t, w), e, start)
    requires Queue(s, Up(Root(t))) == [] && Queue(s, Down(Root(t))) == []
    ensures Reaches(stats, s, s') && AllSound(stats, s') && SameOutside(s, s', Nodes(t)) && SameFifos(s, s')
    ensures Presents(stats, s', t, e, start)
  {
    hide At, Queue, Reaches, AllSound, Child, Nodes, Drawn, Idle, Over, ExitedChildren;
    PartOf(t, Left);
    PartOf(t, Right);
    OverExited(s, Part(t, Other(w)), start);
    ChildrenExited(s, t.b);
    var s1 := Waited(stats, s, Root(t), 1);
    PresentsFrame(stats, s, s1, Part(t, w), e, start);
    OverFrame(s, s1, Part(t, Other(w)), start);
    s' := PassUp(stats, s1, t, w, e.leaf, e.orig, start, e.status);
    Then(stats, s, s1, s');
  }

  /** A battle below A, from the arrival of its two players to that of its winner at the parent. */
  lemma Compete(stats: map<int, Status>, s: State, t: Tree, e0: Entrant, e1: Entrant, start: map<int, Status>)
    returns (s': State)
    requires AllSound(stats, s)
    requires t.Match? && Drawn(t) && t.b != 0 && At(s, Root(t)) == Reading0 && Able(e0.status) && Able(e1.status)
    requires Presents(stats, s, t.left, e0, start) && Presents(stats, s, t.right, e1, start)
    requires Queue(s, Up(Root(t))) == [] && Queue(s, Down(Root(t))) == []
    ensures Reaches(stats, s, s') && AllSound(stats, s') && SameOutside(s, s', Nodes(t))
    ensures var loser := Loser(t.b, e0, e1); HandsOver(s, s', loser.leaf, loser.orig, loser.status)
    ensures Presents(stats, s', t, Winner(t.b, e0, e1), start)
  {
    hide At, Queue, Reaches, AllSound, Nodes, Drawn, Presents, Over, Answered, Winner, Loser, Fight, FifoOf;
    var o := Fight(e0.status, e1.status, t.b);
    var s1 := FightIn(stats, s, t, e0, e1, start);
    var s2 := SidesReact(stats, s1, t, e0, e1, start);
    s' := Promotes(stats, s2, t, o.attacker, o.At(o.attacker).id, Winner(t.b, e0, e1), start);
    Then(stats, s, s1, s2);
    Then(stats, s, s2, s');
  }

  /** Battle A: both sides exit, and the champion is announced. */
  lemma Finale(stats: map<int, Status>, s: State, t: Tree, e0: Entrant, e1: Entrant, start: map<int, Status>)
    returns (s': State)
    requires AllSound(stats, s)
    requires t.Match? && Drawn(t) && t.b == 0 && At(s, Root(t)) == Reading0 && Able(e0.status) && Able(e1.status)
    requires Presents(stats, s, t.left, e0, start) && Presents(stats, s, t.right, e1, start)
    requires Queue(s, Up(Root(t))) == [] && Queue(s, Down(Root(t))) == []
    ensures Reaches(stats, s, s') && AllSound(stats, s') && SameOutside(s, s', Nodes(t)) && SameFifos(s, s')
    ensures Over(s', t.left, start) && Over(s', t.right, start)
    ensures var o := Fight(e0.status, e1.status, 0); At(s', Root(t)) == Crowned(o.At(o.attacker).id)
    ensures Queue(s', Up(Root(t))) == [] && Queue(s', Down(Root(t))) == []
  {
    hide At, Queue, Reaches, AllSound, Child, Nodes, Drawn, Idle, Over, Fight, ExitedChildren, Last, FifoOf;
    PartOf(t, Left);
    PartOf(t, Right);
    FightEnds(e0.status, e1.status, 0);
    var o := Fight(e0.status, e1.status, 0);
    var s1 := FightIn(stats, s, t, e0, e1, start);
    var s2 := Retire(stats, s1, t.left, e0.leaf, e0.orig, start, o.p0);
    AnsweredFrame(stats, s1, s2, t.right, e1, start, o.p1);
    var s3 := Retire(stats, s2, t.right, e1.leaf, e1.orig, start, o.p1);
    OverFrame(s2, s3, t.left, start);
    Then(stats, s, s1, s2);
    Then(stats, s, s2, s3);
    s' := Announces(stats, s3, t, o.attacker, o.At(o.attacker).id, start);
    Then(stats, s, s3, s');
  }

  lemma Announces(stats: map<int, Status>, s: State, t: Tree, w: Side, id: nat, start: map<int, Status>)
    returns (s': State)
    requires AllSound(stats, s)
    requires t.Match? && Drawn(t) && t.b == 0 && At(s, Root(t)) == AwaitLoser(w, id)
    requires Over(s, t.left, start) && Over(s, t.right, start)
    ensures Reaches(stats, s, s') && AllSound(stats, s') && SameOutside(s, s', {Root(t)}) && SameFifos(s, s')
    ensures At(s', Root(t)) == Crowned(id)
    ensures Over(s', t.left, start) && Over(s', t.right, start)
    ensures Queue(s', Up(Root(t))) == Queue(s, Up(Root(t))) && Queue(s', Down(Root(t))) == Queue(s, Down(Root(t)))
  {
    hide At, Queue, Reaches, AllSound, Child, Nodes, Drawn, Over, ExitedChildren;
    PartOf(t, Left);
    PartOf(t, Right);
    OverExited(s, t.left, start);
    OverExited(s, t.right, start);
    ChildrenExited(s, 0);
    var s1 := Waited(stats, s, Root(t), 1);
    OverFrame(s, s1, t.left, start);
    OverFrame(s, s1, t.right, start);
    OverExited(s1, t.left, start);
    OverExited(s1, t.right, start);
    ChildrenExited(s1, 0);
    s' := Waited(stats, s1, Root(t), 2);
    OverFrame(s1, s', t.left, start);
    OverFrame(s1, s', t.right, start);
    Then(stats, s, s1, s');
  }

  // ----- a zone

  /** No process of the tree has made a call, and the fifos of its agents have been filled. */
  ghost predicate Unplayed(s: State, t: Tree, start: map<int, Status>)
  {
    forall n :: n in Nodes(t) ==> Queue(s, Up(n)) == [] && Queue(s, Down(n)) == [] && ReadyToStart(s, n, start)
  }

  ghost predicate ReadyToStart(s: State, n: Node, start: map<int, Status>)
  {
    match n
    case B(_) => At(s, n) == Reading0
    case P(j) =>
      && j in start
      && if j < 8 then At(s, n) == Sending(start[j], start[j].hp)
         else At(s, n) == AwaitFifo && Queue(s, Fifo(j)) == [start[j]]
  }

  /** Every loser among real players is at the fifo of its agent. */
  ghost predicate Handing(s: State, s': State, t: Tree, start: map<int, Status>)
    requires Starts(t, start)
  {
    forall a :: Queue(s', Fifo(a)) == Queue(s, Fifo(a)) + if a in Handed(t, start) then [Handed(t, start)[a]] else []
  }

  /** Every agent of the tree has read its fifo. */
  ghost predicate Taking(s: State, s': State, t: Tree)
  {
    forall a :: Queue(s', Fifo(a)) == if a >= 0 && P(a) in Nodes(t) then [] else Queue(s, Fifo(a))
  }

  /** The players of the tree start with the points of the real players that they are. */
  ghost predicate Rooted(stats: map<int, Status>, t: Tree, start: map<int, Status>)
  {
    forall j :: P(j) in Nodes(t) && j in start ==> Full(stats, start[j])
  }

  lemma RealEnters(stats: map<int, Status>, s: State, k: nat, st: Status) returns (s': State)
    requires AllSound(stats, s)
    requires At(s, P(k)) == Sending(st, st.hp) && Queue(s, Up(P(k))) == []
    ensures Reaches(stats, s, s') && AllSound(stats, s') && SameOutside(s, s', {P(k)}) && SameFifos(s, s')
    ensures At(s', P(k)) == Receiving(st.hp)
    ensures Queue(s', Up(P(k))) == [st] && Queue(s', Down(P(k))) == Queue(s, Down(P(k)))
  {
    hide At, Queue, Reaches, AllSound;
    s' := Write(stats, s, P(k), Up(P(k)), st);
  }

  lemma AgentEnters(stats: map<int, Status>, s: State, k: nat, st: Status) returns (s': State)
    requires AllSound(stats, s)
    requires Full(stats, st) && At(s, P(k)) == AwaitFifo && Queue(s, Up(P(k))) == [] && Queue(s, Fifo(k)) == [st]
    ensures Reaches(stats, s, s') && AllSound(stats, s') && SameOutside(s, s', {P(k)}) && Taking(s, s', Entry(k))
    ensures At(s', P(k)) == Receiving(st.hp)
    ensures Queue(s', Up(P(k))) == [st] && Queue(s', Down(P(k))) == Queue(s, Down(P(k)))
  {
    hide At, Queue, Reaches, AllSound;
    var s1 := Read(stats, s, P(k), Fifo(k), st);
    s' := RealEnters(stats, s1, k, st);
    Then(stats, s, s1, s');
  }

  lemma PlayerEnters(stats: map<int, Status>, s: State, k: nat, start: map<int, Status>) returns (s': State)
    requires AllSound(stats, s)
    requires Starts(Entry(k), start) && Unplayed(s, Entry(k), start) && Rooted(stats, Entry(k), start)
    ensures Reaches(stats, s, s') && AllSound(stats, s') && SameOutside(s, s', {P(k)})
    ensures if k < 8 then Handing(s, s', Entry(k), start) else Taking(s, s', Entry(k))
    ensures Presents(stats, s', Entry(k), Enter(Entry(k), start), start)
  {
    hide At, Queue, Reaches, AllSound, Taking;
    assert P(k) in Nodes(Entry(k));
    assert ReadyToStart(s, P(k), start);
    if k < 8 {
      s' := RealEnters(stats, s, k, start[k]);
      NothingHanded(s, s', k, start);
    } else {
      s' := AgentEnters(stats, s, k, start[k]);
    }
  }

  lemma NothingHanded(s: State, s': State, k: nat, start: map<int, Status>)
    requires Starts(Entry(k), start) && SameFifos(s, s')
    ensures Handing(s, s', Entry(k), start)
  {
    hide Queue;
  }

  /** A process outside of the left part has still not made a call when that part has been played. */
  lemma ReadyFrame(s: State, s1: State, t: Tree, n: Node, start: map<int, Status>)
    requires t.Match? && Starts(t.left, start)
    requires ReadyToStart(s, n, start) && At(s1, n) == At(s, n)
    requires n in Nodes(t.right) && n !in Nodes(t.left)
    requires (Real(t) && Handing(s, s1, t.left, start)) || (Agents(t) && Taking(s, s1, t.left))
    ensures ReadyToStart(s1, n, start)
  {
    hide At, Queue, Handed, Starts, Nodes;
    if n.P? && Real(t) {
      RealBelow(t.right, n.j);
    }
  }

  /** The right part is still unplayed when the left part has been played. */
  lemma UnplayedFrame(s: State, s1: State, t: Tree, start: map<int, Status>)
    requires t.Match? && Drawn(t) && Starts(t, start) && Starts(t.left, start)
    requires Unplayed(s, t, start) && SameOutside(s, s1, Nodes(t.left))
    requires (Real(t) && Handing(s, s1, t.left, start)) || (Agents(t) && Taking(s, s1, t.left))
    ensures Unplayed(s1, t.right, start)
    ensures At(s1, Root(t)) == Reading0 && Queue(s1, Up(Root(t))) == [] && Queue(s1, Down(Root(t))) == []
  {
    hide At, Queue, Drawn, Handed, Starts, Nodes, Handing, Taking, Real, Agents;
    PartOf(t, Left);
    PartOf(t, Right);
    assert ReadyToStart(s, Root(t), start);
    forall n | n in Nodes(t.right) ensures ReadyToStart(s1, n, start) {
      assert n in Nodes(t) && n !in Nodes(t.left) && ReadyToStart(s, n, start);
      ReadyFrame(s, s1, t, n, start);
    }
  }

  lemma LoserEnds(b: nat, e0: Entrant, e1: Entrant)
    requires Able(e0.status) && Able(e1.status)
    ensures Loser(b, e0, e1).status.hp <= 0 && Loser(b, e0, e1).status.cur == b
  {
    FightEnds(e0.status, e1.status, b);
  }

  lemma HandingJoins(s: State, s1: State, s2: State, s': State, t: Tree, start: map<int, Status>)
    requires t.Match? && Drawn(t) && Real(t) && t.b != 0
    requires Starts(t, start) && Starts(t.left, start) && Starts(t.right, start)
    requires Handing(s, s1, t.left, start) && Handing(s1, s2, t.right, start)
    requires var l := Loser(t.b, Enter(t.left, start), Enter(t.right, start));
             HandsOver(s2, s', l.leaf, l.orig, l.status)
    ensures Handing(s, s', t, start)
  {
    hide Queue, Handed, Loser, Enter, FifoOf, FeederOf, Nodes, Drawn, Starts;
    var e0, e1 := Enter(t.left, start), Enter(t.right, start);
    HandedParts(t.b, t.left, t.right, start);
    RealLoser(t.b, t.left, t.right, start);
    LoserEnds(t.b, e0, e1);
  }

  lemma TakingJoins(s: State, s1: State, s2: State, s': State, t: Tree, start: map<int, Status>)
    requires t.Match? && Agents(t) && Starts(t, start) && Starts(t.left, start) && Starts(t.right, start)
    requires Taking(s, s1, t.left) && Taking(s1, s2, t.right)
    requires var l := Loser(t.b, Enter(t.left, start), Enter(t.right, start));
             HandsOver(s2, s', l.leaf, l.orig, l.status)
    ensures Taking(s, s', t)
  {
    hide Queue, Loser, Enter, FifoOf, Starts;
    LoserIsEither(t.b, Enter(t.left, start), Enter(t.right, start));
    AgentsAbove(t.left, Enter(t.left, start).leaf);
    AgentsAbove(t.right, Enter(t.right, start).leaf);
  }

  /** A zone, or a part of one, is played until its winner has been sent to the parent. */
  lemma {:induction false} PlayTree(stats: map<int, Status>, s: State, t: Tree, start: map<int, Status>)
    returns (s': State)
    requires AllSound(stats, s)
    requires Drawn(t) && Starts(t, start) && Unplayed(s, t, start) && (Real(t) || Agents(t)) && B(0) !in Nodes(t)
    requires Rooted(stats, t, start)
    ensures Reaches(stats, s, s') && AllSound(stats, s') && SameOutside(s, s', Nodes(t))
    ensures if Real(t) then Handing(s, s', t, start) else Taking(s, s', t)
    ensures Presents(stats, s', t, Enter(t, start), start)
    decreases t
  {
    match t
    case Entry(k) => s' := PlayerEnters(stats, s, k, start);
    case Match(b, left, right) => s' := PlayMatch(stats, s, t, start);
  }

  lemma {:induction false} PlayMatch(stats: map<int, Status>, s: State, t: Tree, start: map<int, Status>)
    returns (s': State)
    requires AllSound(stats, s)
    requires t.Match?
    requires Drawn(t) && Starts(t, start) && Unplayed(s, t, start) && (Real(t) || Agents(t)) && B(0) !in Nodes(t)
    requires Rooted(stats, t, start)
    ensures Reaches(stats, s, s') && AllSound(stats, s') && SameOutside(s, s', Nodes(t))
    ensures if Real(t) then Handing(s, s', t, start) else Taking(s, s', t)
    ensures Presents(stats, s', t, Enter(t, start), start)
    decreases t, 0
  {
    hide At, Queue, Reaches, AllSound, Presents, Unplayed, Handing, Taking, HandsOver, Enter, Loser, Winner, FifoOf;
    PartOf(t, Left);
    PartOf(t, Right);
    PartsStart(s, t, start);
    PartsRooted(stats, t, start);
    var s1 := PlayTree(stats, s, t.left, start);
    UnplayedFrame(s, s1, t, start);
    var s2 := PlayTree(stats, s1, t.right, start);
    var e0, e1 := Enter(t.left, start), Enter(t.right, start);
    PresentsFrame(stats, s1, s2, t.left, e0, start);
    s' := Compete(stats, s2, t, e0, e1, start);
    WinnerEnters(t, start);
    Then(stats, s, s1, s2);
    Then(stats, s, s2, s');
    if Real(t) {
      HandingJoins(s, s1, s2, s', t, start);
    } else {
      TakingJoins(s, s1, s2, s', t, start);
    }
  }

  lemma WinnerEnters(t: Tree, start: map<int, Status>)
    requires t.Match? && Starts(t, start) && Starts(t.left, start) && Starts(t.right, start)
    ensures Enter(t, start) == Winner(t.b, Enter(t.left, start), Enter(t.right, start))
  {
  }

  lemma PartsRooted(stats: map<int, Status>, t: Tree, start: map<int, Status>)
    requires t.Match? && Rooted(stats, t, start)
    ensures Rooted(stats, t.left, start) && Rooted(stats, t.right, start)
  {
  }

  lemma PartsStart(s: State, t: Tree, start: map<int, Status>)
    requires t.Match? && Starts(t, start) && Unplayed(s, t, start) && (Real(t) || Agents(t))
    ensures Starts(t.left, start) && Starts(t.right, start) && Unplayed(s, t.left, start)
    ensures (Real(t) ==> Real(t.left) && Real(t.right)) && (Agents(t) ==> Agents(t.left) && Agents(t.right))
    ensures !(Real(t.left) && Agents(t.left)) && !(Real(t.right) && Agents(t.right))
    ensures Able(Enter(t.left, start).status) && Able(Enter(t.right, start).status)
  {
    NotBoth(t.left);
    NotBoth(t.right);
  }

  lemma {:induction false} NotBoth(t: Tree)
    ensures !(Real(t) && Agents(t))
  {
    if t.Match? {
      NotBoth(t.left);
    }
  }

  // ----- the whole championship

  /** Whose status is at leaf j. */
  ghost function Occupant(stats: map<int, Status>, j: nat): nat
    requires Players(stats) && j < 15
  {
    ZoneBStarts(stats);
    if j < 8 then j else Handed(ZONE_A, stats)[j].id
  }

  /** All is over, battle A has announced the champion of the bracket, and the player at each leaf, an
      agent after it has read its fifo once, has exited with the status of its occupant. */
  ghost predicate Decided(f: State, stats: map<int, Status>)
    requires Players(stats)
  {
    && AllOver(f) && At(f, B(0)) == Crowned(Champion(stats))
    && forall j: nat :: j < 15 ==> At(f, P(j)).Gone? && At(f, P(j)).st.id == Occupant(stats, j)
  }

  lemma OverStart(s: State, t: Tree, start: map<int, Status>, start': map<int, Status>)
    requires Over(s, t, start)
    requires forall j :: P(j) in Nodes(t) && j in start ==> j in start' && start'[j].id == start[j].id
    ensures Over(s, t, start')
  {
    hide At, Queue, Exited;
  }

  lemma {:induction false} IdleStart(s: State, t: Tree, j: nat, orig: int, start: map<int, Status>,
    start': map<int, Status>)
    requires Idle(s, t, j, orig, start)
    requires forall j :: P(j) in Nodes(t) && j in start ==> j in start' && start'[j].id == start[j].id
    ensures Idle(s, t, j, orig, start')
  {
    hide At, Queue, Over;
    match t
    case Entry(_) =>
    case Match(b, _, _) =>
      var w := At(s, B(b)).winner;
      IdleStart(s, Part(t, w), j, orig, start, start');
      OverStart(s, Part(t, Other(w)), start, start');
  }

  lemma InitUnplayed(stats: map<int, Status>)
    requires Players(stats) && Starts(ZONE_A, stats)
    ensures Unplayed(Init(stats), ZONE_A, stats)
  {
    hide Nodes, Processes;
    ZonesAreDrawn();
    var s := Init(stats);
    forall n | n in Nodes(ZONE_A)
      ensures Queue(s, Up(n)) == [] && Queue(s, Down(n)) == [] && ReadyToStart(s, n, stats)
    {
      ProcessesAre(n);
    }
  }

  /** Zone B can be played when zone A has been. */
  lemma ZoneBUnplayed(stats: map<int, Status>, s1: State)
    requires Players(stats) && Starts(ZONE_A, stats) && SameOutside(Init(stats), s1, Nodes(ZONE_A))
    requires Handing(Init(stats), s1, ZONE_A, stats)
    ensures Unplayed(s1, ZONE_B, Handed(ZONE_A, stats))
  {
    hide Nodes, Processes, Handed, Drawn, Real, Agents;
    ZonesAreDrawn();
    ZonesApart();
    ZoneBStarts(stats);
    var s, h := Init(stats), Handed(ZONE_A, stats);
    forall n | n in Nodes(ZONE_B)
      ensures Queue(s1, Up(n)) == [] && Queue(s1, Down(n)) == [] && ReadyToStart(s1, n, h)
    {
      ProcessesAre(n);
      assert Queue(s, Up(n)) == [] && Queue(s, Down(n)) == [];
      if n.P? {
        assert Queue(s, Fifo(n.j)) == [];
      }
    }
  }

  lemma ZonesApart()
    ensures Nodes(ZONE_A) !! Nodes(ZONE_B)
    ensures B(0) !in Nodes(ZONE_A) && B(0) !in Nodes(ZONE_B)
    ensures Real(ZONE_A) && Agents(ZONE_B) && !Real(ZONE_B) && Drawn(ZONE_A) && Drawn(ZONE_B)
  {
    hide Nodes, Child;
    ZonesAreDrawn();
    NotBoth(ZONE_B);
  }

  lemma InitSound(stats: map<int, Status>)
    requires Players(stats)
    ensures AllSound(stats, Init(stats))
  {
    hide Processes;
    var s := Init(stats);
    forall x ensures Sound(stats, At(s, x)) {
      ProcessesAre(x);
    }
  }

  lemma ZonesRooted(stats: map<int, Status>)
    requires Players(stats)
    ensures Starts(ZONE_A, stats)
    ensures Rooted(stats, ZONE_A, stats) && Rooted(stats, ZONE_B, Handed(ZONE_A, stats))
  {
    hide Nodes, Handed;
    ZonesAreDrawn();
    ZoneBStarts(stats);
  }

  /** Both zones have been played, and their winners are at battle A. */
  lemma BothZones(stats: map<int, Status>) returns (s': State)
    requires Players(stats)
    ensures Starts(ZONE_A, stats) && Starts(ZONE_B, Handed(ZONE_A, stats))
    ensures Reaches(stats, Init(stats), s') && AllSound(stats, s')
    ensures SameOutside(Init(stats), s', Nodes(ZONE_A) + Nodes(ZONE_B))
    ensures forall a :: Queue(s', Fifo(a)) == []
    ensures Presents(stats, s', ZONE_A, Enter(ZONE_A, stats), stats)
    ensures var h := Handed(ZONE_A, stats); Presents(stats, s', ZONE_B, Enter(ZONE_B, h), h)
  {
    hide At, Queue, Reaches, AllSound, Presents, Unplayed, Handing, Taking;
    hide Nodes, Drawn, Real, Agents, Handed, Enter, Starts;
    ZoneBStarts(stats);
    ZonesApart();
    InitUnplayed(stats);
    InitSound(stats);
    ZonesRooted(stats);
    var s, h := Init(stats), Handed(ZONE_A, stats);
    var s1 := PlayTree(stats, s, ZONE_A, stats);
    ZoneBUnplayed(stats, s1);
    s' := PlayTree(stats, s1, ZONE_B, h);
    PresentsFrame(stats, s1, s', ZONE_A, Enter(ZONE_A, stats), stats);
    FifosEmpty(stats, s1, s');
    Then(stats, s, s1, s');
  }

  lemma InitEmpty(stats: map<int, Status>, c: Chan)
    ensures Queue(Init(stats), c) == []
  {
    hide Processes;
  }

  lemma FifosEmpty(stats: map<int, Status>, s1: State, s': State)
    requires Players(stats) && Starts(ZONE_A, stats)
    requires Handing(Init(stats), s1, ZONE_A, stats) && Taking(s1, s', ZONE_B)
    ensures forall a :: Queue(s', Fifo(a)) == []
  {
    hide Nodes, Handed, Drawn, Real, Agents, Starts, Players, Init, At, Queue;
    ZonesAreDrawn();
    ZoneBStarts(stats);
    forall a ensures Queue(s', Fifo(a)) == [] {
      InitEmpty(stats, Fifo(a));
      if 8 <= a < 15 {
        assert P(a) in Nodes(ZONE_B);
      } else {
        assert a !in Handed(ZONE_A, stats) && Queue(s1, Fifo(a)) == [];
      }
    }
  }

  /** The statuses at all fifteen leaves. */
  ghost function Starters(stats: map<int, Status>): map<int, Status>
    requires Players(stats)
  {
    ZoneBStarts(stats);
    stats + Handed(ZONE_A, stats)
  }

  lemma StartersAre(stats: map<int, Status>)
    requires Players(stats)
    ensures Starts(ZONE_A, stats)
    ensures var all := Starters(stats);
            && (forall j :: P(j) in Nodes(ZONE_A) && j in stats ==> j in all && all[j].id == stats[j].id)
            && (forall j :: j in Handed(ZONE_A, stats) ==> j in all && all[j].id == Handed(ZONE_A, stats)[j].id)
            && (forall j: nat :: j < 15 ==> j in all && all[j].id == Occupant(stats, j))
  {
    hide Nodes, Handed, Drawn, Real, Agents, Starts;
    ZonesAreDrawn();
    ZoneBStarts(stats);
  }

  /** When the two zones and battle A are over, everything is. */
  lemma OverTogether(stats: map<int, Status>, f: State, start: map<int, Status>)
    requires Over(f, ZONE_A, start) && Over(f, ZONE_B, start)
    requires Exited(At(f, B(0))) && Queue(f, Up(B(0))) == [] && Queue(f, Down(B(0))) == []
    requires SameOutside(Init(stats), f, Nodes(ZONE_A) + Nodes(ZONE_B) + {B(0)})
    requires forall a :: Queue(f, Fifo(a)) == []
    ensures AllOver(f)
    ensures forall j: nat :: j < 15 ==> j in start && At(f, P(j)).Gone? && At(f, P(j)).st.id == start[j].id
  {
    hide Nodes, Drawn, Real, Agents, Processes;
    ZonesAreDrawn();
    var s := Init(stats);
    forall n ensures Exited(At(f, n)) && Queue(f, Up(n)) == [] && Queue(f, Down(n)) == [] {
      ProcessesAre(n);
      if n !in Nodes(ZONE_A) && n !in Nodes(ZONE_B) && n != B(0) {
        assert At(f, n) == At(s, n) && Queue(f, Up(n)) == Queue(s, Up(n)) && Queue(f, Down(n)) == Queue(s, Down(n));
      }
    }
    forall j: nat | j < 15 ensures j in start && At(f, P(j)).Gone? && At(f, P(j)).st.id == start[j].id {
      assert P(j) in Nodes(ZONE_A) || P(j) in Nodes(ZONE_B);
    }
    forall c ensures Queue(f, c) == [] {
      match c
      case Up(n) => assert Exited(At(f, n));
      case Down(n) => assert Exited(At(f, n));
      case Fifo(_) =>
    }
  }

  /** One run that plays the bracket to the end. */
  lemma BracketRun(stats: map<int, Status>) returns (f: State)
    requires Players(stats)
    ensures Reaches(stats, Init(stats), f) && Decided(f, stats)
  {
    hide At, Queue, Reaches, AllSound, Over, AllOver;
    hide Nodes, Drawn, Real, Agents, Handed, Fight, Starts, Starters, Enter;
    var s := BothZones(stats);
    StartersAre(stats);
    ZonesAreDrawn();
    ZonesApart();
    var h, all := Handed(ZONE_A, stats), Starters(stats);
    var e0, e1 := Enter(ZONE_A, stats), Enter(ZONE_B, h);
    IdleStart(s, ZONE_A, e0.leaf, e0.orig, stats, all);
    IdleStart(s, ZONE_B, e1.leaf, e1.orig, h, all);
    var t := Match(0, ZONE_A, ZONE_B);
    AtTheRoot(stats, s);
    f := Finale(stats, s, t, e0, e1, all);
    Then(stats, Init(stats), s, f);
    TopNodes();
    OverTogether(stats, f, all);
  }

  lemma TopNodes()
    ensures Nodes(Match(0, ZONE_A, ZONE_B)) == Nodes(ZONE_A) + Nodes(ZONE_B) + {B(0)}
  {
  }

  /** Battle A has not moved while the zones were played. */
  lemma AtTheRoot(stats: map<int, Status>, s: State)
    requires SameOutside(Init(stats), s, Nodes(ZONE_A) + Nodes(ZONE_B))
    ensures At(s, B(0)) == Reading0 && Queue(s, Up(B(0))) == [] && Queue(s, Down(B(0))) == []
  {
    hide Nodes, Processes;
    ZonesApart();
    ProcessesAre(B(0));
    assert B(0) !in Nodes(ZONE_A) + Nodes(ZONE_B);
  }

  // ----- every run of the championship

  /** Every run from s is a part of a run of n moves that ends in f. */
  ghost predicate LeadsTo(s: State, f: State, n: nat)
  {
    forall v, t :: Runs(s, v, t) ==> |v| <= n && exists u :: |v| + |u| == n && Runs(t, u, f)
  }

  lemma Determined(stats: map<int, Status>)
    requires Players(stats)
    ensures exists f, n :: LeadsTo(Init(stats), f, n) && Decided(f, stats)
  {
    hide Runs, Decided;
    var f := BracketRun(stats);
    assert AllOver(f) by { DecidedIsOver(f, stats); }
    var w :| Runs(Init(stats), w, f);
    forall v, t | Runs(Init(stats), v, t) ensures |v| <= |w| && exists u :: |v| + |u| == |w| && Runs(t, u, f) {
      var u := EveryRun(Init(stats), w, f, v, t);
    }
    assert LeadsTo(Init(stats), f, |w|);
  }

  /** In every state that the championship can reach, every status that a process holds or that is in a
      pipe or a fifo has at most the points its player started with; a player on its way to a battle
      has one at least, and one on its way to an agent has them all. */
  lemma PointsInBounds(stats: map<int, Status>, v: seq<Node>, t: State)
    requires Players(stats) && Runs(Init(stats), v, t)
    ensures AllSound(stats, t)
  {
    hide Runs, Decided, AllSound;
    var f := BracketRun(stats);
    DecidedIsOver(f, stats);
    var w :| Runs(Init(stats), w, f) && SoundRun(stats, Init(stats), w);
    var u := EveryRun(Init(stats), w, f, v, t);
    assert SoundRun(stats, t, u);
  }

  /** Whenever a loser is about to write to the fifo of its agent, the agent has made no call but to open
      it, the fifo is empty and nobody else writes to it; so the opening of both ends succeeds. */
  lemma HandOverMeetsAgent(stats: map<int, Status>, v: seq<Node>, t: State, x: Node, a: int)
    requires Players(stats) && Runs(Init(stats), v, t) && Pending(t, x, a)
    ensures Awaiting(t, a) && Queue(t, Fifo(a)) == []
    ensures forall y :: Pending(t, y, a) ==> y == x
  {
    hide Runs, Decided, LeadsTo, Pending, Awaiting;
    Determined(stats);
    var f, n :| LeadsTo(Init(stats), f, n) && Decided(f, stats);
    DecidedIsOver(f, stats);
    var u := RestOfRun(Init(stats), f, n, v, t);
    NeverCrowded(t, u, f, a);
  }

  lemma RestOfRun(s: State, f: State, n: nat, v: seq<Node>, t: State) returns (u: seq<Node>)
    requires LeadsTo(s, f, n) && Runs(s, v, t)
    ensures |v| + |u| == n && Runs(t, u, f)
  {
    hide Runs;
    u :| |v| + |u| == n && Runs(t, u, f);
  }

  lemma DecidedIsOver(f: State, stats: map<int, Status>)
    requires Players(stats) && Decided(f, stats)
    ensures AllOver(f)
  {
  }

  /** In whatever order the 29 processes move, the championship never gets stuck: a state in which none
      can move is the one where all have exited, battle A has announced the champion of the bracket,
      and each agent has had the loser that the bracket gives it. */
  lemma EveryChampionship(stats: map<int, Status>, v: seq<Node>, t: State)
    requires Players(stats) && Runs(Init(stats), v, t)
    ensures (forall x :: !Enabled(t, x)) <==> Decided(t, stats)
  {
    hide Runs, Decided, Enabled;
    Determined(stats);
    var f, n :| LeadsTo(Init(stats), f, n) && Decided(f, stats);
    var u :| |v| + |u| == n && Runs(t, u, f);
    if forall x :: !Enabled(t, x) {
      StuckIsEnd(t, u, f);
    }
    if Decided(t, stats) {
      DecidedIsOver(t, stats);
      OverIsFinal(t);
    }
  }

  lemma StuckIsEnd(t: State, u: seq<Node>, f: State)
    requires Runs(t, u, f) && forall x :: !Enabled(t, x)
    ensures t == f && u == []
  {
  }

  /** Two runs to the end make the same number of moves and end in the same state, status by status. */
  lemma SameEnd(stats: map<int, Status>, v: seq<Node>, t: State, v': seq<Node>, t': State)
    requires Players(stats) && Runs(Init(stats), v, t) && Runs(Init(stats), v', t')
    requires (forall x :: !Enabled(t, x)) && (forall x :: !Enabled(t', x))
    ensures t == t' && |v| == |v'|
  {
    hide Runs, Decided, Enabled;
    Determined(stats);
    var f, n :| LeadsTo(Init(stats), f, n) && Decided(f, stats);
    var u :| |v| + |u| == n && Runs(t, u, f);
    var u' :| |v'| + |u'| == n && Runs(t', u', f);
    StuckIsEnd(t, u, f);
    StuckIsEnd(t', u', f);
  }

  /** The championship ends: no run has more moves than a number that depends on the players only. */
  lemma Terminates(stats: map<int, Status>)
    requires Players(stats)
    ensures exists n: nat :: Bounded(stats, n)
  {
    hide Runs, Decided;
    Determined(stats);
    var f, n :| LeadsTo(Init(stats), f, n) && Decided(f, stats);
    assert Bounded(stats, n);
  }

  ghost predicate Bounded(stats: map<int, Status>, n: nat)
  {
    forall v, t :: Runs(Init(stats), v, t) ==> |v| <= n
  }
}
