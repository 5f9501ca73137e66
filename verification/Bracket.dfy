/** The bracket of the championship as the tables of battle.c and player.c draw it, who meets whom in
    it, and how often everybody loses. */
module Bracket {
  import opened Battle

  /** The processes: battles A to N, real players 0 to 7 and agents 8 to 14. */
  datatype Node = B(b: nat) | P(j: nat)

  const BATTLE_CHILDREN := [
    (B(1), B(2)), (B(3), B(4)), (B(5), P(14)), (B(6), B(7)), (B(8), B(9)), (B(10), B(11)), (P(0), P(1)),
    (P(2), P(3)), (P(4), P(5)), (P(6), P(7)), (B(12), P(10)), (B(13), P(13)), (P(8), P(9)), (P(11), P(12))]
  const BATTLE_PARENT := [-1, 0, 0, 1, 1, 2, 3, 3, 4, 4, 5, 5, 10, 11]
  const TARGET_ID := [6, 6, 7, 7, 8, 8, 9, 9, 12, 12, 10, 13, 13, 11, 2]
  const FIFO := [-1, 14, -1, 10, 13, -1, 8, 11, 9, 12]

  function Child(b: nat, side: Side): Node
  {
    if b >= 14 then P(15) else if side.Left? then BATTLE_CHILDREN[b].0 else BATTLE_CHILDREN[b].1
  }

  function Parent(n: Node): int
  {
    match n
    case B(b) => if b < 14 then BATTLE_PARENT[b] else -1
    case P(j) => if j < 15 then TARGET_ID[j] else -1
  }

  /** The agent to which a real player goes that has lost in battle b. */
  function FifoOf(b: int): int
  {
    if 0 <= b < 10 then FIFO[b] else -1
  }

  function FeederOf(a: int): int
  {
    match a
    case 8 => 6
    case 9 => 8
    case 10 => 3
    case 11 => 7
    case 12 => 9
    case 13 => 4
    case 14 => 1
    case _ => -1
  }

  /** The tables agree: the children of a battle name it as their parent. */
  lemma ParentOfChild(b: nat, side: Side)
    requires b < 14
    ensures Parent(Child(b, side)) == b
    ensures Child(b, Left) != Child(b, Right) && Child(b, side) != B(b)
  {
  }

  // ----- the bracket as a tree

  datatype Tree = Entry(j: nat) | Match(b: nat, left: Tree, right: Tree)

  const ZONE_A := Match(1,
    Match(3, Match(6, Entry(0), Entry(1)), Match(7, Entry(2), Entry(3))),
    Match(4, Match(8, Entry(4), Entry(5)), Match(9, Entry(6), Entry(7))))

  const ZONE_B := Match(2,
    Match(5,
      Match(10, Match(12, Entry(8), Entry(9)), Entry(10)),
      Match(11, Match(13, Entry(11), Entry(12)), Entry(13))),
    Entry(14))

  function Root(t: Tree): Node
  {
    match t
    case Entry(j) => P(j)
    case Match(b, _, _) => B(b)
  }

  function Nodes(t: Tree): (r: set<Node>)
    ensures Root(t) in r
  {
    match t
    case Entry(j) => {P(j)}
    case Match(b, left, right) => {B(b)} + Nodes(left) + Nodes(right)
  }

  /** The tree is drawn as the tables say, and no process occurs in it twice. */
  predicate Drawn(t: Tree)
  {
    match t
    case Entry(j) => j < 15
    case Match(b, left, right) =>
      && b < 14 && Root(left) == Child(b, Left) && Root(right) == Child(b, Right)
      && Nodes(left) !! Nodes(right) && B(b) !in Nodes(left) && B(b) !in Nodes(right)
      && Drawn(left) && Drawn(right)
  }

  /** All players are real, and a loser of each battle has an agent of its own. */
  predicate Real(t: Tree)
  {
    match t
    case Entry(j) => j < 8
    case Match(b, left, right) => FifoOf(b) >= 8 && FeederOf(FifoOf(b)) == b && Real(left) && Real(right)
  }

  predicate Agents(t: Tree)
  {
    match t
    case Entry(j) => 8 <= j
    case Match(_, left, right) => Agents(left) && Agents(right)
  }

  /** The two zones are drawn by the tables, under battle A, and cover all processes. */
  lemma ZonesAreDrawn()
    ensures Drawn(Match(0, ZONE_A, ZONE_B)) && Real(ZONE_A) && Agents(ZONE_B)
    ensures forall j: nat :: P(j) in Nodes(ZONE_A) <==> j < 8
    ensures forall j: nat :: P(j) in Nodes(ZONE_B) <==> 8 <= j < 15
    ensures forall b: nat :: B(b) in Nodes(ZONE_A) + Nodes(ZONE_B) <==> 0 < b < 14
  {
    ZoneADrawn();
    ZoneBDrawn();
    hide Nodes, Drawn, Real, Agents;
    assert Drawn(Match(0, ZONE_A, ZONE_B)) by { TopDrawn(); }
  }

  const NODES_A := {B(1), B(3), B(4), B(6), B(7), B(8), B(9), P(0), P(1), P(2), P(3), P(4), P(5), P(6), P(7)}
  const NODES_B := {B(2), B(5), B(10), B(11), B(12), B(13), P(8), P(9), P(10), P(11), P(12), P(13), P(14)}

  lemma PairDrawn(b: nat, i: nat, j: nat)
    requires b < 14 && i < 15 && j < 15 && i != j && Child(b, Left) == P(i) && Child(b, Right) == P(j)
    ensures var t := Match(b, Entry(i), Entry(j)); Drawn(t) && Nodes(t) == {B(b), P(i), P(j)}
  {
    assert Nodes(Entry(i)) == {P(i)} && Nodes(Entry(j)) == {P(j)};
  }

  lemma MatchDrawn(b: nat, l: Tree, r: Tree)
    requires b < 14 && Drawn(l) && Drawn(r) && Root(l) == Child(b, Left) && Root(r) == Child(b, Right)
    requires Nodes(l) !! Nodes(r) && B(b) !in Nodes(l) && B(b) !in Nodes(r)
    ensures Drawn(Match(b, l, r)) && Nodes(Match(b, l, r)) == {B(b)} + Nodes(l) + Nodes(r)
  {
  }

  lemma ZoneADrawn()
    ensures Drawn(ZONE_A) && Real(ZONE_A) && Nodes(ZONE_A) == NODES_A
  {
    hide Drawn, Nodes;
    PairDrawn(6, 0, 1);
    PairDrawn(7, 2, 3);
    PairDrawn(8, 4, 5);
    PairDrawn(9, 6, 7);
    MatchDrawn(3, ZONE_A.left.left, ZONE_A.left.right);
    MatchDrawn(4, ZONE_A.right.left, ZONE_A.right.right);
    MatchDrawn(1, ZONE_A.left, ZONE_A.right);
  }

  lemma LeafDrawn(j: nat)
    requires j < 15
    ensures Drawn(Entry(j)) && Agents(Entry(j)) == (j >= 8) && Nodes(Entry(j)) == {P(j)}
  {
  }

  lemma ZoneBDrawn()
    ensures Drawn(ZONE_B) && Agents(ZONE_B) && Nodes(ZONE_B) == NODES_B
  {
    hide Drawn, Nodes;
    PairDrawn(12, 8, 9);
    PairDrawn(13, 11, 12);
    LeafDrawn(10);
    LeafDrawn(13);
    LeafDrawn(14);
    var f := ZONE_B.left;
    MatchDrawn(10, f.left.left, f.left.right);
    MatchDrawn(11, f.right.left, f.right.right);
    MatchDrawn(5, f.left, f.right);
    MatchDrawn(2, ZONE_B.left, ZONE_B.right);
  }

  lemma TopDrawn()
    ensures Drawn(Match(0, ZONE_A, ZONE_B))
  {
    ZoneADrawn();
    ZoneBDrawn();
    hide Drawn, Nodes;
    assert NODES_A !! NODES_B;
    MatchDrawn(0, ZONE_A, ZONE_B);
  }

  /** Whom the losers of zone A meet: those of G and I each other in M, those of H and J in N, the loser of D
      the winner of M in K, that of E the winner of N in L, and that of B the winner of zone B's F in C. */
  lemma LosersMeet()
    ensures Child(12, Left) == P(FifoOf(6)) && Child(12, Right) == P(FifoOf(8))
    ensures Child(13, Left) == P(FifoOf(7)) && Child(13, Right) == P(FifoOf(9))
    ensures Child(10, Left) == B(12) && Child(10, Right) == P(FifoOf(3))
    ensures Child(11, Left) == B(13) && Child(11, Right) == P(FifoOf(4))
    ensures Child(5, Left) == B(10) && Child(5, Right) == B(11)
    ensures Child(2, Left) == B(5) && Child(2, Right) == P(FifoOf(1))
  {
  }

  // ----- the course of the championship

  /** What enters a battle from one side: the status, and the leaf at which that player started, with
      its points then. */
  datatype Entrant = Entrant(status: Status, orig: int, leaf: nat)

  /** Division by 2 as in C, towards zero. */
  function Half(n: int): int
  {
    if n >= 0 then n / 2 else -(-n / 2)
  }

  /** Healing gives back half of the points that are missing, rounded down, and clears the mark. */
  function Heal(p: Status, orig: int): (r: Status)
    ensures p.hp <= orig ==> p.hp <= r.hp <= orig && orig - p.hp - 1 <= 2 * (r.hp - p.hp) <= orig - p.hp
    ensures r == p.(hp := r.hp, ended := false)
  {
    p.(hp := Half(orig - p.hp) + p.hp, ended := false)
  }

  /** Every player of the tree can start. */
  ghost predicate Starts(t: Tree, start: map<int, Status>)
  {
    forall j :: P(j) in Nodes(t) ==> j in start && Able(start[j])
  }

  /** The winner of a battle, healed. */
  function Winner(b: nat, e0: Entrant, e1: Entrant): (e: Entrant)
    requires Able(e0.status) && Able(e1.status)
    ensures e0.status.hp <= e0.orig && e1.status.hp <= e1.orig ==> Able(e.status) && e.status.hp <= e.orig
    ensures Same(e, e0) || Same(e, e1)
  {
    var o := Fight(e0.status, e1.status, b);
    FightKeepsPlayers(e0.status, e1.status, b);
    var e := if o.attacker.Left? then e0 else e1;
    e.(status := Heal(o.At(o.attacker), e.orig))
  }

  /** One and the same player. */
  predicate Same(e: Entrant, f: Entrant)
  {
    && e.leaf == f.leaf && e.orig == f.orig
    && e.status.id == f.status.id && e.status.atk == f.status.atk && e.status.attr == f.status.attr
  }

  /** The player that comes out of a part of the bracket.  Through any number of battles its points
      lie between 1 and those it started with. */
  function Enter(t: Tree, start: map<int, Status>): (e: Entrant)
    requires Starts(t, start)
    ensures P(e.leaf) in Nodes(t) && Able(e.status) && e.status.hp <= e.orig
    ensures Same(e, Entrant(start[e.leaf], start[e.leaf].hp, e.leaf))
  {
    match t
    case Entry(j) => Entrant(start[j], start[j].hp, j)
    case Match(b, left, right) => Winner(b, Enter(left, start), Enter(right, start))
  }

  /** The loser of a battle, with the status in which it ends. */
  function Loser(b: nat, e0: Entrant, e1: Entrant): Entrant
    requires Able(e0.status) && Able(e1.status)
  {
    var o := Fight(e0.status, e1.status, b);
    (if o.attacker.Left? then e1 else e0).(status := o.At(Other(o.attacker)))
  }

  /** What a real player writes to the fifo of its agent. */
  function Restored(e: Entrant): Status
  {
    e.status.(hp := e.orig, ended := false)
  }

  /** What the agents receive from the losers of the battles in t. */
  function Handed(t: Tree, start: map<int, Status>): map<int, Status>
    requires Starts(t, start)
  {
    match t
    case Entry(_) => map[]
    case Match(b, left, right) =>
      var loser := Loser(b, Enter(left, start), Enter(right, start));
      Handed(left, start) + Handed(right, start)
      + if loser.leaf <= 7 then map[FifoOf(b) := Restored(loser)] else map[]
  }

  // ----- how the losers are handed over

  ghost predicate Within(m: map<int, Status>, n: map<int, Status>)
  {
    forall a :: a in m ==> a in n && n[a] == m[a]
  }

  /** Among real players, only the agents of the tree's battles get a player. */
  lemma {:induction false} HandedKeys(t: Tree, start: map<int, Status>, a: int)
    requires Starts(t, start) && Real(t) && a in Handed(t, start)
    ensures a >= 8 && FeederOf(a) >= 0 && B(FeederOf(a)) in Nodes(t)
  {
    hide FifoOf, FeederOf;
    match t
    case Entry(_) =>
    case Match(b, left, right) =>
      if a in Handed(left, start) {
        HandedKeys(left, start, a);
      } else if a in Handed(right, start) {
        HandedKeys(right, start, a);
      }
  }

  lemma {:induction false} AgentsHandNothing(t: Tree, start: map<int, Status>)
    requires Starts(t, start) && Agents(t)
    ensures Handed(t, start) == map[]
  {
    match t
    case Entry(_) =>
    case Match(b, left, right) =>
      AgentsHandNothing(left, start);
      AgentsHandNothing(right, start);
      AgentsAbove(left, Enter(left, start).leaf);
      AgentsAbove(right, Enter(right, start).leaf);
  }

  lemma {:induction false} AgentsAbove(t: Tree, j: nat)
    requires Agents(t) && P(j) in Nodes(t)
    ensures j >= 8
  {
    match t
    case Entry(_) =>
    case Match(_, left, right) =>
      if P(j) in Nodes(left) {
        AgentsAbove(left, j);
      } else {
        AgentsAbove(right, j);
      }
  }

  lemma {:induction false} RealBelow(t: Tree, j: nat)
    requires Real(t) && P(j) in Nodes(t)
    ensures j < 8
  {
    match t
    case Entry(_) =>
    case Match(_, left, right) =>
      if P(j) in Nodes(left) {
        RealBelow(left, j);
      } else {
        RealBelow(right, j);
      }
  }

  lemma LoserIsEither(b: nat, e0: Entrant, e1: Entrant)
    requires Able(e0.status) && Able(e1.status)
    ensures var l := Loser(b, e0, e1); l == e0.(status := l.status) || l == e1.(status := l.status)
  {
  }

  lemma HandedApart(left: Tree, right: Tree, start: map<int, Status>)
    requires Starts(left, start) && Starts(right, start) && Real(left) && Real(right) && Nodes(left) !! Nodes(right)
    ensures Handed(left, start).Keys !! Handed(right, start).Keys
  {
    hide FeederOf, Handed, Starts;
    forall a | a in Handed(left, start) ensures a !in Handed(right, start) {
      HandedKeys(left, start, a);
      if a in Handed(right, start) {
        HandedKeys(right, start, a);
      }
    }
  }

  lemma NotHanded(t: Tree, b: nat, start: map<int, Status>)
    requires Starts(t, start) && Real(t) && FeederOf(FifoOf(b)) == b && B(b) !in Nodes(t)
    ensures FifoOf(b) !in Handed(t, start)
  {
    hide FeederOf, FifoOf, Handed, Starts;
    if FifoOf(b) in Handed(t, start) {
      HandedKeys(t, start, FifoOf(b));
    }
  }

  /** Nothing that is handed over is lost: each battle's loser reaches the agent of that battle. */
  lemma HandedParts(b: nat, left: Tree, right: Tree, start: map<int, Status>)
    requires var t := Match(b, left, right); Starts(t, start) && Real(t) && Drawn(t)
    ensures Starts(left, start) && Starts(right, start)
    ensures var t, loser := Match(b, left, right), Loser(b, Enter(left, start), Enter(right, start));
            && Handed(t, start) == Handed(left, start) + Handed(right, start) + map[FifoOf(b) := Restored(loser)]
            && FifoOf(b) !in Handed(left, start) && FifoOf(b) !in Handed(right, start)
            && Handed(left, start).Keys !! Handed(right, start).Keys
  {
    HandedApart(left, right, start);
    NotHanded(left, b, start);
    NotHanded(right, b, start);
    RealLoser(b, left, right, start);
    hide FifoOf, FeederOf, Enter, Loser, Restored;
  }

  lemma RealLoser(b: nat, left: Tree, right: Tree, start: map<int, Status>)
    requires Starts(left, start) && Starts(right, start) && Real(left) && Real(right)
    ensures Loser(b, Enter(left, start), Enter(right, start)).leaf < 8
  {
    LoserIsEither(b, Enter(left, start), Enter(right, start));
    RealBelow(left, Enter(left, start).leaf);
    RealBelow(right, Enter(right, start).leaf);
  }
}
