/** The championship played battle by battle, and how often each player loses in it. */
module Elimination {
  import opened Battle
  import opened Bracket

  /** The eight real players as player_status.txt must list them. */
  ghost predicate Players(stats: map<int, Status>)
  {
    forall j: nat :: j < 8 ==> j in stats && Able(stats[j]) && stats[j].id == j
  }

  lemma ZoneAStarts(stats: map<int, Status>)
    requires Players(stats)
    ensures Starts(ZONE_A, stats)
  {
    ZonesAreDrawn();
  }

  // ----- each agent gets one loser

  /** A player that is handed over has all its points again. */
  lemma {:induction false} HandedFresh(t: Tree, start: map<int, Status>, a: int)
    requires Starts(t, start) && a in Handed(t, start)
    ensures var h := Handed(t, start)[a];
            Able(h) && exists j :: P(j) in Nodes(t) && h.id == start[j].id && h.hp == start[j].hp
                                   && h.atk == start[j].atk && h.attr == start[j].attr
  {
    match t
    case Entry(_) =>
    case Match(b, left, right) =>
      var e0, e1 := Enter(left, start), Enter(right, start);
      if Handed(t, start)[a] == Restored(Loser(b, e0, e1)) {
        LoserPlayer(b, e0, e1);
        assert P(e0.leaf) in Nodes(t) && P(e1.leaf) in Nodes(t);
      } else if a in Handed(right, start) {
        HandedFresh(right, start, a);
      } else {
        HandedFresh(left, start, a);
      }
  }

  lemma LoserPlayer(b: nat, e0: Entrant, e1: Entrant)
    requires Able(e0.status) && Able(e1.status)
    ensures var l := Loser(b, e0, e1);
            Same(l, e0) || Same(l, e1)
  {
    FightKeepsPlayers(e0.status, e1.status, b);
  }

  /** The agents that get a player are those of the tree's battles. */
  lemma {:induction false} HandedExactly(t: Tree, start: map<int, Status>, a: int)
    requires Starts(t, start) && Real(t) && Drawn(t)
    ensures a in Handed(t, start) <==> FeederOf(a) >= 0 && B(FeederOf(a)) in Nodes(t) && FifoOf(FeederOf(a)) == a
  {
    match t
    case Entry(_) =>
    case Match(b, left, right) =>
      HandedParts(b, left, right, start);
      HandedExactly(left, start, a);
      HandedExactly(right, start, a);
      hide FifoOf, FeederOf, Enter, Loser, Handed;
      assert FifoOf(b) >= 8 && FeederOf(FifoOf(b)) == b;
  }

  /** Each of the seven losers of zone A goes to an agent of its own, with the points it started with;
      so zone B can start.  Who loses in zone B goes to no agent. */
  lemma ZoneBStarts(stats: map<int, Status>)
    requires Players(stats)
    ensures Starts(ZONE_A, stats) && Starts(ZONE_B, Handed(ZONE_A, stats))
    ensures var h := Handed(ZONE_A, stats);
            && (forall a :: a in h <==> 8 <= a < 15)
            && (forall a :: 8 <= a < 15 ==>
                  && h[a].id < 8 && h[a].hp == stats[h[a].id].hp
                  && h[a].atk == stats[h[a].id].atk && h[a].attr == stats[h[a].id].attr)
            && Handed(ZONE_B, h) == map[]
  {
    ZonesAreDrawn();
    ZoneAStarts(stats);
    hide Handed, Drawn, Real, Agents, Nodes, Starts;
    var h := Handed(ZONE_A, stats);
    forall a ensures a in h <==> 8 <= a < 15 {
      HandedExactly(ZONE_A, stats, a);
      FeederTable(a);
    }
    forall a | 8 <= a < 15
      ensures Able(h[a]) && h[a].id < 8 && h[a].hp == stats[h[a].id].hp
      ensures h[a].atk == stats[h[a].id].atk && h[a].attr == stats[h[a].id].attr
    {
      HandedFresh(ZONE_A, stats, a);
    }
    StartsFrom(ZONE_B, h);
    AgentsHandNothing(ZONE_B, h);
  }

  lemma FeederTable(a: int)
    ensures FeederOf(a) >= 0 && B(FeederOf(a)) in Nodes(ZONE_A) && FifoOf(FeederOf(a)) == a <==> 8 <= a < 15
  {
    ZoneADrawn();
    hide Nodes;
  }

  lemma StartsFrom(t: Tree, start: map<int, Status>)
    requires forall j :: P(j) in Nodes(t) ==> j in start && Able(start[j])
    ensures Starts(t, start)
  {
  }

  // ----- the champion and the losses

  /** Battle A, between the winners of the two zones. */
  ghost function Final(stats: map<int, Status>): Bout
    requires Players(stats)
  {
    ZoneBStarts(stats);
    Fight(Enter(ZONE_A, stats).status, Enter(ZONE_B, Handed(ZONE_A, stats)).status, 0)
  }

  ghost function Champion(stats: map<int, Status>): nat
    requires Players(stats)
  {
    Final(stats).At(Final(stats).attacker).id
  }

  function Is(status: Status, p: nat): nat
  {
    if status.id == p then 1 else 0
  }

  /** How often player p starts in a tree, and how many battles of the tree it loses. */
  ghost function Starting(t: Tree, start: map<int, Status>, p: nat): nat
    requires Starts(t, start)
  {
    match t
    case Entry(j) => Is(start[j], p)
    case Match(_, left, right) => Starting(left, start, p) + Starting(right, start, p)
  }

  ghost function Lost(t: Tree, start: map<int, Status>, p: nat): nat
    requires Starts(t, start)
  {
    match t
    case Entry(_) => 0
    case Match(b, left, right) =>
      Lost(left, start, p) + Lost(right, start, p)
      + Is(Loser(b, Enter(left, start), Enter(right, start)).status, p)
  }

  /** In a tree everybody loses once for each start, but the player that comes out of it. */
  lemma {:induction false} EachStartLoses(t: Tree, start: map<int, Status>, p: nat)
    requires Starts(t, start)
    ensures Starting(t, start, p) == Lost(t, start, p) + Is(Enter(t, start).status, p)
  {
    match t
    case Entry(_) =>
    case Match(b, left, right) =>
      EachStartLoses(left, start, p);
      EachStartLoses(right, start, p);
      FightKeepsPlayers(Enter(left, start).status, Enter(right, start).status, b);
      hide Fight;
  }

  /** The losers of a battle among real players are those that its agents get. */
  lemma LosersAreHanded(b: nat, left: Tree, right: Tree, start: map<int, Status>, h: map<int, Status>, p: nat)
    requires var t := Match(b, left, right); Starts(t, start) && Real(t) && Drawn(t) && Within(Handed(t, start), h)
    ensures Starts(left, start) && Within(Handed(left, start), h)
    ensures Starts(right, start) && Within(Handed(right, start), h)
    ensures FifoOf(b) in h
    ensures Lost(Match(b, left, right), start, p)
         == Lost(left, start, p) + Lost(right, start, p) + Is(h[FifoOf(b)], p)
  {
    hide FifoOf, FeederOf, Enter, Loser, Handed, Real, Drawn, Nodes, Starts, Restored;
    var t := Match(b, left, right);
    HandedParts(b, left, right, start);
    var loser := Loser(b, Enter(left, start), Enter(right, start));
    assert FifoOf(b) in Handed(t, start) && h[FifoOf(b)] == Restored(loser);
    RestoredId(loser);
  }

  lemma RestoredId(e: Entrant)
    ensures Restored(e).id == e.status.id
  {
  }

  /** A battle between two battles of players that just start. */
  predicate IsQuarter(t: Tree)
  {
    && t.Match? && t.left.Match? && t.right.Match?
    && t.left.left.Entry? && t.left.right.Entry? && t.right.left.Entry? && t.right.right.Entry?
  }

  lemma QuarterLosers(t: Tree, start: map<int, Status>, h: map<int, Status>, p: nat)
    requires IsQuarter(t) && Starts(t, start) && Real(t) && Drawn(t) && Within(Handed(t, start), h)
    ensures FifoOf(t.b) in h && FifoOf(t.left.b) in h && FifoOf(t.right.b) in h
    ensures Lost(t, start, p) == Is(h[FifoOf(t.b)], p) + Is(h[FifoOf(t.left.b)], p) + Is(h[FifoOf(t.right.b)], p)
  {
    var l, r := t.left, t.right;
    LosersAreHanded(t.b, l, r, start, h, p);
    assert Real(l) && Real(r) && Drawn(l) && Drawn(r);
    assert Match(l.b, l.left, l.right) == l && Match(r.b, r.left, r.right) == r;
    hide FifoOf, FeederOf, Handed, Within, Drawn, Real, Starts, Is, Enter, Loser, Nodes;
    LosersAreHanded(l.b, l.left, l.right, start, h, p);
    LosersAreHanded(r.b, r.left, r.right, start, h, p);
  }

  lemma SemiLosers(b: nat, l: Tree, r: Tree, start: map<int, Status>, h: map<int, Status>, p: nat)
    requires IsQuarter(l) && IsQuarter(r)
    requires var t := Match(b, l, r); Starts(t, start) && Real(t) && Drawn(t) && Within(Handed(t, start), h)
    ensures FifoOf(b) in h && FifoOf(l.b) in h && FifoOf(l.left.b) in h && FifoOf(l.right.b) in h
    ensures FifoOf(r.b) in h && FifoOf(r.left.b) in h && FifoOf(r.right.b) in h
    ensures Lost(Match(b, l, r), start, p)
         == Is(h[FifoOf(b)], p) + (Is(h[FifoOf(l.b)], p) + Is(h[FifoOf(l.left.b)], p) + Is(h[FifoOf(l.right.b)], p))
          + (Is(h[FifoOf(r.b)], p) + Is(h[FifoOf(r.left.b)], p) + Is(h[FifoOf(r.right.b)], p))
  {
    LosersAreHanded(b, l, r, start, h, p);
    assert Real(l) && Real(r) && Drawn(l) && Drawn(r);
    hide FifoOf, FeederOf, Handed, Within, Drawn, Real, Starts, Is, Enter, Loser, Nodes, Lost;
    QuarterLosers(l, start, h, p);
    QuarterLosers(r, start, h, p);
  }

  /** How many agents get player p. */
  ghost function Received(h: map<int, Status>, p: nat): nat
    requires forall a :: 8 <= a < 15 ==> a in h
  {
    Is(h[8], p) + Is(h[9], p) + Is(h[10], p) + Is(h[11], p) + Is(h[12], p) + Is(h[13], p) + Is(h[14], p)
  }

  lemma FifoTable()
    ensures FifoOf(1) == 14 && FifoOf(3) == 10 && FifoOf(4) == 13
    ensures FifoOf(6) == 8 && FifoOf(7) == 11 && FifoOf(8) == 9 && FifoOf(9) == 12
  {
  }

  lemma ZoneALosers(stats: map<int, Status>, p: nat)
    requires Players(stats) && Starts(ZONE_A, stats)
    requires var h := Handed(ZONE_A, stats); forall a :: 8 <= a < 15 ==> a in h
    ensures Lost(ZONE_A, stats, p) == Received(Handed(ZONE_A, stats), p)
  {
    hide FifoOf, FeederOf, Handed, Lost, Drawn, Real, Nodes, Is, Starts, Enter, Players, Child;
    ZoneADrawn();
    FifoTable();
    var h := Handed(ZONE_A, stats);
    SemiLosers(1, ZONE_A.left, ZONE_A.right, stats, h, p);
  }

  /** Each real player starts once in zone A. */
  lemma ZoneAStarting(stats: map<int, Status>, p: nat)
    requires Players(stats) && Starts(ZONE_A, stats) && p < 8
    ensures Starting(ZONE_A, stats, p) == 1
  {
    QuarterStarting(3, 6, 7, 0, stats, p);
    QuarterStarting(4, 8, 9, 4, stats, p);
  }

  lemma QuarterStarting(b: nat, c: nat, d: nat, i: nat, stats: map<int, Status>, p: nat)
    requires i <= 4 && Players(stats)
    ensures var t := Match(b, Match(c, Entry(i), Entry(i + 1)), Match(d, Entry(i + 2), Entry(i + 3)));
            Starts(t, stats) && Starting(t, stats, p) == if i <= p < i + 4 then 1 else 0
  {
    var l, r := Match(c, Entry(i), Entry(i + 1)), Match(d, Entry(i + 2), Entry(i + 3));
    assert Nodes(Match(b, l, r)) == {B(b)} + Nodes(l) + Nodes(r);
    assert Starts(l, stats) && Starts(r, stats);
    assert Starting(l, stats, p) == Is(stats[i], p) + Is(stats[i + 1], p);
    assert Starting(r, stats, p) == Is(stats[i + 2], p) + Is(stats[i + 3], p);
  }

  /** Each agent starts once in zone B. */
  lemma ZoneBStarting(h: map<int, Status>, p: nat)
    requires Starts(ZONE_B, h) && forall a :: 8 <= a < 15 ==> a in h
    ensures Starting(ZONE_B, h, p) == Received(h, p)
  {
    var f := ZONE_B.left;
    StartsParts(ZONE_B, h);
    StartsParts(f, h);
    hide Is, Starts, Nodes, Starting;
    TripleStarting(10, 12, 8, 9, 10, h, p);
    TripleStarting(11, 13, 11, 12, 13, h, p);
    StartingParts(ZONE_B, h, p);
    StartingParts(f, h, p);
    StartingEntry(14, h, p);
    assert ZONE_B.right == Entry(14) && f.left == Match(10, Match(12, Entry(8), Entry(9)), Entry(10));
    assert f.right == Match(11, Match(13, Entry(11), Entry(12)), Entry(13));
    assert Starting(ZONE_B.right, h, p) == Is(h[14], p);
    assert Starting(f.left, h, p) == Is(h[8], p) + Is(h[9], p) + Is(h[10], p);
    assert Starting(f.right, h, p) == Is(h[11], p) + Is(h[12], p) + Is(h[13], p);
  }

  lemma StartsParts(t: Tree, h: map<int, Status>)
    requires Starts(t, h) && t.Match?
    ensures Starts(t.left, h) && Starts(t.right, h)
  {
  }

  lemma StartingParts(t: Tree, h: map<int, Status>, p: nat)
    requires Starts(t, h) && t.Match? && Starts(t.left, h) && Starts(t.right, h)
    ensures Starting(t, h, p) == Starting(t.left, h, p) + Starting(t.right, h, p)
  {
  }

  lemma StartingEntry(j: nat, h: map<int, Status>, p: nat)
    requires Starts(Entry(j), h)
    ensures j in h && Starting(Entry(j), h, p) == Is(h[j], p)
  {
    assert P(j) in Nodes(Entry(j));
  }

  lemma TripleStarting(b: nat, c: nat, i: nat, j: nat, k: nat, h: map<int, Status>, p: nat)
    requires Starts(Match(b, Match(c, Entry(i), Entry(j)), Entry(k)), h)
    ensures i in h && j in h && k in h
    ensures Starting(Match(b, Match(c, Entry(i), Entry(j)), Entry(k)), h, p) == Is(h[i], p) + Is(h[j], p) + Is(h[k], p)
  {
    var l := Match(c, Entry(i), Entry(j));
    var t := Match(b, l, Entry(k));
    StartsParts(t, h);
    StartsParts(l, h);
    StartingEntry(i, h, p);
    StartingEntry(j, h, p);
    StartingEntry(k, h, p);
    hide Is, Starts, Nodes, Starting;
    StartingParts(t, h, p);
    StartingParts(l, h, p);
  }

  /** The battles that player p loses in the whole championship. */
  ghost function Losses(stats: map<int, Status>, p: nat): nat
    requires Players(stats)
  {
    ZoneBStarts(stats);
    Lost(ZONE_A, stats, p) + Lost(ZONE_B, Handed(ZONE_A, stats), p)
    + Is(Final(stats).At(Other(Final(stats).attacker)), p)
  }

  /** Double elimination: the champion has lost once if it came through zone B and never otherwise;
      every other player has lost twice, except a player that is beaten first in battle A. */
  lemma DoubleElimination(stats: map<int, Status>, p: nat)
    requires Players(stats) && p < 8
    ensures Starts(ZONE_A, stats)
    ensures var unbeaten := Enter(ZONE_A, stats).status.id;
            Losses(stats, p) == if p == Champion(stats) then (if p == unbeaten then 0 else 1)
                                else if p == unbeaten then 1 else 2
  {
    hide Received, Starting, Lost, Enter, Handed, Final, Players, Nodes, Starts, Drawn;
    ZoneBStarts(stats);
    ZoneALosers(stats, p);
    ZoneAStarting(stats, p);
    var h := Handed(ZONE_A, stats);
    ZoneBStarting(h, p);
    EachStartLoses(ZONE_A, stats, p);
    EachStartLoses(ZONE_B, h, p);
    FinalIds(stats);
  }

  lemma FinalIds(stats: map<int, Status>)
    requires Players(stats)
    ensures Starts(ZONE_A, stats) && Starts(ZONE_B, Handed(ZONE_A, stats))
    ensures var u, v := Enter(ZONE_A, stats).status.id, Enter(ZONE_B, Handed(ZONE_A, stats)).status.id;
            var loser := Final(stats).At(Other(Final(stats).attacker)).id;
            (Champion(stats) == u && loser == v) || (Champion(stats) == v && loser == u)
  {
    ZoneBStarts(stats);
    FightKeepsPlayers(Enter(ZONE_A, stats).status, Enter(ZONE_B, Handed(ZONE_A, stats)).status, 0);
    hide Enter, Handed, Fight;
  }
}
