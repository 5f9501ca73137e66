/** One battle of the championship: the status record, the attacks and the playing loop. */
module Battle {

  /** The battles A to N are numbered from 0, as current_battle_id - 65; attr is 0 for FIRE, 1 for
      GRASS and 2 for WATER. */
  datatype Status = Status(id: nat, hp: int, atk: int, attr: int, cur: int, ended: bool)

  /** The two children of a battle, with the indices 0 and 1. */
  datatype Side = Left | Right

  function Other(side: Side): Side
  {
    if side.Left? then Right else Left
  }

  /** The two players of a battle and the last one to attack. */
  datatype Bout = Bout(p0: Status, p1: Status, attacker: Side) {
    function At(side: Side): Status
    {
      if side.Left? then p0 else p1
    }
  }

  const BATTLE_ATTR := [0, 1, 2, 2, 0, 0, 0, 1, 2, 1, 1, 1, 0, 2]

  function Attr(b: nat): int
  {
    if b < 14 then BATTLE_ATTR[b] else 0
  }

  /** The attack counts twice for a player whose attribute is that of the battle. */
  function Damage(p: Status, b: nat): int
  {
    if p.attr == Attr(b) then p.atk * 2 else p.atk
  }

  /** The player with fewer points attacks first; of two with equal points, the one with the smaller id. */
  function FirstAttacker(p0: Status, p1: Status): Side
  {
    if p0.hp > p1.hp || (p0.hp == p1.hp && p0.id > p1.id) then Right else Left
  }

  /** What play_an_attack leaves of the attacker and of the attacked. */
  function Attack(a: Status, d: Status, b: nat): (Status, Status)
  {
    var hp := d.hp - Damage(a, b);
    if hp <= 0 then (a.(ended := true), d.(hp := hp, ended := true)) else (a, d.(hp := hp))
  }

  function AttackBy(p0: Status, p1: Status, attacker: Side, b: nat): Bout
  {
    if attacker.Left? then
      var (a, d) := Attack(p0, p1, b);
      Bout(a, d, Left)
    else
      var (a, d) := Attack(p1, p0, b);
      Bout(d, a, Right)
  }

  /** One pass of the playing loop. */
  function PlayRound(p0: Status, p1: Status, b: nat): Bout
  {
    var q0, q1 := p0.(cur := b), p1.(cur := b);
    var first := FirstAttacker(q0, q1);
    var o := AttackBy(q0, q1, first, b);
    if o.At(Other(first)).hp <= 0 then o else AttackBy(o.p0, o.p1, Other(first), b)
  }

  /** A player that may enter a battle. */
  predicate Able(p: Status)
  {
    p.hp >= 1 && p.atk >= 1 && !p.ended
  }

  /** The battle up to its end; the players send each status back as they received it. */
  function Fight(p0: Status, p1: Status, b: nat): (o: Bout)
    requires Able(p0) && Able(p1)
    ensures o.p0.ended && o.p1.ended && o.At(o.attacker).hp > 0 >= o.At(Other(o.attacker)).hp
    decreases p0.hp + p1.hp
  {
    var o := PlayRound(p0, p1, b);
    if o.p0.ended then o else Fight(o.p0, o.p1, b)
  }

  function Rounds(p0: Status, p1: Status, b: nat): nat
    requires Able(p0) && Able(p1)
    decreases p0.hp + p1.hp
  {
    var o := PlayRound(p0, p1, b);
    if o.p0.ended then 1 else 1 + Rounds(o.p0, o.p1, b)
  }

  /** A battle changes nothing but the points, which fall, and the two marks. */
  lemma {:induction false} FightKeepsPlayers(p0: Status, p1: Status, b: nat)
    requires Able(p0) && Able(p1)
    ensures var o := Fight(p0, p1, b);
            && o.p0 == p0.(hp := o.p0.hp, cur := b, ended := true) && o.p0.hp <= p0.hp
            && o.p1 == p1.(hp := o.p1.hp, cur := b, ended := true) && o.p1.hp <= p1.hp
    decreases p0.hp + p1.hp
  {
    hide Attr;
    var o := PlayRound(p0, p1, b);
    if !o.p0.ended {
      FightKeepsPlayers(o.p0, o.p1, b);
    }
  }

  // ----- closed form

  /** The attacks of strength d that take hp points: hp / d, rounded up. */
  function Blows(hp: int, d: int): int
    requires d >= 1
  {
    (hp + d - 1) / d
  }

  /** What is left of hp points after k attacks of strength d. */
  function Hit(hp: int, k: int, d: int): int
  {
    hp - k * d
  }

  lemma HitLess(hp: int, k: int, d: int)
    ensures Hit(hp - d, k - 1, d) == Hit(hp, k, d)
    ensures Hit(hp, 0, d) == hp && Hit(hp, 1, d) == hp - d
  {
  }

  function Min(a: int, b: int): int
  {
    if a < b then a else b
  }

  lemma BlowsOne(hp: int, d: int)
    requires hp >= 1 && d >= 1
    ensures Blows(hp, d) >= 1 && (Blows(hp, d) == 1 <==> hp <= d)
  {
    if hp <= d {
      assert hp + d - 1 == d + (hp - 1);
      Quotient(hp + d - 1, d, 1);
    } else {
      BlowsLess(hp, d);
      if Blows(hp - d, d) < 1 {
        NonNegative(hp - 1, d);
      } else {
        Positive(hp - 1, d);
      }
    }
  }

  lemma Quotient(n: int, d: int, k: int)
    requires d >= 1 && k * d <= n < k * d + d
    ensures n / d == k
  {
    var q := n / d;
    assert n == q * d + n % d;
    NextMultiple(q, k, d);
    NextMultiple(k, q, d);
  }

  lemma {:induction false} NextMultiple(a: int, b: int, d: int)
    requires d >= 1
    ensures a < b ==> a * d + d <= b * d
    decreases b - a
  {
    if a < b {
      assert b * d == (b - 1) * d + d;
      NextMultiple(a, b - 1, d);
    }
  }

  lemma NonNegative(n: int, d: int)
    requires n >= 0 && d >= 1
    ensures n / d >= 0
  {
  }

  lemma Positive(n: int, d: int)
    requires n >= d >= 1
    ensures n / d >= 1
  {
  }

  lemma BlowsLess(hp: int, d: int)
    requires d >= 1
    ensures Blows(hp - d, d) == Blows(hp, d) - 1
  {
    var n := hp + d - 1;
    var q := n / d;
    assert n == q * d + n % d;
    assert (q - 1) * d == q * d - d;
    Quotient(n - d, d, q - 1);
  }

  /** The result of a battle without its rounds. */
  function Closed(p0: Status, p1: Status, b: nat): Bout
    requires Able(p0) && Able(p1)
  {
    var d0, d1 := Damage(p0, b), Damage(p1, b);
    var k0, k1 := Blows(p0.hp, d1), Blows(p1.hp, d0);
    var k := Min(k0, k1);
    var first := FirstAttacker(p0.(hp := Hit(p0.hp, k - 1, d1)), p1.(hp := Hit(p1.hp, k - 1, d0)));
    var winner := if k0 > k1 then Left else if k1 > k0 then Right else first;
    // In the last round the winner is spared if it attacks first.
    var hits0 := if winner.Left? && first.Left? then k - 1 else k;
    var hits1 := if winner.Right? && first.Right? then k - 1 else k;
    Bout(p0.(hp := Hit(p0.hp, hits0, d1), cur := b, ended := true),
         p1.(hp := Hit(p1.hp, hits1, d0), cur := b, ended := true), winner)
  }

  lemma LastRound(p0: Status, p1: Status, b: nat)
    requires Able(p0) && Able(p1) && PlayRound(p0, p1, b).p0.ended
    ensures PlayRound(p0, p1, b) == Closed(p0, p1, b)
    ensures Min(Blows(p0.hp, Damage(p1, b)), Blows(p1.hp, Damage(p0, b))) == 1
  {
    var d0, d1 := Damage(p0, b), Damage(p1, b);
    hide Blows, Hit, Attr;
    BlowsOne(p0.hp, d1);
    BlowsOne(p1.hp, d0);
    HitLess(p0.hp, 1, d1);
    HitLess(p1.hp, 1, d0);
  }

  lemma EarlierRound(p0: Status, p1: Status, b: nat)
    requires Able(p0) && Able(p1)
    ensures var o := PlayRound(p0, p1, b);
            !o.p0.ended ==>
              && !o.p1.ended && Able(o.p0) && Able(o.p1) && Closed(o.p0, o.p1, b) == Closed(p0, p1, b)
              && Min(Blows(o.p0.hp, Damage(o.p1, b)), Blows(o.p1.hp, Damage(o.p0, b))) + 1
              == Min(Blows(p0.hp, Damage(p1, b)), Blows(p1.hp, Damage(p0, b)))
  {
    var d0, d1 := Damage(p0, b), Damage(p1, b);
    hide Blows, Hit, Attr;
    var o := PlayRound(p0, p1, b);
    if !o.p0.ended {
      assert o.p0 == p0.(hp := p0.hp - d1, cur := b) && o.p1 == p1.(hp := p1.hp - d0, cur := b);
      BlowsLess(p0.hp, d1);
      BlowsLess(p1.hp, d0);
      var k := Min(Blows(p0.hp, d1), Blows(p1.hp, d0));
      HitLess(p0.hp, k, d1);
      HitLess(p0.hp, k - 1, d1);
      HitLess(p1.hp, k, d0);
      HitLess(p1.hp, k - 1, d0);
    }
  }

  /** The number of rounds, the winner and every point count of a battle in closed form. */
  lemma {:induction false} FightIsClosed(p0: Status, p1: Status, b: nat)
    requires Able(p0) && Able(p1)
    ensures Fight(p0, p1, b) == Closed(p0, p1, b)
    ensures Rounds(p0, p1, b) == Min(Blows(p0.hp, Damage(p1, b)), Blows(p1.hp, Damage(p0, b)))
    decreases p0.hp + p1.hp
  {
    hide Closed, PlayRound, Blows;
    var o := PlayRound(p0, p1, b);
    if o.p0.ended {
      LastRound(p0, p1, b);
    } else {
      EarlierRound(p0, p1, b);
      RoundShortens(p0, p1, b);
      FightIsClosed(o.p0, o.p1, b);
    }
  }

  lemma RoundShortens(p0: Status, p1: Status, b: nat)
    requires Able(p0) && Able(p1)
    ensures var o := PlayRound(p0, p1, b); o.p0.hp + o.p1.hp < p0.hp + p1.hp
  {
    hide Attr;
  }

  // ----- the same in numbers

  /** One round, for players with attacks of strength d0 and d1: the player with fewer points attacks first, of
      two with equal points the one with the smaller id; if that takes the last points of the other one, the
      battle is over and the first attacker unhurt, and otherwise it is hit in turn. */
  lemma RoundInNumbers(p0: Status, p1: Status, b: nat, d0: int, d1: int)
    requires Able(p0) && Able(p1) && IsDamage(p0, b, d0) && IsDamage(p1, b, d1)
    ensures var o := PlayRound(p0, p1, b);
            var first := if p0.hp < p1.hp || (p0.hp == p1.hp && p0.id <= p1.id) then Left else Right;
            var hits0 := if first.Left? && p1.hp <= d0 then 0 else 1;
            var hits1 := if first.Right? && p0.hp <= d1 then 0 else 1;
            var over := p0.hp <= hits0 * d1 || p1.hp <= hits1 * d0;
            && o.p0 == p0.(hp := p0.hp - hits0 * d1, cur := b, ended := over)
            && o.p1 == p1.(hp := p1.hp - hits1 * d0, cur := b, ended := over)
            && (o.attacker == first <==> hits0 == 0 || hits1 == 0)
  {
    DamageIs(p0, b, d0);
    DamageIs(p1, b, d1);
    hide Damage;
  }

  /** The attack of a player in a battle, by the attributes of the battles A to N: twice its value if the
      two attributes are the same. */
  predicate IsDamage(p: Status, b: nat, d: int)
  {
    b < 14 && d == if p.attr == [0, 1, 2, 2, 0, 0, 0, 1, 2, 1, 1, 1, 0, 2][b] then 2 * p.atk else p.atk
  }

  lemma DamageIs(p: Status, b: nat, d: int)
    requires IsDamage(p, b, d)
    ensures d == Damage(p, b)
  {
  }

  /** Where k is the number of attacks that take hp points. */
  lemma BlowsIs(hp: int, d: int, k: int)
    requires d >= 1 && (k - 1) * d < hp <= k * d
    ensures Blows(hp, d) == k
  {
    assert (k - 1) * d == k * d - d;
    Quotient(hp + d - 1, d, k);
  }

  /** A whole battle: if k0 attacks of the right player are as many as it takes to beat the left one, and k1
      the other way round, the smaller number is that of the rounds, and who has the larger one wins.  If
      they are equal, the player with fewer points at the start of the last round wins, and at equal points
      the one with the smaller id.  The winner is spared the last attack if it comes first in the last round. */
  lemma FightInNumbers(p0: Status, p1: Status, b: nat, d0: int, d1: int, k0: int, k1: int)
    requires Able(p0) && Able(p1) && IsDamage(p0, b, d0) && IsDamage(p1, b, d1)
    requires (k0 - 1) * d1 < p0.hp <= k0 * d1 && (k1 - 1) * d0 < p1.hp <= k1 * d0
    ensures var o := Fight(p0, p1, b);
            var k := if k0 < k1 then k0 else k1;
            var h0, h1 := p0.hp - (k - 1) * d1, p1.hp - (k - 1) * d0;
            var first := if h0 < h1 || (h0 == h1 && p0.id <= p1.id) then Left else Right;
            && Rounds(p0, p1, b) == k
            && (k0 > k1 ==> o.attacker == Left) && (k0 < k1 ==> o.attacker == Right)
            && (k0 == k1 ==> o.attacker == first)
            && o.p0 == p0.(hp := if o.attacker == first == Left then h0 else h0 - d1, cur := b, ended := true)
            && o.p1 == p1.(hp := if o.attacker == first == Right then h1 else h1 - d0, cur := b, ended := true)
  {
    hide Fight, Rounds, Closed, Blows, Hit;
    FightIsClosed(p0, p1, b);
    DamageIs(p0, b, d0);
    DamageIs(p1, b, d1);
    BlowsIs(p0.hp, d1, k0);
    BlowsIs(p1.hp, d0, k1);
    var k := Min(k0, k1);
    LastHits(p0.hp, k, d1);
    LastHits(p1.hp, k, d0);
    ClosedInNumbers(p0, p1, b, d0, d1, k0, k1, p0.hp - (k - 1) * d1, p1.hp - (k - 1) * d0);
  }

  lemma LastHits(hp: int, k: int, d: int)
    ensures Hit(hp, k - 1, d) == hp - (k - 1) * d && Hit(hp, k, d) == hp - (k - 1) * d - d
  {
  }

  lemma ClosedInNumbers(p0: Status, p1: Status, b: nat, d0: int, d1: int, k0: int, k1: int, h0: int, h1: int)
    requires Able(p0) && Able(p1) && Damage(p0, b) == d0 && Damage(p1, b) == d1
    requires Blows(p0.hp, d1) == k0 && Blows(p1.hp, d0) == k1
    requires Hit(p0.hp, Min(k0, k1) - 1, d1) == h0 && Hit(p1.hp, Min(k0, k1) - 1, d0) == h1
    requires Hit(p0.hp, Min(k0, k1), d1) == h0 - d1 && Hit(p1.hp, Min(k0, k1), d0) == h1 - d0
    ensures var o := Closed(p0, p1, b);
            var first := if h0 < h1 || (h0 == h1 && p0.id <= p1.id) then Left else Right;
            && (k0 > k1 ==> o.attacker == Left) && (k0 < k1 ==> o.attacker == Right)
            && (k0 == k1 ==> o.attacker == first)
            && o.p0 == p0.(hp := if o.attacker == first == Left then h0 else h0 - d1, cur := b, ended := true)
            && o.p1 == p1.(hp := if o.attacker == first == Right then h1 else h1 - d0, cur := b, ended := true)
  {
    hide Damage, Blows, Hit;
  }

  // ----- the playing loop on the records in memory

  class Record {
    var id: nat
    var hp: int
    var atk: int
    var attr: int
    var cur: int
    var ended: bool

    function View(): Status
      reads this
    {
      Status(id, hp, atk, attr, cur, ended)
    }
  }

  /** play_an_attack: the second player's points fall and, if none are left, both records say so. */
  method PlayAnAttack(ptr1: Record, ptr2: Record, b: nat) returns (over: bool)
    requires ptr1 != ptr2
    modifies ptr1`ended, ptr2`hp, ptr2`ended
    ensures (ptr1.View(), ptr2.View()) == Attack(old(ptr1.View()), old(ptr2.View()), b)
    ensures over <==> ptr2.hp <= 0
    ensures b < 14 ==>
              ptr2.hp == old(ptr2.hp) -
                (if ptr1.attr == [0, 1, 2, 2, 0, 0, 0, 1, 2, 1, 1, 1, 0, 2][b] then 2 * ptr1.atk else ptr1.atk)
  {
    var atk := ptr1.atk;
    if ptr1.attr == Attr(b) {
      atk := atk * 2;
    }
    ptr2.hp := ptr2.hp - atk;
    if ptr2.hp <= 0 {
      ptr1.ended := true;
      ptr2.ended := true;
      return true;
    } else {
      return false;
    }
  }

  function SideAt(i: nat): Side
  {
    if i == 0 then Left else Right
  }

  /** The body of the loop; firstAttack is left at the index of the last attacker. */
  method PlayOnce(ptr: array<Record>, b: nat) returns (firstAttack: nat)
    requires ptr.Length == 2 && ptr[0] != ptr[1]
    modifies ptr[0], ptr[1]
    ensures firstAttack < 2
    ensures Bout(ptr[0].View(), ptr[1].View(), SideAt(firstAttack))
         == PlayRound(old(ptr[0].View()), old(ptr[1].View()), b)
  {
    ptr[0].cur := b;
    ptr[1].cur := b;
    firstAttack := if ptr[0].hp > ptr[1].hp || (ptr[0].hp == ptr[1].hp && ptr[0].id > ptr[1].id) then 1 else 0;
    var over := PlayAnAttack(ptr[firstAttack], ptr[1 - firstAttack], b);
    if !over {
      firstAttack := 1 - firstAttack;
      over := PlayAnAttack(ptr[firstAttack], ptr[1 - firstAttack], b);
    }
  }

  /** The playing loop, for children that send every status back unchanged: it ends after the number of
      rounds and with the records and the winner of the closed form. */
  method PlayingLoop(ptr: array<Record>, b: nat) returns (firstAttack: nat, rounds: nat)
    requires ptr.Length == 2 && ptr[0] != ptr[1] && Able(ptr[0].View()) && Able(ptr[1].View())
    modifies ptr[0], ptr[1]
    ensures firstAttack < 2
    ensures Bout(ptr[0].View(), ptr[1].View(), SideAt(firstAttack))
         == Closed(old(ptr[0].View()), old(ptr[1].View()), b)
    ensures var p0, p1 := old(ptr[0].View()), old(ptr[1].View());
            rounds == Min(Blows(p0.hp, Damage(p1, b)), Blows(p1.hp, Damage(p0, b)))
  {
    ghost var p0, p1 := ptr[0].View(), ptr[1].View();
    FightIsClosed(p0, p1, b);
    hide Closed, PlayRound, Blows, Damage;
    firstAttack, rounds := 0, 0;
    while !ptr[0].ended
      invariant firstAttack < 2
      invariant !ptr[0].ended ==> Able(ptr[0].View()) && Able(ptr[1].View())
      invariant !ptr[0].ended ==> Fight(ptr[0].View(), ptr[1].View(), b) == Fight(p0, p1, b)
      invariant !ptr[0].ended ==> rounds + Rounds(ptr[0].View(), ptr[1].View(), b) == Rounds(p0, p1, b)
      invariant ptr[0].ended ==> Bout(ptr[0].View(), ptr[1].View(), SideAt(firstAttack)) == Fight(p0, p1, b)
      invariant ptr[0].ended ==> rounds == Rounds(p0, p1, b)
      decreases if ptr[0].ended then 0 else ptr[0].hp + ptr[1].hp
    {
      EarlierRound(ptr[0].View(), ptr[1].View(), b);
      RoundShortens(ptr[0].View(), ptr[1].View(), b);
      firstAttack := PlayOnce(ptr, b);
      rounds := rounds + 1;
    }
  }
}
