/**
 * Combat: each side rolls damage against the other's defense, the larger
 * damage wins, and one shared bonus pair moves from the loser to the winner.
 *
 * Every random draw is a parameter. A uniform float draw is given in
 * thousandths (`baseMillis == 500` stands for 0.5), and a `random() < p`
 * test is an integer roll in [0, 1000) compared with p in thousandths.
 */
module Combat {
  import opened Players

  /** Chances of a critical hit, a miss and a lucky strike, in thousandths. */
  const CritChance: int := 150
  const MissChance: int := 100
  const LuckyChance: int := 50

  /** The draws made by one damage roll. */
  datatype Draws = Draws(
    baseMillis: int,       // uniform(0.5, 1.8), share of attack dealt
    reductionMillis: int,  // uniform(0.3, 0.8), share of defense absorbed
    critRoll: int,         // random() for the critical hit
    critMillis: int,       // uniform(1.5, 2.5), critical multiplier
    missRoll: int,         // random() for the miss
    luckyRoll: int,        // random() for the lucky strike
    luckyMillis: int)      // uniform(1.2, 2.0), lucky multiplier of attack

  predicate DrawsInRange(d: Draws) {
    500 <= d.baseMillis <= 1800 &&
    300 <= d.reductionMillis <= 800 &&
    0 <= d.critRoll < 1000 &&
    1500 <= d.critMillis <= 2500 &&
    0 <= d.missRoll < 1000 &&
    0 <= d.luckyRoll < 1000 &&
    1200 <= d.luckyMillis <= 2000
  }

  /** Python's round() of num / den: the nearest integer, ties to even. */
  function RoundHalfEven(num: int, den: int): (r: int)
    requires den > 0
    ensures 2 * (num - r * den) <= den && 2 * (r * den - num) <= den
    ensures 2 * (num - r * den) == den || 2 * (r * den - num) == den ==> r % 2 == 0
  {
    var q, m := num / den, num % den;
    assert num == q * den + m && 0 <= m < den;
    assert (q + 1) * den == q * den + den;
    if 2 * m < den then q
    else if 2 * m > den then q + 1
    else if q % 2 == 0 then q
    else q + 1
  }

  /** Floor division brackets its dividend. */
  lemma DivBracket(num: int, den: int)
    requires num >= 0 && den > 0
    ensures num / den >= 0 && (num / den) * den <= num < (num / den) * den + den
  {
  }

  /** Python's int() of num / den: truncation toward zero. */
  function Truncate(num: int, den: int): (r: int)
    requires den > 0
    ensures num >= 0 ==> 0 <= r && r * den <= num < r * den + den
    ensures num < 0 ==> r <= 0 && r * den - den < num <= r * den
  {
    if num >= 0 then
      DivBracket(num, den);
      num / den
    else
      var q := (-num) / den;
      DivBracket(-num, den);
      assert (-q) * den == -(q * den);
      -q
  }

  /** The outcome of one damage roll. */
  datatype Roll = Roll(damage: int, isCrit: bool, isMiss: bool, isLucky: bool)

  /** Damage before any override: at least 1. */
  function BaseDamage(attack: int, defense: int, d: Draws): (r: int)
    ensures r >= 1
    ensures r >= RoundHalfEven(attack * d.baseMillis - defense * d.reductionMillis, 1000)
  {
    var rounded := RoundHalfEven(attack * d.baseMillis - defense * d.reductionMillis, 1000);
    if rounded < 1 then 1 else rounded
  }

  /** A critical hit never lowers positive damage. */
  lemma CritNotLower(base: int, critMillis: int)
    requires base >= 1 && critMillis >= 1500
    ensures Truncate(base * critMillis, 1000) >= base
  {
    assert base * critMillis >= base * 1500;
    assert base * 1500 >= base * 1000 + 500;
    var r := Truncate(base * critMillis, 1000);
    assert base * 1000 < r * 1000 + 1000;
  }

  /** A lucky strike deals at least the attack, when the attack is positive. */
  lemma LuckyAtLeastAttack(attack: int, luckyMillis: int)
    requires attack >= 1 && luckyMillis >= 1200
    ensures Truncate(attack * luckyMillis, 1000) >= attack
  {
    assert attack * luckyMillis >= attack * 1200;
    var r := Truncate(attack * luckyMillis, 1000);
    assert attack * 1000 < r * 1000 + 1000;
  }

  /**
   * One side's damage against the other's defense: a base roll of at least
   * 1, then a critical hit, then a miss (zero damage, no critical), then a
   * lucky strike which only applies when not a miss and returns at once.
   */
  function RollDamage(attack: int, defense: int, d: Draws): (r: Roll)
    requires DrawsInRange(d)
    ensures r.isMiss <==> d.missRoll < MissChance
    ensures r.isMiss ==> r.damage == 0 && !r.isCrit
    ensures r.isLucky <==> !r.isMiss && d.luckyRoll < LuckyChance
    ensures r.isCrit ==> d.critRoll < CritChance
    ensures !r.isMiss ==> (r.isCrit <==> d.critRoll < CritChance)
    ensures r.isLucky && attack >= 1 ==> r.damage >= attack
    ensures !r.isMiss && !r.isLucky ==> r.damage >= 1
    ensures attack >= 1 ==> r.damage >= 0 && (r.damage == 0 <==> r.isMiss)
  {
    var base := BaseDamage(attack, defense, d);
    var isCrit := d.critRoll < CritChance;
    var damage := if isCrit then Truncate(base * d.critMillis, 1000) else base;
    assert isCrit ==> damage >= 1 by { if isCrit { CritNotLower(base, d.critMillis); } }
    var isMiss := d.missRoll < MissChance;
    var damage := if isMiss then 0 else damage;
    var isCrit := if isMiss then false else isCrit;
    var isLucky := d.luckyRoll < LuckyChance;
    if isLucky && !isMiss then
      var lucky := Truncate(attack * d.luckyMillis, 1000);
      assert attack >= 1 ==> lucky >= attack by {
        if attack >= 1 { LuckyAtLeastAttack(attack, d.luckyMillis); }
      }
      Roll(lucky, isCrit, isMiss, true)
    else
      Roll(damage, isCrit, isMiss, false)
  }

  /** A lucky strike ignores defense: with the same draws, a roll that is
      lucky against one defense is the same roll against any other. */
  lemma LuckyIgnoresDefense(attack: int, defense1: int, defense2: int, d: Draws)
    requires DrawsInRange(d) && RollDamage(attack, defense1, d).isLucky
    ensures RollDamage(attack, defense2, d) == RollDamage(attack, defense1, d)
  {
  }

  /** Who won a fight. */
  datatype Outcome = AttackerWins | DefenderWins | Tie {
    /** The same outcome seen with the two sides swapped. */
    function Mirror(): Outcome {
      match this
      case AttackerWins => DefenderWins
      case DefenderWins => AttackerWins
      case Tie => Tie
    }
  }

  /** Strictly greater damage wins; equal damage is a tie. */
  function Judge(attackerDamage: int, defenderDamage: int): (o: Outcome)
    ensures o.AttackerWins? <==> attackerDamage > defenderDamage
    ensures o.DefenderWins? <==> defenderDamage > attackerDamage
    ensures o.Tie? <==> attackerDamage == defenderDamage
  {
    if attackerDamage > defenderDamage then AttackerWins
    else if defenderDamage > attackerDamage then DefenderWins
    else Tie
  }

  /** Bounds of the shared bonus pair drawn once per fight. */
  predicate BonusInRange(bonusAttack: int, bonusDefense: int) {
    2 <= bonusAttack <= 5 && 1 <= bonusDefense <= 3
  }

  /** The winner's record after the fight. */
  function Won(p: Player, bonusAttack: int, bonusDefense: int): (q: Player)
    ensures q.wins + q.losses == p.wins + p.losses + 1 && q.losses == p.losses
    ensures q.attack + q.defense == p.attack + p.defense + bonusAttack + bonusDefense
    ensures q.lastGrow == p.lastGrow
  {
    p.(wins := p.wins + 1, attack := p.attack + bonusAttack, defense := p.defense + bonusDefense)
  }

  /** The loser's record after the fight: no floor on the stats. */
  function Lost(p: Player, bonusAttack: int, bonusDefense: int): (q: Player)
    ensures q.wins + q.losses == p.wins + p.losses + 1 && q.wins == p.wins
    ensures q.attack + q.defense == p.attack + p.defense - bonusAttack - bonusDefense
    ensures q.lastGrow == p.lastGrow
  {
    p.(losses := p.losses + 1, attack := p.attack - bonusAttack, defense := p.defense - bonusDefense)
  }

  /** Both records after the outcome is applied (attacker first). */
  function Settle(attacker: Player, defender: Player, o: Outcome, bonusAttack: int, bonusDefense: int): (r: (Player, Player))
    ensures r.0.attack + r.1.attack == attacker.attack + defender.attack
    ensures r.0.defense + r.1.defense == attacker.defense + defender.defense
    ensures r.0.wins + r.1.wins == attacker.wins + defender.wins + (if o.Tie? then 0 else 1)
    ensures r.0.losses + r.1.losses == attacker.losses + defender.losses + (if o.Tie? then 0 else 1)
    ensures r.0.lastGrow == attacker.lastGrow && r.1.lastGrow == defender.lastGrow
    ensures o.Tie? ==> r == (attacker, defender)
  {
    match o
    case AttackerWins => (Won(attacker, bonusAttack, bonusDefense), Lost(defender, bonusAttack, bonusDefense))
    case DefenderWins => (Lost(attacker, bonusAttack, bonusDefense), Won(defender, bonusAttack, bonusDefense))
    case Tie => (attacker, defender)
  }

  /** Everything a fight produces. */
  datatype FightResult = FightResult(attackerRoll: Roll, defenderRoll: Roll, outcome: Outcome, attacker: Player, defender: Player)

  /** A whole fight: two independent rolls, the judgement and the settlement. */
  function Fight(attacker: Player, defender: Player, d1: Draws, d2: Draws, bonusAttack: int, bonusDefense: int): (r: FightResult)
    requires DrawsInRange(d1) && DrawsInRange(d2)
    ensures r.outcome.AttackerWins? <==> r.attackerRoll.damage > r.defenderRoll.damage
    ensures r.outcome.DefenderWins? <==> r.defenderRoll.damage > r.attackerRoll.damage
    ensures r.attacker.attack + r.defender.attack == attacker.attack + defender.attack
    ensures r.attacker.defense + r.defender.defense == attacker.defense + defender.defense
  {
    var roll1 := RollDamage(attacker.attack, defender.defense, d1);
    var roll2 := RollDamage(defender.attack, attacker.defense, d2);
    var o := Judge(roll1.damage, roll2.damage);
    var settled := Settle(attacker, defender, o, bonusAttack, bonusDefense);
    FightResult(roll1, roll2, o, settled.0, settled.1)
  }

  /** Combat is symmetric: swapping the two sides and their draws mirrors
      the outcome and swaps the rolls and the new records. */
  lemma FightMirror(a: Player, b: Player, d1: Draws, d2: Draws, bonusAttack: int, bonusDefense: int)
    requires DrawsInRange(d1) && DrawsInRange(d2)
    ensures var f := Fight(a, b, d1, d2, bonusAttack, bonusDefense);
            var g := Fight(b, a, d2, d1, bonusAttack, bonusDefense);
            g == FightResult(f.defenderRoll, f.attackerRoll, f.outcome.Mirror(), f.defender, f.attacker)
  {
  }

  /** In a decided fight the loser loses exactly what the winner gains, and
      the loser's stats go strictly down. */
  lemma LoserPaysWinner(attacker: Player, defender: Player, o: Outcome, bonusAttack: int, bonusDefense: int)
    requires BonusInRange(bonusAttack, bonusDefense) && !o.Tie?
    ensures var r := Settle(attacker, defender, o, bonusAttack, bonusDefense);
            var (w, l, w0, l0) := if o.AttackerWins? then (r.0, r.1, attacker, defender) else (r.1, r.0, defender, attacker);
            w.wins == w0.wins + 1 && w.losses == w0.losses &&
            l.losses == l0.losses + 1 && l.wins == l0.wins &&
            w.attack - w0.attack == l0.attack - l.attack == bonusAttack &&
            w.defense - w0.defense == l0.defense - l.defense == bonusDefense &&
            l.attack < l0.attack && l.defense < l0.defense
  {
  }
}
