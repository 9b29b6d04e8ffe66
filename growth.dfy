/**
 * The growth gate and the growth step: a player may grow once every two
 * hours; growing adds two drawn deltas to attack and defense.
 */
module Growth {
  import opened Players

  /** Two hours, in seconds. */
  const GrowCooldown: int := 2 * 60 * 60

  /** Bounds of the two uniform integer draws of a growth. */
  const MinAttackChange: int := -2
  const MaxAttackChange: int := 13
  const MinDefenseChange: int := -2
  const MaxDefenseChange: int := 5

  predicate ChangesInRange(attackChange: int, defenseChange: int) {
    MinAttackChange <= attackChange <= MaxAttackChange &&
    MinDefenseChange <= defenseChange <= MaxDefenseChange
  }

  /** The gate checked before every growth. */
  predicate CanGrow(now: int, lastGrow: int)
    ensures CanGrow(now, lastGrow) <==> now >= lastGrow + GrowCooldown
  {
    now - lastGrow >= GrowCooldown
  }

  /** Seconds still to wait; zero or negative once the gate is open. */
  function Remaining(now: int, lastGrow: int): (r: int)
    ensures r <= 0 <==> CanGrow(now, lastGrow)
    ensures lastGrow <= now ==> r <= GrowCooldown
    ensures now + r == lastGrow + GrowCooldown
  {
    GrowCooldown - (now - lastGrow)
  }

  /** What the cooldown text shows: ready, or hours, minutes and seconds left. */
  datatype Cooldown = Ready | Wait(hours: nat, minutes: nat, seconds: nat)

  function CooldownText(now: int, lastGrow: int): (c: Cooldown)
    ensures c.Ready? <==> Remaining(now, lastGrow) <= 0
    ensures c.Wait? ==>
      c.minutes < 60 && c.seconds < 60 &&
      c.hours * 3600 + c.minutes * 60 + c.seconds == Remaining(now, lastGrow)
  {
    var remain := Remaining(now, lastGrow);
    if remain <= 0 then Ready
    else
      var hours, rest := remain / 3600, remain % 3600;
      assert remain == hours * 3600 + rest;
      assert rest == (rest / 60) * 60 + rest % 60;
      assert rest % 60 == remain % 60 by { SplitMod(hours, rest); }
      Wait(hours, rest / 60, remain % 60)
  }

  /** A multiple of 3600 does not change a remainder modulo 60. */
  lemma SplitMod(hours: int, rest: int)
    requires hours >= 0 && 0 <= rest
    ensures (hours * 3600 + rest) % 60 == rest % 60
  {
    assert hours * 3600 + rest == (hours * 60 + rest / 60) * 60 + rest % 60;
  }

  /** The two checks in the source agree: growth is allowed exactly when the
      cooldown text says it is. */
  lemma CanGrowIffReady(now: int, lastGrow: int)
    ensures CanGrow(now, lastGrow) <==> CooldownText(now, lastGrow).Ready?
  {
  }

  /** With a timestamp not in the future, at most two hours are ever shown,
      and two full hours only right after growing. */
  lemma WaitAtMostTwoHours(now: int, lastGrow: int)
    requires lastGrow <= now
    ensures CooldownText(now, lastGrow).Wait? ==> CooldownText(now, lastGrow).hours <= 2
    ensures CooldownText(now, lastGrow) == Wait(2, 0, 0) <==> now == lastGrow
  {
  }

  /** What a growth reports: the two draws and the stats now stored. */
  datatype GrowthResult = GrowthResult(attackChange: int, defenseChange: int, newAttack: int, newDefense: int)

  /** The record after a growth at time `now`. */
  function Grown(p: Player, now: int, attackChange: int, defenseChange: int): (q: Player)
    ensures q.attack - p.attack == attackChange && q.defense - p.defense == defenseChange
    ensures q.wins == p.wins && q.losses == p.losses
    ensures !CanGrow(now, q.lastGrow)
    ensures forall t :: CanGrow(t, q.lastGrow) <==> t >= now + GrowCooldown
  {
    p.(attack := p.attack + attackChange, defense := p.defense + defenseChange, lastGrow := now)
  }
}
