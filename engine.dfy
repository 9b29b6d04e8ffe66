/**
 * The game engine's shared state and its state-changing operations: the
 * player table (with the order in which ids were first added, which is the
 * order the table is iterated in) and the table of pending challenges.
 * Every call is one atomic step; clock readings and random draws are
 * parameters.
 */
module Engine {
  import opened Wrappers
  import opened Players
  import opened Growth
  import opened Combat
  import opened Challenges
  import opened Leaderboard

  /** What a grow request does: report the cooldown, or grow. */
  datatype GrowOutcome = OnCooldown(wait: Cooldown) | GrewBy(result: GrowthResult)

  /** What a successful accept reports: who challenged, both rolls and who won. */
  datatype FightReport = FightReport(attackerId: string, attackerRoll: Roll, defenderRoll: Roll, outcome: Outcome)

  class Game {
    /** Player id to record. */
    var players: map<string, Player>
    /** Every player id once, in the order it was first added. */
    var order: seq<string>
    /** Fight id to the id of the player who issued the challenge. */
    var pendingFights: map<string, string>

    ghost predicate Valid()
      reads this
    {
      (forall i, j | 0 <= i < j < |order| :: order[i] != order[j]) &&
      (forall i | 0 <= i < |order| :: order[i] in players) &&
      (forall id | id in players :: id in order) &&
      (forall f | f in pendingFights :: pendingFights[f] in players)
    }

    /** An empty game: no players, no challenges. */
    constructor ()
      ensures Valid()
      ensures players == map[] && order == [] && pendingFights == map[]
    {
      players, order, pendingFights := map[], [], map[];
    }

    /** The table as it iterates: each id with its record, in insertion order. */
    function Entries(): (es: seq<Entry>)
      reads this
      requires Valid()
      ensures |es| == |order| && DistinctIds(es)
      ensures forall i | 0 <= i < |es| :: es[i].id == order[i] && es[i].player == players[order[i]]
    {
      seq(|order|, i requires 0 <= i < |order| && order[i] in players reads this => Entry(order[i], players[order[i]]))
    }

    /** The leaderboard over the current table. */
    function Standings(topType: string): (r: TopResult)
      reads this
      requires Valid()
      ensures r == NoData <==> players == map[]
      ensures r.Ranked? ==> DistinctIds(r.rows) && |r.rows| <= TopSize
      ensures r.Ranked? ==> forall i | 0 <= i < |r.rows| ::
                r.rows[i].id in players && players[r.rows[i].id] == r.rows[i].player
    {
      var es := Entries();
      var r := Top(topType, es);
      assert players == map[] <==> es == [] by {
        if players != map[] {
          var id :| id in players;
          assert id in order;
        }
        if es != [] { assert es[0].id in players; }
      }
      assert r.Ranked? ==> forall i | 0 <= i < |r.rows| ::
                r.rows[i].id in players && players[r.rows[i].id] == r.rows[i].player by {
        if r.Ranked? {
          forall i | 0 <= i < |r.rows|
            ensures r.rows[i].id in players && players[r.rows[i].id] == r.rows[i].player
          {
            assert r.rows[i] in multiset(es);
          }
        }
      }
      r
    }

    /** First contact: a new id gets the default record; a known id is left alone. */
    method InitPlayer(id: string)
      requires Valid()
      modifies this
      ensures Valid()
      ensures id in players
      ensures players == if id in old(players) then old(players) else old(players)[id := Default()]
      ensures order == if id in old(players) then old(order) else old(order) + [id]
      ensures pendingFights == old(pendingFights)
    {
      if id !in players {
        players := players[id := Default()];
        order := order + [id];
      }
    }

    /** Adds the two drawn changes to attack and defense and stamps the time. */
    method Grow(id: string, now: int, attackChange: int, defenseChange: int) returns (r: GrowthResult)
      requires Valid() && id in players
      requires ChangesInRange(attackChange, defenseChange)
      modifies this
      ensures Valid()
      ensures players == old(players)[id := Grown(old(players)[id], now, attackChange, defenseChange)]
      ensures r == GrowthResult(attackChange, defenseChange, players[id].attack, players[id].defense)
      ensures order == old(order) && pendingFights == old(pendingFights)
    {
      players := players[id := players[id].(attack := players[id].attack + attackChange)];
      players := players[id := players[id].(defense := players[id].defense + defenseChange)];
      players := players[id := players[id].(lastGrow := now)];
      r := GrowthResult(attackChange, defenseChange, players[id].attack, players[id].defense);
    }

    /** A grow request: create the player if new, then either report the
        time left or grow. */
    method GrowRequest(id: string, now: int, attackChange: int, defenseChange: int) returns (r: GrowOutcome)
      requires Valid()
      requires ChangesInRange(attackChange, defenseChange)
      modifies this
      ensures Valid()
      ensures players.Keys == old(players).Keys + {id}
      ensures var p := if id in old(players) then old(players)[id] else Default();
              && (r.OnCooldown? <==> !CanGrow(now, p.lastGrow))
              && (r.OnCooldown? ==> r.wait.Wait? && r.wait == CooldownText(now, p.lastGrow) && players[id] == p)
              && (r.GrewBy? ==> players[id] == Grown(p, now, attackChange, defenseChange) &&
                                r.result == GrowthResult(attackChange, defenseChange, players[id].attack, players[id].defense))
      ensures forall other | other in old(players) && other != id :: players[other] == old(players)[other]
      ensures order == if id in old(players) then old(order) else old(order) + [id]
      ensures pendingFights == old(pendingFights)
    {
      InitPlayer(id);
      var lastGrow := players[id].lastGrow;
      if !CanGrow(now, lastGrow) {
        CanGrowIffReady(now, lastGrow);
        r := OnCooldown(CooldownText(now, lastGrow));
      } else {
        var g := Grow(id, now, attackChange, defenseChange);
        r := GrewBy(g);
      }
    }

    /** Issues a challenge on behalf of its owner, who is created if new. A
        second challenge from the same owner in the same second gets the same
        id and replaces the first. */
    method OpenChallenge(ownerId: string, now: int) returns (fightId: string)
      requires Valid()
      modifies this
      ensures Valid()
      ensures fightId == FightId(ownerId, now)
      ensures pendingFights == old(pendingFights)[fightId := ownerId]
      ensures players == if ownerId in old(players) then old(players) else old(players)[ownerId := Default()]
      ensures order == if ownerId in old(players) then old(order) else old(order) + [ownerId]
    {
      InitPlayer(ownerId);
      fightId := FightId(ownerId, now);
      pendingFights := pendingFights[fightId := ownerId];
    }

    /**
     * Accepts a pending challenge. A refused accept changes nothing and
     * leaves the challenge open. An accepted one fights, applies the
     * outcome to the two records and closes the challenge.
     */
    method AcceptChallenge(fightId: string, defenderId: string, d1: Draws, d2: Draws,
                           bonusAttack: int, bonusDefense: int)
      returns (r: Result<FightReport, AcceptError>)
      requires Valid()
      requires DrawsInRange(d1) && DrawsInRange(d2) && BonusInRange(bonusAttack, bonusDefense)
      modifies this
      ensures Valid()
      ensures order == old(order)
      ensures r.Failure? ==>
        CheckAccept(old(pendingFights), old(players), fightId, defenderId) == Failure(r.error) &&
        players == old(players) && pendingFights == old(pendingFights)
      ensures r.Success? ==>
        CheckAccept(old(pendingFights), old(players), fightId, defenderId) == Success(r.value.attackerId)
      ensures r.Success? ==>
        var a := r.value.attackerId;
        var f := Fight(old(players)[a], old(players)[defenderId], d1, d2, bonusAttack, bonusDefense);
        && a != defenderId
        && r.value == FightReport(a, f.attackerRoll, f.defenderRoll, f.outcome)
        && players == old(players)[a := f.attacker][defenderId := f.defender]
        && players[a] == f.attacker && players[defenderId] == f.defender
        && players[a].attack + players[defenderId].attack == old(players)[a].attack + old(players)[defenderId].attack
        && players[a].defense + players[defenderId].defense == old(players)[a].defense + old(players)[defenderId].defense
        && pendingFights == old(pendingFights) - {fightId}
    {
      if fightId !in pendingFights {
        return Failure(ChallengeNotFound);
      }
      var attackerId := pendingFights[fightId];
      if attackerId == defenderId {
        return Failure(SelfChallenge);
      }
      if attackerId !in players || defenderId !in players {
        return Failure(PlayerMissing);
      }
      if players[attackerId].attack < MinAttack || players[attackerId].defense < MinDefense {
        return Failure(AttackerIneligible);
      }
      if players[defenderId].attack < MinAttack || players[defenderId].defense < MinDefense {
        return Failure(DefenderIneligible);
      }

      var report := Adjudicate(attackerId, defenderId, d1, d2, bonusAttack, bonusDefense);
      pendingFights := pendingFights - {fightId};
      r := Success(report);
    }

    /** The fight itself, once an accept has passed every check: both rolls,
        the judgement, and the field-by-field update of the two records. */
    method Adjudicate(attackerId: string, defenderId: string, d1: Draws, d2: Draws,
                      bonusAttack: int, bonusDefense: int)
      returns (report: FightReport)
      requires Valid() && attackerId != defenderId
      requires attackerId in players && defenderId in players
      requires DrawsInRange(d1) && DrawsInRange(d2)
      modifies this
      ensures Valid()
      ensures order == old(order) && pendingFights == old(pendingFights)
      ensures var f := Fight(old(players)[attackerId], old(players)[defenderId], d1, d2, bonusAttack, bonusDefense);
              && report == FightReport(attackerId, f.attackerRoll, f.defenderRoll, f.outcome)
              && players == old(players)[attackerId := f.attacker][defenderId := f.defender]
              && players[attackerId] == f.attacker && players[defenderId] == f.defender
    {
      var attacker, defender := players[attackerId], players[defenderId];
      var roll1 := RollDamage(attacker.attack, defender.defense, d1);
      var roll2 := RollDamage(defender.attack, attacker.defense, d2);
      var outcome: Outcome;
      if roll1.damage > roll2.damage {
        attacker := attacker.(wins := attacker.wins + 1);
        defender := defender.(losses := defender.losses + 1);
        attacker := attacker.(attack := attacker.attack + bonusAttack);
        attacker := attacker.(defense := attacker.defense + bonusDefense);
        defender := defender.(attack := defender.attack - bonusAttack);
        defender := defender.(defense := defender.defense - bonusDefense);
        outcome := AttackerWins;
      } else if roll2.damage > roll1.damage {
        defender := defender.(wins := defender.wins + 1);
        attacker := attacker.(losses := attacker.losses + 1);
        defender := defender.(attack := defender.attack + bonusAttack);
        defender := defender.(defense := defender.defense + bonusDefense);
        attacker := attacker.(attack := attacker.attack - bonusAttack);
        attacker := attacker.(defense := attacker.defense - bonusDefense);
        outcome := DefenderWins;
      } else {
        outcome := Tie;
      }
      players := players[attackerId := attacker][defenderId := defender];
      report := FightReport(attackerId, roll1, roll2, outcome);
    }

    /** Administrative reset of every record to the defaults, walking the
        table in its iteration order; no id is added or removed. */
    method ResetAll()
      requires Valid()
      modifies this
      ensures Valid()
      ensures players == map id | id in old(players) :: Default()
      ensures order == old(order) && pendingFights == old(pendingFights)
    {
      var i := 0;
      while i < |order|
        invariant 0 <= i <= |order|
        invariant Valid()
        invariant players.Keys == old(players).Keys
        invariant order == old(order) && pendingFights == old(pendingFights)
        invariant forall k | 0 <= k < i :: players[order[k]] == Default()
      {
        players := players[order[i] := Default()];
        i := i + 1;
      }
      assert forall id | id in players :: players[id] == Default() by {
        forall id | id in players ensures players[id] == Default() {
          assert id in order;
          var k :| 0 <= k < |order| && order[k] == id;
        }
      }
    }

    /** Administrative reset of one record to the defaults, creating it if new. */
    method ResetPlayer(targetId: string)
      requires Valid()
      modifies this
      ensures Valid()
      ensures players == old(players)[targetId := Default()]
      ensures order == if targetId in old(players) then old(order) else old(order) + [targetId]
      ensures pendingFights == old(pendingFights)
    {
      if targetId !in players {
        order := order + [targetId];
      }
      players := players[targetId := Default()];
    }

    /** Administrative override of one player's attack and defense, creating
        the player first if new. */
    method SetStats(targetId: string, attack: int, defense: int)
      requires Valid()
      modifies this
      ensures Valid()
      ensures var p := if targetId in old(players) then old(players)[targetId] else Default();
              players == old(players)[targetId := p.(attack := attack, defense := defense)]
      ensures order == if targetId in old(players) then old(order) else old(order) + [targetId]
      ensures pendingFights == old(pendingFights)
    {
      if targetId !in players {
        InitPlayer(targetId);
      }
      players := players[targetId := players[targetId].(attack := attack)];
      players := players[targetId := players[targetId].(defense := defense)];
    }
  }
}
