/**
 * The challenge registry's pure parts: how a fight id is spelled, and the
 * ordered checks an accept goes through before any combat happens.
 */
module Challenges {
  import opened Wrappers
  import opened Players

  /** Decimal digit for 0 <= d < 10. */
  function DigitChar(d: int): (c: char)
    requires 0 <= d < 10
    ensures '0' <= c <= '9'
  {
    "0123456789"[d]
  }

  /** Python's str() of a natural number. */
  function NatToString(n: nat): (s: string)
    ensures |s| >= 1 && (n >= 10 ==> |s| >= 2)
    ensures forall i | 0 <= i < |s| :: '0' <= s[i] <= '9'
  {
    if n < 10 then [DigitChar(n)] else NatToString(n / 10) + [DigitChar(n % 10)]
  }

  /** Python's str() of an integer. */
  function IntToString(n: int): (s: string)
    ensures forall i | 0 <= i < |s| :: s[i] != '_'
  {
    if n < 0 then "-" + NatToString(-n) else NatToString(n)
  }

  lemma {:induction false} NatToStringInjective(a: nat, b: nat)
    requires NatToString(a) == NatToString(b)
    ensures a == b
  {
    var s := NatToString(a);
    if a < 10 || b < 10 {
      assert a < 10 && b < 10;
      assert "0123456789"[a] == s[0] == "0123456789"[b];
    } else {
      assert s[|s| - 1] == DigitChar(a % 10) == DigitChar(b % 10);
      assert a % 10 == b % 10;
      assert NatToString(a / 10) == s[..|s| - 1] == NatToString(b / 10);
      NatToStringInjective(a / 10, b / 10);
    }
  }

  lemma IntToStringInjective(a: int, b: int)
    requires IntToString(a) == IntToString(b)
    ensures a == b
  {
    var s := IntToString(a);
    if a < 0 {
      assert s[0] == '-';
      assert b < 0;
      assert NatToString(-a) == s[1..] == NatToString(-b);
      NatToStringInjective(-a, -b);
    } else {
      assert '0' <= s[0] <= '9';
      assert b >= 0;
      NatToStringInjective(a, b);
    }
  }

  /** The id under which a challenge is stored: owner and second of issue. */
  function FightId(ownerId: string, now: int): (id: string)
    ensures |id| == 7 + |ownerId| + |IntToString(now)|
    ensures id[..6] == "fight_" && id[6..6 + |ownerId|] == ownerId && id[6 + |ownerId|] == '_'
    ensures id[7 + |ownerId|..] == IntToString(now)
  {
    "fight_" + ownerId + "_" + IntToString(now)
  }

  /** In a + "_" + b with no underscore in a, the first underscore is at |a|. */
  lemma FirstUnderscore(a: string, b: string)
    requires '_' !in a
    ensures (a + "_" + b)[|a|] == '_'
    ensures forall i | 0 <= i < |a| :: (a + "_" + b)[i] != '_'
  {
  }

  /** Splitting at the first underscore recovers both halves. */
  lemma SplitAtUnderscore(a1: string, b1: string, a2: string, b2: string)
    requires '_' !in a1 && '_' !in a2
    requires a1 + "_" + b1 == a2 + "_" + b2
    ensures a1 == a2 && b1 == b2
  {
    var s := a1 + "_" + b1;
    FirstUnderscore(a1, b1);
    FirstUnderscore(a2, b2);
    assert |a1| == |a2|;
    assert a1 == s[..|a1|] == a2;
    assert b1 == s[|a1| + 1..] == b2;
  }

  /**
   * Two challenges get the same id exactly when they come from the same
   * owner in the same second (owner ids are decimal numbers, so they hold
   * no underscore). A second challenge in the same second therefore
   * replaces the first.
   */
  lemma FightIdUnique(owner1: string, now1: int, owner2: string, now2: int)
    requires '_' !in owner1 && '_' !in owner2
    ensures FightId(owner1, now1) == FightId(owner2, now2) <==> owner1 == owner2 && now1 == now2
  {
    if FightId(owner1, now1) == FightId(owner2, now2) {
      var s := FightId(owner1, now1);
      var t1, t2 := IntToString(now1), IntToString(now2);
      assert s[6..] == owner1 + "_" + t1;
      assert s[6..] == owner2 + "_" + t2;
      SplitAtUnderscore(owner1, t1, owner2, t2);
      IntToStringInjective(now1, now2);
    }
  }

  /** Why an accept was refused; each leaves every record and the challenge as they were. */
  datatype AcceptError =
    | ChallengeNotFound
    | SelfChallenge
    | PlayerMissing
    | AttackerIneligible
    | DefenderIneligible

  /** The checks of an accept, in the order the handler makes them; on
      success, the attacker to fight. */
  function CheckAccept(pending: map<string, string>, players: map<string, Player>,
                       fightId: string, defenderId: string): (r: Result<string, AcceptError>)
    ensures r == Failure(ChallengeNotFound) <==> fightId !in pending
    ensures r.Success? <==>
      fightId in pending && pending[fightId] != defenderId &&
      pending[fightId] in players && defenderId in players &&
      Eligible(players[pending[fightId]]) && Eligible(players[defenderId])
    ensures r.Success? ==> r.value == pending[fightId]
    ensures r == Failure(SelfChallenge) <==>
      fightId in pending && pending[fightId] == defenderId
    ensures r == Failure(PlayerMissing) <==>
      fightId in pending && pending[fightId] != defenderId &&
      (pending[fightId] !in players || defenderId !in players)
    ensures r == Failure(AttackerIneligible) <==>
      fightId in pending && pending[fightId] != defenderId &&
      pending[fightId] in players && defenderId in players &&
      !Eligible(players[pending[fightId]])
    ensures r == Failure(DefenderIneligible) <==>
      fightId in pending && pending[fightId] != defenderId &&
      pending[fightId] in players && defenderId in players &&
      Eligible(players[pending[fightId]]) && !Eligible(players[defenderId])
  {
    if fightId !in pending then Failure(ChallengeNotFound)
    else
      var attackerId := pending[fightId];
      if attackerId == defenderId then Failure(SelfChallenge)
      else if attackerId !in players || defenderId !in players then Failure(PlayerMissing)
      else if !Eligible(players[attackerId]) then Failure(AttackerIneligible)
      else if !Eligible(players[defenderId]) then Failure(DefenderIneligible)
      else Success(attackerId)
  }

  /** When every pending challenge's owner has a record, the missing-player
      refusal can only be about the defender. */
  lemma MissingIsDefender(pending: map<string, string>, players: map<string, Player>,
                          fightId: string, defenderId: string)
    requires forall f | f in pending :: pending[f] in players
    ensures CheckAccept(pending, players, fightId, defenderId) == Failure(PlayerMissing) ==> defenderId !in players
  {
  }
}
