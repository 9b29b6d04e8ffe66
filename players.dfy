/**
 * The player table's record type (bot.py keeps one JSON-like dict per
 * player id with the keys attack, defense, wins, losses and last_grow).
 */
module Players {

  /** One character. `attack` and `defense` may go negative through losses;
      `wins` and `losses` only ever grow from 0. */
  datatype Player = Player(attack: int, defense: int, wins: nat, losses: nat, lastGrow: int)

  /** A row of the table as the dict iterates it: the id and its record. */
  datatype Entry = Entry(id: string, player: Player)

  /** Smallest stats with which a player may fight. */
  const MinAttack: int := 3
  const MinDefense: int := 1

  predicate Eligible(p: Player) {
    p.attack >= MinAttack && p.defense >= MinDefense
  }

  /** The record a player gets on first contact and after an admin reset:
      able to fight at once, with no games and never grown. */
  function Default(): (p: Player)
    ensures Eligible(p)
    ensures p.wins == 0 && p.losses == 0 && p.lastGrow == 0
  {
    Player(10, 2, 0, 0, 0)
  }
}
