# Player-vs-player combat engine of a chat game, in Dafny

This project models the game engine inside `bot.py`, a chat bot in which every
player owns a character with an attack and a defense stat, a win/loss record and
a growth timestamp. The engine's parts are modelled as follows:

- **Player table** (`players.dfy`, `engine.dfy`): the map from player id to
  record. A record is created with defaults (attack 10, defense 2, no games,
  never grown) on first contact. Administrative commands overwrite records.
  The class `Engine.Game` holds the table and the order in which ids were first
  added, which is the order the table is iterated in.
- **Growth** (`growth.dfy`): the two-hour cooldown gate and the hours, minutes
  and seconds still to wait. A growth adds two drawn changes, in [-2, 13] and
  [-2, 5], to attack and defense and stamps the time.
- **Combat** (`combat.dfy`): each side rolls damage against the other's
  defense. A roll has a base value of at least 1, then a possible critical hit,
  then a possible miss (damage 0, no critical), then a possible lucky strike
  (only when not a miss). Strictly greater damage wins. One bonus pair, attack
  in [2, 5] and defense in [1, 3], moves from the loser to the winner with no
  floor. A tie changes nothing.
- **Challenge registry** (`challenges.dfy`, `engine.dfy`): a challenge is
  stored under the id `fight_<owner>_<second>`. An accept goes through, in
  order: challenge exists, not a self-fight, both players exist, attacker
  eligible, defender eligible. Eligible means attack >= 3 and defense >= 1.
  Only then is the fight adjudicated and the challenge removed.
- **Leaderboard** (`leaderboard.dfy`): a stable descending sort by wins, by
  attack + defense, or by win rate, which is 0 with no games. The first ten
  entries are shown. The "next" button cycles wins, size, win rate.

Clock readings and random draws are parameters of the operations. A
`random.uniform(a, b)` draw is given in thousandths, so `baseMillis` lies in
[500, 1800] for uniform(0.5, 1.8). A `random.random() < p` test is an integer
roll in [0, 1000) compared with p in thousandths. Python's `round()` (ties to
even) and `int()` (truncation toward zero) are written out as `RoundHalfEven`
and `Truncate`.

The model keeps these behaviours of the code as they are:

- Challenge ids are not unique. A second challenge from the same owner in the
  same second replaces the first (`OpenChallenge`, `FightIdUnique`).
- A refused accept returns before the challenge is deleted, so the challenge
  stays open.
- The remaining cooldown is not clamped at zero; the gate opens when it is
  `<= 0`.
- Growing does not itself check the cooldown. The grow request checks it first
  (`GrowRequest`).
- Ties on the leaderboard keep the table's insertion order, because Python's
  `sorted` is stable.
- An empty table yields "no data" before the metric is looked at. For an
  unknown metric, the "next" lookup fails (`NextTopType` returns `None`).
- The source does not ensure that at most one accept succeeds per challenge
  under concurrency. There is an `await` (bot.py:449) between the pending check
  (bot.py:405) and the delete (bot.py:469). The model treats every accept as
  one atomic step.

## Model

| member | source | states |
|---|---|---|
| `Players.Eligible` | bot.py:421-426 | defined by its body: attack at least 3 and defense at least 1; `CheckAccept` states how it gates the attacker and then the defender |
| `Growth.CanGrow` | bot.py:120-124 | defined by its body: at least 7200 s have passed since the last growth; `CanGrowIffReady`, `Remaining` and `Grown` state how the gate relates to the cooldown text and to a growth |
| `Growth.Remaining` | bot.py:106 | the remaining seconds are <= 0 exactly when growth is allowed, at most 7200 with a stamp not in the future, and reach zero exactly 7200 s after the stamp |
| `Players.Default` | bot.py:84-90 | the default record (attack 10, defense 2) is eligible to fight, has no games and was never grown |
| `Growth.CooldownText` | bot.py:102-113 | the text says "ready" exactly when the remaining time is <= 0; otherwise hours*3600 + minutes*60 + seconds equals the remaining seconds, with minutes and seconds below 60 |
| `Growth.CanGrowIffReady` | bot.py:102-124 | the growth gate and the cooldown text agree: growth is allowed exactly when the text says ready |
| `Growth.WaitAtMostTwoHours` | bot.py:106-113 | with a growth timestamp not in the future, at most 2 hours are shown, and exactly 2:00:00 only in the second of the growth |
| `Growth.Grown` | bot.py:126-131 | a growth changes attack and defense by exactly the two draws and keeps wins and losses; afterwards the gate is closed and opens again exactly 7200 s after the growth |
| `Combat.RoundHalfEven` | bot.py:153 | Python's round(): the result is within half a unit of num/den, and an exact half rounds to an even number |
| `Combat.Truncate` | bot.py:158 | Python's int(): the result brackets num/den from the zero side |
| `Combat.BaseDamage` | bot.py:142-153 | the damage before overrides is at least 1 and never below the rounded base minus defense reduction |
| `Combat.CritNotLower` | bot.py:156-158 | a critical multiplier of at least 1.5 never lowers positive damage |
| `Combat.LuckyAtLeastAttack` | bot.py:167-169 | a lucky strike with multiplier of at least 1.2 deals at least the (positive) attack |
| `Combat.RollDamage` | bot.py:140-172 | a miss happens exactly when its roll hits and means damage 0 and no critical; without a miss the critical is reported exactly when its roll hits; lucky is reported exactly when there is no miss and its roll hits, and then deals at least a positive attack; with a positive attack the damage is >= 0 and is 0 exactly on a miss; with neither miss nor lucky it is >= 1 |
| `Combat.LuckyIgnoresDefense` | bot.py:167-169 | a lucky roll replaces the damage by a multiple of the attack alone, so with the same draws it is the same roll against any defense |
| `Combat.Judge` | bot.py:440-461 | defined by its body: strictly greater damage wins and equal damage is a tie; `Fight` and `FightMirror` state the outcome of a fight and its symmetry |
| `Combat.Won` | bot.py:440-459 | the winner gains one win and no loss, gains exactly the two bonuses in combined stats, and keeps its growth stamp |
| `Combat.Lost` | bot.py:440-459 | the loser gains one loss and no win, loses exactly the two bonuses in combined stats with no floor, and keeps its growth stamp |
| `Combat.Settle` | bot.py:440-466 | the combined attack and combined defense of the two players are unchanged; a decided fight adds one win and one loss; growth stamps are kept; a tie changes neither record |
| `Combat.LoserPaysWinner` | bot.py:440-461 | the winner gains a win and exactly the bonus pair, the loser gains a loss and loses exactly that pair, so the loser's stats strictly drop |
| `Combat.Fight` | bot.py:429-466 | the attacker wins exactly when its damage is strictly greater, the defender likewise, and the fight conserves combined attack and defense |
| `Combat.FightMirror` | bot.py:433-466 | swapping the two sides and their draws mirrors the outcome and swaps the rolls and the new records |
| `Challenges.NatToString` | bot.py:373 | str() of a natural number is a non-empty string of decimal digits |
| `Challenges.IntToString` | bot.py:373 | str() of an integer holds no underscore |
| `Challenges.NatToStringInjective` | bot.py:373 | different numbers have different decimal strings |
| `Challenges.IntToStringInjective` | bot.py:373 | different integers have different str() |
| `Challenges.FightId` | bot.py:373 | the id is "fight_", then the owner id, then "_", then str() of the second, and nothing else |
| `Challenges.FightIdUnique` | bot.py:373 | for owner ids without an underscore, two challenges share an id exactly when they have the same owner and the same second |
| `Challenges.CheckAccept` | bot.py:404-426 | each refusal happens exactly when its check is the first to fail in the order not found, self-fight, a record missing, attacker ineligible, defender ineligible; it passes exactly when the challenge exists, the defender is not the owner, both have records and both are eligible; on success it yields the owner |
| `Challenges.MissingIsDefender` | bot.py:416-418 | when every pending challenge's owner has a record, a missing-player refusal means the defender has none |
| `Leaderboard.ParseMetric` | bot.py:15-31 | a metric is recognised exactly for "wins", "size" and "winrate", and its name is the requested string |
| `Leaderboard.ParseMetricName` | bot.py:15-31 | the three metric names and the metrics correspond one to one |
| `Leaderboard.IndexOf` | bot.py:48-50 | each metric has its position in the cycle wins, size, winrate |
| `Leaderboard.NextMetric` | bot.py:48-51 | the "next" metric differs from the current one |
| `Leaderboard.NextMetricCycles` | bot.py:48-51 | three "next" steps return to the starting metric |
| `Leaderboard.NextTopType` | bot.py:47-51 | the "next" request exists exactly for a known metric name and names the next metric |
| `Leaderboard.Rate` | bot.py:24-26 | a win rate is a fraction in [0, 1] with a positive denominator, so it never divides by zero; it is 0 with no games and otherwise equals wins / (wins + losses) |
| `Leaderboard.AtLeast` | bot.py:16-27 | defined by its body: the key comparison of each metric, win rates by cross-multiplication; `AtLeastTotal` and `AtLeastTransitive` state that it is a total preorder |
| `Leaderboard.AtLeastTotal` | bot.py:16-27 | any two players are comparable under each metric |
| `Leaderboard.AtLeastTransitive` | bot.py:16-27 | each metric's order, including the cross-multiplied win rate, is transitive |
| `Leaderboard.NoGamesRanksLowest` | bot.py:24-27 | a player with no games ranks no higher than anyone by win rate, and ties exactly with the players who have no wins |
| `Leaderboard.Insert` | bot.py:16-27 | one insertion step of the stable descending sort lengthens the list by one; its ordering, stability and permutation facts are `InsertSorted`, `InsertStable` and `InsertPermutes` |
| `Leaderboard.SortDesc` | bot.py:16-27 | the stable descending sort keeps the table's length; its ordering, stability and permutation facts are `SortDescSorted`, `SortDescStable` and `SortDescPermutes` |
| `Leaderboard.InsertPermutes` | bot.py:16-27 | inserting adds exactly one entry and loses none |
| `Leaderboard.SortDescPermutes` | bot.py:16-27 | the sort's result is a permutation of the table |
| `Leaderboard.InsertSorted` | bot.py:16-27 | inserting into a descending list keeps it descending |
| `Leaderboard.SortDescSorted` | bot.py:16-27 | the sort's result is in non-increasing order of the chosen key |
| `Leaderboard.InsertStable` | bot.py:16-27 | inserting places the new entry after every entry with an equal key |
| `Leaderboard.SortDescStable` | bot.py:16-27 | the sort is stable: entries with equal keys keep the table's order |
| `Leaderboard.InsertDistinct` | bot.py:16-27 | inserting an entry with a new id keeps ids distinct |
| `Leaderboard.SortDescDistinct` | bot.py:16-27 | sorting a table with distinct ids keeps them distinct |
| `Leaderboard.RankedPrefix` | bot.py:34 | the first n sorted entries are sorted, drawn from the table, and have distinct ids when the table does |
| `Leaderboard.Top` | bot.py:11-34 | "no data" exactly for an empty table; "unknown type" exactly for a non-empty table and an unknown metric; otherwise min(10, size) rows in non-increasing order of the key, drawn from the table, with distinct ids |
| `Leaderboard.TopIsMaximal` | bot.py:11-34 | a player left off the leaderboard ranks at or below everyone on it |
| `Engine.Game.constructor` | bot.py:73-76 | a fresh game has no players and no pending challenges |
| `Engine.Game.Entries` | bot.py:16 | the table's rows in iteration order, one per id, ids distinct |
| `Engine.Game.Standings` | bot.py:11-34 | "no data" exactly when the table is empty; ranked rows are at most 10, have distinct ids and carry the table's current records |
| `Engine.Game.InitPlayer` | bot.py:81-91 | an absent id gets the default record and is appended to the order; a present id and every other id are left as they were, so a second call changes nothing |
| `Engine.Game.Grow` | bot.py:126-138 | only this player's record changes: attack and defense by exactly the draws, the stamp set to now; the result reports the draws and the stored stats |
| `Engine.Game.GrowRequest` | bot.py:602-613 | after creating the player if new (appended to the order), the request reports the cooldown and changes nothing exactly when the gate is closed, and otherwise grows; other players, the order of ids and challenges are otherwise unchanged |
| `Engine.Game.OpenChallenge` | bot.py:365-398 | the owner is created if new, and the challenge is stored under fight_<owner>_<second>, replacing any challenge with the same id |
| `Engine.Game.AcceptChallenge` | bot.py:402-469 | a refusal (as `CheckAccept` decides, in the source's order) changes no record and keeps the challenge open. A success fights the owner against a different defender, sets the two records to the fight's results without aliasing, conserves combined attack and defense, and removes the challenge |
| `Engine.Game.Adjudicate` | bot.py:429-466 | the field-by-field update of the two distinct records equals the fight's settlement; the report carries both rolls and the outcome |
| `Engine.Game.ResetAll` | bot.py:672-680 | every existing record becomes the default record; no id is added or removed |
| `Engine.Game.ResetPlayer` | bot.py:691-699 | the target's record becomes the default (created if new); nothing else changes |
| `Engine.Game.SetStats` | bot.py:720-725 | the target (created with defaults if new) gets the given attack and defense; its other fields and all other records are unchanged |

## Left out

- Messaging and rendering: message edits, answers, keyboards, the emoji and
  markdown of the texts, `get_name`, profile and cooldown strings. These are
  presentation. The cooldown is returned as hours, minutes and seconds.
- Display-name lookup and its caching into the record during a leaderboard
  request (bot.py:35-43). It calls the chat platform, so records carry no name.
- Persistence: `save_players` after each change and the JSON load at startup.
  A game starts empty, and loading a saved table is not modelled.
- `Combat.RollDamage`: uniform draws are quantised to thousandths and the
  model rounds the exact rational product. The source rounds a double, which
  can land on the other side of a .5 boundary even for thousandth draws
  (attack 3, defense 1, draws 0.7 and 0.6 give 1.4999999999999996 in doubles,
  so round() yields 1 where the exact 1.5 rounds to 2). The two int()
  truncations of double products differ in the same way: a base damage of 25
  and a critical multiplier of 2.28 give 56.99999999999999 in doubles, so
  int() yields 56 where the exact 57 truncates to 57.
- `Leaderboard.AtLeast`: win rates are compared exactly as fractions. Python
  compares floats, which could tie two different rates that round to the same
  float.
- The clock is a parameter `now` and is not read.
- `Engine.Game.GrowRequest`: one reading `now` stands for the three separate
  clock reads of the source (bot.py:122 for the gate, bot.py:104 for the
  cooldown text, bot.py:131 for the stamp). Across a second boundary the
  source could show a "ready" text in a refusal, or stamp a later second than
  the one the gate checked.
- Concurrency: the asyncio interleaving in which two accepts both pass the
  pending check before either deletes the challenge. Every accept is one
  atomic step here.
- Callback-data parsing and owner checks in the handlers, and the admin id
  check: these are transport glue in front of the engine.
- `get_fight_keyboard` and `/fight`: their button data matches no handler.
  `message_owners` is never used.
