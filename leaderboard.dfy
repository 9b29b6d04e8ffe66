/**
 * The leaderboard: all players ranked in descending order by one of three
 * metrics, with the first ten shown. The ranking is a stable sort, so
 * players with equal keys keep the order in which the table lists them.
 */
module Leaderboard {
  import opened Wrappers
  import opened Players

  datatype Metric = Wins | Size | Winrate

  /** The metric named by a leaderboard request, if any. */
  function ParseMetric(topType: string): (r: Option<Metric>)
    ensures r.Some? <==> topType in ["wins", "size", "winrate"]
    ensures r.Some? ==> MetricName(r.value) == topType
  {
    if topType == "wins" then Some(Wins)
    else if topType == "size" then Some(Size)
    else if topType == "winrate" then Some(Winrate)
    else None
  }

  function MetricName(m: Metric): string {
    match m
    case Wins => "wins"
    case Size => "size"
    case Winrate => "winrate"
  }

  lemma ParseMetricName(m: Metric, topType: string)
    ensures ParseMetric(MetricName(m)) == Some(m)
    ensures ParseMetric(topType) == Some(m) ==> topType == MetricName(m)
  {
  }

  /** The order in which the leaderboard's "next" button cycles. */
  const Cycle: seq<Metric> := [Wins, Size, Winrate]

  function IndexOf(m: Metric): (i: nat)
    ensures i < |Cycle| && Cycle[i] == m
  {
    match m
    case Wins => 0
    case Size => 1
    case Winrate => 2
  }

  /** The metric the "next" button leads to. */
  function NextMetric(m: Metric): (n: Metric)
    ensures n != m
  {
    Cycle[(IndexOf(m) + 1) % |Cycle|]
  }

  /** Three presses of "next" lead back to where one started. */
  lemma NextMetricCycles(m: Metric)
    ensures NextMetric(NextMetric(NextMetric(m))) == m
    ensures NextMetric(m) != NextMetric(NextMetric(m))
  {
  }

  /** The "next" request built from the current one; None where looking
      the current name up in the cycle fails. */
  function NextTopType(current: string): (r: Option<string>)
    ensures r.Some? <==> ParseMetric(current).Some?
    ensures r.Some? ==> ParseMetric(r.value) == Some(NextMetric(ParseMetric(current).value))
  {
    match ParseMetric(current)
    case None => None
    case Some(m) => Some(MetricName(NextMetric(m)))
  }

  /** A win rate as a fraction with a positive denominator; 0 with no games. */
  function Rate(p: Player): (r: (nat, nat))
    ensures r.1 > 0 && r.0 <= r.1
    ensures p.wins + p.losses == 0 ==> r.0 == 0
    ensures p.wins + p.losses > 0 ==> r.0 * (p.wins + p.losses) == p.wins * r.1
  {
    var total := p.wins + p.losses;
    if total > 0 then (p.wins, total) else (0, 1)
  }

  /** `a` ranks at least as high as `b` under the metric; win rates are
      compared exactly, by cross-multiplication. */
  predicate AtLeast(m: Metric, a: Player, b: Player) {
    match m
    case Wins => a.wins >= b.wins
    case Size => a.attack + a.defense >= b.attack + b.defense
    case Winrate => Rate(a).0 * Rate(b).1 >= Rate(b).0 * Rate(a).1
  }

  /** Two players whose keys are equal. */
  predicate Tied(m: Metric, a: Player, b: Player) {
    AtLeast(m, a, b) && AtLeast(m, b, a)
  }

  lemma AtLeastTotal(m: Metric, a: Player, b: Player)
    ensures AtLeast(m, a, b) || AtLeast(m, b, a)
  {
  }

  /** Multiplying both sides by a non-negative factor keeps the order. */
  lemma MulMono(x: int, y: int, k: int)
    requires x >= y && k >= 0
    ensures x * k >= y * k
  {
    assert x * k - y * k == (x - y) * k;
  }

  /** Cross-multiplied comparison of fractions with positive denominators is transitive. */
  lemma CrossTransitive(na: int, da: int, nb: int, db: int, nc: int, dc: int)
    requires da > 0 && db > 0 && dc > 0
    requires na * db >= nb * da && nb * dc >= nc * db
    ensures na * dc >= nc * da
  {
    MulMono(na * db, nb * da, dc);
    MulMono(nb * dc, nc * db, da);
    assert (nb * da) * dc == (nb * dc) * da;
    assert (na * db) * dc == (na * dc) * db;
    assert (nc * db) * da == (nc * da) * db;
    var diff := na * dc - nc * da;
    assert diff * db == (na * dc) * db - (nc * da) * db;
    PositiveFactor(diff, db);
  }

  /** A product with a positive factor is non-negative only if the other factor is. */
  lemma PositiveFactor(x: int, k: int)
    requires k > 0 && x * k >= 0
    ensures x >= 0
  {
  }

  lemma AtLeastTransitive(m: Metric, a: Player, b: Player, c: Player)
    requires AtLeast(m, a, b) && AtLeast(m, b, c)
    ensures AtLeast(m, a, c)
  {
    if m == Winrate {
      CrossTransitive(Rate(a).0, Rate(a).1, Rate(b).0, Rate(b).1, Rate(c).0, Rate(c).1);
    }
  }

  /** A player with no games ranks no higher than anyone by win rate, and
      level with anyone who has no wins. */
  lemma NoGamesRanksLowest(p: Player, q: Player)
    requires p.wins + p.losses == 0
    ensures AtLeast(Winrate, q, p)
    ensures Tied(Winrate, q, p) <==> q.wins == 0
  {
  }

  predicate SortedDesc(m: Metric, s: seq<Entry>) {
    forall i, j | 0 <= i < j < |s| :: AtLeast(m, s[i].player, s[j].player)
  }

  /** Inserts x after every entry ranked at least as high, so that entries
      with equal keys keep their order. */
  function Insert(m: Metric, x: Entry, r: seq<Entry>): (s: seq<Entry>)
    ensures |s| == |r| + 1
  {
    if r == [] then [x]
    else if !AtLeast(m, r[0].player, x.player) then [x] + r
    else [r[0]] + Insert(m, x, r[1..])
  }

  /** Python's sorted(entries, key, reverse=True): a stable descending sort. */
  function SortDesc(m: Metric, s: seq<Entry>): (r: seq<Entry>)
    ensures |r| == |s|
  {
    if s == [] then []
    else Insert(m, s[|s| - 1], SortDesc(m, s[..|s| - 1]))
  }

  lemma {:induction false} InsertPermutes(m: Metric, x: Entry, r: seq<Entry>)
    ensures multiset(Insert(m, x, r)) == multiset(r) + multiset{x}
  {
    if r != [] && AtLeast(m, r[0].player, x.player) {
      InsertPermutes(m, x, r[1..]);
      assert r == [r[0]] + r[1..];
    }
  }

  /** A non-empty sequence holds its prefix and its last element. */
  lemma SplitLast<T>(s: seq<T>)
    requires s != []
    ensures multiset(s) == multiset(s[..|s| - 1]) + multiset{s[|s| - 1]}
  {
    assert s == s[..|s| - 1] + [s[|s| - 1]];
  }

  /** The sort only reorders: the result is a permutation of its input. */
  lemma {:induction false} SortDescPermutes(m: Metric, s: seq<Entry>)
    ensures multiset(SortDesc(m, s)) == multiset(s)
  {
    if s != [] {
      var init, last := s[..|s| - 1], s[|s| - 1];
      SortDescPermutes(m, init);
      InsertPermutes(m, last, SortDesc(m, init));
      SplitLast(s);
    }
  }

  lemma {:induction false} InsertSorted(m: Metric, x: Entry, r: seq<Entry>)
    requires SortedDesc(m, r)
    ensures SortedDesc(m, Insert(m, x, r))
  {
    if r == [] {
    } else if !AtLeast(m, r[0].player, x.player) {
      AtLeastTotal(m, r[0].player, x.player);
      forall j | 0 <= j < |r|
        ensures AtLeast(m, x.player, r[j].player)
      {
        if j > 0 { AtLeastTransitive(m, x.player, r[0].player, r[j].player); }
      }
    } else {
      var rest := Insert(m, x, r[1..]);
      InsertSorted(m, x, r[1..]);
      InsertPermutes(m, x, r[1..]);
      forall k | 0 <= k < |rest|
        ensures AtLeast(m, r[0].player, rest[k].player)
      {
        assert rest[k] in multiset(rest);
        assert rest[k] == x || rest[k] in multiset(r[1..]);
      }
    }
  }

  lemma {:induction false} SortDescSorted(m: Metric, s: seq<Entry>)
    ensures SortedDesc(m, SortDesc(m, s))
  {
    if s != [] {
      SortDescSorted(m, s[..|s| - 1]);
      InsertSorted(m, s[|s| - 1], SortDesc(m, s[..|s| - 1]));
    }
  }

  /** The entries whose key equals that of k, in order. */
  function TiedWith(m: Metric, k: Player, s: seq<Entry>): seq<Entry> {
    if s == [] then []
    else (if Tied(m, k, s[0].player) then [s[0]] else []) + TiedWith(m, k, s[1..])
  }

  lemma {:induction false} TiedWithAppend(m: Metric, k: Player, s: seq<Entry>, x: Entry)
    ensures TiedWith(m, k, s + [x]) == TiedWith(m, k, s) + (if Tied(m, k, x.player) then [x] else [])
  {
    if s != [] {
      assert (s + [x])[1..] == s[1..] + [x];
      TiedWithAppend(m, k, s[1..], x);
    }
  }

  /** None of the entries of a list ranked strictly below x ties with x. */
  lemma {:induction false} BelowNotTied(m: Metric, k: Player, x: Entry, r: seq<Entry>)
    requires SortedDesc(m, r) && r != [] && !AtLeast(m, r[0].player, x.player)
    requires Tied(m, k, x.player)
    ensures TiedWith(m, k, r) == []
  {
    if |r| > 1 {
      assert !AtLeast(m, r[1].player, x.player) by {
        if AtLeast(m, r[1].player, x.player) {
          AtLeastTransitive(m, r[0].player, r[1].player, x.player);
        }
      }
      BelowNotTied(m, k, x, r[1..]);
    }
    assert !Tied(m, k, r[0].player) by {
      if Tied(m, k, r[0].player) {
        AtLeastTransitive(m, r[0].player, k, x.player);
      }
    }
  }

  /** TiedWith of a list with one entry in front. */
  lemma TiedWithCons(m: Metric, k: Player, x: Entry, r: seq<Entry>)
    ensures TiedWith(m, k, [x] + r) == (if Tied(m, k, x.player) then [x] else []) + TiedWith(m, k, r)
  {
    assert ([x] + r)[1..] == r;
  }

  lemma {:induction false} InsertStable(m: Metric, k: Player, x: Entry, r: seq<Entry>)
    requires SortedDesc(m, r)
    ensures TiedWith(m, k, Insert(m, x, r)) == TiedWith(m, k, r) + (if Tied(m, k, x.player) then [x] else [])
  {
    if r == [] {
      TiedWithCons(m, k, x, []);
    } else if !AtLeast(m, r[0].player, x.player) {
      TiedWithCons(m, k, x, r);
      if Tied(m, k, x.player) { BelowNotTied(m, k, x, r); }
    } else {
      assert SortedDesc(m, r[1..]);
      InsertStable(m, k, x, r[1..]);
      TiedWithCons(m, k, r[0], Insert(m, x, r[1..]));
      TiedWithCons(m, k, r[0], r[1..]);
      assert [r[0]] + r[1..] == r;
    }
  }

  /** The sort is stable: among entries with equal keys the input order is kept. */
  lemma {:induction false} SortDescStable(m: Metric, k: Player, s: seq<Entry>)
    ensures TiedWith(m, k, SortDesc(m, s)) == TiedWith(m, k, s)
  {
    if s != [] {
      var init, last := s[..|s| - 1], s[|s| - 1];
      SortDescStable(m, k, init);
      SortDescSorted(m, init);
      InsertStable(m, k, last, SortDesc(m, init));
      assert s == init + [last];
      TiedWithAppend(m, k, init, last);
    }
  }

  /** No player id appears twice. */
  predicate DistinctIds(s: seq<Entry>) {
    forall i, j | 0 <= i < j < |s| :: s[i].id != s[j].id
  }

  lemma {:induction false} InsertDistinct(m: Metric, x: Entry, r: seq<Entry>)
    requires DistinctIds(r) && forall i | 0 <= i < |r| :: r[i].id != x.id
    ensures DistinctIds(Insert(m, x, r))
  {
    if r != [] && AtLeast(m, r[0].player, x.player) {
      var rest := Insert(m, x, r[1..]);
      InsertDistinct(m, x, r[1..]);
      InsertPermutes(m, x, r[1..]);
      forall k | 0 <= k < |rest|
        ensures r[0].id != rest[k].id
      {
        assert rest[k] in multiset(rest);
        assert rest[k] == x || rest[k] in r[1..];
      }
    }
  }

  lemma {:induction false} SortDescDistinct(m: Metric, s: seq<Entry>)
    requires DistinctIds(s)
    ensures DistinctIds(SortDesc(m, s))
  {
    if s != [] {
      var init, last := s[..|s| - 1], s[|s| - 1];
      SortDescDistinct(m, init);
      var sorted := SortDesc(m, init);
      SortDescPermutes(m, init);
      forall i | 0 <= i < |sorted|
        ensures sorted[i].id != last.id
      {
        assert sorted[i] in multiset(init);
      }
      InsertDistinct(m, last, sorted);
    }
  }

  /** Any prefix of the sorted table is sorted, drawn from the table, and
      free of repeated ids when the table is. */
  lemma RankedPrefix(m: Metric, entries: seq<Entry>, n: nat)
    requires n <= |entries|
    ensures |SortDesc(m, entries)| == |entries|
    ensures var rows := SortDesc(m, entries)[..n];
            SortedDesc(m, rows) && multiset(rows) <= multiset(entries) &&
            (DistinctIds(entries) ==> DistinctIds(rows))
  {
    var sorted := SortDesc(m, entries);
    SortDescSorted(m, entries);
    SortDescPermutes(m, entries);
    assert |sorted| == |multiset(sorted)| == |entries|;
    assert sorted == sorted[..n] + sorted[n..];
    if DistinctIds(entries) { SortDescDistinct(m, entries); }
  }

  /** How many rows the leaderboard shows at most. */
  const TopSize: nat := 10

  datatype TopResult = NoData | UnknownType | Ranked(metric: Metric, rows: seq<Entry>)

  /**
   * The leaderboard for a request: no data for an empty table (checked
   * before the metric), an unknown-type answer for an unknown metric, else
   * the first ten entries of the stable descending sort.
   */
  function Top(topType: string, entries: seq<Entry>): (r: TopResult)
    ensures r == NoData <==> entries == []
    ensures r == UnknownType <==> entries != [] && ParseMetric(topType).None?
    ensures r.Ranked? ==>
      ParseMetric(topType) == Some(r.metric) &&
      |r.rows| == (if |entries| < TopSize then |entries| else TopSize) &&
      SortedDesc(r.metric, r.rows) &&
      multiset(r.rows) <= multiset(entries) &&
      (DistinctIds(entries) ==> DistinctIds(r.rows))
  {
    if entries == [] then NoData
    else match ParseMetric(topType)
      case None => UnknownType
      case Some(m) =>
        var n := if |entries| < TopSize then |entries| else TopSize;
        RankedPrefix(m, entries, n);
        Ranked(m, SortDesc(m, entries)[..n])
  }

  /** Nobody left off the leaderboard outranks anyone on it. */
  lemma TopIsMaximal(topType: string, entries: seq<Entry>, e: Entry)
    requires e in entries && Top(topType, entries).Ranked?
    ensures var r := Top(topType, entries);
            e in r.rows || forall i | 0 <= i < |r.rows| :: AtLeast(r.metric, r.rows[i].player, e.player)
  {
    var r := Top(topType, entries);
    var sorted := SortDesc(r.metric, entries);
    SortDescSorted(r.metric, entries);
    SortDescPermutes(r.metric, entries);
    assert e in multiset(sorted);
    var j :| 0 <= j < |sorted| && sorted[j] == e;
    assert r.rows == sorted[..|r.rows|];
    if j < |r.rows| {
      assert r.rows[j] == e;
    }
  }
}
