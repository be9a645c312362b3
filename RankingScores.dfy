/** The rank aggregator of the dashboard's "Overall Scores" card
    (frontend/src/components/dashboard/RankingScores/index.jsx).

    Every distinct symbol of the `stocks` prop is scored against the daily
    Top-N lists in `ranks`: an appearance at 0-based position i of a list of
    N entries earns N - i points, an absence costs one point. The scores are
    then ranked by total, the five best give the price charts' stock ids, and
    the symbols that made a list at all are split by how often they did. */
module RankingScores {
  import opened Wrappers
  import opened Lists

  /** One row of a Top-N list, and one row of the `stocks` prop. */
  datatype Pick = Pick(symbol: string, stockId: int, stock: string)

  /** One daily Top-N list of a category, best first. */
  datatype Snapshot = Snapshot(category: string, stocks: seq<Pick>)

  /** The record pushed onto `scores` for one symbol. */
  datatype Score = Score(
    symbol: string,
    stockId: int,
    stockResource: string,
    total: int,
    positive: int,
    onItCount: nat,
    missingItCount: nat)

  /** The three counters of the inner loop over the snapshots. */
  datatype Tally = Tally(positive: int, onList: nat, missing: nat)

  /** `map(picks, p => p.symbol)` */
  function SymbolsOf(picks: seq<Pick>): (r: seq<string>)
    ensures |r| == |picks|
    ensures forall i :: 0 <= i < |picks| ==> r[i] == picks[i].symbol
  {
    seq(|picks|, i requires 0 <= i < |picks| => picks[i].symbol)
  }

  /** `[...new Set(map(stocks, s => s.symbol))]` */
  function Symbols(stocks: seq<Pick>): seq<string> {
    Distinct(SymbolsOf(stocks))
  }

  /** `new Map(map(stocks, s => [s.symbol, ...])).get(symbol)`: a `Map` built
      from entries keeps the last entry of each key, so the id and resource
      of a symbol come from its last row in `stocks`. */
  function LastPick(stocks: seq<Pick>, symbol: string): (r: Option<Pick>)
    ensures r.None? <==> symbol !in SymbolsOf(stocks)
    ensures r.Some? ==> r.value.symbol == symbol
    ensures r.Some? ==> exists i :: LastRowOf(stocks, symbol, i) && stocks[i] == r.value
  {
    if stocks == [] then None
    else if stocks[|stocks| - 1].symbol == symbol then Some(stocks[|stocks| - 1])
    else
      assert SymbolsOf(stocks) == SymbolsOf(stocks[..|stocks| - 1]) + [stocks[|stocks| - 1].symbol];
      LastPick(stocks[..|stocks| - 1], symbol)
  }

  /** Row `i` is the last row of `stocks` with this symbol. */
  predicate LastRowOf(stocks: seq<Pick>, symbol: string, i: int) {
    0 <= i < |stocks| && stocks[i].symbol == symbol && forall j :: i < j < |stocks| ==> stocks[j].symbol != symbol
  }

  /** The counters for `symbol` after visiting every snapshot in order. */
  function TallyOf(symbol: string, ranks: seq<Snapshot>): (t: Tally)
    ensures t.onList + t.missing == |ranks|
    ensures t.positive >= t.onList
    ensures t.positive == 0 <==> t.onList == 0
  {
    TallyUpTo(symbol, ranks, |ranks|)
  }

  /** The counters after visiting the first `n` snapshots. */
  function TallyUpTo(symbol: string, ranks: seq<Snapshot>, n: nat): (t: Tally)
    requires n <= |ranks|
    ensures t.onList + t.missing == n
    ensures t.positive >= t.onList
    ensures t.positive == 0 <==> t.onList == 0
  {
    if n == 0 then Tally(0, 0, 0)
    else Visit(TallyUpTo(symbol, ranks, n - 1), symbol, SymbolsOf(ranks[n - 1].stocks))
  }

  /** One snapshot's effect on the counters: `N - index` points and an
      appearance when the symbol is listed at `index` of `N` picks, an
      absence otherwise. */
  function Visit(t: Tally, symbol: string, picked: seq<string>): Tally {
    var index := IndexOf(picked, symbol);
    if index > -1 then Tally(t.positive + (|picked| - index), t.onList + 1, t.missing)
    else Tally(t.positive, t.onList, t.missing + 1)
  }

  /** The score record of one symbol of `stocks`. */
  function ScoreOf(stocks: seq<Pick>, ranks: seq<Snapshot>, symbol: string): Score
    requires symbol in SymbolsOf(stocks)
  {
    var p := LastPick(stocks, symbol).value;
    var t := TallyOf(symbol, ranks);
    Score(symbol, p.stockId, p.stock, t.positive - t.missing, t.positive, t.onList, t.missing)
  }

  /** The whole `scores` array: one record per distinct symbol, in the order
      the symbols first appear in `stocks`. */
  function Scores(stocks: seq<Pick>, ranks: seq<Snapshot>): (r: seq<Score>)
    ensures |r| == |Symbols(stocks)|
  {
    var symbols := Symbols(stocks);
    seq(|symbols|, i requires 0 <= i < |symbols| => ScoreOf(stocks, ranks, symbols[i]))
  }

  /** The inner `forEach` over the snapshots for one symbol. */
  method TallySymbol(symbol: string, ranks: seq<Snapshot>) returns (positive: int, onList: nat, missing: nat)
    ensures Tally(positive, onList, missing) == TallyOf(symbol, ranks)
  {
    positive, onList, missing := 0, 0, 0;
    var j := 0;
    while j < |ranks|
      invariant 0 <= j <= |ranks|
      invariant Tally(positive, onList, missing) == TallyUpTo(symbol, ranks, j)
    {
      var picked := SymbolsOf(ranks[j].stocks);
      var maxScore := |picked|;
      var index := IndexOf(picked, symbol);
      if index > -1 {
        onList := onList + 1;
        positive := positive + (maxScore - index);
      } else {
        missing := missing + 1;
      }
      j := j + 1;
    }
  }

  /** The outer `forEach` over the distinct symbols that fills `scores`. */
  method ComputeScores(stocks: seq<Pick>, ranks: seq<Snapshot>) returns (scores: seq<Score>)
    ensures scores == Scores(stocks, ranks)
  {
    var symbols := Symbols(stocks);
    scores := [];
    var k := 0;
    while k < |symbols|
      invariant 0 <= k <= |symbols|
      invariant |scores| == k
      invariant forall i :: 0 <= i < k ==> symbols[i] in SymbolsOf(stocks) && scores[i] == ScoreOf(stocks, ranks, symbols[i])
    {
      var symbol := symbols[k];
      var positive, onList, missing := TallySymbol(symbol, ranks);
      assert symbol in SymbolsOf(stocks);
      var p := LastPick(stocks, symbol).value;
      scores := scores + [Score(symbol, p.stockId, p.stock, positive - missing, positive, onList, missing)];
      k := k + 1;
    }
  }

  /** What every score record satisfies: both counts add up to the number of
      snapshots, the total is the positive part minus the misses, every
      appearance earns at least one point, and a symbol has at least half
      occurrence exactly when it made at least half of the lists. */
  lemma ScoreInvariants(stocks: seq<Pick>, ranks: seq<Snapshot>)
    ensures forall s :: s in Scores(stocks, ranks) ==>
      && s.onItCount + s.missingItCount == |ranks|
      && s.total == s.positive - s.missingItCount
      && s.positive >= s.onItCount
      && (s.positive == 0 <==> s.onItCount == 0)
      && (s.onItCount >= s.missingItCount <==> 2 * s.onItCount >= |ranks|)
  {
  }

  /** Exactly one record per distinct symbol of `stocks`, in order of first
      appearance. */
  lemma ScoresOnePerSymbol(stocks: seq<Pick>, ranks: seq<Snapshot>)
    ensures var sc := Scores(stocks, ranks);
      && (forall x :: x in SymbolsOf(stocks) <==> exists i :: 0 <= i < |sc| && sc[i].symbol == x)
      && (forall i, j :: 0 <= i < j < |sc| ==> IndexOf(SymbolsOf(stocks), sc[i].symbol) < IndexOf(SymbolsOf(stocks), sc[j].symbol))
  {
    var sc := Scores(stocks, ranks);
    var symbols := Symbols(stocks);
    assert forall i :: 0 <= i < |sc| ==> sc[i].symbol == symbols[i];
    DistinctFirstAppearance(SymbolsOf(stocks));
    forall x | x in SymbolsOf(stocks)
      ensures exists i :: 0 <= i < |sc| && sc[i].symbol == x
    {
      var i :| 0 <= i < |symbols| && symbols[i] == x;
      assert sc[i].symbol == x;
    }
  }

  /** The id and resource of each record come from the last row of `stocks`
      with its symbol, as the `Map` lookups give them. */
  lemma ScoresUseLastRow(stocks: seq<Pick>, ranks: seq<Snapshot>)
    ensures var sc := Scores(stocks, ranks);
      forall i :: 0 <= i < |sc| ==>
        exists k :: LastRowOf(stocks, sc[i].symbol, k) && stocks[k].stockId == sc[i].stockId && stocks[k].stock == sc[i].stockResource
  {
    var sc := Scores(stocks, ranks);
    var symbols := Symbols(stocks);
    forall i | 0 <= i < |sc|
      ensures exists k :: LastRowOf(stocks, sc[i].symbol, k) && stocks[k].stockId == sc[i].stockId && stocks[k].stock == sc[i].stockResource
    {
      assert symbols[i] in SymbolsOf(stocks);
      var p := LastPick(stocks, symbols[i]);
      var k :| LastRowOf(stocks, symbols[i], k) && stocks[k] == p.value;
      assert sc[i] == ScoreOf(stocks, ranks, symbols[i]);
    }
  }

  // ---------------------------------------------------------------------------
  // rankings
  // ---------------------------------------------------------------------------

  predicate HasPositiveTotal(s: Score) {
    s.total > 0
  }

  predicate ByTotal(a: Score, b: Score) {
    a.total <= b.total
  }

  lemma ByTotalIsTotalPreorder()
    ensures IsTotalPreorder(ByTotal)
  {
  }

  /** `reverse(sortBy(filter(scores, s => s.total > 0), s => s.total))`:
      exactly the scores with a positive total, highest total first, and
      scores with equal totals in the reverse of their order in `scores`. */
  function RankByScoreDescending(scores: seq<Score>): (r: seq<Score>)
    ensures forall s :: s in r ==> s.total > 0
    ensures multiset(r) == multiset(Filter(scores, HasPositiveTotal))
    ensures forall i, j :: 0 <= i < j < |r| ==> r[i].total >= r[j].total
    ensures forall e :: Ties(r, ByTotal, e) == Reverse(Ties(Filter(scores, HasPositiveTotal), ByTotal, e))
  {
    var kept := Filter(scores, HasPositiveTotal);
    ByTotalIsTotalPreorder();
    ReverseSortByProperties(kept, ByTotal);
    SameMultisetSameElements(Reverse(SortBy(kept, ByTotal)), kept);
    Reverse(SortBy(kept, ByTotal))
  }

  /** `map(rank_by_score_descending.slice(0, 5), s => s.stock_id)` */
  function MyInterests(ranked: seq<Score>): (ids: seq<int>)
    ensures |ids| <= 5 && |ids| <= |ranked|
    ensures |ids| == 5 || |ids| == |ranked|
    ensures forall i :: 0 <= i < |ids| ==> ids[i] == ranked[i].stockId
  {
    var top := Take(ranked, 5);
    seq(|top|, i requires 0 <= i < |top| => top[i].stockId)
  }

  /** The price charts show the stock ids of the head of the score ranking:
      five of them, or all positive scores when there are fewer, and every
      positive score left out has a total no higher than any chosen one. */
  lemma MyInterestsAreTopScores(scores: seq<Score>)
    ensures var ranked := RankByScoreDescending(scores);
      && |MyInterests(ranked)| == (if |Filter(scores, HasPositiveTotal)| < 5 then |Filter(scores, HasPositiveTotal)| else 5)
      && (forall s :: s in scores && s.total > 0 && s !in ranked[..|MyInterests(ranked)|] ==>
            forall i :: 0 <= i < |MyInterests(ranked)| ==> s.total <= ranked[i].total)
  {
    var kept := Filter(scores, HasPositiveTotal);
    var ranked := RankByScoreDescending(scores);
    var n := |MyInterests(ranked)|;
    assert |ranked| == |kept| by {
      assert |multiset(ranked)| == |multiset(kept)|;
    }
    SameMultisetSameElements(ranked, kept);
    forall s | s in scores && s.total > 0 && s !in ranked[..n]
      ensures forall i :: 0 <= i < n ==> s.total <= ranked[i].total
    {
      assert s in kept;
      var k :| 0 <= k < |ranked| && ranked[k] == s;
      assert k >= n;
    }
  }

  predicate OnList(s: Score) {
    s.onItCount > 0
  }

  predicate ByOnItCount(a: Score, b: Score) {
    a.onItCount <= b.onItCount
  }

  lemma ByOnItCountIsTotalPreorder()
    ensures IsTotalPreorder(ByOnItCount)
  {
  }

  /** `reverse(sortBy(filter(scores, s => s.on_it_count > 0), s => s.on_it_count))` */
  function RankByOnItCount(scores: seq<Score>): (r: seq<Score>)
    ensures forall s :: s in r ==> s.onItCount > 0
    ensures multiset(r) == multiset(Filter(scores, OnList))
    ensures forall i, j :: 0 <= i < j < |r| ==> r[i].onItCount >= r[j].onItCount
    ensures forall e :: Ties(r, ByOnItCount, e) == Reverse(Ties(Filter(scores, OnList), ByOnItCount, e))
  {
    var kept := Filter(scores, OnList);
    ByOnItCountIsTotalPreorder();
    ReverseSortByProperties(kept, ByOnItCount);
    SameMultisetSameElements(Reverse(SortBy(kept, ByOnItCount)), kept);
    Reverse(SortBy(kept, ByOnItCount))
  }

  predicate AtLeastHalf(s: Score) {
    s.onItCount >= s.missingItCount
  }

  predicate BelowHalf(s: Score) {
    s.onItCount < s.missingItCount
  }

  /** `rank_upper_50`: occurrence of at least 50%. */
  function RankUpper50(scores: seq<Score>): seq<Score> {
    Filter(RankByOnItCount(scores), AtLeastHalf)
  }

  /** `rank_lower_50`: occurrence below 50%. */
  function RankLower50(scores: seq<Score>): seq<Score> {
    Filter(RankByOnItCount(scores), BelowHalf)
  }

  /** The two occurrence lists split the symbols that made a list at least
      once: together they hold each such score exactly as often as `scores`
      does, each side has the right occurrence, and both keep the
      on-it-count-descending order. */
  lemma OccurrencePartition(scores: seq<Score>)
    ensures multiset(RankUpper50(scores)) + multiset(RankLower50(scores)) == multiset(Filter(scores, OnList))
    ensures forall s :: s in RankUpper50(scores) ==> s.onItCount > 0 && s.onItCount >= s.missingItCount
    ensures forall s :: s in RankLower50(scores) ==> s.onItCount > 0 && s.onItCount < s.missingItCount
    ensures forall i, j :: 0 <= i < j < |RankUpper50(scores)| ==> RankUpper50(scores)[i].onItCount >= RankUpper50(scores)[j].onItCount
    ensures forall i, j :: 0 <= i < j < |RankLower50(scores)| ==> RankLower50(scores)[i].onItCount >= RankLower50(scores)[j].onItCount
  {
    var ranked := RankByOnItCount(scores);
    FilterPartition(ranked, AtLeastHalf, BelowHalf);
    assert SortedDesc(ranked, ByOnItCount);
    FilterSorted(ranked, AtLeastHalf, FlipOnItCount);
    FilterSorted(ranked, BelowHalf, FlipOnItCount);
  }

  predicate FlipOnItCount(a: Score, b: Score) {
    ByOnItCount(b, a)
  }
}
