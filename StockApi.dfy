/** The ranking helpers of the REST API (`backend/stock/api.py`).

    A ranking is a list of statistics, one dictionary per entry with the keys
    `id`, `symbol`, `on` (only for dated rows) and `val`. Rankings are built
    from the rows of a model: entries whose value is missing, zero or -100
    (the markers for unknown data) are dropped, the rest are sorted by value,
    and for dated rows only the first entry of each symbol is kept. A request
    can then narrow every ranking to a list of ids and a list of symbols.
    A diary entry written about a stock is tagged with the stock's symbol. */
module StockApi {
  import opened Wrappers
  import opened Lists
  import opened Text

  // ---------------------------------------------------------------------------
  // values and their order
  // ---------------------------------------------------------------------------

  /** Python truthiness plus the -100 marker: `val and val != -100`. */
  predicate IsValid(val: Option<real>) {
    val.Some? && val.value != 0.0 && val.value != -100.0
  }

  /** The sort key of a value. Only valid values are ever sorted, and those
      are present. */
  function Key(val: Option<real>): real {
    val.GetOr(0.0)
  }

  /** `sorted(..., key=val, reverse=highToLow)`: `a` may come before `b`. */
  predicate Before(a: Option<real>, b: Option<real>, highToLow: bool) {
    if highToLow then Key(a) >= Key(b) else Key(a) <= Key(b)
  }

  /** One dictionary of a ranking. `on` is absent from the rankings of
      undated rows. */
  datatype Stat = Stat(id: int, symbol: string, on: Option<int>, val: Option<real>)

  function StatOrder(highToLow: bool): (Stat, Stat) -> bool {
    (a: Stat, b: Stat) => Before(a.val, b.val, highToLow)
  }

  lemma StatOrderTotal(highToLow: bool)
    ensures IsTotalPreorder(StatOrder(highToLow))
  {
  }

  predicate IsValidStat(x: Stat) {
    IsValid(x.val)
  }

  // ---------------------------------------------------------------------------
  // RankingResource._get_object_list_helper
  // ---------------------------------------------------------------------------

  /** A dated row of a model that refers to a stock: its stock's id and
      symbol, its date as a day number and the value of the ranked field. */
  datatype Observation = Observation(stockId: int, symbol: string, on: int, val: Option<real>)

  function ObservationOrder(highToLow: bool): (Observation, Observation) -> bool {
    (a: Observation, b: Observation) => Before(a.val, b.val, highToLow)
  }

  lemma ObservationOrderTotal(highToLow: bool)
    ensures IsTotalPreorder(ObservationOrder(highToLow))
  {
  }

  /** The dictionary the helper builds from a row. */
  function Project(x: Observation): (r: Stat)
    ensures r.id == x.stockId && r.symbol == x.symbol && r.on == Some(x.on) && r.val == x.val
  {
    Stat(x.stockId, x.symbol, Some(x.on), x.val)
  }

  /** The rows of the last 180 days (counted back from `today`) whose value
      is valid, in query order. */
  function RecentValid(objects: seq<Observation>, today: int): seq<Observation> {
    Filter(objects, (x: Observation) => x.on >= today - 180 && IsValid(x.val))
  }

  function SymbolsOf(s: seq<Observation>): (r: seq<string>)
    ensures |r| == |s|
    ensures forall k :: 0 <= k < |s| ==> r[k] == s[k].symbol
  {
    seq(|s|, k requires 0 <= k < |s| => s[k].symbol)
  }

  /** Row `k` is the first row of its symbol. */
  predicate FirstOfSymbol(s: seq<Observation>, k: int)
    requires 0 <= k < |s|
  {
    forall i :: 0 <= i < k ==> s[i].symbol != s[k].symbol
  }

  /** The dictionaries of the first `n` rows of `s` that are the first rows
      of their symbols, in order. */
  function KeepFirst(s: seq<Observation>, n: nat): seq<Stat>
    requires n <= |s|
  {
    if n == 0 then []
    else KeepFirst(s, n - 1) + (if FirstOfSymbol(s, n - 1) then [Project(s[n - 1])] else [])
  }

  /** What `_get_object_list_helper(objects, sort_by, high_to_low)` returns
      when the date is `today`. */
  function ObjectList(objects: seq<Observation>, highToLow: bool, today: int): seq<Stat> {
    var dataSet := SortBy(RecentValid(objects, today), ObservationOrder(highToLow));
    KeepFirst(dataSet, |dataSet|)
  }

  /** The symbol of row `j` was seen before exactly when row `j` is not the
      first of its symbol. */
  lemma SeenBefore(s: seq<Observation>, j: int)
    requires 0 <= j < |s|
    ensures s[j].symbol in SymbolsOf(s)[..j] <==> !FirstOfSymbol(s, j)
  {
    var seen := SymbolsOf(s)[..j];
    if !FirstOfSymbol(s, j) {
      var i :| 0 <= i < j && s[i].symbol == s[j].symbol;
      assert seen[i] == s[j].symbol;
    }
  }

  /** The helper's loop: it walks the sorted rows and keeps a row unless its
      symbol was counted already. */
  method GetObjectListHelper(objects: seq<Observation>, highToLow: bool, today: int) returns (vals: seq<Stat>)
    ensures vals == ObjectList(objects, highToLow, today)
  {
    var validEntries := RecentValid(objects, today);
    var dataSet := SortBy(validEntries, ObservationOrder(highToLow));
    ghost var syms := SymbolsOf(dataSet);
    vals := [];
    var counted: seq<string> := [];
    var j := 0;
    while j < |dataSet|
      invariant 0 <= j <= |dataSet|
      invariant vals == KeepFirst(dataSet, j)
      invariant forall x :: x in counted <==> x in syms[..j]
    {
      var x := dataSet[j];
      var symbol := x.symbol;
      assert syms[..j + 1] == syms[..j] + [symbol];
      SeenBefore(dataSet, j);
      if symbol !in counted {
        vals := vals + [Project(x)];
        counted := counted + [symbol];
      }
      j := j + 1;
    }
  }

  /** The positions of the rows `KeepFirst(s, n)` is built from. */
  function KeptPositions(s: seq<Observation>, n: nat): seq<int>
    requires n <= |s|
  {
    if n == 0 then []
    else KeptPositions(s, n - 1) + (if FirstOfSymbol(s, n - 1) then [n - 1] else [])
  }

  /** The kept positions increase, stay below `n`, are each the first row of
      their symbol, and `KeepFirst` is built from exactly those rows. */
  lemma {:induction false} KeptPositionsSpec(s: seq<Observation>, n: nat)
    requires n <= |s|
    ensures var pos := KeptPositions(s, n);
      && |pos| == |KeepFirst(s, n)|
      && (forall i :: 0 <= i < |pos| ==>
            0 <= pos[i] < n && FirstOfSymbol(s, pos[i]) && KeepFirst(s, n)[i] == Project(s[pos[i]]))
      && (forall i, j :: 0 <= i < j < |pos| ==> pos[i] < pos[j])
  {
    if n > 0 {
      KeptPositionsSpec(s, n - 1);
    }
  }

  /** No symbol is kept twice. */
  lemma KeepFirstDistinct(s: seq<Observation>)
    ensures var r := KeepFirst(s, |s|);
      forall i, j :: 0 <= i < j < |r| ==> r[i].symbol != r[j].symbol
  {
    var r := KeepFirst(s, |s|);
    var pos := KeptPositions(s, |s|);
    KeptPositionsSpec(s, |s|);
    forall i, j | 0 <= i < j < |r| ensures r[i].symbol != r[j].symbol {
      assert FirstOfSymbol(s, pos[j]);
    }
  }

  /** A row that is the first of its symbol is kept. */
  lemma {:induction false} KeepFirstComplete(s: seq<Observation>, n: nat, k: int)
    requires 0 <= k < n <= |s| && FirstOfSymbol(s, k)
    ensures Project(s[k]) in KeepFirst(s, n)
  {
    if k < n - 1 {
      KeepFirstComplete(s, n - 1, k);
    }
  }

  /** The first row with the symbol of row `m`. */
  function FirstPosition(s: seq<Observation>, m: int): (f: int)
    requires 0 <= m < |s|
    ensures 0 <= f <= m && FirstOfSymbol(s, f) && s[f].symbol == s[m].symbol
  {
    var syms := SymbolsOf(s);
    assert syms[m] == s[m].symbol;
    var f := IndexOf(syms, s[m].symbol);
    assert syms[f] == s[f].symbol;
    f
  }

  /** Every symbol of the rows has a kept entry. */
  lemma KeepFirstCovers(s: seq<Observation>)
    ensures forall x :: x in s ==> exists e :: e in KeepFirst(s, |s|) && e.symbol == x.symbol
  {
    forall x | x in s ensures exists e :: e in KeepFirst(s, |s|) && e.symbol == x.symbol {
      var m :| 0 <= m < |s| && s[m] == x;
      var f := FirstPosition(s, m);
      KeepFirstComplete(s, |s|, f);
    }
  }

  /** The row a kept entry is built from. */
  lemma KeptPosition(s: seq<Observation>, e: Stat) returns (k: int)
    requires e in KeepFirst(s, |s|)
    ensures 0 <= k < |s| && FirstOfSymbol(s, k) && e == Project(s[k])
  {
    var r := KeepFirst(s, |s|);
    var pos := KeptPositions(s, |s|);
    KeptPositionsSpec(s, |s|);
    var i :| 0 <= i < |r| && r[i] == e;
    k := pos[i];
  }

  /** Keeping rows at increasing positions of a sorted sequence keeps them sorted. */
  lemma KeepFirstSorted(s: seq<Observation>, highToLow: bool)
    requires Sorted(s, ObservationOrder(highToLow))
    ensures var r := KeepFirst(s, |s|);
      forall i, j :: 0 <= i < j < |r| ==> Before(r[i].val, r[j].val, highToLow)
  {
    var r := KeepFirst(s, |s|);
    var pos := KeptPositions(s, |s|);
    KeptPositionsSpec(s, |s|);
    forall i, j | 0 <= i < j < |r| ensures Before(r[i].val, r[j].val, highToLow) {
      assert ObservationOrder(highToLow)(s[pos[i]], s[pos[j]]);
    }
  }

  /** A kept entry comes no later in the sorted rows than any row of its
      symbol, so no row of its symbol is ordered before it. */
  lemma KeepFirstExtreme(s: seq<Observation>, highToLow: bool)
    requires Sorted(s, ObservationOrder(highToLow))
    ensures forall e, x :: e in KeepFirst(s, |s|) && x in s && x.symbol == e.symbol ==>
      Before(e.val, x.val, highToLow)
  {
    forall e, x | e in KeepFirst(s, |s|) && x in s && x.symbol == e.symbol
      ensures Before(e.val, x.val, highToLow)
    {
      var m :| 0 <= m < |s| && s[m] == x;
      var k := KeptPosition(s, e);
      assert k <= m;
      if k < m {
        assert ObservationOrder(highToLow)(s[k], s[m]);
      }
    }
  }

  /** Every kept entry is built from one of the rows. */
  lemma KeepFirstFromRows(s: seq<Observation>)
    ensures forall e :: e in KeepFirst(s, |s|) ==> exists x :: x in s && e == Project(x)
  {
    forall e | e in KeepFirst(s, |s|) ensures exists x :: x in s && e == Project(x) {
      var k := KeptPosition(s, e);
      assert s[k] in s;
    }
  }

  /** The rows the helper walks: the recent valid rows, sorted as asked. */
  lemma SortedRows(objects: seq<Observation>, highToLow: bool, today: int)
    ensures var s := SortBy(RecentValid(objects, today), ObservationOrder(highToLow));
      && Sorted(s, ObservationOrder(highToLow))
      && forall x :: x in s <==> x in RecentValid(objects, today)
  {
    var valid := RecentValid(objects, today);
    ObservationOrderTotal(highToLow);
    SortByIsStableSort(valid, ObservationOrder(highToLow));
    SameMultisetSameElements(SortBy(valid, ObservationOrder(highToLow)), valid);
  }

  /** `_get_object_list_helper` lists each symbol at most once. */
  lemma ObjectListDistinct(objects: seq<Observation>, highToLow: bool, today: int)
    ensures var r := ObjectList(objects, highToLow, today);
      forall i, j :: 0 <= i < j < |r| ==> r[i].symbol != r[j].symbol
  {
    var s := SortBy(RecentValid(objects, today), ObservationOrder(highToLow));
    assert ObjectList(objects, highToLow, today) == KeepFirst(s, |s|);
    KeepFirstDistinct(s);
  }

  /** `_get_object_list_helper` orders its result by value: non-increasing
      when `highToLow`, non-decreasing otherwise. */
  lemma ObjectListOrdered(objects: seq<Observation>, highToLow: bool, today: int)
    ensures var r := ObjectList(objects, highToLow, today);
      forall i, j :: 0 <= i < j < |r| ==> Before(r[i].val, r[j].val, highToLow)
  {
    var s := SortBy(RecentValid(objects, today), ObservationOrder(highToLow));
    assert ObjectList(objects, highToLow, today) == KeepFirst(s, |s|);
    SortedRows(objects, highToLow, today);
    KeepFirstSorted(s, highToLow);
  }

  /** Every symbol of the recent valid rows is listed. */
  lemma ObjectListComplete(objects: seq<Observation>, highToLow: bool, today: int)
    ensures var r := ObjectList(objects, highToLow, today);
      forall x :: x in RecentValid(objects, today) ==> exists e :: e in r && e.symbol == x.symbol
  {
    SortedRows(objects, highToLow, today);
    KeepFirstCovers(SortBy(RecentValid(objects, today), ObservationOrder(highToLow)));
  }

  /** The entry of a symbol is the one the sort puts first: no recent valid
      row of that symbol has a larger value (`highToLow`) or a smaller one
      (otherwise). */
  lemma ObjectListExtreme(objects: seq<Observation>, highToLow: bool, today: int)
    ensures var r := ObjectList(objects, highToLow, today);
      forall e, x :: e in r && x in RecentValid(objects, today) && x.symbol == e.symbol ==>
        Before(e.val, x.val, highToLow)
  {
    SortedRows(objects, highToLow, today);
    KeepFirstExtreme(SortBy(RecentValid(objects, today), ObservationOrder(highToLow)), highToLow);
  }

  /** Every entry is built from a row of the last 180 days with a valid value. */
  lemma ObjectListFromValidRows(objects: seq<Observation>, highToLow: bool, today: int)
    ensures forall e :: e in ObjectList(objects, highToLow, today) ==>
      exists x :: x in objects && e == Project(x) && x.on >= today - 180 && IsValid(x.val)
  {
    var s := SortBy(RecentValid(objects, today), ObservationOrder(highToLow));
    SortedRows(objects, highToLow, today);
    KeepFirstFromRows(s);
    forall e | e in KeepFirst(s, |s|)
      ensures exists x :: x in objects && e == Project(x) && x.on >= today - 180 && IsValid(x.val)
    {
      var x :| x in s && e == Project(x);
      assert x in RecentValid(objects, today);
    }
  }

  // ---------------------------------------------------------------------------
  // RankStockResource._rank_by
  // ---------------------------------------------------------------------------

  /** A stock and the value of the ranked field. */
  datatype Stock = Stock(id: int, symbol: string, val: Option<real>)

  function EntryOf(s: Stock): Stat {
    Stat(s.id, s.symbol, None, s.val)
  }

  /** One dictionary per stock, in query order. */
  function Entries(stocks: seq<Stock>): (r: seq<Stat>)
    ensures |r| == |stocks|
    ensures forall k :: 0 <= k < |stocks| ==> r[k] == EntryOf(stocks[k])
  {
    seq(|stocks|, k requires 0 <= k < |stocks| => EntryOf(stocks[k]))
  }

  /** What `_rank_by(objs, attr, high_to_low)` returns. */
  function RankOf(stocks: seq<Stock>, highToLow: bool): seq<Stat> {
    SortBy(Filter(Entries(stocks), IsValidStat), StatOrder(highToLow))
  }

  /** The loop that builds one dictionary per stock, then the filter and the sort. */
  method RankBy(stocks: seq<Stock>, highToLow: bool) returns (dataSet: seq<Stat>)
    ensures dataSet == RankOf(stocks, highToLow)
  {
    var vals: seq<Stat> := [];
    var j := 0;
    while j < |stocks|
      invariant 0 <= j <= |stocks|
      invariant |vals| == j
      invariant forall k :: 0 <= k < j ==> vals[k] == EntryOf(stocks[k])
    {
      vals := vals + [Stat(stocks[j].id, stocks[j].symbol, None, stocks[j].val)];
      j := j + 1;
    }
    assert vals == Entries(stocks);
    var validEntries := Filter(vals, IsValidStat);
    dataSet := SortBy(validEntries, StatOrder(highToLow));
  }

  /** `_rank_by` returns the valid entries, duplicates included, as a stable
      sort by value: ordered as asked, every valid entry as often as it
      occurs, nothing else, and entries with equal values in query order. */
  lemma RankOfSpec(stocks: seq<Stock>, highToLow: bool)
    ensures var r := RankOf(stocks, highToLow);
      var valid := Filter(Entries(stocks), IsValidStat);
      && (forall i, j :: 0 <= i < j < |r| ==> Before(r[i].val, r[j].val, highToLow))
      && multiset(r) == multiset(valid)
      && (forall x :: x in r <==> x in Entries(stocks) && IsValid(x.val))
      && (forall e :: Ties(r, StatOrder(highToLow), e) == Ties(valid, StatOrder(highToLow), e))
  {
    var valid := Filter(Entries(stocks), IsValidStat);
    var r := RankOf(stocks, highToLow);
    StatOrderTotal(highToLow);
    SortByIsStableSort(valid, StatOrder(highToLow));
    SameMultisetSameElements(r, valid);
    forall i, j | 0 <= i < j < |r| ensures Before(r[i].val, r[j].val, highToLow) {
      assert StatOrder(highToLow)(r[i], r[j]);
    }
  }

  // ---------------------------------------------------------------------------
  // RankingResource.apply_filters and build_filters
  // ---------------------------------------------------------------------------

  /** A ranking: its resource id, the name of the ranked field, and the list
      of statistics, which a request may narrow. */
  class StatSummary {
    const id: int
    const name: string
    var stats: seq<Stat>

    constructor(id: int, name: string, stats: seq<Stat>)
      ensures this.id == id && this.name == name && this.stats == stats
    {
      this.id := id;
      this.name := name;
      this.stats := stats;
    }
  }

  /** Python `int(x)` applied to every piece of `parts`; one failure fails all. */
  function ParseAll(parts: seq<string>): (r: Option<seq<int>>)
    ensures r.Some? ==> |r.value| == |parts|
  {
    if parts == [] then Some([])
    else
      match ParseInt(parts[0])
      case None => None
      case Some(v) =>
        match ParseAll(parts[1..])
        case None => None
        case Some(rest) => Some([v] + rest)
  }

  /** `list(map(int, s.split(",")))`. */
  function ParseIds(s: string): Option<seq<int>> {
    ParseAll(Split(s, ','))
  }

  /** `[x.upper() for x in s.split(",")]`. */
  function UpperSymbols(s: string): (r: seq<string>)
    ensures forall i :: 0 <= i < |r| ==> NoLower(r[i])
  {
    var parts := Split(s, ',');
    seq(|parts|, i requires 0 <= i < |parts| => ToUpper(parts[i]))
  }

  function Rendered(ids: seq<int>): (r: seq<string>)
    requires forall i :: 0 <= i < |ids| ==> ids[i] >= 0
    ensures |r| == |ids|
  {
    seq(|ids|, i requires 0 <= i < |ids| => NatToString(ids[i]))
  }

  lemma {:induction false} ParseAllRendered(ids: seq<int>)
    requires forall i :: 0 <= i < |ids| ==> ids[i] >= 0
    ensures ParseAll(Rendered(ids)) == Some(ids)
  {
    if ids != [] {
      var parts := Rendered(ids);
      var rest := ids[1..];
      assert ParseAll(parts) == Some([ids[0]] + rest) by {
        assert ParseInt(parts[0]) == Some(ids[0]) by {
          assert parts[0] == NatToString(ids[0]);
          ParseIntNatToString(ids[0]);
        }
        assert ParseAll(parts[1..]) == Some(rest) by {
          assert parts[1..] == Rendered(rest);
          ParseAllRendered(rest);
        }
      }
      assert [ids[0]] + rest == ids;
    }
  }

  /** A comma-separated list of identifiers, as a client writes it, is parsed
      back into the identifiers. */
  lemma ParseIdsRoundTrip(ids: seq<int>)
    requires |ids| >= 1
    requires forall i :: 0 <= i < |ids| ==> ids[i] >= 0
    ensures ParseIds(Join(Rendered(ids), ",")) == Some(ids)
  {
    var parts := Rendered(ids);
    forall i | 0 <= i < |parts| ensures ',' !in parts[i] {
    }
    SplitJoin(parts, ',');
    ParseAllRendered(ids);
  }

  /** What a request asks for: the ids and the symbols to keep, each only
      when its key is present. */
  datatype Criteria = Criteria(ids: Option<seq<int>>, symbols: Option<seq<string>>)

  /** The criteria of the filters, or nothing when `id__in` holds a piece
      that is not an integer (Python raises `ValueError`). */
  function CriteriaOf(filters: map<string, string>): Option<Criteria> {
    var ids := if "id__in" in filters then ParseIds(filters["id__in"]) else None;
    var symbols := if "symbol__in" in filters then Some(UpperSymbols(filters["symbol__in"])) else None;
    if "id__in" in filters && ids.None? then None else Some(Criteria(ids, symbols))
  }

  function HasIdIn(ids: seq<int>): Stat -> bool {
    (x: Stat) => x.id in ids
  }

  function HasSymbolIn(symbols: seq<string>): Stat -> bool {
    (x: Stat) => x.symbol in symbols
  }

  /** The two filters of `apply_filters`, one after the other. */
  function Narrow(stats: seq<Stat>, c: Criteria): seq<Stat> {
    var byId := if c.ids.Some? then Filter(stats, HasIdIn(c.ids.value)) else stats;
    if c.symbols.Some? then Filter(byId, HasSymbolIn(c.symbols.value)) else byId
  }

  /** A statistic meets every criterion the request gives. */
  predicate Selected(c: Criteria, x: Stat) {
    (c.ids.None? || x.id in c.ids.value) && (c.symbols.None? || x.symbol in c.symbols.value)
  }

  /** Narrowing only removes statistics and keeps the rest in order: it is
      the subsequence of the statistics that meet every criterion, so a
      statistic remains exactly when it was there and meets them. */
  lemma NarrowSpec(stats: seq<Stat>, c: Criteria)
    ensures Narrow(stats, c) == Filter(stats, (x: Stat) => Selected(c, x))
    ensures forall x :: x in Narrow(stats, c) <==> x in stats && Selected(c, x)
    ensures multiset(Narrow(stats, c)) <= multiset(stats)
  {
    NarrowIsOneFilter(stats, c);
    FilterSubMultiset(stats, (x: Stat) => Selected(c, x));
  }

  lemma NarrowIsOneFilter(stats: seq<Stat>, c: Criteria)
    ensures Narrow(stats, c) == Filter(stats, (x: Stat) => Selected(c, x))
  {
    var sel := (x: Stat) => Selected(c, x);
    match (c.ids, c.symbols)
    case (Some(ids), Some(symbols)) =>
      FilterCompose(stats, HasIdIn(ids), HasSymbolIn(symbols), sel);
    case (Some(ids), None) =>
      FilterSamePredicate(stats, HasIdIn(ids), sel);
    case (None, Some(symbols)) =>
      FilterSamePredicate(stats, HasSymbolIn(symbols), sel);
    case (None, None) =>
      FilterKeepsAll(stats, sel);
  }

  /** `for o in obj_list: o.stats = list(filter(p, o.stats))`. A ranking
      listed twice is filtered twice, which changes nothing more. */
  method FilterStats(objs: seq<StatSummary>, p: Stat -> bool)
    modifies objs
    ensures forall o :: o in objs ==> o.stats == Filter(old(o.stats), p)
  {
    ghost var done: set<StatSummary> := {};
    var j := 0;
    while j < |objs|
      invariant 0 <= j <= |objs|
      invariant forall k :: 0 <= k < j ==> objs[k] in done
      invariant forall o :: o in objs ==> o.stats == if o in done then Filter(old(o.stats), p) else old(o.stats)
    {
      var o := objs[j];
      var stats := o.stats;
      assert Filter(stats, p) == Filter(old(o.stats), p) by {
        FilterIdempotent(old(o.stats), p);
      }
      o.stats := Filter(stats, p);
      done := done + {o};
      j := j + 1;
    }
  }

  /** `apply_filters`: parses the ids before touching anything, then narrows
      every ranking by id and by symbol. A malformed id leaves every ranking
      as it was and fails. */
  method ApplyFilters(objs: seq<StatSummary>, filters: map<string, string>)
    returns (result: Result<seq<StatSummary>, string>)
    modifies objs
    ensures CriteriaOf(filters).None? ==>
      result.Err? && forall o :: o in objs ==> o.stats == old(o.stats)
    ensures CriteriaOf(filters).Some? ==>
      result == Ok(objs) && forall o :: o in objs ==> o.stats == Narrow(old(o.stats), CriteriaOf(filters).value)
  {
    var c := CriteriaOf(filters);
    if "id__in" in filters {
      var ids := ParseIds(filters["id__in"]);
      if ids.None? {
        return Err("invalid literal for int()");
      }
      FilterStats(objs, HasIdIn(ids.value));
    }
    if "symbol__in" in filters {
      var symbols := UpperSymbols(filters["symbol__in"]);
      FilterStats(objs, HasSymbolIn(symbols));
    }
    result := Ok(objs);
  }

  /** The query parameters of a request, a mutable dictionary. */
  class QueryFilters {
    var entries: map<string, string>

    constructor(entries: map<string, string>)
      ensures this.entries == entries
    {
      this.entries := entries;
    }
  }

  /** `after` is `before` with `id__in` taken from `stats__in` when that is
      given, and every other key as it was. */
  ghost predicate BuiltFrom(before: map<string, string>, after: map<string, string>) {
    && (forall k :: k != "id__in" ==> (k in after <==> k in before))
    && (forall k :: k != "id__in" && k in before ==> after[k] == before[k])
    && ("stats__in" in before ==> "id__in" in after && after["id__in"] == before["stats__in"])
    && ("stats__in" !in before ==> ("id__in" in after <==> "id__in" in before))
    && ("stats__in" !in before && "id__in" in before ==> after["id__in"] == before["id__in"])
  }

  /** `build_filters`: updates the dictionary it is given and returns that
      same dictionary, or a new empty one when it is given none. */
  method BuildFilters(filters: QueryFilters?) returns (orm: QueryFilters)
    modifies filters
    ensures filters == null ==> fresh(orm) && orm.entries == map[]
    ensures filters != null ==> orm == filters && BuiltFrom(old(filters.entries), orm.entries)
  {
    if filters == null {
      orm := new QueryFilters(map[]);
      return;
    }
    orm := filters;
    if "stats__in" in orm.entries {
      orm.entries := orm.entries["id__in" := orm.entries["stats__in"]];
    }
    if "symbol__in" in orm.entries {
      orm.entries := orm.entries["symbol__in" := orm.entries["symbol__in"]];
    }
  }

  // ---------------------------------------------------------------------------
  // DiaryResource.obj_create
  // ---------------------------------------------------------------------------

  /** The content a new diary entry is saved with: when the entry refers to a
      stock (`stockSymbol` is its symbol) that the text does not mention, a
      line `- SYMBOL` is appended. */
  function DiaryContent(content: string, stockSymbol: Option<string>): string {
    if stockSymbol.Some? && !Contains(content, stockSymbol.value) then
      content + "\n- " + stockSymbol.value + "\n"
    else
      content
  }

  /** The saved content starts with what was written, mentions the stock,
      and adds nothing when there is no stock or the stock is mentioned. */
  lemma DiaryContentTags(content: string, stockSymbol: Option<string>)
    ensures var r := DiaryContent(content, stockSymbol);
      && content <= r
      && (stockSymbol.Some? ==> Contains(r, stockSymbol.value))
      && (stockSymbol.None? || Contains(content, stockSymbol.value) <==> r == content)
  {
    if stockSymbol.Some? && !Contains(content, stockSymbol.value) {
      var sym := stockSymbol.value;
      assert content + "\n- " + sym + "\n" == (content + "\n- ") + sym + "\n";
      ContainsInfix(content + "\n- ", sym, "\n");
    }
  }

  /** Tagging an already tagged entry changes nothing. */
  lemma DiaryContentIdempotent(content: string, stockSymbol: Option<string>)
    ensures DiaryContent(DiaryContent(content, stockSymbol), stockSymbol) == DiaryContent(content, stockSymbol)
  {
    DiaryContentTags(content, stockSymbol);
  }
}
