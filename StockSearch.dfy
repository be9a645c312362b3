/** The stock list page (`frontend/src/stocks/list.jsx`): a search box whose
    term is kept trimmed and upper-cased, the stocks whose symbol contains
    the term, offered as links sorted by symbol, and one detail route per
    stock whatever the search. */
module StockSearch {
  import opened Wrappers
  import opened Lists
  import opened Text

  /** A stock as the list API returns it. */
  datatype Stock = Stock(id: nat, symbol: string)

  /** The search term a typed value is stored as: `value.trim().toUpperCase()`. */
  function Normalize(value: string): string {
    ToUpper(Trim(value))
  }

  /** A stored search term has no lower-case letter, does not start or end
      with white space, and normalising it again changes nothing. */
  lemma NormalizeSpec(value: string)
    ensures var t := Normalize(value);
      && NoLower(t)
      && (t == [] || (!IsSpace(t[0]) && !IsSpace(t[|t| - 1])))
      && Normalize(t) == t
  {
    var trimmed := Trim(value);
    var t := ToUpper(trimmed);
    ToUpperProperties(trimmed);
    if t != [] {
      assert IsSpace(t[0]) <==> IsSpace(trimmed[0]);
      assert IsSpace(t[|t| - 1]) <==> IsSpace(trimmed[|t| - 1]);
    }
    TrimNoop(t);
    ToUpperProperties(t);
  }

  /** The page's state: the current search term. */
  class StockList {
    var searching: string

    /** The page opens searching for "SBUX". */
    constructor()
      ensures searching == "SBUX"
    {
      searching := "SBUX";
    }

    /** `handleChange`: stores the typed value as a search term. */
    method HandleChange(value: string)
      modifies this
      ensures searching == Normalize(value)
      ensures NoLower(searching)
    {
      searching := ToUpper(Trim(value));
      NormalizeSpec(value);
    }
  }

  function SymbolContains(term: string): Stock -> bool {
    (x: Stock) => Contains(x.symbol, term)
  }

  /** `filtered`: the stocks whose symbol contains the search term. */
  function Filtered(stocks: seq<Stock>, term: string): seq<Stock> {
    Filter(stocks, SymbolContains(term))
  }

  /** `filtered` holds exactly the stocks whose symbol contains the term, in
      their original order, each as often as the list does; the empty term
      keeps every stock. */
  lemma FilteredSpec(stocks: seq<Stock>, term: string)
    ensures forall x :: x in Filtered(stocks, term) <==> x in stocks && Contains(x.symbol, term)
    ensures multiset(Filtered(stocks, term)) <= multiset(stocks)
    ensures forall x :: x in stocks && Contains(x.symbol, term) ==>
      multiset(Filtered(stocks, term))[x] == multiset(stocks)[x]
    ensures term == [] ==> Filtered(stocks, term) == stocks
  {
    FilterSubMultiset(stocks, SymbolContains(term));
    forall x | x in stocks && Contains(x.symbol, term)
      ensures multiset(Filtered(stocks, term))[x] == multiset(stocks)[x]
    {
      FilterMultiplicity(stocks, SymbolContains(term), x);
    }
    if term == [] {
      forall x | x in stocks ensures SymbolContains(term)(x) {
        ContainsEmpty(x.symbol);
      }
      FilterKeepsAll(stocks, SymbolContains(term));
    }
  }

  function BySymbol(): (Stock, Stock) -> bool {
    (a: Stock, b: Stock) => LexLeq(a.symbol, b.symbol)
  }

  lemma BySymbolIsTotalPreorder()
    ensures IsTotalPreorder(BySymbol())
  {
    forall a: Stock, b: Stock ensures BySymbol()(a, b) || BySymbol()(b, a) {
      LexLeqTotal(a.symbol, b.symbol);
    }
    forall a: Stock, b: Stock, c: Stock | BySymbol()(a, b) && BySymbol()(b, c)
      ensures BySymbol()(a, c)
    {
      LexLeqTransitive(a.symbol, b.symbol, c.symbol);
    }
  }

  /** `selectors`: the filtered stocks, `sortBy(filtered, x => x.symbol)`. */
  function Selectors(stocks: seq<Stock>, term: string): seq<Stock> {
    SortBy(Filtered(stocks, term), BySymbol())
  }

  /** The links are the filtered stocks ordered by symbol; stocks with the
      same symbol keep their order. */
  lemma SelectorsSpec(stocks: seq<Stock>, term: string)
    ensures var r := Selectors(stocks, term);
      && (forall i, j :: 0 <= i < j < |r| ==> LexLeq(r[i].symbol, r[j].symbol))
      && multiset(r) == multiset(Filtered(stocks, term))
      && (forall e :: Ties(r, BySymbol(), e) == Ties(Filtered(stocks, term), BySymbol(), e))
  {
    var r := Selectors(stocks, term);
    BySymbolIsTotalPreorder();
    SortByIsStableSort(Filtered(stocks, term), BySymbol());
    forall i, j | 0 <= i < j < |r| ensures LexLeq(r[i].symbol, r[j].symbol) {
      assert BySymbol()(r[i], r[j]);
    }
  }

  /** The path of a stock's detail page and of its link. */
  function StockPath(id: nat): string {
    "/stock/" + NatToString(id)
  }

  /** The id a detail path names, if it is one. */
  function PathId(path: string): Option<nat> {
    var prefix := "/stock/";
    if |path| >= |prefix| && path[..|prefix|] == prefix then ParseNat(path[|prefix|..]) else None
  }

  /** The detail route of a stock: its path and the API resource it shows. */
  datatype Route = Route(path: string, resource: string)

  /** `details`: one route per stock, filtered or not. */
  function Details(stocks: seq<Stock>, urlRoot: string): (r: seq<Route>)
    ensures |r| == |stocks|
  {
    seq(|stocks|, i requires 0 <= i < |stocks| =>
      Route(StockPath(stocks[i].id), urlRoot + "/" + NatToString(stocks[i].id)))
  }

  /** Each route's path names the id of its stock. */
  lemma DetailsNameTheirStocks(stocks: seq<Stock>, urlRoot: string)
    ensures forall i :: 0 <= i < |stocks| ==> PathId(Details(stocks, urlRoot)[i].path) == Some(stocks[i].id)
  {
    forall i | 0 <= i < |stocks| ensures PathId(Details(stocks, urlRoot)[i].path) == Some(stocks[i].id) {
      var path := StockPath(stocks[i].id);
      assert path[7..] == NatToString(stocks[i].id);
      ParseNatToString(stocks[i].id);
    }
  }

  /** Every link the search offers leads to a detail route. */
  lemma SelectorsHaveRoutes(stocks: seq<Stock>, term: string, urlRoot: string)
    ensures forall v :: v in Selectors(stocks, term) ==>
      exists i :: 0 <= i < |stocks| && Details(stocks, urlRoot)[i].path == StockPath(v.id)
  {
    assert forall v :: v in Selectors(stocks, term) ==> v in stocks by {
      SameMultisetSameElements(Selectors(stocks, term), Filtered(stocks, term));
    }
    forall v | v in Selectors(stocks, term)
      ensures exists i :: 0 <= i < |stocks| && Details(stocks, urlRoot)[i].path == StockPath(v.id)
    {
      var i :| 0 <= i < |stocks| && stocks[i] == v;
      assert Details(stocks, urlRoot)[i].path == StockPath(v.id);
    }
  }
}
