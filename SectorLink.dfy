/** Linking a stock to sectors (`StockLinkToSector`). Each sector lists the
    resource URIs of its stocks; a checkbox per sector shows whether the
    stock is in it, and ticking or clearing a box adds the stock's URI to, or
    removes it from, the first sector with that name. */
module SectorLink {
  import opened Wrappers
  import opened Lists
  import opened Text

  /** A sector record as the API returns it. */
  datatype Sector = Sector(id: int, name: string, stocks: seq<string>)

  /** The checkbox of a sector is ticked when one of its entries contains
      the stock's URI. */
  predicate Checked(s: Sector, uri: string) {
    exists k :: 0 <= k < |s.stocks| && Contains(s.stocks[k], uri)
  }

  function NotContaining(uri: string): string -> bool {
    (k: string) => !Contains(k, uri)
  }

  /** The sector record sent to the API after a tick (`checked`) or a clear
      of the sector's box. */
  function Updated(s: Sector, checked: bool, uri: string): Sector {
    s.(stocks := if checked then s.stocks + [uri] else Filter(s.stocks, NotContaining(uri)))
  }

  /** The first sector with the given name, or -1. */
  function FirstNamed(sectors: seq<Sector>, name: string): (r: int)
    ensures -1 <= r < |sectors|
    ensures r == -1 ==> forall k :: 0 <= k < |sectors| ==> sectors[k].name != name
    ensures r >= 0 ==> sectors[r].name == name && forall k :: 0 <= k < r ==> sectors[k].name != name
  {
    if sectors == [] then -1
    else if sectors[0].name == name then 0
    else
      var r := FirstNamed(sectors[1..], name);
      if r == -1 then -1 else r + 1
  }

  /** `handle_update(sectors, event)`: finds the first sector named like the
      box, replaces it with a record whose stock list is an edited copy, and
      stops; the record is also what is sent to the API. */
  method HandleUpdate(sectors: array<Sector>, name: string, checked: bool, uri: string)
    returns (payload: Option<Sector>)
    modifies sectors
    ensures var i := FirstNamed(old(sectors[..]), name);
      && (i == -1 ==> sectors[..] == old(sectors[..]) && payload == None)
      && (i >= 0 ==>
            var data := Updated(old(sectors[i]), checked, uri);
            sectors[..] == old(sectors[..])[i := data] && payload == Some(data))
  {
    payload := None;
    var i := 0;
    while i < sectors.Length
      invariant 0 <= i <= sectors.Length
      invariant sectors[..] == old(sectors[..])
      invariant forall k :: 0 <= k < i ==> sectors[k].name != name
    {
      var s := sectors[i];
      var tmp := s.stocks;
      if s.name == name {
        if checked {
          tmp := tmp + [uri];
        } else {
          tmp := Filter(tmp, NotContaining(uri));
        }
        var data := s.(stocks := tmp);
        sectors[i] := data;
        payload := Some(data);
        assert FirstNamed(old(sectors[..]), name) == i;
        return;
      }
      i := i + 1;
    }
  }

  /** Every string contains itself. */
  lemma ContainsSelf(s: string)
    ensures Contains(s, s)
  {
    assert [] + s + [] == s;
    ContainsInfix([], s, []);
  }

  /** A tick appends the URI at the end of the sector's stocks; a clear
      removes exactly the entries that contain the URI and keeps the others
      in order. The id and the name stay. */
  lemma UpdatedSpec(s: Sector, checked: bool, uri: string)
    ensures var u := Updated(s, checked, uri);
      && u.id == s.id && u.name == s.name
      && (checked ==> u.stocks == s.stocks + [uri])
      && (!checked ==> forall k :: k in u.stocks <==> k in s.stocks && !Contains(k, uri))
      && (!checked ==> multiset(u.stocks) <= multiset(s.stocks))
      && (!checked ==> forall k :: multiset(u.stocks)[k] == if Contains(k, uri) then 0 else multiset(s.stocks)[k])
  {
    FilterSubMultiset(s.stocks, NotContaining(uri));
    if !checked {
      forall k ensures multiset(Updated(s, checked, uri).stocks)[k] == if Contains(k, uri) then 0 else multiset(s.stocks)[k] {
        FilterMultiplicity(s.stocks, NotContaining(uri), k);
      }
    }
  }

  /** A clear keeps the surviving entries in their order: clearing a list
      cut at any point is clearing each part and joining the results, and a
      single entry survives exactly when it does not contain the URI. */
  lemma ClearKeepsOrder(s: Sector, uri: string, cut: nat)
    requires cut <= |s.stocks|
    ensures Updated(s, false, uri).stocks
         == Updated(s.(stocks := s.stocks[..cut]), false, uri).stocks
          + Updated(s.(stocks := s.stocks[cut..]), false, uri).stocks
    ensures forall k :: Updated(s.(stocks := [k]), false, uri).stocks == if Contains(k, uri) then [] else [k]
  {
    assert s.stocks == s.stocks[..cut] + s.stocks[cut..];
    FilterAppend(s.stocks[..cut], s.stocks[cut..], NotContaining(uri));
    forall k ensures Updated(s.(stocks := [k]), false, uri).stocks == if Contains(k, uri) then [] else [k] {
      assert [k][1..] == [];
    }
  }

  /** After an update the sector's box shows what was asked: ticked after a
      tick, cleared after a clear. */
  lemma UpdatedChecked(s: Sector, checked: bool, uri: string)
    ensures Checked(Updated(s, checked, uri), uri) == checked
  {
    var u := Updated(s, checked, uri);
    if checked {
      ContainsSelf(uri);
      assert u.stocks[|u.stocks| - 1] == uri;
    } else {
      forall k | 0 <= k < |u.stocks| ensures !Contains(u.stocks[k], uri) {
        assert u.stocks[k] in u.stocks;
      }
    }
  }

  /** Clearing a box that is already clear sends the same list again. */
  lemma ClearTwice(s: Sector, uri: string)
    ensures Updated(Updated(s, false, uri), false, uri) == Updated(s, false, uri)
  {
    FilterIdempotent(s.stocks, NotContaining(uri));
  }
}
