/** Portfolio aggregation and valuation: purchase lots are folded into one
    cost/quantity record per symbol, the symbols to quote are collected, and the
    aggregated lots are joined with a batch of quotes into positions. */
module Positions {
  import opened Wrappers
  import opened Collections
  import opened Quotes

  /** One purchase. */
  datatype Lot = Lot(symbol: string, unitCost: real, quantity: real)

  /** All purchases of one symbol merged. */
  datatype AggregatedLot = AggregatedLot(symbol: string, cost: real, quantity: real)

  /** A holding valued against a quote. A percentage is `None` where the program
      divides by a zero float64 and gets an infinity or NaN. */
  datatype Position = Position(
    lot: AggregatedLot,
    value: real,
    valuePreviousClose: real,
    dayChange: real,
    dayChangePercent: Option<real>,
    absoluteReturn: real,
    relativeReturn: Option<real>,
    cost: real
  )

  // ---------------------------------------------------------------------------
  // Lot aggregation

  /** The two amounts aggregation adds up per symbol. */
  datatype Measure = Quantity | Cost

  /** What one lot contributes to a measure. */
  function Amount(lot: Lot, m: Measure): real {
    match m
    case Quantity => lot.quantity
    case Cost => lot.unitCost * lot.quantity
  }

  /** What one lot adds to the total of `symbol`. */
  function Contribution(lot: Lot, symbol: string, m: Measure): real {
    if lot.symbol == symbol then Amount(lot, m) else 0.0
  }

  /** Reference definition: the sum of measure `m` over the lots of `symbol`. */
  function Total(lots: seq<Lot>, symbol: string, m: Measure): real {
    if |lots| == 0 then 0.0
    else
      var last := lots[|lots| - 1];
      Total(lots[..|lots| - 1], symbol, m) + Contribution(last, symbol, m)
  }

  /** The symbols that occur in `lots`. */
  function SymbolsOf(lots: seq<Lot>): set<string> {
    set lot | lot in lots :: lot.symbol
  }

  /** The reducer: the first lot of a symbol creates its record, every later one
      adds its quantity and its cost to it. */
  function AddLot(acc: map<string, AggregatedLot>, lot: Lot): (r: map<string, AggregatedLot>)
    ensures r.Keys == acc.Keys + {lot.symbol}
    ensures forall s :: s in acc && s != lot.symbol ==> r[s] == acc[s]
    ensures lot.symbol !in acc ==> r[lot.symbol] == AggregatedLot(lot.symbol, lot.unitCost * lot.quantity, lot.quantity)
    ensures lot.symbol in acc ==> var a := acc[lot.symbol];
      r[lot.symbol] == AggregatedLot(a.symbol, a.cost + lot.quantity * lot.unitCost, a.quantity + lot.quantity)
  {
    if lot.symbol !in acc then
      acc[lot.symbol := AggregatedLot(lot.symbol, lot.unitCost * lot.quantity, lot.quantity)]
    else
      var a := acc[lot.symbol];
      acc[lot.symbol := a.(quantity := a.quantity + lot.quantity, cost := a.cost + lot.quantity * lot.unitCost)]
  }

  /** `r` holds, for every symbol of `lots`, the symbol with its summed cost and
      summed quantity, and nothing else. */
  ghost predicate Summarises(r: map<string, AggregatedLot>, lots: seq<Lot>) {
    && r.Keys == SymbolsOf(lots)
    && forall s :: s in r ==> r[s] == AggregatedLot(s, Total(lots, s, Cost), Total(lots, s, Quantity))
  }

  /** The left fold of `AddLot` over `lots`, from an empty map. */
  function Aggregate(lots: seq<Lot>): (r: map<string, AggregatedLot>)
    ensures Summarises(r, lots)
  {
    if |lots| == 0 then map[]
    else
      var acc := Aggregate(lots[..|lots| - 1]);
      AddLotStep(acc, lots);
      AddLot(acc, lots[|lots| - 1])
  }

  /** Folding in the last lot turns a summary of the other lots into a summary
      of all of them. */
  lemma AddLotStep(acc: map<string, AggregatedLot>, lots: seq<Lot>)
    requires |lots| > 0 && Summarises(acc, lots[..|lots| - 1])
    ensures Summarises(AddLot(acc, lots[|lots| - 1]), lots)
  {
    var init, lot := lots[..|lots| - 1], lots[|lots| - 1];
    assert SymbolsOf(lots) == SymbolsOf(init) + {lot.symbol} by {
      assert lots == init + [lot];
    }
    var r := AddLot(acc, lot);
    forall s | s in r ensures r[s] == AggregatedLot(s, Total(lots, s, Cost), Total(lots, s, Quantity)) {
      AddLotEntry(acc, lots, s);
    }
  }

  /** The entry of one symbol after folding in the last lot. */
  lemma AddLotEntry(acc: map<string, AggregatedLot>, lots: seq<Lot>, s: string)
    requires |lots| > 0 && Summarises(acc, lots[..|lots| - 1])
    requires s in acc || s == lots[|lots| - 1].symbol
    ensures AddLot(acc, lots[|lots| - 1])[s] == AggregatedLot(s, Total(lots, s, Cost), Total(lots, s, Quantity))
  {
    var init, lot := lots[..|lots| - 1], lots[|lots| - 1];
    assert Total(lots, s, Cost) == Total(init, s, Cost) + Contribution(lot, s, Cost);
    assert Total(lots, s, Quantity) == Total(init, s, Quantity) + Contribution(lot, s, Quantity);
    if s != lot.symbol {
      assert AddLot(acc, lot)[s] == acc[s];
    } else if s !in acc {
      TotalOfAbsentSymbol(init, s, Quantity);
      TotalOfAbsentSymbol(init, s, Cost);
    } else {
      assert lot.quantity * lot.unitCost == lot.unitCost * lot.quantity;
    }
  }

  lemma {:induction false} TotalOfAbsentSymbol(lots: seq<Lot>, symbol: string, m: Measure)
    requires symbol !in SymbolsOf(lots)
    ensures Total(lots, symbol, m) == 0.0
    decreases |lots|
  {
    if |lots| > 0 {
      var init := lots[..|lots| - 1];
      assert forall lot :: lot in init ==> lot in lots;
      TotalOfAbsentSymbol(init, symbol, m);
    }
  }

  /** `GetLots`: a nil slice (`None`) and an empty one both give the empty map;
      otherwise one record per symbol, holding that symbol's summed quantity and
      summed unit cost times quantity. */
  function GetLots(lots: Option<seq<Lot>>): (r: map<string, AggregatedLot>)
    ensures lots.None? || |lots.value| == 0 ==> r == map[]
    ensures KeyedBySymbol(r)
    ensures lots.Some? ==> r.Keys == SymbolsOf(lots.value)
    ensures lots.Some? ==> forall s :: s in r ==>
      r[s] == AggregatedLot(s, Total(lots.value, s, Cost), Total(lots.value, s, Quantity))
  {
    match lots
    case None => map[]
    case Some(ls) => Aggregate(ls)
  }

  lemma {:induction false} TotalAppend(a: seq<Lot>, b: seq<Lot>, symbol: string, m: Measure)
    ensures Total(a + b, symbol, m) == Total(a, symbol, m) + Total(b, symbol, m)
    decreases |b|
  {
    if |b| == 0 {
      assert a + b == a;
    } else {
      var b' := b[..|b| - 1];
      assert (a + b)[..|a + b| - 1] == a + b';
      TotalAppend(a, b', symbol, m);
    }
  }

  /** Removing the lot at index `i` removes exactly its contribution. */
  lemma TotalRemove(b: seq<Lot>, i: nat, symbol: string, m: Measure)
    requires i < |b|
    ensures Total(b, symbol, m) == Total(b[..i] + b[i + 1..], symbol, m) + Contribution(b[i], symbol, m)
  {
    assert b == b[..i] + [b[i]] + b[i + 1..];
    TotalAppend(b[..i] + [b[i]], b[i + 1..], symbol, m);
    TotalAppend(b[..i], [b[i]], symbol, m);
    TotalAppend(b[..i], b[i + 1..], symbol, m);
    assert [b[i]][..0] == [];
  }

  /** Per-symbol totals depend only on which lots there are, not on their
      order. */
  lemma {:induction false} TotalPermutation(a: seq<Lot>, b: seq<Lot>, symbol: string, m: Measure)
    requires multiset(a) == multiset(b)
    ensures Total(a, symbol, m) == Total(b, symbol, m)
    decreases |a|
  {
    if |a| > 0 {
      var i := MatchLast(a, b);
      TotalPermutation(a[..|a| - 1], b[..i] + b[i + 1..], symbol, m);
      TotalRemove(b, i, symbol, m);
      assert Total(a, symbol, m) == Total(a[..|a| - 1], symbol, m) + Contribution(a[|a| - 1], symbol, m);
    }
  }

  /** Aggregation is independent of the order the lots are listed in. */
  lemma GetLotsOrderIndependent(a: seq<Lot>, b: seq<Lot>)
    requires multiset(a) == multiset(b)
    ensures GetLots(Some(a)) == GetLots(Some(b))
  {
    var ra, rb := GetLots(Some(a)), GetLots(Some(b));
    forall s ensures s in SymbolsOf(a) <==> s in SymbolsOf(b) {
      if s in SymbolsOf(a) {
        var lot :| lot in a && lot.symbol == s;
        assert lot in multiset(b);
      }
      if s in SymbolsOf(b) {
        var lot :| lot in b && lot.symbol == s;
        assert lot in multiset(a);
      }
    }
    forall s | s in ra ensures ra[s] == rb[s] {
      TotalPermutation(a, b, s, Quantity);
      TotalPermutation(a, b, s, Cost);
    }
  }

  // ---------------------------------------------------------------------------
  // Symbols to quote

  /** `keyOrder` lists the keys of `m` once each, in the order a Go `range`
      over the map happened to visit them. */
  ghost predicate IsKeyOrder(keyOrder: seq<string>, m: map<string, AggregatedLot>) {
    NoDuplicates(keyOrder) && forall k :: k in keyOrder <==> k in m
  }

  /** Every symbol that has a lot comes before every symbol that has none. */
  ghost predicate LotSymbolsFirst(r: seq<string>, aggregatedLots: map<string, AggregatedLot>) {
    forall i, j :: 0 <= i < |r| && 0 <= j < |r| && r[i] in aggregatedLots && r[j] !in aggregatedLots ==> i < j
  }

  /** `GetSymbols`: the lot symbols followed by the watched symbols, first
      occurrences only. The map's iteration order is the input `keyOrder`. */
  function GetSymbols(symbols: seq<string>, aggregatedLots: map<string, AggregatedLot>, keyOrder: seq<string>): (r: seq<string>)
    requires IsKeyOrder(keyOrder, aggregatedLots)
    ensures NoDuplicates(r)
    ensures forall s :: s in r <==> s in aggregatedLots || s in symbols
    ensures LotSymbolsFirst(r, aggregatedLots)
    ensures (forall i :: 0 <= i < |r| ==> r[i] in keyOrder + symbols) && InFirstOccurrenceOrder(r, keyOrder + symbols)
  {
    LotSymbolsComeFirst(keyOrder, symbols, aggregatedLots);
    Uniq(keyOrder + symbols)
  }

  /** In the de-duplicated list, the symbols taken from the lot keys come
      before those only in the watched list. */
  lemma LotSymbolsComeFirst(keyOrder: seq<string>, symbols: seq<string>, aggregatedLots: map<string, AggregatedLot>)
    requires IsKeyOrder(keyOrder, aggregatedLots)
    ensures forall s :: s in Uniq(keyOrder + symbols) <==> s in aggregatedLots || s in symbols
    ensures LotSymbolsFirst(Uniq(keyOrder + symbols), aggregatedLots)
  {
    var all := keyOrder + symbols;
    var r := Uniq(all);
    UniqMembers(keyOrder, symbols, aggregatedLots);
    forall i, j | 0 <= i < |r| && 0 <= j < |r| && r[i] in aggregatedLots && r[j] !in aggregatedLots
      ensures i < j
    {
      var x, y := r[i], r[j];
      assert x in keyOrder && y !in keyOrder;
      assert x in all && y in all;
      KeyBeforeWatched(keyOrder, symbols, x, y);
      FirstOccurrenceOrderIndex(r, all, i, j);
    }
  }

  lemma UniqMembers(keyOrder: seq<string>, symbols: seq<string>, aggregatedLots: map<string, AggregatedLot>)
    requires IsKeyOrder(keyOrder, aggregatedLots)
    ensures forall s :: s in Uniq(keyOrder + symbols) <==> s in aggregatedLots || s in symbols
  {
    var all := keyOrder + symbols;
    forall s ensures s in Uniq(all) <==> s in aggregatedLots || s in symbols {
      assert s in all <==> s in keyOrder || s in symbols;
    }
  }

  /** A lot key occurs earlier in `keyOrder + symbols` than any symbol that is
      not a lot key. */
  lemma KeyBeforeWatched(keyOrder: seq<string>, symbols: seq<string>, x: string, y: string)
    requires x in keyOrder && y !in keyOrder && y in symbols
    ensures FirstIndex(keyOrder + symbols, x) < |keyOrder| <= FirstIndex(keyOrder + symbols, y)
  {
    var all := keyOrder + symbols;
    var k :| 0 <= k < |keyOrder| && keyOrder[k] == x;
    assert all[k] == x;
    assert forall n :: 0 <= n < |keyOrder| ==> all[n] == keyOrder[n];
  }

  // ---------------------------------------------------------------------------
  // Positions

  /** `num / den * 100`, or `None` where the float64 division would give an
      infinity or NaN. */
  function Percent(num: real, den: real): (r: Option<real>)
    ensures r.Some? <==> den != 0.0
    ensures r.Some? ==> r.value * den == num * 100.0
  {
    if den == 0.0 then None
    else
      var q := num / den;
      assert q * den == num;
      Some(q * 100.0)
  }

  /** The valuation of one aggregated lot against its quote. */
  function PositionOf(lot: AggregatedLot, q: Quote): (p: Position)
    ensures p.lot == lot && p.cost == lot.cost
    ensures p.value == q.price * lot.quantity
    ensures p.dayChange == q.change * lot.quantity
    ensures p.valuePreviousClose == q.regularMarketPreviousClose * lot.quantity
    ensures p.absoluteReturn == p.value - p.cost
    ensures p.dayChangePercent == Percent(p.dayChange, p.valuePreviousClose)
    ensures p.relativeReturn == Percent(p.absoluteReturn, p.cost)
  {
    var dayChange := q.change * lot.quantity;
    var valuePreviousClose := q.regularMarketPreviousClose * lot.quantity;
    var valueCurrent := q.price * lot.quantity;
    var cost := lot.cost;
    Position(
      lot,
      valueCurrent,
      valuePreviousClose,
      dayChange,
      Percent(dayChange, valuePreviousClose),
      valueCurrent - cost,
      Percent(valueCurrent - cost, cost),
      cost
    )
  }

  /** The last quote in `quotes` for `symbol`, if any. */
  function LastQuoteFor(quotes: seq<Quote>, symbol: string): (r: Option<Quote>)
    ensures r.Some? <==> exists i :: 0 <= i < |quotes| && quotes[i].symbol == symbol
    ensures r.Some? ==> r.value.symbol == symbol
    ensures r.Some? ==> exists i :: 0 <= i < |quotes| && quotes[i] == r.value &&
                                   (forall j :: i < j < |quotes| ==> quotes[j].symbol != symbol)
  {
    if |quotes| == 0 then None
    else
      var last := quotes[|quotes| - 1];
      if last.symbol == symbol then Some(last)
      else
        var r := LastQuoteFor(quotes[..|quotes| - 1], symbol);
        assert forall i :: 0 <= i < |quotes| - 1 ==> quotes[..|quotes| - 1][i] == quotes[i];
        r
  }

  /** The symbols the quotes are for. */
  function QuotedSymbols(quotes: seq<Quote>): set<string> {
    set q | q in quotes :: q.symbol
  }

  lemma QuotedSymbolsStep(quotes: seq<Quote>)
    requires |quotes| > 0
    ensures QuotedSymbols(quotes) == QuotedSymbols(quotes[..|quotes| - 1]) + {quotes[|quotes| - 1].symbol}
  {
    assert quotes == quotes[..|quotes| - 1] + [quotes[|quotes| - 1]];
  }

  /** Appending a quote changes the last quote of its own symbol only. */
  lemma LastQuoteStep(quotes: seq<Quote>)
    requires |quotes| > 0
    ensures LastQuoteFor(quotes, quotes[|quotes| - 1].symbol) == Some(quotes[|quotes| - 1])
    ensures forall s :: s != quotes[|quotes| - 1].symbol ==>
      LastQuoteFor(quotes, s) == LastQuoteFor(quotes[..|quotes| - 1], s)
  {
  }

  /** Every record is filed under its own symbol, as `GetLots` files them. */
  ghost predicate KeyedBySymbol(aggregatedLots: map<string, AggregatedLot>) {
    forall s :: s in aggregatedLots ==> aggregatedLots[s].symbol == s
  }

  /** `r` holds one position per quoted symbol that has a lot, valued against
      the symbol's last quote, and nothing else. */
  ghost predicate PositionsFor(r: map<string, Position>, aggregatedLots: map<string, AggregatedLot>, quotes: seq<Quote>) {
    && r.Keys == QuotedSymbols(quotes) * aggregatedLots.Keys
    && forall s :: s in r ==> LastQuoteFor(quotes, s).Some? && r[s] == PositionOf(aggregatedLots[s], LastQuoteFor(quotes, s).value)
  }

  /** `GetPositions(aggregatedLots)(quotes)`: a position for each quote whose
      symbol has a lot, keyed by the position's own (lot) symbol; keying the
      list keeps the last entry, so a later quote of a symbol wins. When the
      lots are filed under their own symbols, as `GetLots` files them, that is
      one position per quoted symbol that has a lot, valued against its last
      quote. */
  function GetPositions(aggregatedLots: map<string, AggregatedLot>, quotes: seq<Quote>): (r: map<string, Position>)
    ensures forall k :: k in r ==> r[k].lot.symbol == k
    ensures KeyedBySymbol(aggregatedLots) ==> r.Keys == QuotedSymbols(quotes) * aggregatedLots.Keys
    ensures KeyedBySymbol(aggregatedLots) ==> forall s :: s in r ==> LastQuoteFor(quotes, s).Some?
    ensures KeyedBySymbol(aggregatedLots) ==>
      forall s :: s in r ==> r[s] == PositionOf(aggregatedLots[s], LastQuoteFor(quotes, s).value)
  {
    if |quotes| == 0 then map[]
    else
      var acc := GetPositions(aggregatedLots, quotes[..|quotes| - 1]);
      var r := AddPosition(aggregatedLots, acc, quotes[|quotes| - 1]);
      assert KeyedBySymbol(aggregatedLots) ==> PositionsFor(r, aggregatedLots, quotes) by {
        if KeyedBySymbol(aggregatedLots) {
          GetPositionsStep(aggregatedLots, quotes, acc);
        }
      }
      r
  }

  /** The reducer and `KeyBy` in one step: a quote with a lot (re)places the
      position filed under the lot's symbol. */
  function AddPosition(aggregatedLots: map<string, AggregatedLot>, acc: map<string, Position>, q: Quote): (r: map<string, Position>)
    ensures q.symbol !in aggregatedLots ==> r == acc
    ensures q.symbol in aggregatedLots ==> var lot := aggregatedLots[q.symbol];
      && r.Keys == acc.Keys + {lot.symbol}
      && r[lot.symbol] == PositionOf(lot, q)
      && forall k :: k in acc && k != lot.symbol ==> r[k] == acc[k]
  {
    if q.symbol in aggregatedLots then
      var lot := aggregatedLots[q.symbol];
      acc[lot.symbol := PositionOf(lot, q)]
    else acc
  }

  /** Folding in the last quote turns the positions of the other quotes into
      the positions of all of them. */
  lemma GetPositionsStep(aggregatedLots: map<string, AggregatedLot>, quotes: seq<Quote>, acc: map<string, Position>)
    requires KeyedBySymbol(aggregatedLots)
    requires |quotes| > 0 && PositionsFor(acc, aggregatedLots, quotes[..|quotes| - 1])
    ensures PositionsFor(AddPosition(aggregatedLots, acc, quotes[|quotes| - 1]), aggregatedLots, quotes)
  {
    var q := quotes[|quotes| - 1];
    var r := AddPosition(aggregatedLots, acc, q);
    QuotedSymbolsStep(quotes);
    assert r.Keys == QuotedSymbols(quotes) * aggregatedLots.Keys by {
      if q.symbol in aggregatedLots {
        assert aggregatedLots[q.symbol].symbol == q.symbol;
        assert r.Keys == acc.Keys + {q.symbol};
      } else {
        assert r.Keys == acc.Keys;
      }
    }
    forall s | s in r
      ensures LastQuoteFor(quotes, s).Some? && r[s] == PositionOf(aggregatedLots[s], LastQuoteFor(quotes, s).value)
    {
      AddPositionEntry(aggregatedLots, quotes, acc, s);
    }
  }

  /** The position of one symbol after folding in the last quote. */
  lemma AddPositionEntry(aggregatedLots: map<string, AggregatedLot>, quotes: seq<Quote>, acc: map<string, Position>, s: string)
    requires KeyedBySymbol(aggregatedLots)
    requires |quotes| > 0 && PositionsFor(acc, aggregatedLots, quotes[..|quotes| - 1])
    requires s in AddPosition(aggregatedLots, acc, quotes[|quotes| - 1])
    ensures LastQuoteFor(quotes, s).Some?
    ensures AddPosition(aggregatedLots, acc, quotes[|quotes| - 1])[s] == PositionOf(aggregatedLots[s], LastQuoteFor(quotes, s).value)
  {
    var q := quotes[|quotes| - 1];
    LastQuoteStep(quotes);
    assert q.symbol in aggregatedLots ==> aggregatedLots[q.symbol].symbol == q.symbol;
    if s != q.symbol {
      assert s in acc && AddPosition(aggregatedLots, acc, q)[s] == acc[s];
    }
  }

  /** The worked example: 10 units bought for 20 in total, quoted at 3 after a
      rise of 0.5 from 2.5. */
  lemma PositionExample()
    ensures var p := PositionOf(AggregatedLot("X", 20.0, 10.0),
                                Quote("X", "X", 3.0, 0.5, 20.0, 2.5, 2.5, "", "", "", 0.0, true, true));
      && p.value == 30.0 && p.dayChange == 5.0 && p.valuePreviousClose == 25.0
      && p.dayChangePercent == Some(20.0) && p.absoluteReturn == 10.0
      && p.relativeReturn == Some(50.0)
  {
  }
}
