/** The watchlist view: quotes are ordered, each becomes a row joined with its
    position, and a totals footer closes the list. Styles, `Line`, `Cell` and the
    number formatters are the symbolic primitives of module `Text`, so what is
    proved here is which pieces are chosen and how they are arranged. */
module Watchlist {
  import opened Wrappers
  import opened Collections
  import opened Text
  import opened Quotes
  import opened Positions

  const GainColour := "#aae61e"
  const LossColour := "#FF7940"

  const StyleNeutral := NewStyle("#d4d4d4", "", false)
  const StyleNeutralBold := NewStyle("#d4d4d4", "", true)
  const StyleNeutralFaded := NewStyle("#616161", "", false)
  const StyleLine := NewStyle("#3a3a3a", "", false)
  const StyleTag := NewStyle("#d4d4d4", "#3a3a3a", false)
  const StyleTagEnd := NewStyle("#3a3a3a", "#3a3a3a", false)
  const StyleGain := NewStyle(GainColour, "", false)
  const StyleLoss := NewStyle(LossColour, "", false)
  const StyleFooter := NewStyle("#d4d4d4", "", true)
  const StyleGainFooter := NewStyle(GainColour, "", true)
  const StyleLossFooter := NewStyle(LossColour, "", true)

  /** Narrowest terminal the watchlist renders into. */
  const MinWidth := 80

  /** A total return at or below this is treated as no holdings at all. */
  const TotalsThreshold: real := 0.00001

  datatype Model = Model(
    width: int,
    quotes: seq<Quote>,
    positions: map<string, Position>,
    separate: bool,
    extraInfoExchange: bool,
    extraInfoFundamentals: bool
  )

  // ---------------------------------------------------------------------------
  // Ordering

  predicate IsActive(q: Quote) {
    q.isActive
  }

  function ChangePercentOf(q: Quote): real {
    q.changePercent
  }

  /** How many of the quotes are active: the rest are the inactive ones, and
      all of them are active exactly when the count is the whole list. */
  function ActiveCount(quotes: seq<Quote>): (n: nat)
    ensures n + |Select(quotes, IsActive, false)| == |quotes|
    ensures n == |quotes| <==> forall i :: 0 <= i < |quotes| ==> quotes[i].isActive
  {
    SelectSplits(quotes, IsActive);
    assert |multiset(quotes)| == |quotes|;
    assert forall i :: 0 <= i < |quotes| && !quotes[i].isActive ==> quotes[i] in Select(quotes, IsActive, false);
    |Select(quotes, IsActive, true)|
  }

  /** `sortQuotes`: the active quotes by descending change percent, then the
      inactive ones in their original order. */
  function SortQuotes(quotes: seq<Quote>): (r: seq<Quote>)
    ensures |quotes| == 0 ==> r == quotes
    ensures |r| == |quotes| && multiset(r) == multiset(quotes)
    ensures forall i :: 0 <= i < |r| ==> (r[i].isActive <==> i < ActiveCount(quotes))
    ensures SortedDescending(r[..ActiveCount(quotes)], ChangePercentOf)
    ensures r[ActiveCount(quotes)..] == Select(quotes, IsActive, false)
  {
    if |quotes| <= 0 then quotes
    else
      var (active, inactive) := Partition(quotes, IsActive);
      var sorted := OrderByDescending(active, ChangePercentOf);
      var r := sorted + inactive;
      assert r[..|sorted|] == sorted && r[|sorted|..] == inactive;
      assert multiset(r) == multiset(sorted) + multiset(inactive);
      assert |r| == |multiset(r)|;
      forall i | 0 <= i < |sorted| ensures sorted[i].isActive {
        assert sorted[i] in multiset(active);
      }
      r
  }

  // ---------------------------------------------------------------------------
  // Cells

  /** `marketStateText`: a filled circle during the regular session, a hollow
      one when the quote is active outside it, nothing otherwise. */
  function MarketStateText(q: Quote): (r: Text)
    ensures r == [] <==> !q.isRegularTradingSession && !q.isActive
    ensures q.isRegularTradingSession ==> r == Paint(StyleNeutralFaded, Str(" ⦿  "))
    ensures !q.isRegularTradingSession && q.isActive ==> r == Paint(StyleNeutralFaded, Str(" ⦾  "))
  {
    if q.isRegularTradingSession then Paint(StyleNeutralFaded, Str(" ⦿  "))
    else if !q.isRegularTradingSession && q.isActive then Paint(StyleNeutralFaded, Str(" ⦾  "))
    else []
  }

  /** The market-state cell tells the three states apart: two quotes get the
      same cell exactly when they are in the same state. */
  lemma MarketStateTextDistinguishes(a: Quote, b: Quote)
    ensures MarketStateText(a) == MarketStateText(b) <==>
      a.isRegularTradingSession == b.isRegularTradingSession
      && (a.isRegularTradingSession || a.isActive == b.isActive)
  {
    var open, after := Str(" ⦿  "), Str(" ⦾  ");
    assert open[1] != after[1];
  }

  /** `exchangeDelayText`. */
  function ExchangeDelayText(delay: real): (r: Text)
    ensures r == Str("Real-Time") <==> delay <= 0.0
    ensures delay > 0.0 ==> r == Str("Delayed ") + [Number(delay, FixedNoDecimals)] + Str("min")
  {
    if delay <= 0.0 then Str("Real-Time")
    else Str("Delayed ") + [Number(delay, FixedNoDecimals)] + Str("min")
  }

  /** `dayRangeText`: empty exactly when there is no day range. */
  function DayRangeText(dayRange: string): (r: Text)
    ensures r == [] <==> |dayRange| == 0
    ensures |dayRange| > 0 ==> |r| == 2 && r[..1] == Paint(StyleNeutralFaded, Str("Day Range: "))
    ensures |dayRange| > 0 ==> r[1..] == Paint(StyleNeutral, Str(dayRange))
  {
    if |dayRange| <= 0 then []
    else Paint(StyleNeutralFaded, Str("Day Range: ")) + Paint(StyleNeutral, Str(dayRange))
  }

  /** `valueText`: empty exactly when the value is not positive. */
  function ValueText(value: real): (r: Text)
    ensures r == [] <==> value <= 0.0
    ensures value > 0.0 ==> r == Paint(StyleNeutral, FloatToStringNoDecimals(value))
  {
    if value <= 0.0 then []
    else Paint(StyleNeutral, FloatToStringNoDecimals(value))
  }

  /** The direction marker in front of a change. */
  function ChangeGlyph(change: real): string {
    if change == 0.0 then "  " else if change > 0.0 then "↑ " else "↓ "
  }

  /** A percentage to two decimals; a non-finite one prints as such. */
  function PercentText(percent: Option<real>): Text {
    match percent
    case Some(p) => FloatToString(p, true)
    case None => [NonFinite]
  }

  /** The figures of a change cell: amount, then percentage in parentheses. */
  function ChangeFigures(change: real, changePercent: Option<real>): Text {
    FloatToString(change, false) + Str(" (") + PercentText(changePercent) + Str("%)")
  }

  /** `quoteChangeText` (and `valueChangeText`, which forwards to it): the same
      figures in every case, behind a glyph and in a colour chosen by the sign
      of the change; bold asks for the footer styles. */
  function QuoteChangeText(change: real, changePercent: Option<real>, bold: bool): (r: Text)
    ensures |r| == 1 && r[0].Styled?
    ensures r[0].body == Str(ChangeGlyph(change)) + ChangeFigures(change, changePercent)
    ensures r[0].style == StyleNeutralFaded <==> change == 0.0
    ensures r[0].style.foreground == GainColour <==> change > 0.0
    ensures r[0].style.foreground == LossColour <==> change < 0.0
    ensures change != 0.0 ==> r[0].style.bold == bold
    ensures change > 0.0 ==> r[0].style == (if bold then StyleGainFooter else StyleGain)
    ensures change < 0.0 ==> r[0].style == (if bold then StyleLossFooter else StyleLoss)
  {
    var figures := ChangeFigures(change, changePercent);
    if bold then
      if change == 0.0 then Paint(StyleNeutralFaded, Str("  ") + figures)
      else if change > 0.0 then Paint(StyleGainFooter, Str("↑ ") + figures)
      else Paint(StyleLossFooter, Str("↓ ") + figures)
    else
      if change == 0.0 then Paint(StyleNeutralFaded, Str("  ") + figures)
      else if change > 0.0 then Paint(StyleGain, Str("↑ ") + figures)
      else Paint(StyleLoss, Str("↓ ") + figures)
  }

  /** The arrow always agrees with the colour: up with the gain colour, down
      with the loss colour, blank with the faded style. */
  lemma ChangeGlyphAgreesWithColour(change: real, changePercent: Option<real>, bold: bool)
    ensures var style := QuoteChangeText(change, changePercent, bold)[0].style;
      && (ChangeGlyph(change) == "↑ " <==> style.foreground == GainColour)
      && (ChangeGlyph(change) == "↓ " <==> style.foreground == LossColour)
      && (ChangeGlyph(change) == "  " <==> style == StyleNeutralFaded)
  {
    var up, down, blank := "↑ ", "↓ ", "  ";
    assert up[0] != down[0] && up[0] != blank[0] && down[0] != blank[0];
  }

  /** `tagText`: a text framed as a tag. */
  function TagText(t: Text): (r: Text)
    ensures |r| == 3 && r[1] == Styled(StyleTag, t)
    ensures r[0] == r[2] == Styled(StyleTagEnd, Str(" "))
  {
    Paint(StyleTagEnd, Str(" ")) + Paint(StyleTag, t) + Paint(StyleTagEnd, Str(" "))
  }

  /** `extraInfoExchange`: when shown, a new line with currency, delay and
      exchange tags. */
  function ExtraInfoExchange(show: bool, q: Quote, width: int): (r: Text)
    ensures !show ==> r == []
    ensures show ==> |r| == 2 && r[0] == Chr('\n') && r[1].LineOf? && |r[1].cells| == 1
    ensures show ==> r[1].width == width && !r[1].bold && r[1].cells[0].width == 0 && r[1].cells[0].align == LeftAlign
    ensures show ==> r[1].cells[0].text == TagText(Str(q.currency)) + Str(" ") + TagText(ExchangeDelayText(q.exchangeDelay)) + Str(" ") + TagText(Str(q.exchangeName))
  {
    if !show then []
    else
      var a, b, c := TagText(Str(q.currency)), TagText(ExchangeDelayText(q.exchangeDelay)), TagText(Str(q.exchangeName));
      Str("\n") + Line(width, false, [Cell(0, a + Str(" ") + b + Str(" ") + c, LeftAlign)])
  }

  /** `extraInfoFundamentals`: when shown, a new line with previous close, open
      and, if there is one, the day range. */
  function ExtraInfoFundamentals(show: bool, q: Quote, width: int): (r: Text)
    ensures !show ==> r == []
    ensures show ==> |r| == 2 && r[0] == Chr('\n') && r[1].LineOf? && |r[1].cells| == 3
    ensures show ==> r[1].width == width && !r[1].bold
    ensures show ==> (r[1].cells[0] ==
      Cell(25, Paint(StyleNeutralFaded, Str("Prev Close: ")) + Paint(StyleNeutral, FloatToString(q.regularMarketPreviousClose, true)), LeftAlign))
    ensures show ==> (r[1].cells[1] ==
      Cell(20, Paint(StyleNeutralFaded, Str("Open: ")) + Paint(StyleNeutral, FloatToString(q.regularMarketOpen, true)), LeftAlign))
    ensures show ==> r[1].cells[2] == Cell(0, DayRangeText(q.regularMarketDayRange), LeftAlign)
  {
    if !show then []
    else
      Str("\n") + Line(width, false, [
        Cell(25, Paint(StyleNeutralFaded, Str("Prev Close: ")) + Paint(StyleNeutral, FloatToString(q.regularMarketPreviousClose, true)), LeftAlign),
        Cell(20, Paint(StyleNeutralFaded, Str("Open: ")) + Paint(StyleNeutral, FloatToString(q.regularMarketOpen, true)), LeftAlign),
        Cell(0, DayRangeText(q.regularMarketDayRange), LeftAlign)
      ])
  }

  // ---------------------------------------------------------------------------
  // Rows

  /** The zero value of a position: what a Go map lookup of a missing symbol
      returns. */
  const ZeroPosition := Position(AggregatedLot("", 0.0, 0.0), 0.0, 0.0, 0.0, Some(0.0), 0.0, Some(0.0), 0.0)

  function PositionFor(positions: map<string, Position>, symbol: string): Position {
    if symbol in positions then positions[symbol] else ZeroPosition
  }

  /** `header`. */
  function Header(width: int): (r: Text)
    ensures |r| == 1 && r[0].LineOf? && r[0].width == width && !r[0].bold && |r[0].cells| == 5
    ensures r[0].cells[0] == Cell(0, Paint(StyleNeutralBold, Str("SECURITY")), LeftAlign)
    ensures r[0].cells[1] == Cell(5, [], RightAlign)
    ensures r[0].cells[2] == Cell(10, Paint(StyleNeutralBold, Str("Pos")), RightAlign)
    ensures r[0].cells[3] == Cell(22, Paint(StyleNeutralBold, Str("Daily Chg.")), RightAlign)
    ensures r[0].cells[4] == Cell(22, Paint(StyleNeutralBold, Str("Total Chg.")), RightAlign)
  {
    Line(width, false, [
      Cell(0, Paint(StyleNeutralBold, Str("SECURITY")), LeftAlign),
      Cell(5, [], RightAlign),
      Cell(10, Paint(StyleNeutralBold, Str("Pos")), RightAlign),
      Cell(22, Paint(StyleNeutralBold, Str("Daily Chg.")), RightAlign),
      Cell(22, Paint(StyleNeutralBold, Str("Total Chg.")), RightAlign)
    ])
  }

  /** The columns of `item`: name, market state, value, day change, total
      change. */
  function ItemCells(q: Quote, p: Position): (r: seq<Cell>)
    ensures |r| == 5
    ensures r[0] == Cell(0, Paint(StyleNeutral, Str(q.shortName)), LeftAlign)
    ensures r[1].width == 5 && r[2].width == 10 && r[3].width == 22 && r[4].width == 22
    ensures forall i :: 1 <= i < |r| ==> r[i].align == RightAlign
    ensures r[1].text == MarketStateText(q) && r[2].text == ValueText(p.value)
    ensures r[3].text == QuoteChangeText(p.dayChange, p.dayChangePercent, false)
    ensures r[4].text == QuoteChangeText(p.absoluteReturn, p.relativeReturn, false)
  {
    [
      Cell(0, Paint(StyleNeutral, Str(q.shortName)), LeftAlign),
      Cell(5, MarketStateText(q), RightAlign),
      Cell(10, ValueText(p.value), RightAlign),
      Cell(22, QuoteChangeText(p.dayChange, p.dayChangePercent, false), RightAlign),
      Cell(22, QuoteChangeText(p.absoluteReturn, p.relativeReturn, false), RightAlign)
    ]
  }

  /** An item's columns line up with the header's: same widths, same
      alignments. */
  lemma ItemCellsMatchHeader(q: Quote, p: Position, width: int)
    ensures var cells, header := ItemCells(q, p), Header(width)[0].cells;
      && |cells| == |header|
      && forall i :: 0 <= i < |cells| ==> cells[i].width == header[i].width && cells[i].align == header[i].align
  {
  }

  /** A quote without a position has an empty value cell and flat change
      cells. */
  lemma UnheldQuoteShowsNoValue(q: Quote, positions: map<string, Position>)
    requires q.symbol !in positions
    ensures var cells := ItemCells(q, PositionFor(positions, q.symbol));
      && cells[2].text == []
      && cells[3].text[0].style == StyleNeutralFaded
      && cells[4].text[0].style == StyleNeutralFaded
  {
  }

  /** The lines shown for one quote: its item row and the optional extra
      lines. */
  function Row(m: Model, q: Quote): (r: Text)
    ensures |r| == 1 + (if m.extraInfoFundamentals then 2 else 0) + (if m.extraInfoExchange then 2 else 0)
    ensures r[..1] == Line(m.width, false, ItemCells(q, PositionFor(m.positions, q.symbol)))
    ensures m.extraInfoFundamentals ==> r[1..3] == ExtraInfoFundamentals(true, q, m.width)
    ensures m.extraInfoExchange ==> r[|r| - 2..] == ExtraInfoExchange(true, q, m.width)
  {
    Line(m.width, false, ItemCells(q, PositionFor(m.positions, q.symbol)))
      + ExtraInfoFundamentals(m.extraInfoFundamentals, q, m.width)
      + ExtraInfoExchange(m.extraInfoExchange, q, m.width)
  }

  // ---------------------------------------------------------------------------
  // Totals

  datatype Totals = Totals(
    totalReturn: real,
    totalCurrent: real,
    totalCost: real,
    dailyReturn: real,
    valuePreviousClose: real
  )

  const NoTotals := Totals(0.0, 0.0, 0.0, 0.0, 0.0)

  function Add(a: Totals, b: Totals): Totals {
    Totals(
      a.totalReturn + b.totalReturn,
      a.totalCurrent + b.totalCurrent,
      a.totalCost + b.totalCost,
      a.dailyReturn + b.dailyReturn,
      a.valuePreviousClose + b.valuePreviousClose
    )
  }

  /** What one quote adds to the totals: its position's figures, or nothing
      when it has no position. */
  function QuoteTotals(q: Quote, positions: map<string, Position>): (r: Totals)
    ensures q.symbol !in positions ==> r == NoTotals
    ensures q.symbol in positions ==> var p := positions[q.symbol];
      && r.totalReturn == p.absoluteReturn && r.totalCurrent == p.value && r.totalCost == p.cost
      && r.dailyReturn == p.dayChange && r.valuePreviousClose == p.valuePreviousClose
  {
    if q.symbol in positions then
      var p := positions[q.symbol];
      Totals(p.absoluteReturn, p.value, p.cost, p.dayChange, p.valuePreviousClose)
    else NoTotals
  }

  /** Reference definition: the totals of a list of quotes. */
  function TotalsOf(quotes: seq<Quote>, positions: map<string, Position>): (r: Totals)
    ensures |quotes| == 0 ==> r == NoTotals
    ensures |quotes| == 1 ==> r == QuoteTotals(quotes[0], positions)
  {
    if |quotes| == 0 then NoTotals
    else Add(TotalsOf(quotes[..|quotes| - 1], positions), QuoteTotals(quotes[|quotes| - 1], positions))
  }

  lemma AddAssociative(a: Totals, b: Totals, c: Totals)
    ensures Add(Add(a, b), c) == Add(a, Add(b, c))
  {
  }

  lemma {:induction false} TotalsAppend(a: seq<Quote>, b: seq<Quote>, positions: map<string, Position>)
    ensures TotalsOf(a + b, positions) == Add(TotalsOf(a, positions), TotalsOf(b, positions))
    decreases |b|
  {
    if |b| == 0 {
      assert a + b == a;
      assert TotalsOf(b, positions) == NoTotals;
    } else {
      var b' := b[..|b| - 1];
      var last := b[|b| - 1];
      assert (a + b)[..|a + b| - 1] == a + b';
      assert (a + b)[|a + b| - 1] == last;
      TotalsAppend(a, b', positions);
      AddAssociative(TotalsOf(a, positions), TotalsOf(b', positions), QuoteTotals(last, positions));
    }
  }

  /** Removing the quote at index `i` removes exactly its share. */
  lemma TotalsRemove(b: seq<Quote>, i: nat, positions: map<string, Position>)
    requires i < |b|
    ensures TotalsOf(b, positions) == Add(TotalsOf(b[..i] + b[i + 1..], positions), QuoteTotals(b[i], positions))
  {
    var left, x, right := b[..i], b[i], b[i + 1..];
    assert b == (left + [x]) + right;
    var tl, tx, tr := TotalsOf(left, positions), QuoteTotals(x, positions), TotalsOf(right, positions);
    calc {
      TotalsOf(b, positions);
    == { TotalsAppend(left + [x], right, positions); }
      Add(TotalsOf(left + [x], positions), tr);
    == { assert (left + [x])[..|left|] == left; }
      Add(Add(tl, tx), tr);
    == { AddSwap(tl, tx, tr); }
      Add(Add(tl, tr), tx);
    == { TotalsAppend(left, right, positions); }
      Add(TotalsOf(left + right, positions), tx);
    }
  }

  lemma AddSwap(a: Totals, b: Totals, c: Totals)
    ensures Add(Add(a, b), c) == Add(Add(a, c), b)
  {
  }

  /** The totals do not depend on the order of the quotes. */
  lemma {:induction false} TotalsPermutation(a: seq<Quote>, b: seq<Quote>, positions: map<string, Position>)
    requires multiset(a) == multiset(b)
    ensures TotalsOf(a, positions) == TotalsOf(b, positions)
    decreases |a|
  {
    if |a| > 0 {
      var i := MatchLast(a, b);
      TotalsPermutation(a[..|a| - 1], b[..i] + b[i + 1..], positions);
      TotalsRemove(b, i, positions);
      assert TotalsOf(a, positions) == Add(TotalsOf(a[..|a| - 1], positions), QuoteTotals(a[|a| - 1], positions));
    }
  }

  /** Whether a quote has a position. */
  function Held(positions: map<string, Position>): Quote -> bool {
    (q: Quote) => q.symbol in positions
  }

  /** Quotes without a position add nothing: the totals over all quotes equal
      the totals over the held ones. */
  lemma {:induction false} TotalsOnlyHeld(quotes: seq<Quote>, positions: map<string, Position>)
    ensures TotalsOf(quotes, positions) == TotalsOf(Select(quotes, Held(positions), true), positions)
    decreases |quotes|
  {
    if |quotes| > 0 {
      var init := quotes[..|quotes| - 1];
      var last := quotes[|quotes| - 1];
      TotalsOnlyHeld(init, positions);
      var held := Select(init, Held(positions), true);
      if last.symbol in positions {
        assert Select(quotes, Held(positions), true) == held + [last];
        assert (held + [last])[..|held|] == held;
      }
    }
  }

  /** The cells of the totals footer. */
  function FooterCells(t: Totals): (r: seq<Cell>)
    ensures |r| == 5
    ensures r[0] == Cell(0, Paint(StyleFooter, Str("TOTAL")), LeftAlign) && r[1] == Cell(5, [], RightAlign)
    ensures r[2].width == 10 && r[3].width == 22 && r[4].width == 22
    ensures forall i :: 1 <= i < |r| ==> r[i].align == RightAlign
    ensures r[2].text == Paint(StyleFooter, FloatToStringNoDecimals(t.totalCurrent))
    ensures r[3].text == QuoteChangeText(t.dailyReturn, Percent(t.dailyReturn, t.valuePreviousClose), true)
    ensures r[4].text == QuoteChangeText(t.totalReturn, Percent(t.totalReturn, t.totalCost), true)
  {
    [
      Cell(0, Paint(StyleFooter, Str("TOTAL")), LeftAlign),
      Cell(5, [], RightAlign),
      Cell(10, Paint(StyleFooter, FloatToStringNoDecimals(t.totalCurrent)), RightAlign),
      Cell(22, QuoteChangeText(t.dailyReturn, Percent(t.dailyReturn, t.valuePreviousClose), true), RightAlign),
      Cell(22, QuoteChangeText(t.totalReturn, Percent(t.totalReturn, t.totalCost), true), RightAlign)
    ]
  }

  /** The footer's columns line up with the header's. */
  lemma FooterCellsMatchHeader(t: Totals, width: int)
    ensures var cells, header := FooterCells(t), Header(width)[0].cells;
      && |cells| == |header|
      && forall i :: 0 <= i < |cells| ==> cells[i].width == header[i].width && cells[i].align == header[i].align
  {
  }

  /** `showTotals`: the bold footer row of the summed figures of the quotes
      that have a position, or nothing when their summed return does not
      exceed the threshold (so also whenever it is negative). */
  function ShowTotals(quotes: seq<Quote>, positions: map<string, Position>, width: int): (r: Text)
    ensures r == [] <==> TotalsOf(quotes, positions).totalReturn <= TotalsThreshold
    ensures r != [] ==> r == Line(width, true, FooterCells(TotalsOf(quotes, positions)))
  {
    var totals := TotalsOf(quotes, positions);
    if totals.totalReturn <= TotalsThreshold then []
    else Line(width, true, FooterCells(totals))
  }

  /** With no held quote there is no footer. */
  lemma NoHoldingsNoFooter(quotes: seq<Quote>, positions: map<string, Position>, width: int)
    requires forall i :: 0 <= i < |quotes| ==> quotes[i].symbol !in positions
    ensures ShowTotals(quotes, positions, width) == []
  {
    TotalsOnlyHeld(quotes, positions);
    SelectNone(quotes, Held(positions), true);
  }

  /** The footer of the sorted quotes is the footer of the quotes as given. */
  lemma FooterIgnoresOrder(quotes: seq<Quote>, positions: map<string, Position>, width: int)
    ensures ShowTotals(SortQuotes(quotes), positions, width) == ShowTotals(quotes, positions, width)
  {
    TotalsPermutation(SortQuotes(quotes), quotes, positions);
  }

  // ---------------------------------------------------------------------------
  // View

  /** `separator`: a newline, or a ruled line between two newlines. */
  function Separator(isSeparated: bool, width: int): (r: Text)
    requires isSeparated ==> width >= 0
    ensures |r| >= 1 && r[0] == Chr('\n') && r[|r| - 1] == Chr('\n')
    ensures |r| == 1 <==> !isSeparated
    ensures isSeparated ==> |r| == 3 && r[1].LineOf? && r[1].width == width && !r[1].bold && |r[1].cells| == 1
    ensures isSeparated ==> r[1].cells[0] == Cell(0, Paint(StyleLine, Str(Repeat('⎯', width))), LeftAlign)
  {
    if isSeparated then
      Str("\n") + Line(width, false, [Cell(0, Paint(StyleLine, Str(Repeat('⎯', width))), LeftAlign)]) + Str("\n")
    else Str("\n")
  }

  /** The message shown instead of the list when the terminal is too narrow:
      it reports the width, ends with the minimum "/80)" and lays out no line. */
  function TooNarrowMessage(width: int): (r: Text)
    ensures Integer(width) in r && HasNoLine(r)
    ensures |r| >= 4 && r[|r| - 4..] == Str("/80)")
  {
    var prefix := Str("Terminal window too narrow to render content\nResize to fix (");
    var suffix := Str("/80)");
    var r := prefix + [Integer(width)] + suffix;
    assert r[|prefix|] == Integer(width);
    assert r[|r| - 4..] == suffix;
    r
  }

  /** A full-width rule. */
  function HorizontalLine(width: nat): (r: Text)
    ensures |r| == width
    ensures forall i :: 0 <= i < |r| ==> r[i] == Chr('─')
  {
    Str(Repeat('─', width))
  }

  /** One row per quote, in the order given. */
  function Rows(m: Model, quotes: seq<Quote>): (r: seq<Text>)
    ensures |r| == |quotes|
    ensures forall i :: 0 <= i < |quotes| ==> r[i] == Row(m, quotes[i])
  {
    seq(|quotes|, i requires 0 <= i < |quotes| => Row(m, quotes[i]))
  }

  /** The lines `View` joins: header, rule, one row per sorted quote, rule,
      footer. */
  function Items(m: Model): (r: seq<Text>)
    requires m.width >= 0
    ensures |r| == |m.quotes| + 4
    ensures r[0] == Header(m.width)
    ensures r[1] == HorizontalLine(m.width) && r[|r| - 2] == HorizontalLine(m.width)
    ensures r[2..|r| - 2] == Rows(m, SortQuotes(m.quotes))
    ensures r[|r| - 1] == ShowTotals(SortQuotes(m.quotes), m.positions, m.width)
  {
    var quotes := SortQuotes(m.quotes);
    var rows := Rows(m, quotes);
    var rule := HorizontalLine(m.width);
    var r := [Header(m.width), rule] + rows + [rule, ShowTotals(quotes, m.positions, m.width)];
    assert r[1] == rule && r[|r| - 2] == rule;
    assert r[2..|r| - 2] == rows;
    r
  }

  /** Every quote given has a row in the list, however the quotes are
      ordered. */
  lemma EveryQuoteHasARow(m: Model, q: Quote)
    requires m.width >= 0 && q in m.quotes
    ensures exists i :: 2 <= i < |m.quotes| + 2 && Items(m)[i] == Row(m, q)
  {
    var k := SortedPosition(m.quotes, q);
    ItemsRow(m, k);
  }

  /** Where a quote ends up after sorting. */
  lemma SortedPosition(quotes: seq<Quote>, q: Quote) returns (k: nat)
    requires q in quotes
    ensures k < |quotes| && SortQuotes(quotes)[k] == q
  {
    var sorted := SortQuotes(quotes);
    assert q in multiset(quotes);
    k :| 0 <= k < |sorted| && sorted[k] == q;
  }

  /** The list as laid out from the minimum width on: the header, a rule,
      the rows of the sorted quotes, a rule and the footer, with the separator
      between every two of them. */
  function ListLayout(m: Model): Text
    requires m.width >= 0
  {
    var sep, rule, rows := Separator(m.separate, m.width), HorizontalLine(m.width), Rows(m, SortQuotes(m.quotes));
    Header(m.width) + sep + rule + sep + (if |rows| == 0 then [] else Join(rows, sep) + sep)
      + rule + sep + ShowTotals(m.quotes, m.positions, m.width)
  }

  /** Joining the listed lines gives that layout. */
  lemma JoinedItems(m: Model)
    requires m.width >= 0
    ensures Join(Items(m), Separator(m.separate, m.width)) == ListLayout(m)
  {
    var quotes := SortQuotes(m.quotes);
    FooterIgnoresOrder(m.quotes, m.positions, m.width);
    JoinFramed(Header(m.width), HorizontalLine(m.width), Rows(m, quotes), HorizontalLine(m.width),
               ShowTotals(quotes, m.positions, m.width), Separator(m.separate, m.width));
  }

  /** From the minimum width on, the row of the `i`-th sorted quote stands
      in the view between two separators. */
  lemma ViewRow(m: Model, i: int)
    requires m.width >= MinWidth && 0 <= i < |m.quotes|
    ensures var sep, items := Separator(m.separate, m.width), Items(m);
      View(m) == Join(items[..i + 2], sep) + sep + Row(m, SortQuotes(m.quotes)[i]) + sep + Join(items[i + 3..], sep)
  {
    var sep := Separator(m.separate, m.width);
    assert View(m) == Join(Items(m), sep);
    ItemsRow(m, i);
    JoinAround(Items(m), sep, i + 2);
  }

  /** The `i`-th sorted quote's row is the listed line after header and rule. */
  lemma ItemsRow(m: Model, i: int)
    requires m.width >= 0 && 0 <= i < |m.quotes|
    ensures |Items(m)| == |m.quotes| + 4 && Items(m)[i + 2] == Row(m, SortQuotes(m.quotes)[i])
  {
    var items := Items(m);
    assert items[i + 2] == items[2..|items| - 2][i];
  }

  /** `View`: the narrow-terminal message below the minimum width; otherwise
      the listed lines joined by the separator, which is the layout above: it
      starts with the header and ends with the footer. */
  function View(m: Model): (r: Text)
    ensures m.width < MinWidth ==> r == TooNarrowMessage(m.width)
    ensures m.width >= MinWidth ==> r == ListLayout(m)
    ensures m.width >= MinWidth ==> Header(m.width) <= r
    ensures m.width >= MinWidth ==> r[|r| - |ShowTotals(m.quotes, m.positions, m.width)|..] == ShowTotals(m.quotes, m.positions, m.width)
  {
    if m.width < MinWidth then TooNarrowMessage(m.width)
    else
      JoinedItems(m);
      Join(Items(m), Separator(m.separate, m.width))
  }
}
