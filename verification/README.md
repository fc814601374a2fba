# Ticker portfolio and watchlist core, in Dafny

This project models the two per-refresh data transformations of the `ticker`
terminal stock watcher:

- **Portfolio aggregation and valuation** (`internal/position/position.go`):
  purchase lots are folded into one aggregated cost/quantity record per symbol
  (`GetLots`), the symbols to request quotes for are the lot symbols followed by
  the watched symbols without duplicates (`GetSymbols`), and the aggregated lots
  are joined with a batch of quotes into positions with value and return figures
  (`GetPositions`).
- **The watchlist view** (`internal/ui/component/watchlist/watchlist.go`): the
  narrow-terminal guard, the ordering of quotes (active quotes by descending
  change percent, then inactive quotes in their original order), the row per
  quote, the totals footer with its suppression threshold, the small case-split
  helpers for the cells, and the way the lines are joined.

Amounts are exact `real`s instead of float64. A percentage whose denominator is
zero, where the program gets an infinity or NaN, is `None`. Text is symbolic
(module `Text`): a sequence of pieces where Go string concatenation is sequence
concatenation and `""` is the empty sequence, and where a styled span, a `Line`
of `Cell`s and a formatted number are free constructors that record their
arguments. A proved equation between texts therefore holds whatever the real
styling and formatting functions do. The proofs cover which pieces are chosen
and how they are arranged, not the bytes printed.

Modules: `Wrappers` (Option), `Collections` (the library operations used:
partition, descending order-by, uniq, with their properties), `Text`, `Quotes`
(the quote fields read; the quote package itself is not part of this model),
`Positions`, `Watchlist`.

Notes on the code:

- The totals footer is suppressed whenever the summed absolute return is at
  most 0.00001 (`internal/ui/component/watchlist/watchlist.go:175-178`). The
  comment there speaks of a total "near zero", but the test is one-sided, so a
  portfolio with a negative total return shows no footer either. The model
  follows the test.
- With zero change, the bold footer variant of the change cell uses the plain
  faded style, which is not bold.
- The active quotes are ordered by a descending sort whose treatment of equal
  change percents is not specified. No tie order is claimed.

## Model

| member | source | states |
|---|---|---|
| Positions.Aggregate | internal/position/position.go:38-59 | the fold's keys are exactly the lot symbols, each record carries its own symbol, and its quantity and cost are the per-symbol sums of quantity and of unit cost times quantity |
| Positions.AddLotStep | internal/position/position.go:40-58 | folding in one more lot turns a per-symbol summary of the earlier lots into one of all the lots |
| Positions.AddLot | internal/position/position.go:40-58 | the reducer adds the lot's symbol to the keys and leaves every other record alone; a new symbol starts at the lot's quantity and its unit cost times quantity, an existing record keeps its symbol and adds both |
| Positions.AddLotEntry | internal/position/position.go:42-55 | after folding in a lot, a symbol's record holds its summed cost and quantity: a new symbol starts from its first lot, an existing one adds the lot's quantity and cost, others are untouched |
| Positions.GetLots | internal/position/position.go:32-63 | a nil or empty lot list gives the empty map; every record is filed under its own symbol; otherwise one record per symbol equal to (symbol, summed cost, summed quantity) |
| Positions.TotalOfAbsentSymbol | internal/position/position.go:42-50 | a symbol with no lot accumulates nothing, so its first lot starts the record from zero |
| Positions.TotalAppend | internal/position/position.go:52-53 | per-symbol sums over two concatenated lists add up |
| Positions.TotalRemove | internal/position/position.go:52-53 | taking one lot out of the list subtracts exactly its contribution |
| Positions.TotalPermutation | internal/position/position.go:44-55 | per-symbol sums are the same for any reordering of the lots |
| Positions.GetLotsOrderIndependent | internal/position/position.go:38-62 | aggregation gives the same map for any order of the same lots |
| Collections.FirstIndex | internal/position/position.go:74 | the index found holds the element and no earlier index does |
| Collections.FirstIndexInPrefix | internal/position/position.go:74 | an element's first occurrence is unchanged by appending to the list |
| Collections.Uniq | internal/position/position.go:72-75 | no duplicates, the same element set as the input, and elements ordered by their first occurrence |
| Collections.UniqStep | internal/position/position.go:74 | appending one element to the list keeps the three properties of the de-duplicated result |
| Collections.FirstOccurrenceOrderIndex | internal/position/position.go:74 | in a list ordered by first occurrence, an element occurring first earlier sits at a smaller index |
| Positions.GetSymbols | internal/position/position.go:65-77 | no duplicates; the element set is the lot keys united with the watched symbols; every lot symbol precedes every symbol that is only watched; the symbols are in the order they are first seen in the map's keys followed by the watched list |
| Positions.UniqMembers | internal/position/position.go:72-75 | the de-duplicated list holds exactly the lot keys and the watched symbols |
| Positions.KeyBeforeWatched | internal/position/position.go:67-73 | in the concatenated list a lot key first occurs within the lot-key part, a symbol that is only watched after it |
| Positions.LotSymbolsComeFirst | internal/position/position.go:67-75 | after de-duplication every lot symbol precedes every symbol that is only watched |
| Positions.Percent | internal/position/position.go:95-98 | defined exactly when the denominator is nonzero, and then it times the denominator is the numerator times 100 |
| Positions.PositionOf | internal/position/position.go:86-99 | value, day change and previous-close value are price, change and previous close times quantity; cost is the lot's; absolute return is value minus cost; the two percentages are day change over previous-close value and return over cost |
| Positions.PositionExample | internal/position/position.go:86-98 | quantity 10 and cost 20 quoted at 3 up 0.5 from 2.5 give value 30, day change 5 (20%), return 10 (50%) |
| Positions.LastQuoteFor | internal/position/position.go:103-105 | present exactly when some quote has the symbol, and then it is a quote with that symbol after which none has it |
| Positions.QuotedSymbolsStep | internal/position/position.go:84-101 | appending a quote adds exactly its symbol to the quoted symbols |
| Positions.LastQuoteStep | internal/position/position.go:103-105 | appending a quote makes it the last quote of its symbol and leaves every other symbol's last quote unchanged |
| Positions.GetPositions | internal/position/position.go:79-110 | every position is filed under its own lot symbol; when each lot record carries the symbol it is filed under (as GetLots makes them), the keys are exactly the quoted symbols that have a lot, quotes without a lot are dropped, and each position values the symbol's lot against its last quote |
| Positions.GetPositionsStep | internal/position/position.go:84-105 | folding in one more quote turns the positions of the earlier quotes into those of all the quotes |
| Positions.AddPosition | internal/position/position.go:84-105 | a quote without a lot leaves the positions unchanged; otherwise the lot's symbol is added to the keys, filed with the lot valued against the quote, and every other position is kept |
| Positions.AddPositionEntry | internal/position/position.go:85-105 | after folding in a quote, its symbol's position is valued against it and every other symbol keeps its position |
| Collections.Select | internal/ui/component/watchlist/watchlist.go:325-330 | keeps exactly the elements on one side of the predicate and never grows the list |
| Collections.SelectAppend | internal/ui/component/watchlist/watchlist.go:325-330 | selection distributes over concatenation, so kept elements keep their relative order |
| Collections.SelectAll | internal/ui/component/watchlist/watchlist.go:325-330 | a list whose elements all qualify is selected unchanged |
| Collections.SelectNone | internal/ui/component/watchlist/watchlist.go:325-330 | a list with no qualifying element selects to empty |
| Collections.SelectSplits | internal/ui/component/watchlist/watchlist.go:325-330 | the two sides together hold each element as often as the input |
| Collections.Partition | internal/ui/component/watchlist/watchlist.go:325-330 | the two groups form a permutation of the input, split by the predicate |
| Collections.Insert | internal/ui/component/watchlist/watchlist.go:332-336 | inserting into a descending list keeps it descending and adds exactly the element |
| Collections.InsertStep | internal/ui/component/watchlist/watchlist.go:332-336 | placing the larger head in front of the insertion into the tail stays descending and a permutation |
| Collections.OrderByDescending | internal/ui/component/watchlist/watchlist.go:332-336 | the result is a permutation of the input with non-increasing keys |
| Watchlist.ActiveCount | internal/ui/component/watchlist/watchlist.go:325-330 | the active and the inactive quotes together are all the quotes, and the count is the whole list exactly when every quote is active |
| Watchlist.SortQuotes | internal/ui/component/watchlist/watchlist.go:319-341 | empty input is returned unchanged; the output is a permutation of the input; exactly the first ActiveCount quotes are active; these are in non-increasing change percent; the rest are the inactive quotes in input order |
| Watchlist.SortedPosition | internal/ui/component/watchlist/watchlist.go:320-341 | every input quote occurs in the sorted output |
| Watchlist.MarketStateText | internal/ui/component/watchlist/watchlist.go:263-273 | filled glyph in the regular session, hollow glyph when active outside it, empty exactly when neither |
| Watchlist.MarketStateTextDistinguishes | internal/ui/component/watchlist/watchlist.go:263-273 | two quotes get the same cell iff they are in the same one of the three states |
| Watchlist.ExchangeDelayText | internal/ui/component/watchlist/watchlist.go:251-257 | "Real-Time" iff the delay is not positive, otherwise "Delayed " followed by the whole-number delay and "min" |
| Watchlist.DayRangeText | internal/ui/component/watchlist/watchlist.go:244-249 | empty iff the range is empty; otherwise exactly two pieces: the label "Day Range: " in the faded style, then the range in the neutral style |
| Watchlist.ValueText | internal/ui/component/watchlist/watchlist.go:275-281 | empty iff the value is not positive, otherwise the whole-number value in the neutral style |
| Watchlist.QuoteChangeText | internal/ui/component/watchlist/watchlist.go:291-317 | one styled span of glyph plus the same figures in every case; faded iff the change is zero, gain colour iff positive, loss colour iff negative; a positive change is painted in exactly the gain style (the bold gain footer style when bold), a negative one in exactly the loss style (the bold loss footer style when bold), both with no background |
| Watchlist.ChangeGlyphAgreesWithColour | internal/ui/component/watchlist/watchlist.go:295-317 | the up arrow goes with the gain colour, the down arrow with the loss colour and the blank with the faded style |
| Watchlist.ExtraInfoExchange | internal/ui/component/watchlist/watchlist.go:209-220 | empty when hidden; otherwise a newline and one full-width, non-bold line of a single unsized left-aligned cell holding the currency, delay and exchange tags separated by spaces |
| Watchlist.ExtraInfoFundamentals | internal/ui/component/watchlist/watchlist.go:222-242 | empty when hidden; otherwise a newline and one full-width, non-bold line of three left-aligned cells: "Prev Close: " with the previous close to two decimals (width 25), "Open: " with the open to two decimals (width 20), and the day range text |
| Watchlist.ItemCells | internal/ui/component/watchlist/watchlist.go:129-158 | five columns: the short name in the neutral style, left-aligned in an unsized column, then market state (width 5), value text (width 10), day change and total change (width 22 each), all right-aligned |
| Watchlist.ItemCellsMatchHeader | internal/ui/component/watchlist/watchlist.go:99-158 | an item's columns have the header's widths and alignments |
| Watchlist.Header | internal/ui/component/watchlist/watchlist.go:99-127 | one full-width, non-bold line of five cells: "SECURITY" unsized and left-aligned, an empty cell of width 5, then "Pos" (width 10), "Daily Chg." and "Total Chg." (width 22 each), right-aligned, all titles in the bold neutral style |
| Watchlist.TagText | internal/ui/component/watchlist/watchlist.go:259-261 | three pieces: the text in the tag style between two spaces in the tag-end style |
| Watchlist.UnheldQuoteShowsNoValue | internal/ui/component/watchlist/watchlist.go:66-78 | a quote without a position looks up the zero position and shows an empty value cell and flat change cells |
| Watchlist.Row | internal/ui/component/watchlist/watchlist.go:66-78 | a quote's text is its item line, then the fundamentals lines when that toggle is on, then the exchange lines last when that toggle is on |
| Watchlist.QuoteTotals | internal/ui/component/watchlist/watchlist.go:166-174 | a quote without a position adds nothing; a held quote adds its position's absolute return, value, cost, day change and previous-close value to the five sums |
| Watchlist.TotalsOf | internal/ui/component/watchlist/watchlist.go:161-174 | no quotes sum to zero and one quote sums to its own share; with TotalsAppend this fixes the sum over any list |
| Watchlist.TotalsAppend | internal/ui/component/watchlist/watchlist.go:166-174 | totals over two concatenated lists add up |
| Watchlist.TotalsRemove | internal/ui/component/watchlist/watchlist.go:166-174 | taking one quote out subtracts exactly its share |
| Watchlist.TotalsPermutation | internal/ui/component/watchlist/watchlist.go:166-174 | totals are the same for any reordering of the quotes |
| Watchlist.TotalsOnlyHeld | internal/ui/component/watchlist/watchlist.go:166-174 | totals over all quotes equal totals over the quotes that have a position |
| Watchlist.ShowTotals | internal/ui/component/watchlist/watchlist.go:160-208 | empty iff the summed absolute return is at most 0.00001; otherwise the bold footer line of the summed figures |
| Watchlist.FooterCells | internal/ui/component/watchlist/watchlist.go:180-206 | five cells: "TOTAL" unsized and left-aligned, an empty cell of width 5, the no-decimals current value (width 10), then the bold day change over previous-close value and the bold total return over cost (width 22 each), right-aligned |
| Watchlist.FooterCellsMatchHeader | internal/ui/component/watchlist/watchlist.go:180-206 | the footer's columns have the header's widths and alignments |
| Watchlist.NoHoldingsNoFooter | internal/ui/component/watchlist/watchlist.go:166-178 | with no quote holding a position the footer is empty |
| Watchlist.FooterIgnoresOrder | internal/ui/component/watchlist/watchlist.go:62-81 | the footer of the sorted quotes equals the footer of the quotes as given |
| Watchlist.Separator | internal/ui/component/watchlist/watchlist.go:85-97 | starts and ends with a newline, and is a bare newline iff separation is off; when separated, the one piece between the newlines is a full-width, non-bold line of a single left-aligned cell holding a rule of `width` copies of ⎯ in the line style |
| Text.Join | internal/ui/component/watchlist/watchlist.go:82 | no items join to the empty text and one item joins to itself |
| Text.JoinAppend | internal/ui/component/watchlist/watchlist.go:82 | joining two non-empty lists is joining each with one separator between them, so every two neighbours are separated |
| Text.JoinAround | internal/ui/component/watchlist/watchlist.go:82 | an inner item of a joined list stands between two separators |
| Text.JoinPair | internal/ui/component/watchlist/watchlist.go:82 | two items join with one separator between them |
| Text.JoinFramed | internal/ui/component/watchlist/watchlist.go:61-82 | joining two leading items, the middle items and two trailing items separates every neighbour, and leaves no doubled separator when the middle is empty |
| Watchlist.Rows | internal/ui/component/watchlist/watchlist.go:66-78 | one row per quote, in the given order |
| Watchlist.HorizontalLine | internal/ui/component/watchlist/watchlist.go:61 | the rule is exactly `width` copies of ─ |
| Watchlist.Items | internal/ui/component/watchlist/watchlist.go:61-81 | header, rule, one row per sorted quote, rule, then the footer of the sorted quotes |
| Watchlist.TooNarrowMessage | internal/ui/component/watchlist/watchlist.go:57-59 | the message shows the actual width, ends with "/80)" and contains no laid-out line |
| Watchlist.EveryQuoteHasARow | internal/ui/component/watchlist/watchlist.go:62-78 | every quote given has a row among the listed lines |
| Watchlist.ItemsRow | internal/ui/component/watchlist/watchlist.go:62-78 | the row of the i-th sorted quote is the listed line after the header and the rule |
| Watchlist.JoinedItems | internal/ui/component/watchlist/watchlist.go:61-82 | the listed lines joined by the separator are header, rule, rows, rule and footer of the quotes as given, each two separated once |
| Watchlist.ViewRow | internal/ui/component/watchlist/watchlist.go:62-82 | from width 80, the row of each sorted quote stands in the view between two copies of the separator |
| Watchlist.View | internal/ui/component/watchlist/watchlist.go:55-83 | below width 80 the narrow-terminal message and nothing else; from width 80 the header, a rule, the rows of the sorted quotes, a rule and the totals footer with one separator between every two of them, so the text starts with the header and ends with the footer, which is the same whatever order the quotes arrive in |
| Text.FloatToString | internal/ui/util/format.go:8-15 | without decimals it is the same text as the no-decimals formatter |

## Left out

- The quote package and the quote fetcher: a quote is the record of the fields read here.
- Loading lots from configuration, terminal events and the program's lifecycle.
- `Line`, `Cell`, `NewStyle` and the colour rendering: free constructors; no claim about ANSI bytes, padding or truncation.
- The number formatters (`ConvertFloatToString`, `ConvertFloatToStringNoDecimals`, `strconv.FormatFloat`, `fmt.Sprintf("%d")`): opaque pieces; locale grouping and rounding are not modelled.
- IEEE-754 arithmetic: amounts are exact reals, so rounding error is not modelled, and a division by zero is `None` instead of an infinity or NaN.
- Positions.GetPositions: the source returns a closure over the lots; the model takes the lots and the quotes together. For lot maps whose records carry a symbol other than their key, which `GetLots` never builds, the contract only says that every position is filed under its own lot symbol.
- Positions.GetSymbols: the order in which Go ranges over the lot map is nondeterministic, so it is an input (`keyOrder`) that lists each key once.
- Watchlist.SortQuotes: the library sort is not known to be stable, so no order among equal change percents is stated.
- `NewModel`: it only fills in default field values.
- `valueTextBold` and the `maxPercentChangeColorGradient` constant: neither is used by the watchlist.
- Watchlist.Separator: the rule is drawn with `strings.Repeat`, which rejects a negative count, so a separated line needs a non-negative width.
