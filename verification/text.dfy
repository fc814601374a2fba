/** Rendered terminal text, kept symbolic. The styling and layout primitives the
    watchlist calls (styles made by `NewStyle`, `Line`, `Cell`, and the number
    formatters) are free constructors here: text is a sequence of pieces, plain
    concatenation of Go strings is sequence concatenation and "" is the empty
    sequence, while a styled span, a laid-out line or a formatted number is an
    opaque piece that records its arguments. An equation between two texts
    therefore holds for every concrete styling and formatting library. */
module Text {

  /** A style as built by `NewStyle(foreground, background, bold)`. */
  datatype Style = NewStyle(foreground: string, background: string, bold: bool)

  /** `LeftAlign` is the zero value a `Cell` gets when no alignment is given. */
  datatype Align = LeftAlign | RightAlign

  /** The three number renderings the watchlist asks for: the locale printer
      with `%.f` and with `%.2f`, and `strconv.FormatFloat(v, 'f', 0, 64)`. */
  datatype NumberFormat = GroupedNoDecimals | GroupedTwoDecimals | FixedNoDecimals

  datatype Piece =
    | Chr(c: char)
    | Styled(style: Style, body: seq<Piece>)
    | Number(value: real, format: NumberFormat)
    /** A float64 that is an infinity or NaN, as produced by a division by zero. */
    | NonFinite
    | Integer(i: int)
    | LineOf(width: int, bold: bool, cells: seq<Cell>)

  /** A column of a `Line`: width 0 means the column takes the remaining room. */
  datatype Cell = Cell(width: int, text: seq<Piece>, align: Align)

  type Text = seq<Piece>

  /** A Go string literal as text. */
  function Str(s: string): (r: Text)
    ensures |r| == |s|
    ensures forall i :: 0 <= i < |s| ==> r[i] == Chr(s[i])
  {
    seq(|s|, i requires 0 <= i < |s| => Chr(s[i]))
  }

  /** Applying a style to a text. */
  function Paint(style: Style, t: Text): Text {
    [Styled(style, t)]
  }

  /** `Line(width, bold, cells...)`: one terminal row laid out in columns. */
  function Line(width: int, bold: bool, cells: seq<Cell>): Text {
    [LineOf(width, bold, cells)]
  }

  /** `strings.Repeat` of a one-character string. */
  function Repeat(c: char, n: nat): (r: string)
    ensures |r| == n
    ensures forall i :: 0 <= i < n ==> r[i] == c
  {
    seq(n, _ => c)
  }

  /** `ConvertFloatToStringNoDecimals`: thousands-grouped, rounded to a whole
      number. */
  function FloatToStringNoDecimals(f: real): Text {
    [Number(f, GroupedNoDecimals)]
  }

  /** `ConvertFloatToString`: two decimals when asked for, otherwise the same
      text as `FloatToStringNoDecimals`. */
  function FloatToString(f: real, decimals: bool): (r: Text)
    ensures !decimals ==> r == FloatToStringNoDecimals(f)
  {
    if !decimals then FloatToStringNoDecimals(f) else [Number(f, GroupedTwoDecimals)]
  }

  /** True when no piece of `t` is a laid-out line, at any depth of styling. */
  predicate HasNoLine(t: Text) {
    forall i :: 0 <= i < |t| ==> !t[i].LineOf? && (t[i].Styled? ==> HasNoLine(t[i].body))
  }

  /** `strings.Join`. */
  function Join(items: seq<Text>, sep: Text): (r: Text)
    ensures |items| == 0 ==> r == []
    ensures |items| == 1 ==> r == items[0]
  {
    if |items| == 0 then []
    else if |items| == 1 then items[0]
    else Join(items[..|items| - 1], sep) + sep + items[|items| - 1]
  }

  /** Joining two non-empty lists is joining each and putting one separator
      between the two: the separator goes between every two neighbours. */
  lemma {:induction false} JoinAppend(a: seq<Text>, b: seq<Text>, sep: Text)
    requires |a| > 0 && |b| > 0
    ensures Join(a + b, sep) == Join(a, sep) + sep + Join(b, sep)
    decreases |b|
  {
    var ab, init, last := a + b, b[..|b| - 1], b[|b| - 1];
    assert ab[..|ab| - 1] == a + init && ab[|ab| - 1] == last;
    assert Join(ab, sep) == Join(a + init, sep) + sep + last;
    if |b| == 1 {
      assert a + init == a && Join(b, sep) == last;
    } else {
      JoinAppend(a, init, sep);
      assert Join(b, sep) == Join(init, sep) + sep + last;
    }
  }

  /** An inner item of a joined list stands between two separators. */
  lemma JoinAround(items: seq<Text>, sep: Text, i: int)
    requires 0 < i < |items| - 1
    ensures Join(items, sep) == Join(items[..i], sep) + sep + items[i] + sep + Join(items[i + 1..], sep)
  {
    assert items == items[..i] + ([items[i]] + items[i + 1..]);
    JoinAppend([items[i]], items[i + 1..], sep);
    JoinAppend(items[..i], [items[i]] + items[i + 1..], sep);
  }

  /** Joining two items puts one separator between them. */
  lemma JoinPair(a: Text, b: Text, sep: Text)
    ensures Join([a, b], sep) == a + sep + b
  {
    assert [a, b][..1] == [a];
  }

  /** Joining a list framed by two leading and two trailing items. */
  lemma JoinFramed(h: Text, r1: Text, rows: seq<Text>, r2: Text, f: Text, sep: Text)
    ensures Join([h, r1] + rows + [r2, f], sep)
      == h + sep + r1 + sep + (if |rows| == 0 then [] else Join(rows, sep) + sep) + r2 + sep + f
  {
    if |rows| == 0 {
      JoinFramedEmpty(h, r1, r2, f, sep);
      assert [h, r1] + rows + [r2, f] == [h, r1] + [r2, f];
    } else {
      JoinFramedRows(h, r1, rows, r2, f, sep);
    }
  }

  lemma JoinFramedEmpty(h: Text, r1: Text, r2: Text, f: Text, sep: Text)
    ensures Join([h, r1] + [r2, f], sep) == h + sep + r1 + sep + r2 + sep + f
  {
    JoinPair(h, r1, sep);
    JoinPair(r2, f, sep);
    JoinAppend([h, r1], [r2, f], sep);
    Associate(h + sep + r1 + sep, r2 + sep, f);
    Associate(h + sep + r1 + sep, r2, sep);
  }

  lemma JoinFramedRows(h: Text, r1: Text, rows: seq<Text>, r2: Text, f: Text, sep: Text)
    requires |rows| > 0
    ensures Join([h, r1] + rows + [r2, f], sep) == h + sep + r1 + sep + (Join(rows, sep) + sep) + r2 + sep + f
  {
    var front, j := h + sep + r1 + sep, Join(rows, sep);
    JoinPair(h, r1, sep);
    JoinPair(r2, f, sep);
    JoinAppend([h, r1], rows, sep);
    JoinAppend([h, r1] + rows, [r2, f], sep);
    assert Join([h, r1] + rows + [r2, f], sep) == (front + j) + sep + ((r2 + sep) + f);
    Associate(front + j + sep, r2 + sep, f);
    Associate(front + j + sep, r2, sep);
    Associate(front, j, sep);
  }

  lemma Associate<T>(a: seq<T>, b: seq<T>, c: seq<T>)
    ensures a + (b + c) == a + b + c
  {
  }
}
