/** The progress-bar arithmetic: clamping a percentage, splitting a bar of
    a given width into filled and empty cells, choosing a colour from
    thresholds, and assembling a bar chart line by line. Percentages are
    exact reals; the terminal colour escapes are dropped and the colour of
    the filled cells is returned beside the text. */
module ProgressBar {
  import opened Wrappers
  import JsString

  /** The colours a bar's filled cells can take. */
  datatype Color = Green | Cyan | Yellow | Red | Blue | Magenta

  /** The option name of each colour. */
  function ColorName(c: Color): string {
    match c
    case Green => "green"
    case Cyan => "cyan"
    case Yellow => "yellow"
    case Red => "red"
    case Blue => "blue"
    case Magenta => "magenta"
  }

  /** The `color` option of `createProgressBar`: a known name selects its
      colour, any other name gives green. */
  function ColorOf(name: string): (c: Color)
    ensures name == ColorName(c) || (c == Green && forall d :: ColorName(d) != name)
  {
    if name == "red" then Red
    else if name == "yellow" then Yellow
    else if name == "blue" then Blue
    else if name == "cyan" then Cyan
    else if name == "magenta" then Magenta
    else Green
  }

  /** Every colour is selected by its own name. */
  lemma ColorOfName(c: Color)
    ensures ColorOf(ColorName(c)) == c
  {
  }

  // ---- arithmetic -------------------------------------------------------------

  /** `Math.max(0, Math.min(100, p))`. */
  function Clamp(p: real): (r: real)
    ensures 0.0 <= r <= 100.0
    ensures 0.0 <= p <= 100.0 ==> r == p
    ensures p < 0.0 ==> r == 0.0
    ensures p > 100.0 ==> r == 100.0
  {
    if p < 0.0 then 0.0 else if p > 100.0 then 100.0 else p
  }

  /** `Math.round(x)`: the nearest integer, halves rounded up. */
  function Round(x: real): (r: int)
    ensures r as real - 0.5 <= x < r as real + 0.5
  {
    (x + 0.5).Floor
  }

  lemma RoundMonotone(x: real, y: real)
    requires x <= y
    ensures Round(x) <= Round(y)
  {
  }

  /** Rounding leaves an integer where it is. */
  lemma RoundInt(n: int)
    ensures Round(n as real) == n
  {
  }

  /** The number of filled cells: the clamped share of the width, rounded. */
  function FilledWidth(clamped: real, width: int): int {
    Round(clamped / 100.0 * width as real)
  }

  /** The share of a width that a percentage in range denotes lies between
      0 and the width. */
  lemma ShareBounds(c: real, width: int)
    requires 0.0 <= c <= 100.0
    ensures width >= 0 ==> 0.0 <= c / 100.0 * width as real <= width as real
    ensures width < 0 ==> width as real <= c / 100.0 * width as real <= 0.0
  {
    var f := c / 100.0;
    assert 0.0 <= f <= 1.0;
    var w := width as real;
    if width >= 0 {
      assert f * w <= 1.0 * w by {
        assert (1.0 - f) * w >= 0.0;
      }
    } else {
      assert f * w >= 1.0 * w by {
        assert (1.0 - f) * w <= 0.0;
      }
    }
  }

  /** The filled cells of a clamped percentage lie between none and all of
      a width that is not negative, and between the width and none of a
      negative one. */
  lemma FilledWidthBounds(c: real, width: int)
    requires 0.0 <= c <= 100.0
    ensures width >= 0 ==> 0 <= FilledWidth(c, width) <= width
    ensures width < 0 ==> width <= FilledWidth(c, width) <= 0
  {
    ShareBounds(c, width);
    var x := c / 100.0 * width as real;
    if width >= 0 {
      RoundMonotone(0.0, x);
      RoundMonotone(x, width as real);
      RoundInt(0);
      RoundInt(width);
    } else {
      RoundMonotone(width as real, x);
      RoundMonotone(x, 0.0);
      RoundInt(0);
      RoundInt(width);
    }
  }

  lemma ScaleMonotone(a: real, b: real, w: real)
    requires a <= b && w >= 0.0
    ensures a * w <= b * w
  {
  }

  /** A larger percentage never fills fewer cells. */
  lemma FilledWidthMonotone(c1: real, c2: real, width: nat)
    requires c1 <= c2
    ensures FilledWidth(c1, width) <= FilledWidth(c2, width)
  {
    var w := width as real;
    ScaleMonotone(c1 / 100.0, c2 / 100.0, w);
    RoundMonotone(c1 / 100.0 * w, c2 / 100.0 * w);
  }

  // ---- createProgressBar ------------------------------------------------------

  /** The options of `createProgressBar`. */
  datatype BarOptions = BarOptions(color: string, fill: string, emptyFill: string, showPercentage: bool)

  const DefaultOptions := BarOptions("green", "█", "░", true)
  const DefaultWidth := 30

  /** The `RangeError` that `String.prototype.repeat` throws on a negative
      count. */
  datatype RangeError = InvalidCount

  /** A rendered bar: its text without colour escapes, and the colour of its
      filled cells. */
  datatype Bar = Bar(text: string, fillColor: Color)

  /** The text after the bar when the percentage is shown. */
  function PercentText(clamped: real): string {
    " " + JsString.IntToString(Round(clamped)) + "%"
  }

  /** `createProgressBar`: the bar in brackets, the filled cells first,
      followed by the rounded percentage when it is shown. A negative width
      makes one of the two `repeat` calls throw. */
  function CreateProgressBar(percentage: real, width: int, o: BarOptions): (r: Result<Bar, RangeError>)
    ensures r.Err? <==> width < 0
    ensures r.Ok? ==>
      var n := FilledWidth(Clamp(percentage), width);
      && 0 <= n <= width
      && r.value.fillColor == ColorOf(o.color)
      && r.value.text == "[" + JsString.Repeat(o.fill, n) + JsString.Repeat(o.emptyFill, width - n) + "]"
                         + (if o.showPercentage then PercentText(Clamp(percentage)) else "")
  {
    var clamped := Clamp(percentage);
    var filled := FilledWidth(clamped, width);
    FilledWidthBounds(clamped, width);
    if filled < 0 || width - filled < 0 then Err(InvalidCount)
    else
      var bar := JsString.Repeat(o.fill, filled) + JsString.Repeat(o.emptyFill, width - filled);
      Ok(Bar("[" + bar + "]" + (if o.showPercentage then PercentText(clamped) else ""), ColorOf(o.color)))
  }

  /** `n` cells of `a` then `width - n` cells of `b`, in brackets. */
  lemma CellsLayout(a: char, b: char, n: nat, width: nat, rest: string)
    requires n <= width
    ensures var text := "[" + JsString.Repeat([a], n) + JsString.Repeat([b], width - n) + "]" + rest;
      && |text| == width + 2 + |rest|
      && text[0] == '[' && text[width + 1] == ']'
      && (forall i :: 1 <= i <= n ==> text[i] == a)
      && (forall i :: n < i <= width ==> text[i] == b)
  {
    var f, e := JsString.Repeat([a], n), JsString.Repeat([b], width - n);
    JsString.RepeatChar(a, n);
    JsString.RepeatChar(b, width - n);
    var text := "[" + f + e + "]" + rest;
    assert forall i :: 1 <= i <= n ==> text[i] == f[i - 1];
    assert forall i :: n < i <= width ==> text[i] == e[i - 1 - n];
  }

  /** With one-character cells, the bar is exactly `width` cells between its
      brackets, the filled cells first. */
  lemma BarCells(percentage: real, width: nat, o: BarOptions)
    requires |o.fill| == 1 && |o.emptyFill| == 1
    ensures var r := CreateProgressBar(percentage, width, o);
      var n := FilledWidth(Clamp(percentage), width);
      && r.Ok?
      && |r.value.text| >= width + 2
      && r.value.text[0] == '[' && r.value.text[width + 1] == ']'
      && (forall i :: 1 <= i <= n ==> r.value.text[i] == o.fill[0])
      && (forall i :: n < i <= width ==> r.value.text[i] == o.emptyFill[0])
  {
    var c := Clamp(percentage);
    var n := FilledWidth(c, width);
    FilledWidthBounds(c, width);
    assert o.fill == [o.fill[0]] && o.emptyFill == [o.emptyFill[0]];
    var rest := if o.showPercentage then PercentText(c) else "";
    CellsLayout(o.fill[0], o.emptyFill[0], n, width, rest);
    assert CreateProgressBar(percentage, width, o).value.text ==
      "[" + JsString.Repeat([o.fill[0]], n) + JsString.Repeat([o.emptyFill[0]], width - n) + "]" + rest;
  }

  /** The text after the bar is the rounded clamped percentage, between 0
      and 100, when it is shown, and nothing otherwise; `parseInt` reads
      the number back from it. */
  lemma BarPercentText(percentage: real, width: nat, o: BarOptions)
    ensures var r := CreateProgressBar(percentage, width, o);
      var tail := r.value.text[2 + |JsString.Repeat(o.fill, FilledWidth(Clamp(percentage), width))|
                               + |JsString.Repeat(o.emptyFill, width - FilledWidth(Clamp(percentage), width))|..];
      && (o.showPercentage ==>
            && JsString.ParseInt(tail) == Some(Round(Clamp(percentage)))
            && 0 <= Round(Clamp(percentage)) <= 100)
      && (!o.showPercentage ==> tail == "")
  {
    var c := Clamp(percentage);
    var n := FilledWidth(c, width);
    FilledWidthBounds(c, width);
    var head := "[" + JsString.Repeat(o.fill, n) + JsString.Repeat(o.emptyFill, width - n) + "]";
    var text := CreateProgressBar(percentage, width, o).value.text;
    if o.showPercentage {
      assert text == head + PercentText(c);
      assert text[|head|..] == PercentText(c);
      RoundMonotone(0.0, c);
      RoundMonotone(c, 100.0);
      RoundInt(0);
      RoundInt(100);
      PercentReadsBack(Round(c));
    } else {
      assert text == head;
    }
  }

  /** `parseInt` reads the shown percentage back, skipping the blank before
      it and stopping at the percent sign. */
  lemma PercentReadsBack(n: nat)
    ensures JsString.ParseInt(" " + JsString.IntToString(n) + "%") == Some(n)
  {
    var digits := JsString.NatToString(n);
    var s := " " + digits + "%";
    var u := digits + "%";
    assert s[1..] == u;
    assert !JsString.IsSpace(u[0]);
    assert JsString.TrimStart(u) == u;
    assert JsString.TrimStart(s) == u;
    assert u[0] != '-' && u[0] != '+';
    assert !(|u| >= 2 && u[0] == '0' && (u[1] == 'x' || u[1] == 'X'));
    JsString.DigitRunStops(digits, "%");
    assert u[..|digits|] == digits;
    JsString.DigitsValueOfNatToString(n);
    assert JsString.ParseUnsigned(u) == Some(n);
  }

  // ---- getProgressColor -------------------------------------------------------

  /** The `thresholds` of `getProgressColor`. */
  datatype Thresholds = Thresholds(excellent: real, good: real, warning: real)

  const DefaultThresholds := Thresholds(80.0, 60.0, 40.0)

  /** `getProgressColor`: the first threshold, from the top, that the
      percentage reaches picks the colour. */
  function GetProgressColor(percentage: real, t: Thresholds): (c: Color)
    ensures c == Green <==> percentage >= t.excellent
    ensures c == Cyan <==> t.good <= percentage < t.excellent
    ensures c == Yellow <==> t.warning <= percentage && percentage < t.good && percentage < t.excellent
    ensures c == Red <==> percentage < t.warning && percentage < t.good && percentage < t.excellent
  {
    if percentage >= t.excellent then Green
    else if percentage >= t.good then Cyan
    else if percentage >= t.warning then Yellow
    else Red
  }

  /** The colours from worst to best. */
  function Grade(c: Color): nat {
    match c
    case Red => 0
    case Yellow => 1
    case Cyan => 2
    case _ => 3
  }

  /** With thresholds in order, a larger percentage never gets a worse
      colour. */
  lemma ProgressColorMonotone(p: real, q: real, t: Thresholds)
    requires t.warning <= t.good <= t.excellent && p <= q
    ensures Grade(GetProgressColor(p, t)) <= Grade(GetProgressColor(q, t))
  {
  }

  // ---- createMiniProgressBar --------------------------------------------------

  const MiniWidth := 10

  /** `createMiniProgressBar`: filled and empty cells only, coloured by the
      clamped percentage under the default thresholds. */
  function CreateMiniProgressBar(percentage: real, width: int): (r: Result<Bar, RangeError>)
    ensures r.Err? <==> width < 0
    ensures r.Ok? ==>
      var n := FilledWidth(Clamp(percentage), width);
      && 0 <= n <= width
      && r.value.fillColor == GetProgressColor(Clamp(percentage), DefaultThresholds)
      && r.value.text == JsString.Repeat("▰", n) + JsString.Repeat("▱", width - n)
  {
    var clamped := Clamp(percentage);
    var filled := FilledWidth(clamped, width);
    FilledWidthBounds(clamped, width);
    var color := GetProgressColor(clamped, DefaultThresholds);
    if filled < 0 || width - filled < 0 then Err(InvalidCount)
    else Ok(Bar(JsString.Repeat("▰", filled) + JsString.Repeat("▱", width - filled), color))
  }

  /** The mini bar is never blue or magenta; past either end of the range
      it takes the colour of that end. */
  lemma MiniBarColors(percentage: real, width: nat)
    ensures var c := CreateMiniProgressBar(percentage, width).value.fillColor;
      && c != Blue && c != Magenta
      && (percentage >= 80.0 ==> c == Green)
      && (percentage < 40.0 ==> c == Red)
      && |CreateMiniProgressBar(percentage, width).value.text| == width
  {
  }

  // ---- createBarChart ---------------------------------------------------------

  /** An item of `createBarChart`; `color` is `None` when the item has no
      `color` property. */
  datatype ChartItem = ChartItem(caption: string, value: int, total: int, color: Option<string>)

  const ChartWidth := 20

  /** The item's share of its total, or 0 when the total is not positive. */
  function ItemPercentage(item: ChartItem): (p: real)
    ensures item.total <= 0 ==> p == 0.0
    ensures 0 <= item.value <= item.total ==> 0.0 <= p <= 100.0
  {
    if item.total > 0 then
      var p := item.value as real / item.total as real * 100.0;
      assert 0 <= item.value <= item.total ==> p <= 100.0 by {
        if 0 <= item.value <= item.total {
          assert item.value as real / item.total as real <= 1.0;
        }
      }
      p
    else 0.0
  }

  /** The options of an item's bar: its colour, blue by default, and no
      percentage text. */
  function ItemOptions(item: ChartItem): BarOptions {
    BarOptions(if item.color.Some? then item.color.value else "blue", "█", "░", false)
  }

  /** One line of the chart: indent, label padded to 15, the bar and the
      value. */
  function ChartLine(item: ChartItem, width: nat): string {
    var bar := CreateProgressBar(ItemPercentage(item), width, ItemOptions(item)).value;
    "   " + JsString.PadEnd(item.caption, 15) + " " + bar.text + " " + JsString.IntToString(item.value)
  }

  function ChartLines(items: seq<ChartItem>, width: nat): (lines: seq<string>)
    ensures |lines| == |items|
  {
    seq(|items|, i requires 0 <= i < |items| => ChartLine(items[i], width))
  }

  lemma ChartLinesSnoc(items: seq<ChartItem>, item: ChartItem, width: nat)
    ensures ChartLines(items + [item], width) == ChartLines(items, width) + [ChartLine(item, width)]
  {
    var l, r := ChartLines(items + [item], width), ChartLines(items, width) + [ChartLine(item, width)];
    assert forall i :: 0 <= i < |l| ==> l[i] == r[i];
  }

  /** One more line of the loop of `createBarChart`. */
  lemma ChartStep(items: seq<ChartItem>, i: nat, width: nat, lines: seq<string>, line: string)
    requires i < |items| && lines == ChartLines(items[..i], width)
    requires line == "   " + JsString.PadEnd(items[i].caption, 15) + " "
                     + CreateProgressBar(ItemPercentage(items[i]), width, ItemOptions(items[i])).value.text
                     + " " + JsString.IntToString(items[i].value)
    ensures lines + [line] == ChartLines(items[..i + 1], width)
  {
    assert items[..i + 1] == items[..i] + [items[i]];
    ChartLinesSnoc(items[..i], items[i], width);
  }

  /** `createBarChart`: one line per item, in order, joined by newlines; a
      negative width throws at the first item. */
  method CreateBarChart(items: seq<ChartItem>, width: int) returns (r: Result<string, RangeError>)
    ensures r.Err? <==> width < 0 && |items| > 0
    ensures r.Ok? ==> r.value == JsString.Join(ChartLines(items, if width < 0 then 0 else width), "\n")
  {
    var lines: seq<string> := [];
    for i := 0 to |items|
      invariant width < 0 ==> i == 0 && lines == []
      invariant width >= 0 ==> lines == ChartLines(items[..i], width)
    {
      var item := items[i];
      var bar := CreateProgressBar(ItemPercentage(item), width, ItemOptions(item));
      if bar.Err? {
        return Err(InvalidCount);
      }
      var line := "   " + JsString.PadEnd(item.caption, 15) + " " + bar.value.text + " " + JsString.IntToString(item.value);
      ChartStep(items, i, width, lines, line);
      lines := lines + [line];
    }
    if width >= 0 {
      assert items[..|items|] == items;
    } else {
      assert lines == [] == ChartLines(items, 0);
    }
    r := Ok(JsString.Join(lines, "\n"));
  }

  /** An item with no positive total draws a bar with every cell empty. */
  lemma ZeroTotalEmptyBar(item: ChartItem, width: nat)
    requires item.total <= 0
    ensures CreateProgressBar(ItemPercentage(item), width, ItemOptions(item)).value.text
            == "[" + JsString.Repeat("░", width) + "]"
  {
    var o, p := ItemOptions(item), ItemPercentage(item);
    assert Clamp(p) == 0.0;
    assert 0.0 / 100.0 * width as real == 0.0;
    RoundInt(0);
    assert FilledWidth(Clamp(p), width) == 0;
    assert JsString.Repeat(o.fill, 0) == "";
  }

  /** Each chart line starts with the indent and the caption (the `label` property), and the bar
      starts at the same column whenever the captions fit in 15 characters. */
  lemma ChartLineShape(item: ChartItem, width: nat)
    ensures var line := ChartLine(item, width);
      && line[..3] == "   "
      && line[3..3 + |item.caption|] == item.caption
      && (|item.caption| <= 15 ==> line[18] == ' ' && line[19] == '[')
  {
    var padded := JsString.PadEnd(item.caption, 15);
    var text := CreateProgressBar(ItemPercentage(item), width, ItemOptions(item)).value.text;
    assert text[0] == '[';
    var tail := " " + text + " " + JsString.IntToString(item.value);
    IndentedLine(item.caption, padded, tail, ChartLine(item, width));
  }

  /** Where the parts of an indented chart line sit. */
  lemma IndentedLine(caption: string, padded: string, tail: string, line: string)
    requires line == "   " + padded + tail
    requires |caption| <= |padded| && padded[..|caption|] == caption
    requires |caption| <= 15 ==> |padded| == 15
    requires |tail| >= 2 && tail[0] == ' ' && tail[1] == '['
    ensures line[..3] == "   "
    ensures line[3..3 + |caption|] == caption
    ensures |caption| <= 15 ==> line[18] == ' ' && line[19] == '['
  {
    assert line[3..3 + |caption|] == padded[..|caption|];
  }
}
