/** The parts of date-fns the date helper relies on: `parseISO` on the
    full-date form, `format` and `parse` for the year, month and day fields
    (English month names), and the zero padding they share. Dates are the
    calendar days of module Calendar; the time of day and the time zone do
    not enter. */
module DateFns {
  import opened Wrappers
  import opened Calendar
  import JsString

  // ---- the full-date form YYYY-MM-DD ------------------------------------------

  predicate AllDigits(s: string) {
    forall i :: 0 <= i < |s| ==> JsString.IsDecimalDigit(s[i])
  }

  /** The number a string of decimal digits denotes. */
  function Num(s: string): nat
    requires AllDigits(s)
  {
    JsString.DigitsValue(s, 10)
  }

  function DigitOf(c: char): int {
    c as int - '0' as int
  }

  lemma NumSnoc(p: string, c: char)
    requires AllDigits(p) && JsString.IsDecimalDigit(c)
    ensures AllDigits(p + [c])
    ensures Num(p + [c]) == 10 * Num(p) + DigitOf(c)
  {
    assert (p + [c])[..|p|] == p;
  }

  lemma NumTwo(s: string)
    requires |s| == 2 && AllDigits(s)
    ensures Num(s) == 10 * DigitOf(s[0]) + DigitOf(s[1])
  {
    NumSnoc([], s[0]);
    NumSnoc([s[0]], s[1]);
    assert [s[0]] + [s[1]] == s;
  }

  lemma NumFour(s: string)
    requires |s| == 4 && AllDigits(s)
    ensures Num(s) == 1000 * DigitOf(s[0]) + 100 * DigitOf(s[1]) + 10 * DigitOf(s[2]) + DigitOf(s[3])
  {
    NumSnoc([], s[0]);
    NumSnoc([s[0]], s[1]);
    NumSnoc([s[0], s[1]], s[2]);
    assert [] + [s[0]] == [s[0]];
    assert [s[0]] + [s[1]] == [s[0], s[1]];
    assert [s[0], s[1]] + [s[2]] == [s[0], s[1], s[2]];
    NumSnoc([s[0], s[1], s[2]], s[3]);
    assert [s[0], s[1], s[2]] + [s[3]] == s;
  }

  /** The string matches `^\d{4}-\d{2}-\d{2}$`. */
  predicate IsIsoShape(s: string) {
    |s| == 10 && s[4] == '-' && s[7] == '-' &&
    AllDigits(s[..4]) && AllDigits(s[5..7]) && AllDigits(s[8..])
  }

  /** The year, month and day fields of a string of that shape. */
  function ShapeDate(s: string): Date
    requires IsIsoShape(s)
  {
    Date(Num(s[..4]), Num(s[5..7]), Num(s[8..]))
  }

  /** date-fns `parseISO` on the full-date form: the date it names, if that
      date exists. */
  function ParseIsoDate(s: string): (r: Option<Date>)
    ensures r.Some? <==> IsIsoShape(s) && IsRealDate(ShapeDate(s))
    ensures r.Some? ==> r.value == ShapeDate(s) && r.value.year <= 9999
  {
    if IsIsoShape(s) && IsRealDate(ShapeDate(s)) then
      DigitsBound(s[..4]);
      Some(ShapeDate(s))
    else None
  }

  function Pow10(n: nat): nat {
    if n == 0 then 1 else 10 * Pow10(n - 1)
  }

  lemma {:induction false} DigitsBound(s: string)
    requires AllDigits(s)
    ensures Num(s) < Pow10(|s|)
  {
    if s != [] {
      var p := s[..|s| - 1];
      assert AllDigits(p);
      DigitsBound(p);
    }
  }

  // ---- month names and zero padding ------------------------------------------

  const ShortMonths: seq<string> :=
    ["Jan", "Feb", "Mar", "Apr", "May", "Jun", "Jul", "Aug", "Sep", "Oct", "Nov", "Dec"]
  const LongMonths: seq<string> :=
    ["January", "February", "March", "April", "May", "June", "July", "August",
     "September", "October", "November", "December"]

  /** date-fns `addLeadingZeros`: the decimal numeral of `v` with zeros in
      front up to `width` digits. */
  function ZeroPad(v: nat, width: nat): string
    decreases v
  {
    var rest := if width >= 1 then width - 1 else 0;
    if v < 10 then JsString.Repeat("0", rest) + [JsString.DigitChar(v)]
    else ZeroPad(v / 10, rest) + [JsString.DigitChar(v % 10)]
  }

  /** A string of zeros denotes 0. */
  lemma {:induction false} ZerosValue(s: string)
    requires forall i :: 0 <= i < |s| ==> s[i] == '0'
    ensures AllDigits(s) && Num(s) == 0
  {
    if s != [] {
      ZerosValue(s[..|s| - 1]);
    }
  }

  /** Only a string of zeros denotes 0. */
  lemma {:induction false} ValueZeroIsZeros(s: string)
    requires AllDigits(s) && Num(s) == 0
    ensures s == JsString.Repeat("0", |s|)
  {
    if s != [] {
      var p := s[..|s| - 1];
      assert AllDigits(p);
      ValueZeroIsZeros(p);
      JsString.RepeatChar('0', |p|);
      JsString.RepeatChar('0', |s|);
      assert forall i :: 0 <= i < |s| ==> s[i] == JsString.Repeat("0", |s|)[i];
    }
  }

  /** Padding a value below `10^width` gives exactly `width` digits that
      denote it. */
  lemma {:induction false} ZeroPadShape(v: nat, width: nat)
    requires 1 <= width && v < Pow10(width)
    ensures |ZeroPad(v, width)| == width
    ensures AllDigits(ZeroPad(v, width)) && Num(ZeroPad(v, width)) == v
  {
    var c := JsString.DigitChar(v % 10);
    if v < 10 {
      var zeros := JsString.Repeat("0", width - 1);
      JsString.RepeatChar('0', width - 1);
      ZerosValue(zeros);
      NumSnoc(zeros, c);
    } else {
      assert width >= 2;
      ZeroPadShape(v / 10, width - 1);
      NumSnoc(ZeroPad(v / 10, width - 1), c);
    }
  }

  /** Reading a digit string and padding its value back to the same width
      gives the string back, leading zeros included. */
  lemma {:induction false} ZeroPadOfDigits(s: string)
    requires 1 <= |s| && AllDigits(s)
    ensures ZeroPad(Num(s), |s|) == s
  {
    var p := s[..|s| - 1];
    var c := s[|s| - 1];
    assert AllDigits(p);
    NumSnoc(p, c);
    assert p + [c] == s;
    var v := Num(s);
    assert JsString.DigitChar(DigitOf(c)) == c;
    if v < 10 {
      assert Num(p) == 0;
      ValueZeroIsZeros(p);
    } else {
      assert |p| >= 1;
      assert v / 10 == Num(p) && v % 10 == DigitOf(c);
      ZeroPadOfDigits(p);
    }
  }

  // ---- pattern tokens ---------------------------------------------------------

  /** A token of a date-fns pattern: a run of one letter, one literal
      character, or something the model does not cover (a quoted section, an
      ordinal such as `do`). */
  datatype Token = Field(letter: char, width: nat) | Literal(c: char) | Unsupported

  predicate IsAsciiLetter(c: char) {
    ('a' <= c <= 'z') || ('A' <= c <= 'Z')
  }

  /** The number of copies of `c` in `s` from index `i` on, up to the first
      other character. */
  function RunFrom(s: string, c: char, i: nat): (n: nat)
    requires i <= |s|
    ensures i + n <= |s|
    ensures forall k :: i <= k < i + n ==> s[k] == c
    ensures i + n < |s| ==> s[i + n] != c
    decreases |s| - i
  {
    if i < |s| && s[i] == c then 1 + RunFrom(s, c, i + 1) else 0
  }

  /** The tokens of `p` from index `i` on. */
  function TokensFrom(p: string, i: nat): (r: seq<Token>)
    requires i <= |p|
    ensures forall k :: 0 <= k < |r| && r[k].Field? ==> r[k].width >= 1 && IsAsciiLetter(r[k].letter)
    decreases |p| - i
  {
    if i == |p| then []
    else
      var c := p[i];
      if c == '\'' then [Unsupported]
      else if !IsAsciiLetter(c) then [Literal(c)] + TokensFrom(p, i + 1)
      else if i + 1 < |p| && p[i + 1] == 'o' && (c == 'y' || c == 'M' || c == 'd') then [Unsupported]
      else
        var n := RunFrom(p, c, i);
        [Field(c, n)] + TokensFrom(p, i + n)
  }

  /** The tokens of a pattern, as date-fns splits it. */
  function Tokens(p: string): seq<Token> {
    TokensFrom(p, 0)
  }

  // ---- format -----------------------------------------------------------------

  /** The year as `format` shows it: the year of the era, so that year 0 is
      1 BC. */
  function EraYear(y: int): (r: nat)
    ensures y >= 1 ==> r == y
  {
    if y > 0 then y else 1 - y
  }

  /** One field token: a run of `n` copies of `y`, `M` or `d`. Any other
      letter is not covered. */
  function RenderField(d: Date, c: char, n: nat): Option<string>
    requires IsRealDate(d)
  {
    if c == 'y' then Some(if n == 2 then ZeroPad(EraYear(d.year) % 100, 2) else ZeroPad(EraYear(d.year), n))
    else if c == 'M' then
      Some(if n == 1 then JsString.NatToString(d.month)
           else if n == 2 then ZeroPad(d.month, 2)
           else if n == 3 then ShortMonths[d.month - 1]
           else if n == 5 then [LongMonths[d.month - 1][0]]
           else LongMonths[d.month - 1])
    else if c == 'd' then Some(ZeroPad(d.day, n))
    else None
  }

  /** The text of one token. */
  function TokenText(d: Date, token: Token): Option<string>
    requires IsRealDate(d)
  {
    match token
    case Literal(c) => Some([c])
    case Field(c, n) => RenderField(d, c, n)
    case Unsupported => None
  }

  function RenderTokens(d: Date, tokens: seq<Token>): Option<string>
    requires IsRealDate(d)
  {
    if tokens == [] then Some("")
    else
      match TokenText(d, tokens[0])
      case None => None
      case Some(h) =>
        match RenderTokens(d, tokens[1..])
        case None => None
        case Some(rest) => Some(h + rest)
  }

  /** One token in front of a rendered list adds its text in front. */
  lemma RenderCons(d: Date, token: Token, rest: seq<Token>, h: string, t: string)
    requires IsRealDate(d)
    requires TokenText(d, token) == Some(h) && RenderTokens(d, rest) == Some(t)
    ensures RenderTokens(d, [token] + rest) == Some(h + t)
  {
    assert ([token] + rest)[1..] == rest;
  }

  /** date-fns `format(date, pattern)`; `None` stands for the `RangeError` it
      throws on a pattern the model does not cover. */
  function FormatPattern(d: Date, pattern: string): Option<string>
    requires IsRealDate(d)
  {
    RenderTokens(d, Tokens(pattern))
  }

  const IsoPattern := "yyyy-MM-dd"
  const DefaultPattern := "MMM dd, yyyy"
  const LongPattern := "MMMM dd, yyyy"

  /** A run of `n` copies of the letter `c` is one field token. */
  lemma FieldStep(p: string, i: nat, c: char, n: nat)
    requires 1 <= n && i + n <= |p| && IsAsciiLetter(c)
    requires forall k :: i <= k < i + n ==> p[k] == c
    requires i + n < |p| ==> p[i + n] != c
    requires !(i + 1 < |p| && p[i + 1] == 'o' && (c == 'y' || c == 'M' || c == 'd'))
    ensures TokensFrom(p, i) == [Field(c, n)] + TokensFrom(p, i + n)
  {
    assert p[i] == c;
    assert RunFrom(p, c, i) == n;
  }

  /** A character other than a letter or a quote is one literal token. */
  lemma LiteralStep(p: string, i: nat)
    requires i < |p| && !IsAsciiLetter(p[i]) && p[i] != '\''
    ensures TokensFrom(p, i) == [Literal(p[i])] + TokensFrom(p, i + 1)
  {
  }

  /** A pattern `yyyy?MM?dd` with a separator `sep` that is not a letter. */
  lemma YearFirstTokens(p: string, sep: char)
    requires (sep == '-' || sep == '/') && |p| == 10 && p[4] == p[7] == sep
    requires forall k :: 0 <= k < 4 ==> p[k] == 'y'
    requires forall k :: 5 <= k < 7 ==> p[k] == 'M'
    requires forall k :: 8 <= k < 10 ==> p[k] == 'd'
    ensures Tokens(p) == [Field('y', 4), Literal(sep), Field('M', 2), Literal(sep), Field('d', 2)]
  {
    FieldStep(p, 8, 'd', 2);
    LiteralStep(p, 7);
    FieldStep(p, 5, 'M', 2);
    LiteralStep(p, 4);
    FieldStep(p, 0, 'y', 4);
  }

  /** A pattern `aa/bb/yyyy` whose first two fields are written with the
      letters `a` and `b`, as in `MM/dd/yyyy` and `dd/MM/yyyy`. */
  lemma SlashFieldsTokens(p: string, a: char, b: char)
    requires IsAsciiLetter(a) && IsAsciiLetter(b) && a != 'o' && b != 'o'
    requires |p| == 10 && p[2] == p[5] == '/'
    requires forall k :: 0 <= k < 2 ==> p[k] == a
    requires forall k :: 3 <= k < 5 ==> p[k] == b
    requires forall k :: 6 <= k < 10 ==> p[k] == 'y'
    ensures Tokens(p) == [Field(a, 2), Literal('/'), Field(b, 2), Literal('/'), Field('y', 4)]
  {
    FieldStep(p, 6, 'y', 4);
    LiteralStep(p, 5);
    FieldStep(p, 3, b, 2);
    LiteralStep(p, 2);
    FieldStep(p, 0, a, 2);
  }

  /** The pattern `dd MMM yyyy`. */
  lemma DayMonthNameTokens(p: string)
    requires |p| == 11 && p[2] == p[6] == ' '
    requires forall k :: 0 <= k < 2 ==> p[k] == 'd'
    requires forall k :: 3 <= k < 6 ==> p[k] == 'M'
    requires forall k :: 7 <= k < 11 ==> p[k] == 'y'
    ensures Tokens(p) == [Field('d', 2), Literal(' '), Field('M', 3), Literal(' '), Field('y', 4)]
  {
    FieldStep(p, 7, 'y', 4);
    LiteralStep(p, 6);
    FieldStep(p, 3, 'M', 3);
    LiteralStep(p, 2);
    FieldStep(p, 0, 'd', 2);
  }

  /** A pattern of `n` copies of `M` followed by ` dd, yyyy`. */
  lemma MonthNameTokens(p: string, n: nat)
    requires 1 <= n && |p| == n + 9
    requires forall k :: 0 <= k < n ==> p[k] == 'M'
    requires p[n] == ' ' && p[n + 3] == ',' && p[n + 4] == ' '
    requires forall k :: n + 1 <= k < n + 3 ==> p[k] == 'd'
    requires forall k :: n + 5 <= k < n + 9 ==> p[k] == 'y'
    ensures Tokens(p) == [Field('M', n), Literal(' '), Field('d', 2), Literal(','), Literal(' '), Field('y', 4)]
  {
    FieldStep(p, n + 5, 'y', 4);
    LiteralStep(p, n + 4);
    LiteralStep(p, n + 3);
    FieldStep(p, n + 1, 'd', 2);
    LiteralStep(p, n);
    FieldStep(p, 0, 'M', n);
  }

  lemma IsoTokens()
    ensures Tokens(IsoPattern) == [Field('y', 4), Literal('-'), Field('M', 2), Literal('-'), Field('d', 2)]
  {
    YearFirstTokens(IsoPattern, '-');
  }

  lemma DefaultTokens()
    ensures Tokens(DefaultPattern) ==
      [Field('M', 3), Literal(' '), Field('d', 2), Literal(','), Literal(' '), Field('y', 4)]
  {
    MonthNameTokens(DefaultPattern, 3);
  }

  lemma LongTokens()
    ensures Tokens(LongPattern) ==
      [Field('M', 4), Literal(' '), Field('d', 2), Literal(','), Literal(' '), Field('y', 4)]
  {
    MonthNameTokens(LongPattern, 4);
  }

  /** `yyyy-MM-dd` renders the zero-padded year of the era, month and day. */
  lemma IsoRendering(d: Date)
    requires IsRealDate(d)
    ensures FormatPattern(d, IsoPattern) ==
      Some(ZeroPad(EraYear(d.year), 4) + "-" + ZeroPad(d.month, 2) + "-" + ZeroPad(d.day, 2))
  {
    IsoTokens();
    IsoFieldsRendering(d);
  }

  /** The tokens of `yyyy-MM-dd`, rendered. */
  lemma IsoFieldsRendering(d: Date)
    requires IsRealDate(d)
    ensures RenderTokens(d, [Field('y', 4), Literal('-'), Field('M', 2), Literal('-'), Field('d', 2)]) ==
      Some(ZeroPad(EraYear(d.year), 4) + "-" + ZeroPad(d.month, 2) + "-" + ZeroPad(d.day, 2))
  {
    var y, m, dd := ZeroPad(EraYear(d.year), 4), ZeroPad(d.month, 2), ZeroPad(d.day, 2);
    var t4: seq<Token> := [];
    RenderCons(d, Field('d', 2), t4, dd, "");
    var t3 := [Field('d', 2)] + t4;
    RenderCons(d, Literal('-'), t3, "-", dd + "");
    var t2 := [Literal('-')] + t3;
    RenderCons(d, Field('M', 2), t2, m, "-" + (dd + ""));
    var t1 := [Field('M', 2)] + t2;
    RenderCons(d, Literal('-'), t1, "-", m + ("-" + (dd + "")));
    var t0 := [Literal('-')] + t1;
    RenderCons(d, Field('y', 4), t0, y, "-" + (m + ("-" + (dd + ""))));
    IsoText(y, m, dd);
    ListOfFive(Field('y', 4), Literal('-'), Field('M', 2), Literal('-'), Field('d', 2));
  }

  lemma IsoText(y: string, m: string, dd: string)
    ensures y + ("-" + (m + ("-" + (dd + "")))) == y + "-" + m + "-" + dd
  {
  }

  /** The common tail ` dd, yyyy` of the two month-name patterns. */
  lemma DayYearTail(d: Date)
    requires IsRealDate(d)
    ensures RenderTokens(d, [Literal(' '), Field('d', 2), Literal(','), Literal(' '), Field('y', 4)]) ==
      Some(" " + ZeroPad(d.day, 2) + ", " + ZeroPad(EraYear(d.year), 4))
  {
    var y, dd := ZeroPad(EraYear(d.year), 4), ZeroPad(d.day, 2);
    var t4: seq<Token> := [];
    RenderCons(d, Field('y', 4), t4, y, "");
    var t3 := [Field('y', 4)] + t4;
    RenderCons(d, Literal(' '), t3, " ", y + "");
    var t2 := [Literal(' ')] + t3;
    RenderCons(d, Literal(','), t2, ",", " " + (y + ""));
    var t1 := [Literal(',')] + t2;
    RenderCons(d, Field('d', 2), t1, dd, "," + (" " + (y + "")));
    var t0 := [Field('d', 2)] + t1;
    RenderCons(d, Literal(' '), t0, " ", dd + ("," + (" " + (y + ""))));
    TailText(dd, y);
    ListOfFive(Literal(' '), Field('d', 2), Literal(','), Literal(' '), Field('y', 4));
  }

  lemma TailText(dd: string, y: string)
    ensures " " + (dd + ("," + (" " + (y + "")))) == " " + dd + ", " + y
  {
  }

  /** `MMM dd, yyyy` renders the short month name, the two-digit day and the
      four-digit year. */
  lemma DefaultRendering(d: Date)
    requires IsRealDate(d)
    ensures FormatPattern(d, DefaultPattern) ==
      Some(ShortMonths[d.month - 1] + " " + ZeroPad(d.day, 2) + ", " + ZeroPad(EraYear(d.year), 4))
  {
    DefaultTokens();
    MonthNameRendering(d, 3, ShortMonths[d.month - 1]);
  }

  /** `MMMM dd, yyyy` renders the full month name instead. */
  lemma LongRendering(d: Date)
    requires IsRealDate(d)
    ensures FormatPattern(d, LongPattern) ==
      Some(LongMonths[d.month - 1] + " " + ZeroPad(d.day, 2) + ", " + ZeroPad(EraYear(d.year), 4))
  {
    LongTokens();
    MonthNameRendering(d, 4, LongMonths[d.month - 1]);
  }

  /** A month-name field in front of the common tail. */
  lemma MonthNameRendering(d: Date, n: nat, name: string)
    requires IsRealDate(d) && RenderField(d, 'M', n) == Some(name)
    ensures RenderTokens(d, [Field('M', n), Literal(' '), Field('d', 2), Literal(','), Literal(' '), Field('y', 4)]) ==
      Some(name + " " + ZeroPad(d.day, 2) + ", " + ZeroPad(EraYear(d.year), 4))
  {
    var dd, y := ZeroPad(d.day, 2), ZeroPad(EraYear(d.year), 4);
    var rest := [Literal(' '), Field('d', 2), Literal(','), Literal(' '), Field('y', 4)];
    DayYearTail(d);
    RenderCons(d, Field('M', n), rest, name, " " + dd + ", " + y);
    ListOfSix(Field('M', n), Literal(' '), Field('d', 2), Literal(','), Literal(' '), Field('y', 4));
    NamedText(name, dd, y);
  }

  lemma NamedText(name: string, dd: string, y: string)
    ensures name + (" " + dd + ", " + y) == name + " " + dd + ", " + y
  {
  }

  /** Three fields joined by hyphens, split back at the hyphens. */
  lemma HyphenJoin(y: string, m: string, dd: string)
    requires |y| == 4 && |m| == 2 && |dd| == 2
    ensures var s := y + "-" + m + "-" + dd;
      |s| == 10 && s[4] == '-' && s[7] == '-' && s[..4] == y && s[5..7] == m && s[8..] == dd
  {
  }

  /** A string with hyphens at 4 and 7 is its fields joined by hyphens. */
  lemma HyphenSplit(s: string)
    requires |s| == 10 && s[4] == '-' && s[7] == '-'
    ensures s == s[..4] + "-" + s[5..7] + "-" + s[8..]
  {
  }

  /** Rendering a date of years 1 to 9999 as `yyyy-MM-dd` and reading it back
      with `parseISO` gives the same date. */
  lemma IsoRoundTrip(d: Date)
    requires IsRealDate(d) && 1 <= d.year <= 9999
    ensures FormatPattern(d, IsoPattern).Some?
    ensures ParseIsoDate(FormatPattern(d, IsoPattern).value) == Some(d)
  {
    IsoRendering(d);
    var y, m, dd := ZeroPad(d.year, 4), ZeroPad(d.month, 2), ZeroPad(d.day, 2);
    ZeroPadShape(d.year, 4);
    ZeroPadShape(d.month, 2);
    ZeroPadShape(d.day, 2);
    HyphenJoin(y, m, dd);
  }

  /** A full-date string of years 0001 to 9999 is its own `yyyy-MM-dd`
      rendering. */
  lemma IsoRenderingOfString(s: string)
    requires ParseIsoDate(s).Some? && ParseIsoDate(s).value.year >= 1
    ensures FormatPattern(ParseIsoDate(s).value, IsoPattern) == Some(s)
  {
    var d := ParseIsoDate(s).value;
    var y, m, dd := s[..4], s[5..7], s[8..];
    IsoRendering(d);
    ZeroPadOfDigits(y);
    ZeroPadOfDigits(m);
    ZeroPadOfDigits(dd);
    HyphenSplit(s);
  }

  // ---- parse ------------------------------------------------------------------

  /** The number of decimal digits in `s` from index `i` on, at most `max`. */
  function DigitCount(s: string, i: nat, max: nat): (n: nat)
    requires i <= |s|
    ensures n <= max && i + n <= |s|
    ensures forall k :: i <= k < i + n ==> JsString.IsDecimalDigit(s[k])
    ensures n < max && i + n < |s| ==> !JsString.IsDecimalDigit(s[i + n])
    decreases max
  {
    if max == 0 || i == |s| || !JsString.IsDecimalDigit(s[i]) then 0
    else 1 + DigitCount(s, i + 1, max - 1)
  }

  /** The number the `n` digits of `s` from index `i` on denote. */
  function DigitsAt(s: string, i: nat, n: nat): (v: nat)
    requires i + n <= |s|
    requires forall k :: i <= k < i + n ==> JsString.IsDecimalDigit(s[k])
    ensures v < Pow10(n)
  {
    if n == 0 then 0
    else
      assert JsString.IsDecimalDigit(s[i + n - 1]);
      10 * DigitsAt(s, i, n - 1) + DigitOf(s[i + n - 1])
  }

  lemma {:induction false} Pow10Monotone(m: nat, n: nat)
    requires m <= n
    ensures Pow10(m) <= Pow10(n)
  {
    if m < n {
      Pow10Monotone(m, n - 1);
    }
  }

  /** `name` occurs in `s` at index `i`, letter case aside. */
  predicate MatchesAt(s: string, i: nat, name: string) {
    i + |name| <= |s| &&
    forall k :: 0 <= k < |name| ==> JsString.LowerChar(s[i + k]) == JsString.LowerChar(name[k])
  }

  const MonthInitials: seq<string> := ["J", "F", "M", "A", "M", "J", "J", "A", "S", "O", "N", "D"]

  /** The index of the first of `names`, from `m` on, that occurs at `i`. */
  function MatchName(s: string, i: nat, names: seq<string>, m: nat): (r: Option<nat>)
    requires m <= |names|
    ensures r.Some? ==> m <= r.value < |names| && MatchesAt(s, i, names[r.value])
    ensures r.Some? ==> forall k :: m <= k < r.value ==> !MatchesAt(s, i, names[k])
    ensures r.None? ==> forall k :: m <= k < |names| ==> !MatchesAt(s, i, names[k])
    decreases |names| - m
  {
    if m == |names| then None
    else if MatchesAt(s, i, names[m]) then Some(m)
    else MatchName(s, i, names, m + 1)
  }

  /** A month read as text: its number and the length of the text read. */
  datatype MonthText = MonthText(month: int, length: nat)

  /** The English month names `parse` tries, in order: `MMM` tries the
      abbreviated names and then the initials, `MMMM` the full names first. */
  function MonthWidths(width: nat): (r: seq<seq<string>>)
    ensures forall k :: 0 <= k < |r| ==> |r[k]| == 12
    ensures forall k, n :: 0 <= k < |r| && 0 <= n < |r[k]| ==> r[k][n] != ""
  {
    if width == 3 then [ShortMonths, MonthInitials]
    else [LongMonths, ShortMonths, MonthInitials]
  }

  /** The month named at index `i`, by the first list of `widths` (from
      `w` on) that has a name occurring there. */
  function ReadMonthName(s: string, i: nat, widths: seq<seq<string>>, w: nat): (r: Option<MonthText>)
    requires w <= |widths|
    requires forall k :: 0 <= k < |widths| ==> |widths[k]| == 12
    requires forall k, n :: 0 <= k < |widths| && 0 <= n < |widths[k]| ==> widths[k][n] != ""
    ensures r.Some? ==> 1 <= r.value.month <= 12 && 1 <= r.value.length && i + r.value.length <= |s|
    decreases |widths| - w
  {
    if w == |widths| then None
    else match MatchName(s, i, widths[w], 0)
      case Some(m) => Some(MonthText(m + 1, |widths[w][m]|))
      case None => ReadMonthName(s, i, widths, w + 1)
  }

  /** The fields read so far. */
  datatype Fields = Fields(year: Option<int>, month: Option<int>, day: Option<int>)

  /** A field read as a run of digits: at least one and at most `max`. */
  function ReadNumber(s: string, i: nat, max: nat): (r: Option<(nat, nat)>)
    requires i <= |s|
    ensures r.Some? ==> 1 <= r.value.1 <= max && i + r.value.1 <= |s| && r.value.0 < Pow10(r.value.1)
  {
    var n := DigitCount(s, i, max);
    if n == 0 then None else Some((DigitsAt(s, i, n), n))
  }

  /** One token read at index `i` of `s`: the fields with the token's
      field added, and the index after the token. A literal must be matched
      exactly; a field may occur once. */
  function ReadToken(s: string, i: nat, token: Token, acc: Fields): (r: Option<(Fields, nat)>)
    requires i <= |s|
    requires acc.year.Some? ==> acc.year.value < 10000
    ensures r.Some? ==> i < r.value.1 <= |s|
    ensures r.Some? && r.value.0.year.Some? ==> r.value.0.year.value < 10000
  {
    match token
    case Unsupported => None
    case Literal(c) => if i < |s| && s[i] == c then Some((acc, i + 1)) else None
    case Field(c, n) =>
      if c == 'y' && n == 4 && acc.year.None? then
        match ReadNumber(s, i, 4)
        case None => None
        case Some((v, len)) =>
          Pow10Monotone(len, 4);
          Some((acc.(year := Some(v)), i + len))
      else if c == 'M' && n == 2 && acc.month.None? then
        match ReadNumber(s, i, 2)
        case None => None
        case Some((v, len)) => Some((acc.(month := Some(v)), i + len))
      else if c == 'M' && (n == 3 || n == 4) && acc.month.None? then
        match ReadMonthName(s, i, MonthWidths(n), 0)
        case None => None
        case Some(t) => Some((acc.(month := Some(t.month)), i + t.length))
      else if c == 'd' && n == 2 && acc.day.None? then
        match ReadNumber(s, i, 2)
        case None => None
        case Some((v, len)) => Some((acc.(day := Some(v)), i + len))
      else None
  }

  /** The tokens read one after the other from index `i` of `s`: the fields
      found and the index after the last token. */
  function Scan(s: string, i: nat, tokens: seq<Token>, acc: Fields): (r: Option<(Fields, nat)>)
    requires i <= |s|
    requires acc.year.Some? ==> acc.year.value < 10000
    ensures r.Some? ==> i <= r.value.1 <= |s|
    ensures r.Some? && r.value.0.year.Some? ==> r.value.0.year.value < 10000
    decreases |tokens|
  {
    if tokens == [] then Some((acc, i))
    else match ReadToken(s, i, tokens[0], acc)
      case None => None
      case Some((f, j)) => Scan(s, j, tokens[1..], f)
  }

  /** date-fns `parse(s, pattern, reference)` for patterns whose fields are
      a year, a month and a day: the tokens are read in order, only white
      space may follow, and the fields must name a real day of a year after 0.
      `None` is the invalid date. */
  function ParseWithPattern(s: string, pattern: string): (r: Option<Date>)
    ensures r.Some? ==> IsRealDate(r.value) && 1 <= r.value.year <= 9999
  {
    Complete(s, Scan(s, 0, Tokens(pattern), Fields(None, None, None)))
  }

  /** What `parse` makes of a scan that stopped at index `i` with fields `f`. */
  function Complete(s: string, scanned: Option<(Fields, nat)>): (r: Option<Date>)
    requires scanned.Some? ==> scanned.value.1 <= |s|
    ensures r.Some? ==> IsRealDate(r.value) && r.value.year >= 1
    ensures r.Some? ==> scanned.Some? && Some(r.value.year) == scanned.value.0.year
  {
    match scanned
    case None => None
    case Some((f, i)) =>
      if !JsString.AllSpace(s[i..]) then None
      else if f.year.None? || f.month.None? || f.day.None? then None
      else
        var d := Date(f.year.value, f.month.value, f.day.value);
        if d.year > 0 && 1 <= d.month <= 12 && 1 <= d.day <= DaysInMonth(d.year, d.month) then Some(d)
        else None
  }

  /** A pattern with a literal character reads nothing from a string
      without that character. */
  lemma {:induction false} LiteralRequired(s: string, i: nat, tokens: seq<Token>, acc: Fields, c: char)
    requires i <= |s|
    requires acc.year.Some? ==> acc.year.value < 10000
    requires Literal(c) in tokens
    requires forall k :: i <= k < |s| ==> s[k] != c
    ensures Scan(s, i, tokens, acc) == None
    decreases |tokens|
  {
    if tokens[0] != Literal(c) {
      assert Literal(c) in tokens[1..];
      match ReadToken(s, i, tokens[0], acc)
      case None =>
      case Some((f, j)) => LiteralRequired(s, j, tokens[1..], f, c);
    }
  }

  /** `parse` fails on a string that lacks a literal of the pattern. */
  lemma ParseNeedsLiteral(s: string, pattern: string, c: char)
    requires Literal(c) in Tokens(pattern) && c !in s
    ensures ParseWithPattern(s, pattern) == None
  {
    LiteralRequired(s, 0, Tokens(pattern), Fields(None, None, None), c);
  }

  /** The month whose abbreviated name, lower-cased, is `abc`; 0 for none. */
  function ShortNameCode(a: char, b: char, c: char): int {
    if a == 'j' && b == 'a' && c == 'n' then 1
    else if a == 'f' && b == 'e' && c == 'b' then 2
    else if a == 'm' && b == 'a' && c == 'r' then 3
    else if a == 'a' && b == 'p' && c == 'r' then 4
    else if a == 'm' && b == 'a' && c == 'y' then 5
    else if a == 'j' && b == 'u' && c == 'n' then 6
    else if a == 'j' && b == 'u' && c == 'l' then 7
    else if a == 'a' && b == 'u' && c == 'g' then 8
    else if a == 's' && b == 'e' && c == 'p' then 9
    else if a == 'o' && b == 'c' && c == 't' then 10
    else if a == 'n' && b == 'o' && c == 'v' then 11
    else if a == 'd' && b == 'e' && c == 'c' then 12
    else 0
  }

  /** The code of the three characters of `s` from index `i` on. */
  function CodeAt(s: string, i: nat): int
    requires i + 3 <= |s|
  {
    ShortNameCode(JsString.LowerChar(s[i]), JsString.LowerChar(s[i + 1]), JsString.LowerChar(s[i + 2]))
  }

  /** Each abbreviated name has its own month's code, so no two of them
      match the same text. */
  lemma ShortCode(k: nat)
    requires k < 12
    ensures CodeAt(ShortMonths[k], 0) == k + 1
  {
    if k == 0 {
    } else if k == 1 {
    } else if k == 2 {
    } else if k == 3 {
    } else if k == 4 {
    } else if k == 5 {
    } else if k == 6 {
    } else if k == 7 {
    } else if k == 8 {
    } else if k == 9 {
    } else if k == 10 {
    } else if k == 11 {
    }
  }

  /** The abbreviated month names are three letters. */
  lemma ShortNameLetters(k: nat)
    requires k < 12
    ensures |ShortMonths[k]| == 3
    ensures forall c :: c in ShortMonths[k] ==> IsAsciiLetter(c)
  {
    if k == 0 {
    } else if k == 1 {
    } else if k == 2 {
    } else if k == 3 {
    } else if k == 4 {
    } else if k == 5 {
    } else if k == 6 {
    } else if k == 7 {
    } else if k == 8 {
    } else if k == 9 {
    } else if k == 10 {
    } else {
    }
  }

  /** The first name that matches is the one `MatchName` finds. */
  lemma {:induction false} MatchFirst(s: string, i: nat, names: seq<string>, m: nat, target: nat)
    requires m <= target < |names| && MatchesAt(s, i, names[target])
    requires forall k :: m <= k < target ==> !MatchesAt(s, i, names[k])
    ensures MatchName(s, i, names, m) == Some(target)
    decreases target - m
  {
    if m < target {
      MatchFirst(s, i, names, m + 1, target);
    }
  }

  /** Text that matches a three-letter name has that name's code. */
  lemma CodeOfMatch(s: string, i: nat, name: string)
    requires |name| == 3 && MatchesAt(s, i, name)
    ensures CodeAt(s, i) == CodeAt(name, 0)
  {
    assert JsString.LowerChar(s[i + 0]) == JsString.LowerChar(name[0]);
    assert JsString.LowerChar(s[i + 1]) == JsString.LowerChar(name[1]);
    assert JsString.LowerChar(s[i + 2]) == JsString.LowerChar(name[2]);
  }

  /** An abbreviated month name is matched by its own month, as no earlier
      name matches it. */
  lemma MatchShortMonth(s: string, i: nat, m: int)
    requires 1 <= m <= 12 && i + 3 <= |s| && s[i..i + 3] == ShortMonths[m - 1]
    ensures MatchName(s, i, ShortMonths, 0) == Some(m - 1)
  {
    var name := ShortMonths[m - 1];
    assert MatchesAt(s, i, name) by {
      forall k | 0 <= k < |name| ensures s[i + k] == name[k] {
        assert s[i..i + 3][k] == s[i + k];
      }
    }
    CodeOfMatch(s, i, name);
    ShortCode(m - 1);
    forall k | 0 <= k < m - 1
      ensures !MatchesAt(s, i, ShortMonths[k])
    {
      ShortCode(k);
      if MatchesAt(s, i, ShortMonths[k]) {
        CodeOfMatch(s, i, ShortMonths[k]);
      }
    }
    MatchFirst(s, i, ShortMonths, 0, m - 1);
  }

  /** `MMM` reads an abbreviated month name as its month. */
  lemma ReadShortMonth(s: string, i: nat, m: int)
    requires 1 <= m <= 12 && i + 3 <= |s| && s[i..i + 3] == ShortMonths[m - 1]
    ensures ReadMonthName(s, i, MonthWidths(3), 0) == Some(MonthText(m, 3))
  {
    MatchShortMonth(s, i, m);
    assert MonthWidths(3)[0] == ShortMonths;
  }

  /** A run of at least `max` digits is counted up to `max`. */
  lemma {:induction false} DigitCountFull(s: string, i: nat, max: nat)
    requires i + max <= |s|
    requires forall k :: i <= k < i + max ==> JsString.IsDecimalDigit(s[k])
    ensures DigitCount(s, i, max) == max
    decreases max
  {
    if max > 0 {
      DigitCountFull(s, i + 1, max - 1);
    }
  }

  /** The digits read from index `i` denote the number of that slice. */
  lemma {:induction false} DigitsAtNum(s: string, i: nat, n: nat)
    requires i + n <= |s|
    requires forall k :: i <= k < i + n ==> JsString.IsDecimalDigit(s[k])
    ensures AllDigits(s[i..i + n]) && DigitsAt(s, i, n) == Num(s[i..i + n])
  {
    if n == 0 {
      assert s[i..i] == [];
    } else {
      DigitsAtNum(s, i, n - 1);
      NumSnoc(s[i..i + n - 1], s[i + n - 1]);
      assert s[i..i + n - 1] + [s[i + n - 1]] == s[i..i + n];
    }
  }

  /** A field with `width` digits in place is read as the number they
      denote. */
  lemma ReadDigits(s: string, i: nat, width: nat)
    requires 1 <= width && i + width <= |s| && AllDigits(s[i..i + width])
    ensures ReadNumber(s, i, width) == Some((Num(s[i..i + width]), width))
  {
    assert forall k :: i <= k < i + width ==> s[k] == s[i..i + width][k - i];
    DigitCountFull(s, i, width);
    DigitsAtNum(s, i, width);
  }

  /** A field written with `width` digits is read back as its value. */
  lemma ReadPadded(s: string, i: nat, v: nat, width: nat)
    requires 1 <= width && v < Pow10(width) && i + width <= |s|
    requires s[i..i + width] == ZeroPad(v, width)
    ensures ReadNumber(s, i, width) == Some((v, width))
  {
    ZeroPadShape(v, width);
    ReadDigits(s, i, width);
  }

  /** The token `dd` reads a two-digit day. */
  lemma ReadDayToken(s: string, i: nat, day: nat, acc: Fields)
    requires day < 100 && i + 2 <= |s| && s[i..i + 2] == ZeroPad(day, 2)
    requires acc.day.None? && (acc.year.Some? ==> acc.year.value < 10000)
    ensures ReadToken(s, i, Field('d', 2), acc) == Some((acc.(day := Some(day)), i + 2))
  {
    assert Pow10(2) == 100;
    ReadPadded(s, i, day, 2);
  }

  /** The token `yyyy` reads a four-digit year. */
  lemma ReadYearToken(s: string, i: nat, year: nat, acc: Fields)
    requires year < 10000 && i + 4 <= |s| && s[i..i + 4] == ZeroPad(year, 4)
    requires acc.year.None?
    ensures ReadToken(s, i, Field('y', 4), acc) == Some((acc.(year := Some(year)), i + 4))
  {
    assert Pow10(4) == 10000;
    ReadPadded(s, i, year, 4);
  }

  /** `MM` reads two digits as the month. */
  lemma ReadMonthDigits(s: string, i: nat, acc: Fields)
    requires i + 2 <= |s| && AllDigits(s[i..i + 2])
    requires acc.month.None? && (acc.year.Some? ==> acc.year.value < 10000)
    ensures ReadToken(s, i, Field('M', 2), acc) == Some((acc.(month := Some(Num(s[i..i + 2]))), i + 2))
  {
    ReadDigits(s, i, 2);
  }

  /** `dd` reads two digits as the day. */
  lemma ReadDayDigits(s: string, i: nat, acc: Fields)
    requires i + 2 <= |s| && AllDigits(s[i..i + 2])
    requires acc.day.None? && (acc.year.Some? ==> acc.year.value < 10000)
    ensures ReadToken(s, i, Field('d', 2), acc) == Some((acc.(day := Some(Num(s[i..i + 2]))), i + 2))
  {
    ReadDigits(s, i, 2);
  }

  /** `yyyy` reads four digits as the year. */
  lemma ReadYearDigits(s: string, i: nat, acc: Fields)
    requires i + 4 <= |s| && AllDigits(s[i..i + 4]) && acc.year.None?
    ensures ReadToken(s, i, Field('y', 4), acc) == Some((acc.(year := Some(Num(s[i..i + 4]))), i + 4))
  {
    ReadDigits(s, i, 4);
    DigitsBound(s[i..i + 4]);
    assert Pow10(4) == 10000;
  }

  /** Reading one token and then the rest is reading the whole list. */
  lemma ScanCons(s: string, i: nat, token: Token, rest: seq<Token>, acc: Fields, f: Fields, j: nat)
    requires i <= |s| && (acc.year.Some? ==> acc.year.value < 10000)
    requires ReadToken(s, i, token, acc) == Some((f, j))
    ensures Scan(s, i, [token] + rest, acc) == Scan(s, j, rest, f)
  {
    assert ([token] + rest)[1..] == rest;
  }

  /** The tail ` dd, yyyy` of the month-name patterns reads a day and a
      year. */
  lemma ScanDayYear(s: string, i: nat, acc: Fields, day: nat, year: nat)
    requires day < 100 && year < 10000 && |s| == i + 9
    requires acc.day.None? && acc.year.None?
    requires s[i] == ' ' && s[i + 1..i + 3] == ZeroPad(day, 2)
    requires s[i + 3] == ',' && s[i + 4] == ' ' && s[i + 5..] == ZeroPad(year, 4)
    ensures Scan(s, i, [Literal(' '), Field('d', 2), Literal(','), Literal(' '), Field('y', 4)], acc) ==
      Some((acc.(day := Some(day), year := Some(year)), i + 9))
  {
    var f1 := acc.(day := Some(day));
    var f2 := f1.(year := Some(year));
    var t4: seq<Token> := [];
    ReadYearToken(s, i + 5, year, f1);
    ScanCons(s, i + 5, Field('y', 4), t4, f1, f2, i + 9);
    var t3 := [Field('y', 4)] + t4;
    ScanCons(s, i + 4, Literal(' '), t3, f1, f1, i + 5);
    var t2 := [Literal(' ')] + t3;
    ScanCons(s, i + 3, Literal(','), t2, f1, f1, i + 4);
    var t1 := [Literal(',')] + t2;
    ReadDayToken(s, i + 1, day, acc);
    ScanCons(s, i + 1, Field('d', 2), t1, acc, f1, i + 3);
    var t0 := [Field('d', 2)] + t1;
    ScanCons(s, i, Literal(' '), t0, acc, acc, i + 1);
    ListOfFive(Literal(' '), Field('d', 2), Literal(','), Literal(' '), Field('y', 4));
  }

  /** A list display of five elements is built by putting each in front. */
  lemma ListOfFive<T>(a: T, b: T, c: T, d: T, e: T)
    ensures [a] + ([b] + ([c] + ([d] + ([e] + [])))) == [a, b, c, d, e]
  {
  }

  /** The same, with the last two in a display. */
  lemma ListOfFiveTail<T>(a: T, b: T, c: T, d: T, e: T)
    ensures [a] + ([b] + ([c] + [d, e])) == [a, b, c, d, e]
  {
  }

  /** And one of six. */
  lemma ListOfSix<T>(a: T, b: T, c: T, d: T, e: T, f: T)
    ensures [a] + [b, c, d, e, f] == [a, b, c, d, e, f]
  {
  }

  /** The token `MMM` reads an abbreviated month name. */
  lemma ReadShortMonthToken(s: string, i: nat, m: int, acc: Fields)
    requires 1 <= m <= 12 && i + 3 <= |s| && s[i..i + 3] == ShortMonths[m - 1]
    requires acc.month.None? && (acc.year.Some? ==> acc.year.value < 10000)
    ensures ReadToken(s, i, Field('M', 3), acc) == Some((acc.(month := Some(m)), i + 3))
  {
    ReadShortMonth(s, i, m);
  }

  /** The tokens of `MMM dd, yyyy` read a month name, a day and a year. */
  lemma ScanDisplay(s: string, m: int, day: nat, year: nat)
    requires 1 <= m <= 12 && day < 100 && year < 10000 && |s| == 12
    requires s[0..3] == ShortMonths[m - 1] && s[3] == ' ' && s[4..6] == ZeroPad(day, 2)
    requires s[6] == ',' && s[7] == ' ' && s[8..12] == ZeroPad(year, 4)
    ensures Scan(s, 0, Tokens(DefaultPattern), Fields(None, None, None)) ==
      Some((Fields(Some(year), Some(m), Some(day)), 12))
  {
    DefaultTokens();
    var f1 := Fields(None, Some(m), None);
    var rest := [Literal(' '), Field('d', 2), Literal(','), Literal(' '), Field('y', 4)];
    ReadShortMonthToken(s, 0, m, Fields(None, None, None));
    ScanCons(s, 0, Field('M', 3), rest, Fields(None, None, None), f1, 3);
    ScanDayYear(s, 3, f1, day, year);
    ListOfSix(Field('M', 3), Literal(' '), Field('d', 2), Literal(','), Literal(' '), Field('y', 4));
  }

  /** The display form `MMM dd, yyyy` of a date of years 1 to 9999 is read
      back by `parse` with the same pattern. */
  lemma DefaultParseRoundTrip(d: Date)
    requires IsRealDate(d) && 1 <= d.year <= 9999
    ensures FormatPattern(d, DefaultPattern).Some?
    ensures ParseWithPattern(FormatPattern(d, DefaultPattern).value, DefaultPattern) == Some(d)
  {
    DefaultRendering(d);
    assert EraYear(d.year) == d.year;
    var name, dd, y := ShortMonths[d.month - 1], ZeroPad(d.day, 2), ZeroPad(d.year, 4);
    ZeroPadShape(d.day, 2);
    ZeroPadShape(d.year, 4);
    var s := name + " " + dd + ", " + y;
    ShortNameLetters(d.month - 1);
    DisplayLayout(name, dd, y);
    ScanDisplay(s, d.month, d.day, d.year);
    ScannedDate(s, DefaultPattern, d);
  }

  /** Where the fields of the display form sit. */
  lemma DisplayLayout(name: string, dd: string, y: string)
    requires |name| == 3 && |dd| == 2 && |y| == 4
    ensures var s := name + " " + dd + ", " + y;
      && |s| == 12 && s[0..3] == name && s[3] == ' ' && s[4..6] == dd
      && s[6] == ',' && s[7] == ' ' && s[8..12] == y
  {
  }

  /** A scan that reads all three fields through to the end of the string
      parses to the date they name, when that is a real date of a year after
      0, and to nothing otherwise. */
  lemma ScannedDate(s: string, pattern: string, d: Date)
    requires Scan(s, 0, Tokens(pattern), Fields(None, None, None)) ==
      Some((Fields(Some(d.year), Some(d.month), Some(d.day)), |s|))
    ensures ParseWithPattern(s, pattern) == if IsRealDate(d) && d.year > 0 then Some(d) else None
  {
    CompleteAtEnd(s, d);
  }

  /** A scan that ends at the end of the string is completed to the date its
      fields name, when that date is real. */
  lemma CompleteAtEnd(s: string, d: Date)
    ensures Complete(s, Some((Fields(Some(d.year), Some(d.month), Some(d.day)), |s|))) ==
      if IsRealDate(d) && d.year > 0 then Some(d) else None
  {
    EmptyTail(s);
  }

  lemma EmptyTail(s: string)
    ensures JsString.AllSpace(s[|s|..])
  {
  }
}
