/** The date helper: validation of `YYYY-MM-DD` strings, display formatting,
    the overdue test, the fallback parser to ISO form, and relative-day
    labels. The current day is a parameter wherever the helper reads the
    clock. */
module DateHelper {
  import opened Wrappers
  import opened Records
  import opened Calendar
  import opened DateFns
  import JsString

  // ---- validateDate -----------------------------------------------------------

  /** The argument of `validateDate`: a string, or any other JavaScript value. */
  datatype Arg = Text(s: string) | NonString

  datatype Validation = Valid(date: Date) | Invalid(error: string)

  const RequiredMessage := "Date is required and must be a string"
  const IsoForm := "YYYY-MM-DD"
  const FormatMessage := "Invalid date format. Please use " + IsoForm + " (e.g., 2024-12-31)"
  const ParseMessage := "Unable to parse date. Please use " + IsoForm + " format (e.g., 2024-12-31)"

  /** `validateDate`: a missing, empty or non-string argument gets the
      "required" message; otherwise the string is valid exactly when it has
      the form `YYYY-MM-DD` and names a real day. */
  function ValidateDate(arg: Arg): (r: Validation)
    ensures arg.NonString? || arg.s == "" ==> r == Invalid(RequiredMessage)
    ensures arg.Text? && arg.s != "" ==>
      (r.Valid? <==> IsIsoShape(arg.s) && IsRealDate(ShapeDate(arg.s)))
    ensures arg.Text? && arg.s != "" && r.Invalid? ==> r.error == FormatMessage
    ensures r.Valid? ==> arg.Text? && Some(r.date) == ParseIsoDate(arg.s)
  {
    match arg
    case NonString => Invalid(RequiredMessage)
    case Text(s) =>
      if s == "" then Invalid(RequiredMessage)
      else match ParseIsoDate(s)
        case None => Invalid(FormatMessage)
        case Some(d) => Valid(d)
  }

  lemma IncludesMiddle(a: string, b: string, c: string)
    ensures JsString.Includes(a + b + c, b)
  {
    assert (a + b + c)[|a|..|a| + |b|] == b;
    JsString.IncludesAt(a + b + c, b, |a|);
  }

  /** Both rejection messages name the expected form. */
  lemma MessagesNameForm()
    ensures JsString.Includes(FormatMessage, IsoForm)
    ensures JsString.Includes(ParseMessage, IsoForm)
  {
    IncludesMiddle("Invalid date format. Please use ", IsoForm, " (e.g., 2024-12-31)");
    IncludesMiddle("Unable to parse date. Please use ", IsoForm, " format (e.g., 2024-12-31)");
  }

  // ---- formatDate -------------------------------------------------------------

  /** `formatDate`: the date rendered by `pattern`, or the input unchanged
      when it is not a date or the pattern cannot be rendered. */
  function FormatDate(s: string, pattern: string): (r: string)
    ensures ParseIsoDate(s).None? ==> r == s
    ensures ParseIsoDate(s).Some? && FormatPattern(ParseIsoDate(s).value, pattern).Some? ==>
      r == FormatPattern(ParseIsoDate(s).value, pattern).value
    ensures ParseIsoDate(s).Some? && FormatPattern(ParseIsoDate(s).value, pattern).None? ==> r == s
  {
    match ParseIsoDate(s)
    case None => s
    case Some(d) =>
      match FormatPattern(d, pattern)
      case None => s
      case Some(out) => out
  }

  /** `formatDate(s, 'yyyy-MM-dd')` gives back every valid date string of
      the years 0001 to 9999. */
  lemma FormatIsoIdentity(s: string)
    requires ValidateDate(Text(s)).Valid? && ValidateDate(Text(s)).date.year >= 1
    ensures FormatDate(s, IsoPattern) == s
  {
    IsoRenderingOfString(s);
  }

  /** The default display form of a valid date: short month name, two-digit
      day, four-digit year, twelve characters in all. */
  lemma DefaultDisplay(s: string)
    requires ParseIsoDate(s).Some?
    ensures var d := ParseIsoDate(s).value;
      FormatDate(s, DefaultPattern) ==
        ShortMonths[d.month - 1] + " " + ZeroPad(d.day, 2) + ", " + ZeroPad(EraYear(d.year), 4)
    ensures |FormatDate(s, DefaultPattern)| == 12
  {
    var d := ParseIsoDate(s).value;
    DefaultRendering(d);
    ShortNameLetters(d.month - 1);
    ZeroPadShape(d.day, 2);
    ZeroPadShape(EraYear(d.year), 4);
  }

  // ---- isTaskOverdue ----------------------------------------------------------

  /** `isTaskOverdue` on the day `today`: a task that has a due date and is
      not completed is overdue when its due day comes strictly before today;
      a due date that is not a valid date never makes a task overdue. */
  function IsTaskOverdue(task: Task, today: Date): (r: bool)
    requires IsRealDate(today)
    ensures r <==>
      FieldTruthy(task, "dueDate") && !FieldIs(task, "status", "completed") &&
      task["dueDate"].Str? && ParseIsoDate(task["dueDate"].s).Some? &&
      Before(ParseIsoDate(task["dueDate"].s).value, today)
  {
    if !FieldTruthy(task, "dueDate") || FieldIs(task, "status", "completed") then false
    else match task["dueDate"]
      case Str(s) =>
        (match ParseIsoDate(s)
         case None => false
         case Some(due) =>
           OrdinalOrder(due, today);
           DayNumber(due) < DayNumber(today))
      case _ => false
  }

  /** Once overdue, a task stays overdue the day after. */
  lemma OverdueStaysOverdue(task: Task, today: Date)
    requires IsRealDate(today) && IsTaskOverdue(task, today)
    ensures IsTaskOverdue(task, NextDay(today))
  {
    var due := ParseIsoDate(task["dueDate"].s).value;
    OrdinalOrder(due, today);
    OrdinalOrder(due, NextDay(today));
    NextDayOrdinal(today);
  }

  // ---- parseToISO -------------------------------------------------------------

  /** The layouts `parseToISO` tries, in order, after the ISO form. */
  const Layouts: seq<string> :=
    ["MM/dd/yyyy", "dd/MM/yyyy", "yyyy/MM/dd", DefaultPattern, LongPattern, "dd MMM yyyy"]

  /** The index of the first layout, from index `k` on, that reads a date
      from `s`. */
  function FirstLayout(s: string, k: nat): (r: Option<nat>)
    requires k <= |Layouts|
    ensures r.Some? ==> k <= r.value < |Layouts| && ParseWithPattern(s, Layouts[r.value]).Some?
    ensures r.Some? ==> forall j :: k <= j < r.value ==> ParseWithPattern(s, Layouts[j]).None?
    ensures r.None? ==> forall j :: k <= j < |Layouts| ==> ParseWithPattern(s, Layouts[j]).None?
    decreases |Layouts| - k
  {
    if k == |Layouts| then None
    else if ParseWithPattern(s, Layouts[k]).Some? then Some(k)
    else FirstLayout(s, k + 1)
  }

  datatype IsoResult = Parsed(isoDate: string) | Unparsable(error: string)

  /** `parseToISO`: a valid ISO date is returned as it is; otherwise the
      first layout that reads a date gives it in ISO form; otherwise the
      result is an error. */
  function ParseToIso(s: string): (r: IsoResult)
    ensures ValidateDate(Text(s)).Valid? ==> r == Parsed(s)
    ensures r.Parsed? ==> ValidateDate(Text(r.isoDate)).Valid?
    ensures r.Parsed? && ValidateDate(Text(s)).Invalid? ==>
      var j := FirstLayout(s, 0);
      j.Some? && ParseIsoDate(r.isoDate) == ParseWithPattern(s, Layouts[j.value])
    ensures r.Unparsable? <==>
      ValidateDate(Text(s)).Invalid? && forall j :: 0 <= j < |Layouts| ==> ParseWithPattern(s, Layouts[j]).None?
    ensures r.Unparsable? ==> r.error == ParseMessage
  {
    if ValidateDate(Text(s)).Valid? then Parsed(s)
    else match FirstLayout(s, 0)
      case None => Unparsable(ParseMessage)
      case Some(j) =>
        var d := ParseWithPattern(s, Layouts[j]).value;
        IsoRoundTrip(d);
        var iso := FormatPattern(d, IsoPattern).value;
        assert iso != "" by { IsoRendering(d); }
        Parsed(iso)
  }

  /** The ISO form `parseToISO` produces is accepted by it unchanged. */
  lemma ParseToIsoIdempotent(s: string)
    requires ParseToIso(s).Parsed?
    ensures ParseToIso(ParseToIso(s).isoDate) == ParseToIso(s)
  {
  }

  /** The tokens of the layouts that are not month-name patterns. */
  lemma LayoutMonthDayYear()
    ensures Tokens(Layouts[0]) == [Field('M', 2), Literal('/'), Field('d', 2), Literal('/'), Field('y', 4)]
  {
    DateFns.SlashFieldsTokens(Layouts[0], 'M', 'd');
  }

  lemma LayoutDayMonthYear()
    ensures Tokens(Layouts[1]) == [Field('d', 2), Literal('/'), Field('M', 2), Literal('/'), Field('y', 4)]
  {
    DateFns.SlashFieldsTokens(Layouts[1], 'd', 'M');
  }

  lemma LayoutYearMonthDay()
    ensures Tokens(Layouts[2]) == [Field('y', 4), Literal('/'), Field('M', 2), Literal('/'), Field('d', 2)]
  {
    YearFirstTokens(Layouts[2], '/');
  }

  lemma LayoutDayMonthName()
    ensures Tokens(Layouts[5]) == [Field('d', 2), Literal(' '), Field('M', 3), Literal(' '), Field('y', 4)]
  {
    DayMonthNameTokens(Layouts[5]);
  }

  /** The slash layouts need a `/`, the month-name layouts a space. */
  lemma LayoutDelimiters(j: nat)
    requires j < |Layouts|
    ensures j < 3 ==> Literal('/') in Tokens(Layouts[j])
    ensures 3 <= j ==> Literal(' ') in Tokens(Layouts[j])
  {
    if j == 0 {
      LayoutMonthDayYear();
    } else if j == 1 {
      LayoutDayMonthYear();
    } else if j == 2 {
      LayoutYearMonthDay();
    } else if j == 3 {
      DefaultTokens();
    } else if j == 4 {
      LongTokens();
    } else {
      LayoutDayMonthName();
    }
    assert Tokens(Layouts[j])[1] in Tokens(Layouts[j]);
  }

  /** A string in none of the layouts' forms, with neither a slash nor a
      space, cannot be parsed. */
  lemma NoDelimiterUnparsable(s: string)
    requires ValidateDate(Text(s)).Invalid? && '/' !in s && ' ' !in s
    ensures ParseToIso(s) == Unparsable(ParseMessage)
  {
    forall j | 0 <= j < |Layouts|
      ensures ParseWithPattern(s, Layouts[j]).None?
    {
      LayoutDelimiters(j);
      if j < 3 {
        ParseNeedsLiteral(s, Layouts[j], '/');
      } else {
        ParseNeedsLiteral(s, Layouts[j], ' ');
      }
    }
  }

  /** `s` is two digits, a slash, two digits, a slash and four digits. */
  predicate SlashShape(s: string) {
    |s| == 10 && s[2] == '/' && s[5] == '/' &&
    AllDigits(s[..2]) && AllDigits(s[3..5]) && AllDigits(s[6..])
  }

  /** The date `parse` accepts: a real day of the years after 0. */
  function Plausible(d: Date): Option<Date> {
    if IsRealDate(d) && d.year > 0 then Some(d) else None
  }

  /** The two readings of a slash date. */
  function MonthFirst(s: string): Date
    requires SlashShape(s)
  {
    Date(DateFns.Num(s[6..]), DateFns.Num(s[..2]), DateFns.Num(s[3..5]))
  }

  function DayFirst(s: string): Date
    requires SlashShape(s)
  {
    Date(DateFns.Num(s[6..]), DateFns.Num(s[3..5]), DateFns.Num(s[..2]))
  }

  /** The tail `/yyyy` of the slash layouts reads the year. */
  lemma ScanSlashYear(s: string, acc: Fields)
    requires SlashShape(s) && acc.year.None?
    ensures Scan(s, 5, [Literal('/'), Field('y', 4)], acc) == Some((acc.(year := Some(DateFns.Num(s[6..]))), 10))
  {
    var f := acc.(year := Some(DateFns.Num(s[6..])));
    assert s[6..10] == s[6..];
    ReadYearDigits(s, 6, acc);
    var empty: seq<Token> := [];
    ScanCons(s, 6, Field('y', 4), empty, acc, f, 10);
    ScanCons(s, 5, Literal('/'), [Field('y', 4)] + empty, acc, acc, 6);
    assert [Literal('/')] + ([Field('y', 4)] + empty) == [Literal('/'), Field('y', 4)];
  }

  /** `MM/dd/yyyy` reads the first field as the month. */
  lemma ScanMonthFirst(s: string)
    requires SlashShape(s)
    ensures Scan(s, 0, [Field('M', 2), Literal('/'), Field('d', 2), Literal('/'), Field('y', 4)], Fields(None, None, None)) ==
      Some((Fields(Some(DateFns.Num(s[6..])), Some(DateFns.Num(s[..2])), Some(DateFns.Num(s[3..5]))), 10))
  {
    var f0 := Fields(None, None, None);
    var f1 := f0.(month := Some(DateFns.Num(s[..2])));
    var f2 := f1.(day := Some(DateFns.Num(s[3..5])));
    var tail := [Literal('/'), Field('y', 4)];
    ScanSlashYear(s, f2);
    ReadDayDigits(s, 3, f1);
    ScanCons(s, 3, Field('d', 2), tail, f1, f2, 5);
    ScanCons(s, 2, Literal('/'), [Field('d', 2)] + tail, f1, f1, 3);
    assert s[0..2] == s[..2];
    ReadMonthDigits(s, 0, f0);
    ScanCons(s, 0, Field('M', 2), [Literal('/')] + ([Field('d', 2)] + tail), f0, f1, 2);
    ListOfFiveTail(Field('M', 2), Literal('/'), Field('d', 2), Literal('/'), Field('y', 4));
  }

  /** `dd/MM/yyyy` reads the first field as the day. */
  lemma ScanDayFirst(s: string)
    requires SlashShape(s)
    ensures Scan(s, 0, [Field('d', 2), Literal('/'), Field('M', 2), Literal('/'), Field('y', 4)], Fields(None, None, None)) ==
      Some((Fields(Some(DateFns.Num(s[6..])), Some(DateFns.Num(s[3..5])), Some(DateFns.Num(s[..2]))), 10))
  {
    var f0 := Fields(None, None, None);
    var f1 := f0.(day := Some(DateFns.Num(s[..2])));
    var f2 := f1.(month := Some(DateFns.Num(s[3..5])));
    var tail := [Literal('/'), Field('y', 4)];
    ScanSlashYear(s, f2);
    ReadMonthDigits(s, 3, f1);
    ScanCons(s, 3, Field('M', 2), tail, f1, f2, 5);
    ScanCons(s, 2, Literal('/'), [Field('M', 2)] + tail, f1, f1, 3);
    assert s[0..2] == s[..2];
    ReadDayDigits(s, 0, f0);
    ScanCons(s, 0, Field('d', 2), [Literal('/')] + ([Field('M', 2)] + tail), f0, f1, 2);
    ListOfFiveTail(Field('d', 2), Literal('/'), Field('M', 2), Literal('/'), Field('y', 4));
  }

  /** `MM/dd/yyyy` reads a slash date month first, `dd/MM/yyyy` day first. */
  lemma SlashReadings(s: string)
    requires SlashShape(s)
    ensures ParseWithPattern(s, Layouts[0]) == Plausible(MonthFirst(s))
    ensures ParseWithPattern(s, Layouts[1]) == Plausible(DayFirst(s))
  {
    LayoutMonthDayYear();
    ScanMonthFirst(s);
    ScannedDate(s, Layouts[0], MonthFirst(s));
    LayoutDayMonthYear();
    ScanDayFirst(s);
    ScannedDate(s, Layouts[1], DayFirst(s));
  }

  /** A slash date is not in ISO form. */
  lemma SlashNotIso(s: string)
    requires SlashShape(s)
    ensures ValidateDate(Text(s)).Invalid?
  {
    assert s[4] == s[3..5][1];
  }

  /** `parseToISO` reads an ambiguous slash date month first. */
  lemma SlashMonthFirst(s: string)
    requires SlashShape(s) && Plausible(MonthFirst(s)).Some?
    ensures ParseToIso(s).Parsed? && ParseIsoDate(ParseToIso(s).isoDate) == Some(MonthFirst(s))
  {
    SlashNotIso(s);
    SlashReadings(s);
  }

  /** It reads a slash date day first only when month first names no day. */
  lemma SlashDayFirst(s: string)
    requires SlashShape(s) && Plausible(MonthFirst(s)).None? && Plausible(DayFirst(s)).Some?
    ensures ParseToIso(s).Parsed? && ParseIsoDate(ParseToIso(s).isoDate) == Some(DayFirst(s))
  {
    SlashNotIso(s);
    SlashReadings(s);
  }

  /** The display form has no slash. */
  lemma DisplayHasNoSlash(d: Date)
    requires IsRealDate(d) && 1 <= d.year <= 9999
    ensures FormatPattern(d, DefaultPattern).Some? && '/' !in FormatPattern(d, DefaultPattern).value
  {
    DefaultRendering(d);
    var name, dd, y := ShortMonths[d.month - 1], ZeroPad(d.day, 2), ZeroPad(EraYear(d.year), 4);
    assert '/' !in name by {
      ShortNameLetters(d.month - 1);
    }
    assert '/' !in dd && '/' !in y by {
      assert Pow10(2) == 100 && Pow10(4) == 10000;
      ZeroPadShape(d.day, 2);
      ZeroPadShape(EraYear(d.year), 4);
      NoSlashInDigits(dd);
      NoSlashInDigits(y);
    }
    DisplayWithout(name, dd, y, '/');
  }

  lemma NoSlashInDigits(s: string)
    requires AllDigits(s)
    ensures '/' !in s
  {
    if '/' in s {
      assert false;
    }
  }

  /** A character that is neither a space nor a comma occurs in the display
      form only through one of its fields. */
  lemma DisplayWithout(name: string, dd: string, y: string, c: char)
    requires c != ' ' && c != ',' && c !in name && c !in dd && c !in y
    ensures c !in name + " " + dd + ", " + y
  {
  }

  /** The display form of a valid date is read back by `parseToISO` as the
      date itself. */
  lemma DisplayReadsBack(s: string)
    requires ValidateDate(Text(s)).Valid? && ValidateDate(Text(s)).date.year >= 1
    ensures ParseToIso(FormatDate(s, DefaultPattern)) == Parsed(s)
  {
    var d := ParseIsoDate(s).value;
    var t := FormatDate(s, DefaultPattern);
    DefaultDisplay(s);
    DefaultParseRoundTrip(d);
    DisplayHasNoSlash(d);
    forall j | 0 <= j < 3 ensures ParseWithPattern(t, Layouts[j]).None? {
      LayoutDelimiters(j);
      ParseNeedsLiteral(t, Layouts[j], '/');
    }
    assert FirstLayout(t, 0) == Some(3);
    IsoRenderingOfString(s);
  }
  // ---- getRelativeDate --------------------------------------------------------

  /** `getRelativeDate` on the day `today`: the number of days from today to
      the date picks the label; a date more than a week ahead, or a string
      that is not a date, goes through `formatDate`. */
  function GetRelativeDate(s: string, today: Date): (r: string)
    requires IsRealDate(today)
    ensures ParseIsoDate(s).None? ==> r == s
  {
    match ParseIsoDate(s)
    case None => FormatDate(s, DefaultPattern)
    case Some(d) =>
      var n := DayNumber(d) - DayNumber(today);
      if n < 0 then
        if n == -1 then "Yesterday" else JsString.IntToString(-n) + " days ago"
      else if n == 0 then "Today"
      else if n == 1 then "Tomorrow"
      else if n <= 7 then "In " + JsString.IntToString(n) + " days"
      else FormatDate(s, DefaultPattern)
  }

  /** The lengths of the labels tell them apart. */
  lemma RelativeLabelLengths(s: string, today: Date)
    requires IsRealDate(today) && ParseIsoDate(s).Some?
    ensures var r := GetRelativeDate(s, today);
      var n := DayNumber(ParseIsoDate(s).value) - DayNumber(today);
      (n < -1 ==> |r| >= 10) && (-1 <= n <= 1 ==> |r| <= 9 && r[0] != 'I') &&
      (2 <= n <= 7 ==> |r| == 9 && r[0] == 'I') && (n > 7 ==> |r| == 12)
  {
    var d := ParseIsoDate(s).value;
    var n := DayNumber(d) - DayNumber(today);
    if 2 <= n <= 7 {
      assert JsString.IntToString(n) == [JsString.DigitChar(n)];
    }
    if n > 7 {
      DefaultDisplay(s);
    }
  }

  /** "Today" is the label of today's date and of no other. */
  lemma RelativeToday(s: string, today: Date)
    requires IsRealDate(today) && ParseIsoDate(s).Some?
    ensures GetRelativeDate(s, today) == "Today" <==> ParseIsoDate(s).value == today
  {
    RelativeLabelLengths(s, today);
    OrdinalOrder(ParseIsoDate(s).value, today);
  }

  /** "Tomorrow" is the label of the day after today and of no other. */
  lemma RelativeTomorrow(s: string, today: Date)
    requires IsRealDate(today) && ParseIsoDate(s).Some?
    ensures GetRelativeDate(s, today) == "Tomorrow" <==> ParseIsoDate(s).value == NextDay(today)
  {
    RelativeLabelLengths(s, today);
    NextDayOrdinal(today);
    OrdinalOrder(ParseIsoDate(s).value, NextDay(today));
  }

  /** "Yesterday" is the label of the day before today and of no other. */
  lemma RelativeYesterday(s: string, today: Date)
    requires IsRealDate(today) && ParseIsoDate(s).Some?
    ensures GetRelativeDate(s, today) == "Yesterday" <==> NextDay(ParseIsoDate(s).value) == today
  {
    var d := ParseIsoDate(s).value;
    RelativeLabelLengths(s, today);
    NextDayOrdinal(d);
    OrdinalOrder(NextDay(d), today);
  }

  /** The display form of a date is twelve characters long and its third
      character is a letter of the month's name. */
  lemma DisplayShape(s: string)
    requires ParseIsoDate(s).Some?
    ensures |FormatDate(s, DefaultPattern)| == 12
    ensures IsAsciiLetter(FormatDate(s, DefaultPattern)[2])
  {
    var d := ParseIsoDate(s).value;
    DefaultDisplay(s);
    ShortNameLetters(d.month - 1);
    assert FormatDate(s, DefaultPattern)[2] == ShortMonths[d.month - 1][2];
  }

  /** An "N days ago" label is at least ten characters long, and when it is
      twelve its third character is a digit of N. */
  lemma AgoShape(m: nat)
    ensures |JsString.IntToString(m) + " days ago"| >= 10
    ensures |JsString.IntToString(m) + " days ago"| == 12 ==>
      JsString.IsDecimalDigit((JsString.IntToString(m) + " days ago")[2])
  {
  }

  /** Only a date `k` days ahead, `k` from two to seven, is labelled
      "In k days". */
  lemma AheadLabelDays(s: string, today: Date, k: nat)
    requires IsRealDate(today) && ParseIsoDate(s).Some? && 2 <= k <= 7
    requires GetRelativeDate(s, today) == "In " + JsString.IntToString(k) + " days"
    ensures DayNumber(ParseIsoDate(s).value) - DayNumber(today) == k
  {
    var n := DayNumber(ParseIsoDate(s).value) - DayNumber(today);
    RelativeLabelLengths(s, today);
    assert 2 <= n <= 7;
    assert JsString.IntToString(k) == [JsString.DigitChar(k)];
    assert JsString.IntToString(n) == [JsString.DigitChar(n)];
    assert GetRelativeDate(s, today)[3] == JsString.DigitChar(n);
  }

  /** A date more than one day back is labelled with the number of days. */
  lemma PastLabel(s: string, today: Date)
    requires IsRealDate(today) && ParseIsoDate(s).Some?
    requires DayNumber(today) - DayNumber(ParseIsoDate(s).value) >= 2
    ensures GetRelativeDate(s, today) ==
      JsString.NatToString(DayNumber(today) - DayNumber(ParseIsoDate(s).value)) + " days ago"
  {
  }

  /** Only a date `k` days back, `k` at least two, is labelled
      "k days ago". */
  lemma AgoLabelDays(s: string, today: Date, k: nat)
    requires IsRealDate(today) && ParseIsoDate(s).Some? && k >= 2
    requires GetRelativeDate(s, today) == JsString.IntToString(k) + " days ago"
    ensures DayNumber(today) - DayNumber(ParseIsoDate(s).value) == k
  {
    var n := DayNumber(ParseIsoDate(s).value) - DayNumber(today);
    RelativeLabelLengths(s, today);
    AgoShape(k);
    if n > 7 {
      DisplayShape(s);
      assert false;
    }
    assert n < -1;
    var digits := JsString.IntToString(-n);
    assert digits == GetRelativeDate(s, today)[..|digits|] == JsString.IntToString(k);
    JsString.NatToStringInjective(-n, k);
  }

  /** From two to seven days ahead the label is "In N days", N being the
      number of days from today, and no other date gets that label. */
  lemma RelativeDaysAhead(s: string, today: Date, k: nat)
    requires IsRealDate(today) && ParseIsoDate(s).Some? && 2 <= k <= 7
    ensures GetRelativeDate(s, today) == "In " + JsString.IntToString(k) + " days" <==>
      ParseIsoDate(s).value == AddDays(today, k)
  {
    AddDaysOrdinal(today, k);
    OrdinalOrder(ParseIsoDate(s).value, AddDays(today, k));
    if GetRelativeDate(s, today) == "In " + JsString.IntToString(k) + " days" {
      AheadLabelDays(s, today, k);
    }
  }

  /** More than one day back the label is "N days ago", N being the number
      of days from the date to today, and no other date gets that label. */
  lemma RelativeDaysAgo(s: string, today: Date, k: nat)
    requires IsRealDate(today) && ParseIsoDate(s).Some? && k >= 2
    ensures GetRelativeDate(s, today) == JsString.IntToString(k) + " days ago" <==>
      AddDays(ParseIsoDate(s).value, k) == today
  {
    var d := ParseIsoDate(s).value;
    AddDaysOrdinal(d, k);
    OrdinalOrder(AddDays(d, k), today);
    if AddDays(d, k) == today {
      PastLabel(s, today);
    } else if GetRelativeDate(s, today) == JsString.IntToString(k) + " days ago" {
      AgoLabelDays(s, today, k);
    }
  }

  /** The number in an "N days ago" label reads back as the days from the
      date to today. */
  lemma AgoReadsBack(s: string, today: Date, k: nat)
    requires IsRealDate(today) && ParseIsoDate(s).Some? && k >= 2
    requires AddDays(ParseIsoDate(s).value, k) == today
    ensures JsString.ParseInt(GetRelativeDate(s, today)) == Some(k)
  {
    RelativeDaysAgo(s, today, k);
    JsString.ParseIntOfLeadingNat(k, " days ago");
  }

  /** A date more than a week ahead, that is after the day seven days from
      today, is shown in the display form, and no nearer date is. */
  lemma RelativeBeyondWeek(s: string, today: Date)
    requires IsRealDate(today) && ParseIsoDate(s).Some?
    ensures GetRelativeDate(s, today) == FormatDate(s, DefaultPattern) <==>
      Before(AddDays(today, 7), ParseIsoDate(s).value)
  {
    var d := ParseIsoDate(s).value;
    var n := DayNumber(d) - DayNumber(today);
    AddDaysOrdinal(today, 7);
    OrdinalOrder(AddDays(today, 7), d);
    DisplayShape(s);
    if n < -1 {
      AgoShape(-n);
    } else if n <= 7 {
      RelativeLabelLengths(s, today);
    }
  }
}
