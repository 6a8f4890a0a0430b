/** Worked examples of the date helper on concrete strings. */
module DateExamples {
  import opened Wrappers
  import opened Calendar
  import opened DateFns
  import opened DateHelper

  /** The fields of a string in ISO form, digit by digit. */
  lemma IsoFields(s: string)
    requires IsIsoShape(s)
    ensures ShapeDate(s) == Date(1000 * DigitOf(s[0]) + 100 * DigitOf(s[1]) + 10 * DigitOf(s[2]) + DigitOf(s[3]),
                                 10 * DigitOf(s[5]) + DigitOf(s[6]), 10 * DigitOf(s[8]) + DigitOf(s[9]))
  {
    NumFour(s[..4]);
    NumTwo(s[5..7]);
    NumTwo(s[8..]);
  }

  /** February 29 is a day of leap years only. */
  lemma LeapDay()
    ensures ValidateDate(Text("2024-02-29")) == Valid(Date(2024, 2, 29))
    ensures ValidateDate(Text("2023-02-29")) == Invalid(FormatMessage)
  {
    LeapYearDay("2024-02-29");
    CommonYearDay("2023-02-29");
  }

  lemma LeapYearDay(a: string)
    requires a == "2024-02-29"
    ensures ValidateDate(Text(a)) == Valid(Date(2024, 2, 29))
  {
    assert IsIsoShape(a);
    IsoFields(a);
    IsoValidation(a, Date(2024, 2, 29));
  }

  lemma CommonYearDay(a: string)
    requires a == "2023-02-29"
    ensures ValidateDate(Text(a)) == Invalid(FormatMessage)
  {
    assert IsIsoShape(a);
    IsoFields(a);
    IsoValidation(a, Date(2023, 2, 29));
  }

  /** A string in ISO form is valid exactly when the date it names exists. */
  lemma IsoValidation(a: string, d: Date)
    requires IsIsoShape(a) && ShapeDate(a) == d
    ensures ValidateDate(Text(a)) == if IsRealDate(d) then Valid(d) else Invalid(FormatMessage)
  {
  }

  /** A month 13, single-digit fields, slashes and an empty or missing
      argument are rejected, each with its message. */
  lemma RejectedDates()
    ensures ValidateDate(Text("2024-13-45")) == Invalid(FormatMessage)
    ensures ValidateDate(Text("2024-1-5")) == Invalid(FormatMessage)
    ensures ValidateDate(Text("2024/12/31")) == Invalid(FormatMessage)
    ensures ValidateDate(Text("")) == Invalid(RequiredMessage)
    ensures ValidateDate(NonString) == Invalid(RequiredMessage)
  {
    var a := "2024-13-45";
    assert IsIsoShape(a);
    IsoFields(a);
  }

  /** Two strings in ISO form that name the same date are equal. */
  lemma IsoFormUnique(a: string, b: string)
    requires ParseIsoDate(a).Some? && ParseIsoDate(a) == ParseIsoDate(b) && ParseIsoDate(a).value.year >= 1
    ensures a == b
  {
    IsoRenderingOfString(a);
    IsoRenderingOfString(b);
  }

  /** Two dates in ISO form. */
  lemma KnownIso()
    ensures ParseIsoDate("2024-03-04") == Some(Date(2024, 3, 4))
    ensures ParseIsoDate("2024-12-31") == Some(Date(2024, 12, 31))
  {
    var a, b := "2024-03-04", "2024-12-31";
    assert IsIsoShape(a) && IsIsoShape(b);
    IsoFields(a);
    IsoFields(b);
  }

  /** An ambiguous date is read month first. */
  lemma MonthFirstExample()
    ensures ParseToIso("03/04/2024") == Parsed("2024-03-04")
  {
    SlashExample("03/04/2024");
    KnownIso();
    MonthFirstOf("03/04/2024", "2024-03-04", Date(2024, 3, 4));
  }

  /** The last day of 2024 written month first. */
  lemma MonthFirstYearEnd()
    ensures ParseToIso("12/31/2024") == Parsed("2024-12-31")
  {
    SlashExample("12/31/2024");
    KnownIso();
    MonthFirstOf("12/31/2024", "2024-12-31", Date(2024, 12, 31));
  }

  /** A date whose first field cannot be a month is read day first. */
  lemma DayFirstExample()
    ensures ParseToIso("31/12/2024") == Parsed("2024-12-31")
  {
    SlashExample("31/12/2024");
    KnownIso();
    DayFirstOf("31/12/2024", "2024-12-31", Date(2024, 12, 31));
  }

  lemma MonthFirstOf(s: string, iso: string, d: Date)
    requires SlashShape(s) && MonthFirst(s) == d && Plausible(d).Some?
    requires ParseIsoDate(iso) == Some(d)
    ensures ParseToIso(s) == Parsed(iso)
  {
    SlashMonthFirst(s);
    IsoFormUnique(ParseToIso(s).isoDate, iso);
  }

  lemma DayFirstOf(s: string, iso: string, d: Date)
    requires SlashShape(s) && Plausible(MonthFirst(s)).None? && DayFirst(s) == d && Plausible(d).Some?
    requires ParseIsoDate(iso) == Some(d)
    ensures ParseToIso(s) == Parsed(iso)
  {
    SlashDayFirst(s);
    IsoFormUnique(ParseToIso(s).isoDate, iso);
  }

  /** The two readings of the slash examples, digit by digit. */
  lemma SlashExample(s: string)
    requires s == "03/04/2024" || s == "31/12/2024" || s == "12/31/2024"
    ensures SlashShape(s)
    ensures MonthFirst(s) == DayFirst(s).(month := DayFirst(s).day, day := DayFirst(s).month)
    ensures DayFirst(s) == Date(1000 * DigitOf(s[6]) + 100 * DigitOf(s[7]) + 10 * DigitOf(s[8]) + DigitOf(s[9]),
                                10 * DigitOf(s[3]) + DigitOf(s[4]), 10 * DigitOf(s[0]) + DigitOf(s[1]))
  {
    assert SlashShape(s);
    NumTwo(s[..2]);
    NumTwo(s[3..5]);
    NumFour(s[6..]);
  }

  /** Text that is no date in any layout is reported as unparsable. */
  lemma NotADate()
    ensures ParseToIso("not-a-date") == Unparsable(ParseMessage)
  {
    var s := "not-a-date";
    assert !IsIsoShape(s);
    NoDelimiterUnparsable(s);
  }

  /** Two fields already at their width are not padded. */
  lemma PaddedExamples()
    ensures ZeroPad(31, 2) == "31" && ZeroPad(15, 2) == "15" && ZeroPad(2024, 4) == "2024"
  {
    NumTwo("15");
    ZeroPadOfDigits("15");
    NumTwo("31");
    ZeroPadOfDigits("31");
    NumFour("2024");
    ZeroPadOfDigits("2024");
  }

  /** The display form of the last day of 2024. */
  lemma DisplayExample()
    ensures FormatDate("2024-12-31", DefaultPattern) == "Dec 31, 2024"
  {
    KnownIso();
    DisplayOf("2024-12-31");
  }

  /** The display form of any string naming that day. */
  lemma DisplayOf(s: string)
    requires ParseIsoDate(s) == Some(Date(2024, 12, 31))
    ensures FormatDate(s, DefaultPattern) == "Dec 31, 2024"
  {
    DefaultDisplay(s);
    PaddedExamples();
    DecemberName();
    DisplayWords(ShortMonths[11], ZeroPad(31, 2), ZeroPad(EraYear(2024), 4));
  }

  lemma DecemberName()
    ensures ShortMonths[11] == "Dec"
  {
  }

  /** The words of the display form of the last day of 2024, joined. */
  lemma DisplayWords(name: string, dd: string, y: string)
    requires name == "Dec" && dd == "31" && y == "2024"
    ensures name + " " + dd + ", " + y == "Dec 31, 2024"
  {
  }

  /** The display form is read back. */
  lemma DisplayParseExample()
    ensures ParseToIso("Dec 31, 2024") == Parsed("2024-12-31")
  {
    var s := "2024-12-31";
    KnownIso();
    DisplayExample();
    DisplayReadsBack(s);
  }

  /** The long display form of a day in January. */
  lemma LongExample()
    ensures FormatDate("2024-01-15", LongPattern) == "January 15, 2024"
  {
    var s := "2024-01-15";
    assert IsIsoShape(s);
    IsoFields(s);
    LongOf(s);
  }

  /** The long display form of any string naming that day. */
  lemma LongOf(s: string)
    requires ParseIsoDate(s) == Some(Date(2024, 1, 15))
    ensures FormatDate(s, LongPattern) == "January 15, 2024"
  {
    var d := Date(2024, 1, 15);
    LongRendering(d);
    assert FormatDate(s, LongPattern) == FormatPattern(d, LongPattern).value;
    LongText();
  }

  /** The parts of that long display form. */
  lemma LongText()
    ensures LongMonths[0] + " " + ZeroPad(15, 2) + ", " + ZeroPad(EraYear(2024), 4) == "January 15, 2024"
  {
    PaddedExamples();
  }
}
