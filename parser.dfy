/**
 * The message parser of scripts/processInput.py: a message
 * "DD/MM/YYYY; VALUE[+VALUE...]; CATEGORY; DESCRIPTION" is read into six
 * nullable fields (day, month, year, value, category, description) and a
 * validity flag. The pure field parsers below are the specification; the
 * class `UserInputProcessor` sets the fields one step at a time, as the
 * source does, and is proved to end in the state `Parse` describes.
 */
module InputParser {
  import opened Wrappers
  import opened Text
  import opened Registry

  // ---------------------------------------------------------------------
  // Dates: datetime.strptime(s, "%d/%m/%Y")
  // ---------------------------------------------------------------------

  datatype Date = Date(day: nat, month: nat, year: nat)

  /** Gregorian leap years. */
  predicate IsLeap(y: int) {
    y % 4 == 0 && (y % 100 != 0 || y % 400 == 0)
  }

  function DaysInMonth(m: int, y: int): (n: nat)
    requires 1 <= m <= 12
    ensures 28 <= n <= 31
    ensures n == 29 <==> m == 2 && IsLeap(y)
  {
    if m == 2 then (if IsLeap(y) then 29 else 28)
    else if m == 4 || m == 6 || m == 9 || m == 11 then 30
    else 31
  }

  /** The dates `datetime.date` accepts: years 1 to 9999 and a day that exists in its month. */
  predicate ValidDate(d: Date) {
    1 <= d.year <= 9999 && 1 <= d.month <= 12 && 1 <= d.day <= DaysInMonth(d.month, d.year)
  }

  predicate NonZeroDigit(c: char) {
    '1' <= c <= '9'
  }

  /** The `%d` directive, `3[01]|[12]\d|0[1-9]|[1-9]| [1-9]`, matched against a whole field. */
  function DayDigits(f: string): (r: Option<nat>)
    ensures r.Some? ==> 1 <= r.value <= 31
  {
    if |f| == 2 && f[0] == '3' && (f[1] == '0' || f[1] == '1') then Some(30 + DigitValue(f[1]))
    else if |f| == 2 && (f[0] == '1' || f[0] == '2') && IsDigit(f[1]) then Some(10 * DigitValue(f[0]) + DigitValue(f[1]))
    else if |f| == 2 && f[0] == '0' && NonZeroDigit(f[1]) then Some(DigitValue(f[1]))
    else if |f| == 1 && NonZeroDigit(f[0]) then Some(DigitValue(f[0]))
    else if |f| == 2 && f[0] == ' ' && NonZeroDigit(f[1]) then Some(DigitValue(f[1]))
    else None
  }

  /** The `%m` directive, `1[0-2]|0[1-9]|[1-9]`. */
  function MonthDigits(f: string): (r: Option<nat>)
    ensures r.Some? ==> 1 <= r.value <= 12
  {
    if |f| == 2 && f[0] == '1' && '0' <= f[1] <= '2' then Some(10 + DigitValue(f[1]))
    else if |f| == 2 && f[0] == '0' && NonZeroDigit(f[1]) then Some(DigitValue(f[1]))
    else if |f| == 1 && NonZeroDigit(f[0]) then Some(DigitValue(f[0]))
    else None
  }

  /** The `%Y` directive, exactly four digits. */
  function YearDigits(f: string): (r: Option<nat>)
    ensures r.Some? ==> r.value <= 9999
  {
    if |f| == 4 && AllDigits(f) then DigitsValueBound(f); Some(DigitsValue(f)) else None
  }

  /**
   * `strptime(s, "%d/%m/%Y")`. None of the three directives can match a
   * '/', so the regular expression matches exactly when the text splits on
   * '/' into three fields that the directives match, with nothing left
   * over; `date(year, month, day)` then rejects year 0 and days the month
   * does not have.
   */
  function ParseDate(s: string): (r: Option<Date>)
    ensures r.Some? ==> ValidDate(r.value)
  {
    var fields := Split(s, '/');
    if |fields| != 3 then None
    else
      match (DayDigits(fields[0]), MonthDigits(fields[1]), YearDigits(fields[2]))
      case (Some(d), Some(m), Some(y)) =>
        if 1 <= y && d <= DaysInMonth(m, y) then Some(Date(d, m, y)) else None
      case _ => None
  }

  /** `f"{n:02}"` for a number below 100. */
  function Pad2(n: nat): (s: string)
    requires n < 100
    ensures |s| == 2 && AllDigits(s) && DigitsValue(s) == n
  {
    var s := [DigitChar(n / 10), DigitChar(n % 10)];
    assert s[..1][..0] == [];
    assert s[..1] == [s[0]];
    assert DigitsValue(s[..1]) == n / 10;
    assert n / 10 * 10 + n % 10 == n;
    s
  }

  // ---------------------------------------------------------------------
  // Values: a '+'-separated sum of terms with at most two decimals
  // ---------------------------------------------------------------------

  /** Length of the run of digits at the front of `t`. */
  function DigitRun(t: string): (n: nat)
    ensures n <= |t| && (forall i :: 0 <= i < n ==> IsDigit(t[i])) && (n < |t| ==> !IsDigit(t[n]))
  {
    if t != [] && IsDigit(t[0]) then 1 + DigitRun(t[1..]) else 0
  }

  /**
   * `re.match(r"^\d+(\.\d{1,2})?$", t)`: the digit run cannot stop before
   * a digit, so it is the whole run at the front, followed by nothing or
   * by '.' and one or two digits.
   */
  predicate IsTerm(t: string) {
    var n := DigitRun(t);
    n >= 1 && (n == |t| || (t[n] == '.' && 2 <= |t| - n <= 3 && AllDigits(t[n + 1..])))
  }

  predicate AllTerms(terms: seq<string>) {
    forall i :: 0 <= i < |terms| ==> IsTerm(terms[i])
  }

  /** The exact value of a term, in hundredths. */
  function TermCents(t: string): nat
    requires IsTerm(t)
  {
    var n := DigitRun(t);
    var whole := DigitsValue(t[..n]);
    if n == |t| then whole * 100
    else if |t| - n == 2 then whole * 100 + 10 * DigitValue(t[n + 1])
    else whole * 100 + 10 * DigitValue(t[n + 1]) + DigitValue(t[n + 2])
  }

  function SumCents(terms: seq<string>): nat
    requires AllTerms(terms)
  {
    if terms == [] then 0 else TermCents(terms[0]) + SumCents(terms[1..])
  }

  /** `f"{x:.2f}"` of an amount of `c` hundredths. */
  function FormatCents(c: nat): string {
    NatToString(c / 100) + "." + [DigitChar(c % 100 / 10), DigitChar(c % 10)]
  }

  /** `processValue`: every term must match, and the result is the sum with two decimals. */
  function ParseValue(s: string): Option<string> {
    var terms := Split(s, '+');
    if AllTerms(terms) then Some(FormatCents(SumCents(terms))) else None
  }

  // ---------------------------------------------------------------------
  // Categories and descriptions
  // ---------------------------------------------------------------------

  /**
   * `processCategory`: the key of the text must be one of the category
   * keys, and its canonical name is the result. The source looks the key up
   * in its two dictionaries; `CategoryLookup` shows that this is the
   * category at the position of the key.
   */
  function ParseCategory(s: string): Option<string> {
    match IndexOf(CategoryKeys, Normalize(s))
    case None => None
    case Some(i) => Some(Categories[i])
  }

  /** The dictionary lookup of `processCategory`. */
  function DictCategory(s: string): Option<string> {
    var k := Normalize(s);
    if k in NameToLower().Values then
      LowerToNameKeys(k);
      Some(LowerToName()[k])
    else None
  }

  lemma LowerToNameKeys(k: string)
    requires k in NameToLower().Values
    ensures k in LowerToName()
  {
    var c :| c in NameToLower() && NameToLower()[c] == k;
  }

  /** `processDescription`: the stripped text, unless it is empty. */
  function ParseDescription(s: string): Option<string> {
    var d := Strip(s);
    if d != [] then Some(d) else None
  }

  // ---------------------------------------------------------------------
  // The whole message
  // ---------------------------------------------------------------------

  /** The six nullable attributes of a processed message. */
  datatype Parsed = Parsed(
    day: Option<string>, month: Option<string>, year: Option<int>,
    value: Option<string>, category: Option<string>, description: Option<string>)
  {
    /** `isValid`: no attribute is None. */
    predicate IsValid() {
      day.Some? && month.Some? && year.Some? && value.Some? && category.Some? && description.Some?
    }
  }

  const NoFields := Parsed(None, None, None, None, None, None)

  /** The attributes `processDate` sets: all three on success, none on failure. */
  function DateFields(date: Option<Date>): Parsed
    requires date.Some? ==> ValidDate(date.value)
  {
    match date
    case None => NoFields
    case Some(d) => NoFields.(day := Some(Pad2(d.day)), month := Some(MonthName(d.month)), year := Some(d.year))
  }

  /** What `__init__` leaves in the six attributes for `message`. */
  function Parse(message: string): Parsed {
    var segments := Split(message, ';');
    if |segments| != 4 then NoFields
    else
      DateFields(ParseDate(Strip(segments[0]))).(
        value := ParseValue(Strip(segments[1])),
        category := ParseCategory(Strip(segments[2])),
        description := ParseDescription(Strip(segments[3])))
  }

  function Or<T>(a: Option<T>, b: Option<T>): Option<T> {
    if a.Some? then a else b
  }

  /** The attributes after a step that sets those of `n` that are not None. */
  function Overlay(o: Parsed, n: Parsed): Parsed {
    Parsed(Or(n.day, o.day), Or(n.month, o.month), Or(n.year, o.year),
           Or(n.value, o.value), Or(n.category, o.category), Or(n.description, o.description))
  }

  /** What `processDate` does to the attributes: all three date attributes on success, nothing on failure. */
  function DateStep(o: Parsed, dateString: string): Parsed {
    var d := DateFields(ParseDate(dateString));
    o.(day := Or(d.day, o.day), month := Or(d.month, o.month), year := Or(d.year, o.year))
  }

  /** What `processValue` does to the attributes. */
  function ValueStep(o: Parsed, valueString: string): Parsed {
    o.(value := Or(ParseValue(valueString), o.value))
  }

  /** What `processCategory` does to the attributes. */
  function CategoryStep(o: Parsed, categoryString: string): Parsed {
    o.(category := Or(ParseCategory(categoryString), o.category))
  }

  /** What `processDescription` does to the attributes. */
  function DescriptionStep(o: Parsed, descriptionString: string): Parsed {
    o.(description := Or(ParseDescription(descriptionString), o.description))
  }

  // ---------------------------------------------------------------------
  // Properties of the date parser
  // ---------------------------------------------------------------------

  /** A number below ten in its plain and its zero-padded rendering. */
  lemma OneDigitTexts(n: nat)
    requires n < 10
    ensures NatToString(n) == [DigitChar(n)] && Pad2(n) == ['0', DigitChar(n)]
  {
    assert DigitChar(0) == '0';
  }

  /** A two-digit number renders the same, plain or zero-padded. */
  lemma TwoDigitTexts(n: nat)
    requires 10 <= n < 100
    ensures NatToString(n) == Pad2(n) == [DigitChar(n / 10), DigitChar(n % 10)]
  {
    assert NatToString(n / 10) == [DigitChar(n / 10)];
  }

  /** Both renderings of a day, zero-padded and plain, match `%d`. */
  lemma DayDigitsOf(n: nat)
    requires 1 <= n <= 31
    ensures DayDigits(Pad2(n)) == Some(n)
    ensures DayDigits(NatToString(n)) == Some(n)
  {
    if n < 10 {
      OneDigitTexts(n);
    } else {
      TwoDigitTexts(n);
      DayDigitsTwo(n / 10, n % 10);
    }
  }

  lemma DayDigitsTwo(t: nat, u: nat)
    requires 1 <= t <= 3 && u < 10 && 10 * t + u <= 31
    ensures DayDigits([DigitChar(t), DigitChar(u)]) == Some(10 * t + u)
  {
    var f := [DigitChar(t), DigitChar(u)];
    if t == 3 {
      assert f[0] == '3';
    } else {
      assert f[0] == '1' || f[0] == '2';
    }
  }

  /** Both renderings of a month number, zero-padded and plain, match `%m`. */
  lemma MonthDigitsOf(m: nat)
    requires 1 <= m <= 12
    ensures MonthDigits(Pad2(m)) == Some(m)
    ensures MonthDigits(NatToString(m)) == Some(m)
  {
    if m < 10 {
      OneDigitTexts(m);
    } else {
      TwoDigitTexts(m);
      assert DigitChar(m / 10) == '1';
    }
  }

  /** `str(y)` of a four-digit year matches `%Y`. */
  lemma YearDigitsOf(y: nat)
    requires 1000 <= y <= 9999
    ensures YearDigits(NatToString(y)) == Some(y)
  {
    NatToStringFour(y);
    NatToStringValue(y);
  }

  lemma SplitThree(a: string, b: string, c: string, sep: char)
    requires sep !in a && sep !in b && sep !in c
    ensures Split(a + [sep] + b + [sep] + c, sep) == [a, b, c]
  {
    SplitFree(c, sep);
    SplitPrefix(b, c, sep);
    assert a + [sep] + b + [sep] + c == a + [sep] + (b + [sep] + c);
    SplitPrefix(a, b + [sep] + c, sep);
  }

  lemma NoSlashInDigits(f: string)
    requires DayDigits(f).Some? || MonthDigits(f).Some? || YearDigits(f).Some?
    ensures '/' !in f
  {
  }

  /**
   * Three fields that the directives match form a date exactly when that
   * date exists: the calendar check is the only further condition.
   */
  lemma ParseDateOfFields(dt: string, mt: string, yt: string)
    requires DayDigits(dt).Some? && MonthDigits(mt).Some? && YearDigits(yt).Some?
    ensures var d := Date(DayDigits(dt).value, MonthDigits(mt).value, YearDigits(yt).value);
      ParseDate(dt + "/" + mt + "/" + yt) == if ValidDate(d) then Some(d) else None
  {
    NoSlashInDigits(dt);
    NoSlashInDigits(mt);
    NoSlashInDigits(yt);
    SplitThree(dt, mt, yt, '/');
  }

  /** Every date `date` accepts with a four-digit year is read back from "D/M/YYYY", "DD/MM/YYYY" and "DD/M/YYYY". */
  lemma DateRoundTrip(d: Date)
    requires ValidDate(d) && 1000 <= d.year
    ensures ParseDate(NatToString(d.day) + "/" + NatToString(d.month) + "/" + NatToString(d.year)) == Some(d)
    ensures ParseDate(Pad2(d.day) + "/" + Pad2(d.month) + "/" + NatToString(d.year)) == Some(d)
    ensures ParseDate(Pad2(d.day) + "/" + NatToString(d.month) + "/" + NatToString(d.year)) == Some(d)
  {
    DayDigitsOf(d.day);
    MonthDigitsOf(d.month);
    YearDigitsOf(d.year);
    ParseDateOfFields(NatToString(d.day), NatToString(d.month), NatToString(d.year));
    ParseDateOfFields(Pad2(d.day), Pad2(d.month), NatToString(d.year));
    ParseDateOfFields(Pad2(d.day), NatToString(d.month), NatToString(d.year));
  }

  /** A year text of four digits matches `%Y` with its value. */
  lemma YearOfText(yt: string, y: nat)
    requires |yt| == 4 && AllDigits(yt)
    requires 1000 * DigitValue(yt[0]) + 100 * DigitValue(yt[1]) + 10 * DigitValue(yt[2]) + DigitValue(yt[3]) == y
    ensures YearDigits(yt) == Some(y)
  {
    DigitsValueFour(yt);
  }

  lemma FebruaryFields()
    ensures DayDigits("29") == Some(29) && DayDigits("31") == Some(31) && MonthDigits("02") == Some(2)
  {
  }

  /** "D/02/YYYY" is a date exactly when day `d` exists in February of that year. */
  lemma FebruaryDay(dt: string, yt: string, dd: nat, y: nat)
    requires DayDigits(dt) == Some(dd) && YearDigits(yt) == Some(y)
    ensures ParseDate(dt + "/02/" + yt) == if 1 <= y && dd <= DaysInMonth(2, y) then Some(Date(dd, 2, y)) else None
  {
    FebruaryFields();
    ParseDateOfFields(dt, "02", yt);
    assert dt + "/" + "02" + "/" + yt == dt + "/02/" + yt;
  }

  /** 31 February never exists. */
  lemma DateExampleFebruary31()
    ensures ParseDate("31/02/2024") == None
  {
    FebruaryFields();
    YearOfText("2024", 2024);
    FebruaryDay("31", "2024", 31, 2024);
    assert DaysInMonth(2, 2024) == 29;
    assert "31" + "/02/" + "2024" == "31/02/2024";
  }

  /** 29 February exists in the leap year 2024 ... */
  lemma DateExampleLeap()
    ensures ParseDate("29/02/2024") == Some(Date(29, 2, 2024))
  {
    FebruaryFields();
    YearOfText("2024", 2024);
    FebruaryDay("29", "2024", 29, 2024);
    assert DaysInMonth(2, 2024) == 29;
    assert "29" + "/02/" + "2024" == "29/02/2024";
  }

  /** ... and not in 2023. */
  lemma DateExampleCommonYear()
    ensures ParseDate("29/02/2023") == None
  {
    FebruaryFields();
    YearOfText("2023", 2023);
    FebruaryDay("29", "2023", 29, 2023);
    assert DaysInMonth(2, 2023) == 28;
    assert "29" + "/02/" + "2023" == "29/02/2023";
  }

  /** A century is a leap year only when divisible by 400: not 1900 ... */
  lemma DateExampleCentury()
    ensures ParseDate("29/02/1900") == None
  {
    FebruaryFields();
    YearOfText("1900", 1900);
    FebruaryDay("29", "1900", 29, 1900);
    assert DaysInMonth(2, 1900) == 28;
    assert "29" + "/02/" + "1900" == "29/02/1900";
  }

  /** ... but 2000. */
  lemma DateExampleFourCenturies()
    ensures ParseDate("29/02/2000") == Some(Date(29, 2, 2000))
  {
    FebruaryFields();
    YearOfText("2000", 2000);
    FebruaryDay("29", "2000", 29, 2000);
    assert DaysInMonth(2, 2000) == 29;
    assert "29" + "/02/" + "2000" == "29/02/2000";
  }

  // ---------------------------------------------------------------------
  // Properties of the value parser
  // ---------------------------------------------------------------------

  lemma {:induction false} DigitRunOf(w: string, rest: string)
    requires AllDigits(w) && (rest == [] || !IsDigit(rest[0]))
    ensures DigitRun(w + rest) == |w|
    decreases |w|
  {
    if w != [] {
      assert (w + rest)[1..] == w[1..] + rest;
      DigitRunOf(w[1..], rest);
    } else {
      assert w + rest == rest;
    }
  }

  /** Digits alone are a term worth that many units. */
  lemma TermOfDigits(w: string)
    requires w != [] && AllDigits(w)
    ensures IsTerm(w) && TermCents(w) == 100 * DigitsValue(w)
  {
    DigitRunOf(w, []);
    assert w + [] == w;
    assert w[..|w|] == w;
  }

  /** Digits, '.', digits is a term exactly when there are one or two decimals, worth the decimal value. */
  lemma TermWithDecimals(w: string, f: string)
    requires w != [] && AllDigits(w) && AllDigits(f)
    ensures IsTerm(w + "." + f) <==> 1 <= |f| <= 2
    ensures |f| == 1 ==> TermCents(w + "." + f) == 100 * DigitsValue(w) + 10 * DigitValue(f[0])
    ensures |f| == 2 ==> TermCents(w + "." + f) == 100 * DigitsValue(w) + 10 * DigitValue(f[0]) + DigitValue(f[1])
  {
    var t := w + "." + f;
    var n := |w|;
    DigitRunOf(w, "." + f);
    assert w + ("." + f) == t;
    assert t[..n] == w;
    assert t[n] == '.';
    assert t[n + 1..] == f;
    if 1 <= |f| {
      assert t[n + 1] == f[0];
    }
    if |f| == 2 {
      assert t[n + 2] == f[1];
    }
  }

  lemma FormatCentsShape(c: nat)
    ensures FormatCents(c) == NatToString(c / 100) + "." + [DigitChar(c % 100 / 10), DigitChar(c % 10)]
    ensures '+' !in FormatCents(c)
  {
    var s := FormatCents(c);
    var w := NatToString(c / 100);
    forall i | 0 <= i < |s| ensures s[i] != '+' {
      if i < |w| {
        assert s[i] == w[i];
      }
    }
  }

  /** A formatted amount is a single term worth that amount. */
  lemma FormatCentsTerm(c: nat)
    ensures IsTerm(FormatCents(c)) && TermCents(FormatCents(c)) == c
    ensures '+' !in FormatCents(c)
  {
    var w := NatToString(c / 100);
    var f := [DigitChar(c % 100 / 10), DigitChar(c % 10)];
    FormatCentsShape(c);
    TermWithDecimals(w, f);
    NatToStringValue(c / 100);
    assert 100 * (c / 100) + 10 * (c % 100 / 10) + c % 10 == c;
  }

  lemma SumCentsOne(t: string)
    requires IsTerm(t)
    ensures AllTerms([t]) && SumCents([t]) == TermCents(t)
  {
    assert [t][1..] == [];
  }

  /** The stored value is canonical: parsing it again gives it back. */
  lemma ValueRoundTrip(c: nat)
    ensures ParseValue(FormatCents(c)) == Some(FormatCents(c))
  {
    FormatCentsTerm(c);
    SplitFree(FormatCents(c), '+');
    SumCentsOne(FormatCents(c));
  }

  /** Whatever `processValue` stores, it would store again if given the stored text. */
  lemma ParseValueIdempotent(s: string)
    requires ParseValue(s).Some?
    ensures ParseValue(ParseValue(s).value) == ParseValue(s)
  {
    ValueRoundTrip(SumCents(Split(s, '+')));
  }

  lemma SumCentsThree(a: string, b: string, c: string)
    requires IsTerm(a) && IsTerm(b) && IsTerm(c)
    ensures AllTerms([a, b, c]) && SumCents([a, b, c]) == TermCents(a) + TermCents(b) + TermCents(c)
  {
    var terms := [a, b, c];
    assert terms[1..] == [b, c];
    assert terms[1..][1..] == [c];
    SumCentsOne(c);
  }

  lemma ExampleTerms()
    ensures IsTerm("35.00") && TermCents("35.00") == 3500
    ensures IsTerm("45.1") && TermCents("45.1") == 4510
    ensures IsTerm("3") && TermCents("3") == 300
  {
    ExampleTermTwoDecimals();
    ExampleTermOneDecimal();
    ExampleTermWhole();
  }

  lemma ExampleTermTwoDecimals()
    ensures IsTerm("35.00") && TermCents("35.00") == 3500
  {
    DigitsValueTwo("35");
    TermWithDecimals("35", "00");
    ExampleTermTexts();
  }

  lemma ExampleTermOneDecimal()
    ensures IsTerm("45.1") && TermCents("45.1") == 4510
  {
    DigitsValueTwo("45");
    TermWithDecimals("45", "1");
    ExampleTermTexts();
  }

  lemma ExampleTermWhole()
    ensures IsTerm("3") && TermCents("3") == 300
  {
    DigitsValueOne("3");
    TermOfDigits("3");
  }

  lemma ExampleTermTexts()
    ensures "35" + "." + "00" == "35.00" && "45" + "." + "1" == "45.1"
  {
  }

  lemma FormatExample()
    ensures FormatCents(8310) == "83.10"
  {
    assert NatToString(83) == "83";
  }

  /** The example sum of the source: 35.00 + 45.1 + 3 is stored as "83.10". */
  lemma ValueSumExample()
    ensures ParseValue("35.00+45.1+3") == Some("83.10")
  {
    ExampleTerms();
    SumCentsThree("35.00", "45.1", "3");
    SplitThree("35.00", "45.1", "3", '+');
    assert "35.00" + ['+'] + "45.1" + ['+'] + "3" == "35.00+45.1+3";
    FormatExample();
  }

  /** A third decimal makes the value invalid. */
  lemma ValueDecimalsRejected()
    ensures ParseValue("5.123") == None
  {
    TermWithDecimals("5", "123");
    assert "5" + "." + "123" == "5.123";
    SplitFree("5.123", '+');
  }

  /** Terms are not stripped, so spaces around '+' make the value invalid. */
  lemma ValueSpacesRejected()
    ensures ParseValue("2 + 4.50") == None
  {
    SplitFree(" 4.50", '+');
    SplitPrefix("2 ", " 4.50", '+');
    assert "2 " + ['+'] + " 4.50" == "2 + 4.50";
    DigitRunOf("2", " ");
    assert "2" + " " == "2 ";
    assert !IsTerm("2 ");
  }

  // ---------------------------------------------------------------------
  // Properties of the category and description parsers
  // ---------------------------------------------------------------------

  /** A category text is accepted exactly when its key is that of a category, and yields that category. */
  lemma CategoryMatch(s: string)
    ensures ParseCategory(s).Some? ==> ParseCategory(s).value in Categories && Normalize(ParseCategory(s).value) == Normalize(s)
    ensures forall c :: c in Categories && Normalize(c) == Normalize(s) ==> ParseCategory(s) == Some(c)
  {
    CategoryKeysValues();
    forall c | c in Categories && Normalize(c) == Normalize(s) ensures ParseCategory(s) == Some(c) {
      var j := PositionOf(Categories, c);
      var i := IndexOf(CategoryKeys, Normalize(s)).value;
      CategoryKeysUnique(i, j);
    }
  }

  /** Looking the key up in `NAMETOLOWER` and `LOWERTONAME` finds the same category as `ParseCategory`. */
  lemma CategoryLookup(s: string)
    ensures DictCategory(s) == ParseCategory(s)
  {
    CategoryDictsInverse();
    CategoryMatch(s);
    var k := Normalize(s);
    if k in NameToLower().Values {
      var c :| c in NameToLower() && NameToLower()[c] == k;
      assert LowerToName()[k] == c;
    } else {
      assert forall c :: c in Categories ==> NameToLower()[c] != k;
    }
  }

  /** Every category name, and its key, is read back as the category. */
  lemma CategoryRoundTrip(c: string)
    requires c in Categories
    ensures ParseCategory(c) == Some(c)
    ensures ParseCategory(Normalize(c)) == Some(c)
  {
    CategoryMatch(c);
    NormalizeIdempotent(c);
    CategoryMatch(Normalize(c));
  }

  /** Case does not matter: the example message's "OTHeRs" is "Others". */
  lemma CategoryCaseExample()
    ensures ParseCategory("OTHeRs") == Some("Others")
  {
    KeyOfWord("OTHeRs", "others");
    OthersKey();
    CategoryMatch("OTHeRs");
  }

  lemma PlaceholderKey()
    ensures Normalize("Category...") != [] && Normalize("Category...")[0] == 'c'
  {
    var l := Lower("Category...");
    assert l[0] == LowerChar('C') == 'c';
    RemoveSpacesHead(l);
  }

  /** The window's "Category..." placeholder is not a category. */
  lemma PlaceholderRejected()
    ensures ParseCategory("Category...") == None
  {
    PlaceholderKey();
    CategoryMatch("Category...");
    KeyInitials();
  }

  /** No category key starts with 'c'. */
  lemma KeyInitials()
    ensures forall c :: c in Categories ==> Normalize(c) != [] && Normalize(c)[0] != 'c'
  {
    CategoryKeysValues();
    assert forall i :: 0 <= i < |CategoryKeys| ==> CategoryKeys[i] != [] && CategoryKeys[i][0] != 'c';
    forall c | c in Categories ensures Normalize(c) != [] && Normalize(c)[0] != 'c' {
      var i := PositionOf(Categories, c);
      assert Normalize(c) == CategoryKeys[i];
    }
  }

  /** A description is rejected exactly when it is all whitespace; an accepted one is stripped and kept as it is on re-reading. */
  lemma DescriptionShape(s: string)
    ensures ParseDescription(s).None? <==> forall i :: 0 <= i < |s| ==> IsSpace(s[i])
    ensures ParseDescription(s).Some? ==> ParseDescription(s).value != [] && Trimmed(ParseDescription(s).value)
    ensures ParseDescription(s).Some? ==> ParseDescription(ParseDescription(s).value) == ParseDescription(s)
  {
    StripEmpty(s);
    StripShape(s);
    StripIdempotent(s);
  }

  // ---------------------------------------------------------------------
  // Properties of the whole message
  // ---------------------------------------------------------------------

  lemma SplitFour(a: string, b: string, c: string, d: string)
    requires ';' !in a && ';' !in b && ';' !in c && ';' !in d
    ensures Split(a + ";" + b + ";" + c + ";" + d, ';') == [a, b, c, d]
  {
    SplitFree(a, ';');
    SplitSuffix(a, b, ';');
    SplitSuffix(a + ";" + b, c, ';');
    SplitSuffix(a + ";" + b + ";" + c, d, ';');
  }

  /** One more segment of an `add_expense` message: "; " and the text. */
  lemma SplitAfterSpace(x: string, y: string)
    requires ';' !in y
    ensures Split(x + "; " + y, ';') == Split(x, ';') + [" " + y]
  {
    assert x + "; " + y == x + ";" + (" " + y);
    assert ';' !in " " + y;
    SplitSuffix(x, " " + y, ';');
  }

  /** A message without exactly three ';' sets no attribute and is not valid. */
  lemma WrongSegmentCount(message: string)
    requires multiset(message)[';'] != 3
    ensures Parse(message) == NoFields && !Parse(message).IsValid()
  {
    SplitCount(message, ';');
  }

  /**
   * The four parses are independent: two messages that agree on one
   * segment agree on the attributes read from it, whatever the other
   * segments hold, so a failure in one segment never affects another.
   */
  lemma FieldsIndependent(s1: seq<string>, s2: seq<string>)
    requires |s1| == 4 && |s2| == 4
    requires forall i :: 0 <= i < 4 ==> ';' !in s1[i] && ';' !in s2[i]
    ensures var p1, p2 := Parse(Join(s1, ';')), Parse(Join(s2, ';'));
      && (s1[0] == s2[0] ==> p1.day == p2.day && p1.month == p2.month && p1.year == p2.year)
      && (s1[1] == s2[1] ==> p1.value == p2.value)
      && (s1[2] == s2[2] ==> p1.category == p2.category)
      && (s1[3] == s2[3] ==> p1.description == p2.description)
  {
    SplitJoin(s1, ';');
    SplitJoin(s2, ';');
  }

  /**
   * What a processed message holds: the date attributes are set together,
   * the day is a two-digit day number, the month a month name and the
   * year a year `date` accepts; the value is in canonical form, the
   * category one of the categories and the description a stripped,
   * non-empty text without ';'.
   */
  lemma ParseSound(message: string)
    ensures var p := Parse(message);
      && (p.day.Some? <==> p.month.Some?) && (p.day.Some? <==> p.year.Some?)
      && (p.day.Some? ==> |p.day.value| == 2 && AllDigits(p.day.value) && 1 <= DigitsValue(p.day.value) <= 31)
      && (p.month.Some? ==> p.month.value in Months)
      && (p.year.Some? ==> 1 <= p.year.value <= 9999)
      && (p.value.Some? ==> ParseValue(p.value.value) == p.value)
      && (p.category.Some? ==> p.category.value in Categories)
      && (p.description.Some? ==> p.description.value != [] && Trimmed(p.description.value) && ';' !in p.description.value)
  {
    var segments := Split(message, ';');
    if |segments| == 4 {
      SplitPiecesFree(message, ';');
      var date := ParseDate(Strip(segments[0]));
      if date.Some? {
        assert 1 <= date.value.month <= 12;
      }
      var v := Strip(segments[1]);
      if ParseValue(v).Some? {
        ParseValueIdempotent(v);
      }
      CategoryMatch(Strip(segments[2]));
      var t := Strip(segments[3]);
      DescriptionShape(t);
      StripKeepsAbsent(segments[3], ';');
      StripKeepsAbsent(t, ';');
    }
  }

  lemma DigitsNoSeparators(s: string)
    requires AllDigits(s)
    ensures ';' !in s && '/' !in s && '+' !in s
  {
  }

  /** The date text `add_expense` builds for a stored day: neither ';' in it nor whitespace at its ends. */
  lemma DateTextShape(d: Date)
    requires ValidDate(d)
    ensures var t := Pad2(d.day) + "/" + NatToString(d.month) + "/" + NatToString(d.year);
      ';' !in t && t != [] && Trimmed(t)
  {
    var t := Pad2(d.day) + "/" + NatToString(d.month) + "/" + NatToString(d.year);
    DigitsNoSeparators(Pad2(d.day));
    DigitsNoSeparators(NatToString(d.month));
    DigitsNoSeparators(NatToString(d.year));
    assert t[0] == Pad2(d.day)[0];
    var y := NatToString(d.year);
    assert t[|t| - 1] == y[|y| - 1];
  }

  /** The three inputs `add_expense` puts in its message after "; ". */
  lemma CategoryNamesShape()
    ensures forall c :: c in Categories ==> c != [] && Trimmed(c) && ';' !in c
  {
  }

  lemma FormatCentsShapeTrimmed(c: nat)
    ensures FormatCents(c) != [] && Trimmed(FormatCents(c)) && ';' !in FormatCents(c)
  {
    var s := FormatCents(c);
    var w := NatToString(c / 100);
    FormatCentsShape(c);
    assert s[0] == w[0];
    forall i | 0 <= i < |s| ensures s[i] != ';' {
      if i < |w| {
        assert s[i] == w[i];
      }
    }
  }

  lemma StripSpaced(core: string)
    requires core != [] && Trimmed(core)
    ensures Strip(" " + core) == core
  {
    StripPadded(" ", core, "");
    assert " " + core + "" == " " + core;
  }

  /** What `__init__` does with a message of four segments. */
  lemma ParseOfSegments(message: string, a: string, b: string, c: string, d: string)
    requires Split(message, ';') == [a, b, c, d]
    ensures Parse(message).day == DateFields(ParseDate(Strip(a))).day
    ensures Parse(message).month == DateFields(ParseDate(Strip(a))).month
    ensures Parse(message).year == DateFields(ParseDate(Strip(a))).year
    ensures Parse(message).value == ParseValue(Strip(b))
    ensures Parse(message).category == ParseCategory(Strip(c))
    ensures Parse(message).description == ParseDescription(Strip(d))
  {
  }

  /** The four steps of `processMessage`, on the stripped segments, overlay the attributes `__init__` parses. */
  lemma StepsOfSegments(o: Parsed, message: string, a: string, b: string, c: string, d: string)
    requires Split(message, ';') == [a, b, c, d]
    ensures DescriptionStep(CategoryStep(ValueStep(DateStep(o, Strip(a)), Strip(b)), Strip(c)), Strip(d))
         == Overlay(o, Parse(message))
  {
    ParseOfSegments(message, a, b, c, d);
    FieldsDetermine(DescriptionStep(CategoryStep(ValueStep(DateStep(o, Strip(a)), Strip(b)), Strip(c)), Strip(d)),
      Overlay(o, Parse(message)));
  }

  lemma DateOfSegments(message: string, a: string, b: string, c: string, d: string, date: Date)
    requires Split(message, ';') == [a, b, c, d] && ParseDate(Strip(a)) == Some(date)
    ensures Parse(message).day == Some(Pad2(date.day)) && Parse(message).month == Some(MonthName(date.month))
    ensures Parse(message).year == Some(date.year)
  {
  }

  lemma ValueOfSegments(message: string, a: string, b: string, c: string, d: string, v: string)
    requires Split(message, ';') == [a, b, c, d] && ParseValue(Strip(b)) == Some(v)
    ensures Parse(message).value == Some(v)
  {
  }

  lemma CategoryOfSegments(message: string, a: string, b: string, c: string, d: string, cat: string)
    requires Split(message, ';') == [a, b, c, d] && ParseCategory(Strip(c)) == Some(cat)
    ensures Parse(message).category == Some(cat)
  {
  }

  lemma DescriptionOfSegments(message: string, a: string, b: string, c: string, d: string, desc: string)
    requires Split(message, ';') == [a, b, c, d] && ParseDescription(Strip(d)) == Some(desc)
    ensures Parse(message).description == Some(desc)
  {
  }

  /** The segments of a message built as `add_expense` builds it. */
  lemma AddExpenseSegments(date: string, v: string, category: string, description: string)
    requires ';' !in date && ';' !in v && ';' !in category && ';' !in description
    ensures Split(date + "; " + v + "; " + category + "; " + description, ';')
         == [date, " " + v, " " + category, " " + description]
  {
    var m1 := date + "; " + v;
    var m2 := m1 + "; " + category;
    SplitFree(date, ';');
    SplitAfterSpace(date, v);
    assert Split(m1, ';') == [date, " " + v];
    SplitAfterSpace(m1, category);
    assert Split(m2, ';') == [date, " " + v, " " + category];
    SplitAfterSpace(m2, description);
  }

  /** The record of a message is fixed by its six fields. */
  lemma FieldsDetermine(p: Parsed, q: Parsed)
    requires p.day == q.day && p.month == q.month && p.year == q.year
    requires p.value == q.value && p.category == q.category && p.description == q.description
    ensures p == q
  {
  }

  lemma RoundTripDate(m: string, d: Date, b: string, c: string, e: string)
    requires ValidDate(d) && 1000 <= d.year
    requires Split(m, ';') == [Pad2(d.day) + "/" + NatToString(d.month) + "/" + NatToString(d.year), b, c, e]
    ensures Parse(m).day == Some(Pad2(d.day)) && Parse(m).month == Some(MonthName(d.month))
    ensures Parse(m).year == Some(d.year)
  {
    var date := Pad2(d.day) + "/" + NatToString(d.month) + "/" + NatToString(d.year);
    DateTextShape(d);
    StripOfTrimmed(date);
    DateRoundTrip(d);
    DateOfSegments(m, date, b, c, e, d);
  }

  lemma RoundTripValue(m: string, a: string, cents: nat, c: string, e: string)
    requires Split(m, ';') == [a, " " + FormatCents(cents), c, e]
    ensures Parse(m).value == Some(FormatCents(cents))
  {
    FormatCentsShapeTrimmed(cents);
    StripSpaced(FormatCents(cents));
    ValueRoundTrip(cents);
    ValueOfSegments(m, a, " " + FormatCents(cents), c, e, FormatCents(cents));
  }

  lemma RoundTripCategory(m: string, a: string, b: string, category: string, e: string)
    requires category in Categories
    requires Split(m, ';') == [a, b, " " + category, e]
    ensures Parse(m).category == Some(category)
  {
    CategoryNamesShape();
    StripSpaced(category);
    CategoryRoundTrip(category);
    CategoryOfSegments(m, a, b, " " + category, e, category);
  }

  lemma RoundTripDescription(m: string, a: string, b: string, c: string, description: string)
    requires description != [] && Trimmed(description)
    requires Split(m, ';') == [a, b, c, " " + description]
    ensures Parse(m).description == Some(description)
  {
    StripSpaced(description);
    StripOfTrimmed(description);
    DescriptionOfSegments(m, a, b, c, " " + description, description);
  }

  /**
   * A stored record typed back in through `add_expense` (its day as
   * stored, the month's number, the year, the stored value, a category
   * and a description) is read back as the same record.
   */
  lemma MessageRoundTrip(d: Date, cents: nat, category: string, description: string)
    requires ValidDate(d) && 1000 <= d.year
    requires category in Categories
    requires description != [] && Trimmed(description) && ';' !in description
    ensures Parse(Pad2(d.day) + "/" + NatToString(d.month) + "/" + NatToString(d.year) + "; "
                  + FormatCents(cents) + "; " + category + "; " + description)
         == Parsed(Some(Pad2(d.day)), Some(MonthName(d.month)), Some(d.year),
                   Some(FormatCents(cents)), Some(category), Some(description))
  {
    var date := Pad2(d.day) + "/" + NatToString(d.month) + "/" + NatToString(d.year);
    var v := FormatCents(cents);
    var m := date + "; " + v + "; " + category + "; " + description;
    DateTextShape(d);
    FormatCentsShapeTrimmed(cents);
    CategoryNamesShape();
    AddExpenseSegments(date, v, category, description);
    RoundTripDate(m, d, " " + v, " " + category, " " + description);
    RoundTripValue(m, date, cents, " " + category, " " + description);
    RoundTripCategory(m, date, " " + v, category, " " + description);
    RoundTripDescription(m, date, " " + v, " " + category, description);
    FieldsDetermine(Parse(m), Parsed(Some(Pad2(d.day)), Some(MonthName(d.month)), Some(d.year),
                   Some(v), Some(category), Some(description)));
  }

  lemma DateExampleMessage()
    ensures ParseDate("24/12/2024") == Some(Date(24, 12, 2024))
  {
    DigitsValueFour("2024");
    assert DayDigits("24") == Some(24) && MonthDigits("12") == Some(12) && YearDigits("2024") == Some(2024);
    ParseDateOfFields("24", "12", "2024");
    assert "24" + "/" + "12" + "/" + "2024" == "24/12/2024";
  }

  lemma ExampleSegments()
    ensures Split("24/12/2024; 35.00+45.1+3; OTHeRs; This is a test :) ", ';')
         == ["24/12/2024", " 35.00+45.1+3", " OTHeRs", " This is a test :) "]
  {
    SplitFour("24/12/2024", " 35.00+45.1+3", " OTHeRs", " This is a test :) ");
    ExampleText();
  }

  lemma ExampleText()
    ensures "24/12/2024" + ";" + " 35.00+45.1+3" + ";" + " OTHeRs" + ";" + " This is a test :) "
         == "24/12/2024; 35.00+45.1+3; OTHeRs; This is a test :) "
  {
    ExampleTextValue();
    ExampleTextCategory();
    ExampleTextDescription();
  }

  lemma ExampleTextValue()
    ensures "24/12/2024" + ";" + " 35.00+45.1+3" == "24/12/2024; 35.00+45.1+3"
  {
  }

  lemma ExampleTextCategory()
    ensures "24/12/2024; 35.00+45.1+3" + ";" + " OTHeRs" == "24/12/2024; 35.00+45.1+3; OTHeRs"
  {
  }

  lemma ExampleTextDescription()
    ensures "24/12/2024; 35.00+45.1+3; OTHeRs" + ";" + " This is a test :) "
         == "24/12/2024; 35.00+45.1+3; OTHeRs; This is a test :) "
  {
  }

  lemma ExampleStripDate()
    ensures Strip("24/12/2024") == "24/12/2024"
  {
    StripOfTrimmed("24/12/2024");
  }

  lemma ExampleStripValue()
    ensures Strip(" 35.00+45.1+3") == "35.00+45.1+3"
  {
    StripSpaced("35.00+45.1+3");
  }

  lemma ExampleStripCategory()
    ensures Strip(" OTHeRs") == "OTHeRs"
  {
    StripSpaced("OTHeRs");
  }

  lemma ExampleDescriptionText()
    ensures " " + "This is a test :)" + " " == " This is a test :) "
  {
  }

  lemma ExampleStripDescription()
    ensures Strip(" This is a test :) ") == "This is a test :)"
  {
    ExampleDescriptionText();
    StripPadded(" ", "This is a test :)", " ");
  }

  lemma ExampleDescription()
    ensures ParseDescription("This is a test :)") == Some("This is a test :)")
  {
    StripOfTrimmed("This is a test :)");
  }

  lemma ExampleDateFields(m: string, b: string, c: string, e: string)
    requires Split(m, ';') == ["24/12/2024", b, c, e]
    ensures Parse(m).day == Some("24") && Parse(m).month == Some("December") && Parse(m).year == Some(2024)
  {
    ExampleStripDate();
    DateExampleMessage();
    DateOfSegments(m, "24/12/2024", b, c, e, Date(24, 12, 2024));
    ExamplePad();
    ExampleMonthName();
  }

  lemma ExamplePad()
    ensures Pad2(24) == "24"
  {
  }

  lemma ExampleMonthName()
    ensures MonthName(12) == "December"
  {
  }

  lemma ExampleValueField(m: string, a: string, c: string, e: string)
    requires Split(m, ';') == [a, " 35.00+45.1+3", c, e]
    ensures Parse(m).value == Some("83.10")
  {
    ExampleStripValue();
    ValueSumExample();
    ValueOfSegments(m, a, " 35.00+45.1+3", c, e, "83.10");
  }

  lemma ExampleCategoryField(m: string, a: string, b: string, e: string)
    requires Split(m, ';') == [a, b, " OTHeRs", e]
    ensures Parse(m).category == Some("Others")
  {
    ExampleStripCategory();
    CategoryCaseExample();
    CategoryOfSegments(m, a, b, " OTHeRs", e, "Others");
  }

  lemma ExampleDescriptionField(m: string, a: string, b: string, c: string)
    requires Split(m, ';') == [a, b, c, " This is a test :) "]
    ensures Parse(m).description == Some("This is a test :)")
  {
    ExampleStripDescription();
    ExampleDescription();
    DescriptionOfSegments(m, a, b, c, " This is a test :) ", "This is a test :)");
  }

  /** The example message of the source is valid, with value "83.10" and category "Others". */
  lemma ExampleMessage()
    ensures Parse("24/12/2024; 35.00+45.1+3; OTHeRs; This is a test :) ")
         == Parsed(Some("24"), Some("December"), Some(2024), Some("83.10"), Some("Others"), Some("This is a test :)"))
  {
    var m := "24/12/2024; 35.00+45.1+3; OTHeRs; This is a test :) ";
    var a, b, c, e := "24/12/2024", " 35.00+45.1+3", " OTHeRs", " This is a test :) ";
    ExampleSegments();
    ExampleDateFields(m, b, c, e);
    ExampleValueField(m, a, c, e);
    ExampleCategoryField(m, a, b, e);
    ExampleDescriptionField(m, a, b, c);
    FieldsDetermine(Parse(m),
      Parsed(Some("24"), Some("December"), Some(2024), Some("83.10"), Some("Others"), Some("This is a test :)")));
  }

  // ---------------------------------------------------------------------
  // The imperative processor
  // ---------------------------------------------------------------------

  class UserInputProcessor {
    const message: string
    var day: Option<string>
    var month: Option<string>
    var year: Option<int>
    var value: Option<string>
    var category: Option<string>
    var description: Option<string>
    var isValid: bool

    function Fields(): Parsed
      reads this
    {
      Parsed(day, month, year, value, category, description)
    }

    /** Starts with every attribute None, processes the message, then records `isValid`. */
    constructor(message: string)
      ensures this.message == message
      ensures Fields() == Parse(message)
      ensures isValid == Parse(message).IsValid()
    {
      this.message := message;
      day, month, year := None, None, None;
      value, category, description := None, None, None;
      isValid := false;
      new;
      ProcessMessage();
      isValid := IsValid();
    }

    /** The attribute loop of `isValid`: false at the first None. */
    method IsValid() returns (b: bool)
      ensures b == Fields().IsValid()
    {
      var present := [day.Some?, month.Some?, year.Some?, value.Some?, category.Some?, description.Some?];
      for i := 0 to |present|
        invariant forall j :: 0 <= j < i ==> present[j]
      {
        if !present[i] {
          return false;
        }
      }
      assert present[0] && present[1] && present[2] && present[3] && present[4] && present[5];
      return true;
    }

    /** Splits on ';' and, for exactly four segments, processes each stripped segment. */
    method ProcessMessage()
      modifies this`day, this`month, this`year, this`value, this`category, this`description
      ensures Fields() == Overlay(old(Fields()), Parse(message))
    {
      var segments := Split(message, ';');
      if |segments| != 4 {
        FieldsDetermine(Fields(), Overlay(old(Fields()), Parse(message)));
        return;
      }
      assert segments == [segments[0], segments[1], segments[2], segments[3]];
      ghost var before := Fields();
      ProcessDate(Strip(segments[0]));
      ProcessValue(Strip(segments[1]));
      ProcessCategory(Strip(segments[2]));
      ProcessDescription(Strip(segments[3]));
      StepsOfSegments(before, message, segments[0], segments[1], segments[2], segments[3]);
    }

    method ProcessDate(dateString: string)
      modifies this`day, this`month, this`year
      ensures Fields() == DateStep(old(Fields()), dateString)
    {
      var date := ParseDate(dateString);
      if date.Some? {
        day := Some(Pad2(date.value.day));
        month := Some(MonthName(date.value.month));
        year := Some(date.value.year);
      }
    }

    /** Checks every term (without stopping at the first bad one), then stores the formatted sum. */
    method ProcessValue(valueString: string)
      modifies this`value
      ensures Fields() == ValueStep(old(Fields()), valueString)
    {
      var values := Split(valueString, '+');
      var validValues := true;
      for i := 0 to |values|
        invariant validValues <==> forall j :: 0 <= j < i ==> IsTerm(values[j])
      {
        if !IsTerm(values[i]) {
          validValues := false;
        }
      }
      if validValues {
        value := Some(FormatCents(SumCents(values)));
      }
    }

    method ProcessCategory(categoryString: string)
      modifies this`category
      ensures Fields() == CategoryStep(old(Fields()), categoryString)
    {
      var k := Normalize(categoryString);
      if k in NameToLower().Values {
        LowerToNameKeys(k);
        category := Some(LowerToName()[k]);
      }
      CategoryLookup(categoryString);
    }

    method ProcessDescription(descriptionString: string)
      modifies this`description
      ensures Fields() == DescriptionStep(old(Fields()), descriptionString)
    {
      var d := Strip(descriptionString);
      if d != [] {
        description := Some(d);
      }
    }
  }
}
