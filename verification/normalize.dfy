/** The date and age engine and the small row selectors shared by the record
    processors (litvak/normalize.py): `formatJulianAsGregorian` with its
    cell cleaners, `formatPlace`, `calcBirthFromAge`, `commonFields`,
    `getParentsAge`, `getSpouseAge` and `getWitnesses`.

    The regular expressions are the abstract matchers of `Patterns`;
    warnings and informational messages are not modelled. */
module Normalize {
  import opened Text
  import opened Values
  import opened Patterns
  import opened Calendar
  import opened Names
  import opened Persons
  import opened Output

  // ------------------------------------------------------- cleaning cells

  /** `cleanNum`: `None` is 0, an integer is itself, and a string loses its
      parenthesised parts and then every non-digit; what is left is read as
      a decimal number, 0 when nothing is left. */
  function CleanNum(v: Value): (n: int)
    ensures v.Null? ==> n == 0
    ensures v.Int? ==> n == v.i
    ensures v.Str? ==> n >= 0
    ensures v.Str? && AllDigits(v.s) ==> n == DecimalValue(v.s)
  {
    match v
    case Null => 0
    case Int(i) => i
    case Str(s) => DecimalValue(KeepDigits(RemoveParenthesized(s)))
  }

  /** Digits inside parentheses do not count. */
  lemma CleanNumIgnoresParenthesized(a: string, b: string)
    requires AllDigits(a) && NoChar(a, '(') && NoChar(b, '\n') && NoChar(b, ')')
    ensures CleanNum(Str(a + "(" + b + ")")) == DecimalValue(a)
  {
    var s := a + "(" + b + ")";
    RemoveParenthesizedAfterDigits(a, b);
    assert KeepDigits(a) == a;
  }

  lemma {:induction false} RemoveParenthesizedAfterDigits(a: string, b: string)
    requires NoChar(a, '(') && NoChar(b, '\n') && NoChar(b, ')')
    ensures RemoveParenthesized(a + "(" + b + ")") == a
    decreases |a|
  {
    var s := a + "(" + b + ")";
    if |a| == 0 {
      var e := LineEnd(s, 1);
      assert e == |s| by { LineEndNoNewline(s, 1); }
      assert s[|s| - 1] == ')';
      assert LastClose(s, 1, e) == Some(|s| - 1);
      assert s[|s|..] == "";
    } else {
      assert s[1..] == a[1..] + "(" + b + ")";
      RemoveParenthesizedAfterDigits(a[1..], b);
      assert [a[0]] + a[1..] == a;
    }
  }

  lemma {:induction false} LineEndNoNewline(s: string, from: nat)
    requires from <= |s| && forall i :: from <= i < |s| ==> s[i] != '\n'
    ensures LineEnd(s, from) == |s|
    decreases |s| - from
  {
    if from < |s| {
      LineEndNoNewline(s, from + 1);
    }
  }

  /** `monthNames` */
  const MonthNames: seq<string> :=
    ["Jan", "Feb", "Mar", "Apr", "May", "Jun", "Jul", "Aug", "Sep", "Oct", "Nov", "Dec"]

  /** `monthNames.index(abbr) + 1`, or 0 when abbr is not a month name. */
  function MonthNumber(abbr: string): (n: nat)
    ensures n <= 12
    ensures n > 0 ==> MonthNames[n - 1] == abbr
    ensures n == 0 ==> abbr !in MonthNames
  {
    MonthFrom(abbr, 0)
  }

  function MonthFrom(abbr: string, k: nat): (n: nat)
    requires k <= 12
    ensures n == 0 || (k < n <= 12 && MonthNames[n - 1] == abbr)
    ensures n == 0 ==> forall i :: k <= i < 12 ==> MonthNames[i] != abbr
    decreases 12 - k
  {
    if k == 12 then 0
    else if MonthNames[k] == abbr then k + 1
    else MonthFrom(abbr, k + 1)
  }

  /** `v[0:3]` */
  function Prefix3(s: string): string {
    if |s| <= 3 then s else s[..3]
  }

  /** `cleanMonth`: a string whose first three characters title-case to a
      month abbreviation is that month's number; anything else is
      `cleanNum` of it. */
  function CleanMonth(v: Value): (n: int)
    ensures v.Str? && MonthNumber(Title(Prefix3(v.s))) > 0 ==>
      1 <= n <= 12 && MonthNames[n - 1] == Title(Prefix3(v.s))
    ensures !(v.Str? && MonthNumber(Title(Prefix3(v.s))) > 0) ==> n == CleanNum(v)
  {
    if v.Str? && MonthNumber(Title(Prefix3(v.s))) > 0 then MonthNumber(Title(Prefix3(v.s)))
    else CleanNum(v)
  }

  /** Each month abbreviation is its own title case. */
  lemma MonthNamesAreTitled(i: nat)
    requires i < 12
    ensures Title(MonthNames[i]) == MonthNames[i]
  {
    var m := MonthNames[i];
    assert |m| == 3 && IsUpper(m[0]) && IsLower(m[1]) && IsLower(m[2]);
    assert Title(m)[0] == m[0];
    assert IsLetter(m[0]) && IsLetter(m[1]);
    assert Title(m)[1] == m[1];
    assert Title(m)[2] == m[2];
  }

  /** A month word in any case, abbreviated or not, reads as its number:
      "SEPTEMBER", "sep" and "Sept." are all 9. */
  lemma CleanMonthReadsMonthWords(i: nat, s: string)
    requires i < 12 && |s| >= 3 && Lower(s[..3]) == Lower(MonthNames[i])
    ensures CleanMonth(Str(s)) == i + 1
  {
    TitleIgnoresCase(s[..3]);
    TitleIgnoresCase(MonthNames[i]);
    MonthNamesAreTitled(i);
    assert Title(Prefix3(s)) == MonthNames[i];
    MonthNamesDistinct(i, MonthNumber(MonthNames[i]) - 1);
  }

  lemma MonthNamesDistinct(i: nat, j: nat)
    requires i < 12 && j < 12 && MonthNames[i] == MonthNames[j]
    ensures i == j
  {
  }

  // ------------------------------------------------------------- dates

  /** `"{:04d}-{:02d}-{:02d}".format(Y, M, D)` */
  function IsoDate(dt: Date): (r: string)
    ensures |r| >= 10
  {
    ZeroPad(dt.year, 4) + "-" + ZeroPad(dt.month, 2) + "-" + ZeroPad(dt.day, 2)
  }

  /** Reads back a "YYYY-MM-DD" string; the partner of `IsoDate`. */
  function ReadIsoDate(s: string): Option<Date> {
    if |s| == 10 && s[4] == '-' && s[7] == '-'
       && AllDigits(s[..4]) && AllDigits(s[5..7]) && AllDigits(s[8..])
    then Some(Date(DecimalValue(s[..4]), DecimalValue(s[5..7]), DecimalValue(s[8..])))
    else None
  }

  /** A date with a four-digit year and two-digit month and day is written
      as ten characters that read back as the same date. */
  lemma IsoDateReadsBack(dt: Date)
    requires 0 <= dt.year < 10000 && 0 <= dt.month < 100 && 0 <= dt.day < 100
    ensures ReadIsoDate(IsoDate(dt)) == Some(dt)
  {
    IsoWidths();
    ZeroPadReadsBack(dt.year, 4);
    ZeroPadReadsBack(dt.month, 2);
    ZeroPadReadsBack(dt.day, 2);
    IsoFields(ZeroPad(dt.year, 4), ZeroPad(dt.month, 2), ZeroPad(dt.day, 2));
  }

  lemma IsoWidths()
    ensures Pow10(4) == 10000 && Pow10(2) == 100
  {
    assert Pow10(1) == 10;
  }

  /** The three fields of an ISO date sit at fixed positions. */
  lemma IsoFields(y: string, m: string, d: string)
    requires |y| == 4 && |m| == 2 && |d| == 2
    ensures var s := y + "-" + m + "-" + d;
      && |s| == 10 && s[4] == '-' && s[7] == '-'
      && s[..4] == y && s[5..7] == m && s[8..] == d
  {
    var s := y + "-" + m + "-" + d;
    assert s[..4] == y;
    assert s[5..7] == m;
    assert s[8..] == d;
  }

  /** `formatJulianAsGregorian(Y, M, D)`: the year alone when month and day
      clean to 0; "0-<year>" when only the month does; otherwise the
      Julian Day Number of the Julian date, converted by Richards'
      algorithm and written as an ISO 8601 calendar date. The day number
      is computed as the source writes it when `asWritten` holds, and as
      intended otherwise. */
  function FormatJulianWith(y: Value, m: Value, d: Value, asWritten: bool): (r: string)
    ensures CleanNum(d) == 0 && CleanMonth(m) == 0 ==> r == IntToString(CleanNum(y))
    ensures CleanNum(d) != 0 && CleanMonth(m) == 0 ==> r == "0-" + IntToString(CleanNum(y))
  {
    var year := CleanNum(y);
    var month := CleanMonth(m);
    var day := CleanNum(d);
    if day == 0 && month == 0 then IntToString(year)
    else if month == 0 then "0-" + IntToString(year)
    else IsoDate(ConvertedWith(y, m, d, asWritten))
  }

  /** The Gregorian date of the Julian date in the cells. */
  function ConvertedWith(y: Value, m: Value, d: Value, asWritten: bool): Date {
    var year := CleanNum(y);
    var month := CleanMonth(m);
    var day := CleanNum(d);
    GregorianFromDayNumber(
      if asWritten then JulianDayNumber(year, month, day) else IntendedJulianDayNumber(year, month, day))
  }

  /** The conversion as the source writes it, with `(M - 9) // 7`; every
      record processor uses this one. */
  function FormatJulianAsGregorian(y: Value, m: Value, d: Value): string {
    FormatJulianWith(y, m, d, true)
  }

  /** The conversion as intended, with the month term truncated. */
  function FormatJulianIntended(y: Value, m: Value, d: Value): string {
    FormatJulianWith(y, m, d, false)
  }

  function Converted(y: Value, m: Value, d: Value): Date {
    ConvertedWith(y, m, d, true)
  }

  function ConvertedIntended(y: Value, m: Value, d: Value): Date {
    ConvertedWith(y, m, d, false)
  }

  /** With a month, the text is the ISO form of the converted date, and
      reads back as it. */
  lemma FormatJulianReadsBack(y: Value, m: Value, d: Value, asWritten: bool)
    requires CleanMonth(m) != 0
    requires 0 <= ConvertedWith(y, m, d, asWritten).year < 10000
    ensures ReadIsoDate(FormatJulianWith(y, m, d, asWritten)) == Some(ConvertedWith(y, m, d, asWritten))
  {
    IsoDateReadsBack(ConvertedWith(y, m, d, asWritten));
  }

  /** As intended, in every month the text produced reads back as the
      Gregorian date of the very day the Julian date names. */
  lemma FormatJulianIntendedIsExact(y: Value, m: Value, d: Value)
    requires 1 <= CleanMonth(m) <= 12
    requires 0 <= ConvertedIntended(y, m, d).year < 10000
    ensures ReadIsoDate(FormatJulianIntended(y, m, d)) == Some(ConvertedIntended(y, m, d))
    ensures GregorianCalendarDay(ConvertedIntended(y, m, d))
            == JulianCalendarDay(Date(CleanNum(y), CleanMonth(m), CleanNum(d)))
  {
    IsoDateReadsBack(ConvertedIntended(y, m, d));
    IntendedConversionIsExact(CleanNum(y), CleanMonth(m), CleanNum(d));
  }

  /** In February and September to December the source's text is the
      intended one. */
  lemma AsWrittenInLateMonths(y: Value, m: Value, d: Value)
    requires IsLateMonth(CleanMonth(m))
    ensures FormatJulianAsGregorian(y, m, d) == FormatJulianIntended(y, m, d)
    ensures Converted(y, m, d) == ConvertedIntended(y, m, d)
  {
    AsWrittenAgreesInLateMonths(CleanNum(y), CleanMonth(m), CleanNum(d));
  }

  /** In January and March to August the source's text reads back as a
      Gregorian date one or two days after the day the Julian date names. */
  lemma AsWrittenInEarlyMonths(y: Value, m: Value, d: Value)
    requires IsEarlyMonth(CleanMonth(m))
    requires 0 <= Converted(y, m, d).year < 10000
    ensures ReadIsoDate(FormatJulianAsGregorian(y, m, d)) == Some(Converted(y, m, d))
    ensures var shift := GregorianCalendarDay(Converted(y, m, d))
                         - JulianCalendarDay(Date(CleanNum(y), CleanMonth(m), CleanNum(d)));
            shift == 1 || shift == 2
  {
    IsoDateReadsBack(Converted(y, m, d));
    ConversionLateInEarlyMonths(CleanNum(y), CleanMonth(m), CleanNum(d));
  }

  /** 1 January 1900 (Julian) is 13 January 1900 (Gregorian); the source
      writes the 15th. */
  lemma JanuaryAsWritten(y: Value, m: Value, d: Value)
    requires y == Int(1900) && m == Int(1) && d == Int(1)
    ensures FormatJulianAsGregorian(y, m, d) == "1900-01-15"
    ensures FormatJulianIntended(y, m, d) == "1900-01-13"
  {
    IntCells(y, m, d, 1900, 1, 1);
    JanuaryText(y, m, d, true, 15);
    JanuaryText(y, m, d, false, 13);
    IsoJanuary(Date(1900, 1, 15), 15, "15");
    IsoJanuary(Date(1900, 1, 13), 13, "13");
  }

  lemma JanuaryText(y: Value, m: Value, d: Value, asWritten: bool, day: int)
    requires CleanNum(y) == 1900 && CleanMonth(m) == 1 && CleanNum(d) == 1
    requires day == if asWritten then 15 else 13
    ensures FormatJulianWith(y, m, d, asWritten) == IsoDate(Date(1900, 1, day))
  {
    JanuaryConverted(y, m, d, asWritten, day);
  }

  lemma JanuaryConverted(y: Value, m: Value, d: Value, asWritten: bool, day: int)
    requires CleanNum(y) == 1900 && CleanMonth(m) == 1 && CleanNum(d) == 1
    requires day == if asWritten then 15 else 13
    ensures ConvertedWith(y, m, d, asWritten) == Date(1900, 1, day)
  {
    var j := if asWritten then JulianDayNumber(1900, 1, 1) else IntendedJulianDayNumber(1900, 1, 1);
    assert j == if asWritten then 2415035 else 2415033;
    RichardsJanuary(j, day);
  }

  /** 1 September 1900 (Julian) is 14 September 1900 (Gregorian), and the
      source writes it so. */
  lemma FormatJulianAsGregorianSeptember(y: Value, m: Value, d: Value)
    requires y == Int(1900) && m == Int(9) && d == Int(1)
    ensures FormatJulianAsGregorian(y, m, d) == "1900-09-14"
  {
    var j := JulianDayNumber(1900, 9, 1);
    assert j == 2415277;
    IntCells(y, m, d, 1900, 9, 1);
    RichardsSeptember(j);
    IsoSeptember(GregorianFromDayNumber(j));
  }

  lemma IntCells(y: Value, m: Value, d: Value, year: int, month: int, day: int)
    requires y == Int(year) && m == Int(month) && d == Int(day) && 1 <= month <= 12
    ensures CleanNum(y) == year && CleanMonth(m) == month && CleanNum(d) == day
  {
  }

  lemma IsoSeptember(dt: Date)
    requires dt == Date(1900, 9, 14)
    ensures IsoDate(dt) == "1900-09-14"
  {
    assert NatToString(1900) == "1900";
    assert NatToString(9) == "9" && NatToString(14) == "14";
  }

  lemma IsoJanuary(dt: Date, day: nat, text: string)
    requires dt == Date(1900, 1, day) && (day == 13 || day == 15)
    requires text == if day == 13 then "13" else "15"
    ensures IsoDate(dt) == "1900-01-" + text
  {
    assert NatToString(1900) == "1900";
    assert NatToString(1) == "1" && NatToString(day) == text;
  }

  lemma RichardsSeptember(j: int)
    requires j == 2415277
    ensures GregorianFromDayNumber(j) == Date(1900, 9, 14)
  {
    assert (4 * j + 274277) / 146097 == 68;
    assert j + 1401 + (68 * 3) / 4 - 38 == 2416691;
    assert 4 * 2416691 + 3 == 9666767;
    assert 9666767 % 1461 == 791 && 9666767 / 1461 == 6616;
    assert (791 / 4) * 5 + 2 == 987;
    assert (987 % 153) / 5 + 1 == 14 && (987 / 153 + 2) % 12 + 1 == 9;
  }

  /** Days 2415033 and 2415035 are 13 and 15 January 1900 (Gregorian). */
  lemma RichardsJanuary(j: int, day: int)
    requires (j == 2415033 && day == 13) || (j == 2415035 && day == 15)
    ensures GregorianFromDayNumber(j) == Date(1900, 1, day)
  {
    assert (4 * j + 274277) / 146097 == 67;
    var f := j + 1401 + (67 * 3) / 4 - 38;
    assert f == j + 1413;
    var e := 4 * f + 3;
    assert e / 1461 == 6615 && e % 1461 == 4 * (day + 305);
    var h := 5 * ((e % 1461) / 4) + 2;
    assert h == 5 * (day + 305) + 2;
    assert h / 153 == 10 && (h % 153) / 5 + 1 == day;
  }

  /** With no month and no day only the year is written; with a day but no
      month the month's 0 is written in front of the year. */
  lemma FormatJulianAsGregorianWithoutMonth(year: nat, day: nat)
    ensures FormatJulianAsGregorian(Int(year), Null, Null) == NatToString(year)
    ensures day != 0 ==> FormatJulianAsGregorian(Int(year), Null, Int(day)) == "0-" + NatToString(year)
  {
  }

  // ------------------------------------------------------------- places

  /** `formatPlace`: the three place names joined by commas. */
  function FormatPlace(town: string, district: string, province: string): string {
    Join(",", [town, district, province])
  }

  /** Place names without commas are recovered by splitting at the commas. */
  lemma FormatPlaceSplits(town: string, district: string, province: string)
    requires NoChar(town, ',') && NoChar(district, ',') && NoChar(province, ',')
    ensures SplitOn(FormatPlace(town, district, province), ',') == [town, district, province]
  {
    SplitOnJoin([town, district, province], ',');
  }

  // -------------------------------------------------------- birth years

  /** What `calcBirthFromAge` returns: the birth date text, the birth year
      and a note saying how they were found, or three `None`s. */
  datatype Birth = Birth(date: Value, year: Value, note: Value)

  const NoBirth := Birth(Null, Null, Null)

  /** `MINYEAR`: an anchor year below it is not used for an estimate. */
  const MinYear := 1000

  /** `clean` inside `calcBirthFromAge`: `str(v)` without its parenthesised
      parts, every run of punctuation turned into a space. */
  function AgeClean(v: Value): (r: string)
    ensures forall i :: 0 <= i < |r| ==> IsWordChar(r[i]) || IsSpace(r[i])
  {
    PunctuationToSpace(RemoveParenthesized(Show(v)))
  }

  /** `extractNum`: an integer is itself; anything else is cleaned and its
      leading digits read as a number, -1 when there are none. */
  function ExtractNum(v: Value): (n: int)
    ensures v.Int? ==> n == v.i
    ensures !v.Int? ==> n >= -1
  {
    if v.Int? then v.i
    else
      var digits := LeadingDigits(AgeClean(v));
      if digits == "" then -1 else DecimalValue(digits)
  }

  /** A cell of digits reads as its decimal value; the partner of
      `NatToString`. */
  lemma ExtractNumReadsDecimal(s: string)
    requires |s| > 0 && AllDigits(s)
    ensures ExtractNum(Str(s)) == DecimalValue(s)
  {
    assert NoChar(s, '(');
    assert forall i :: 0 <= i < |s| ==> IsWordChar(s[i]);
  }

  /** A number written out reads back as itself. */
  lemma ExtractNumOfNatToString(n: nat)
    ensures ExtractNum(Str(NatToString(n))) == n
  {
    ExtractNumReadsDecimal(NatToString(n));
    DecimalRoundTrip(n);
  }

  /** A missing cell has no number in it. */
  lemma ExtractNumOfNothing(v: Value)
    requires v == Null || v == Str("")
    ensures ExtractNum(v) == -1
  {
    if v == Null {
      var s := Show(v);
      assert s == "None";
      assert NoChar(s, '(');
      assert forall i :: 0 <= i < |s| ==> IsWordChar(s[i]);
      assert !IsDigit(s[0]);
    }
  }

  /** `dateInAgeField`: an age cell that holds a date gives that date,
      converted from the Julian calendar, and its year. */
  function DateInAgeField(pat: Patterns, ageRaw: Value): (r: Option<Birth>)
    ensures pat.ageAsDate(AgeClean(ageRaw)).None? <==> r.None?
    ensures r.Some? ==>
      var g := pat.ageAsDate(AgeClean(ageRaw)).value;
      && r.value.year == Int(DecimalValue(g.year))
      && r.value.date == Str(FormatJulianAsGregorian(Str(g.year), FromOptionString(g.month),
                                                     Or(FromOptionString(g.day2), FromOptionString(g.day1))))
      && r.value.note == Str("Given: " + Show(ageRaw) + " (Julian)")
  {
    match pat.ageAsDate(AgeClean(ageRaw))
    case None => None
    case Some(g) =>
      Some(Birth(Str(FormatJulianAsGregorian(Str(g.year), FromOptionString(g.month),
                                             Or(FromOptionString(g.day2), FromOptionString(g.day1)))),
                 Int(DecimalValue(g.year)),
                 Str("Given: " + Show(ageRaw) + " (Julian)")))
  }

  /** The years to subtract for an age: ages with a unit other than "ye",
      or with no number ("newborn", "stillborn", a fraction), round to
      zero. The unit is compared with "ye" exactly as it was written. */
  function AgeOffset(g: AgeGroups): (n: nat)
    ensures g.num.None? ==> n == 0
    ensures g.unit.Some? && g.unit.value != "ye" ==> n == 0
  {
    if (g.unit.Some? && g.unit.value != "ye") || g.num.None? then 0
    else DecimalValue(g.num.value)
  }

  /** A non-zero age is subtracted in full exactly when it has no unit or
      its unit is written "ye". */
  lemma AgeOffsetCountsYears(g: AgeGroups)
    requires g.num.Some? && DecimalValue(g.num.value) > 0
    ensures AgeOffset(g) == DecimalValue(g.num.value) <==> g.unit.None? || g.unit.value == "ye"
    ensures AgeOffset(g) == 0 <==> g.unit.Some? && g.unit.value != "ye"
  {
  }

  /** The comparison is case-sensitive although the pattern is not: "5 Years"
      matches with unit "Ye", and its offset is zero. */
  lemma AgeOffsetIsCaseSensitive(g: AgeGroups)
    requires g == AgeGroups(Some("5"), Some("Ye"))
    ensures AgeOffset(g) == 0
  {
  }

  /** `dateBasedOnAgeAndYear`: an age the age pattern accepts is
      subtracted from the number in the year cell (-1 when there is none). */
  function AgeAtYear(pat: Patterns, ageRaw: Value, yearRaw: Value): (r: Option<Birth>)
    ensures pat.age(AgeClean(ageRaw)).None? <==> r.None?
    ensures r.Some? ==>
      var year := ExtractNum(yearRaw) - AgeOffset(pat.age(AgeClean(ageRaw)).value);
      && r.value.year == Int(year)
      && r.value.date == Str(IntToString(year))
      && r.value.note == Str("Calculated: age " + Show(ageRaw) + " in " + Show(yearRaw))
  {
    match pat.age(AgeClean(ageRaw))
    case None => None
    case Some(g) =>
      var year := ExtractNum(yearRaw) - AgeOffset(g);
      Some(Birth(Str(IntToString(year)), Int(year),
                 Str("Calculated: age " + Show(ageRaw) + " in " + Show(yearRaw))))
  }

  /** `estimateBirthFromGeneration`: `generation` generations of `genYears`
      years before the anchor year, when the anchor is at least `MinYear`. */
  function EstimateFromGeneration(genBirthYear: Value, generation: int, genYears: int): (r: Option<Birth>)
    ensures r.None? <==> ExtractNum(genBirthYear) < MinYear
    ensures r.Some? ==>
      var year := ExtractNum(genBirthYear) - generation * genYears;
      && r.value.year == Int(year)
      && r.value.date == Str(IntToString(year))
      && r.value.note == Str("Estimated: " + IntToString(generation) + " gen before " + Show(genBirthYear))
  {
    var year := ExtractNum(genBirthYear);
    if year < MinYear then None
    else Some(Birth(Str(IntToString(year - generation * genYears)), Int(year - generation * genYears),
                    Str("Estimated: " + IntToString(generation) + " gen before " + Show(genBirthYear))))
  }

  /** `calcBirthFromAge(yearRaw, ageRaw, generation, genBirthYear, genYears)`:
      a non-empty age is read first as a date and then as an age at the
      year; failing both, or with no age, the birth is estimated from
      `genBirthYear`, or from the year when that is empty. */
  function CalcBirthFromAge(pat: Patterns, yearRaw: Value, ageRaw: Value,
                            generation: int, genBirthYear: Value, genYears: int): (r: Birth)
    ensures r == NoBirth || (r.date.Str? && r.year.Int? && r.note.Str?)
    ensures Truthy(ageRaw) && DateInAgeField(pat, ageRaw).Some? ==> r == DateInAgeField(pat, ageRaw).value
    ensures r == NoBirth ==> DateInAgeField(pat, ageRaw).None? || !Truthy(ageRaw)
    ensures Truthy(ageRaw) && DateInAgeField(pat, ageRaw).None? && AgeAtYear(pat, ageRaw, yearRaw).Some? ==>
      r == AgeAtYear(pat, ageRaw, yearRaw).value
    ensures !Truthy(ageRaw) || (DateInAgeField(pat, ageRaw).None? && AgeAtYear(pat, ageRaw, yearRaw).None?) ==>
      var anchor := Or(genBirthYear, yearRaw);
      r == if Truthy(anchor) && EstimateFromGeneration(anchor, generation, genYears).Some?
           then EstimateFromGeneration(anchor, generation, genYears).value else NoBirth
  {
    var fromAge :=
      if !Truthy(ageRaw) then None
      else if DateInAgeField(pat, ageRaw).Some? then DateInAgeField(pat, ageRaw)
      else AgeAtYear(pat, ageRaw, yearRaw);
    if fromAge.Some? then fromAge.value
    else
      var anchor := Or(genBirthYear, yearRaw);
      if Truthy(anchor) && EstimateFromGeneration(anchor, generation, genYears).Some? then
        EstimateFromGeneration(anchor, generation, genYears).value
      else NoBirth
  }

  /** An age in years with no date in it is taken off the year:
      "25" at 1900 gives 1875. */
  lemma BirthFromAgeInYears(pat: Patterns, age: string, year: int, num: Number)
    requires age != ""
    requires pat.ageAsDate(AgeClean(Str(age))).None?
    requires pat.age(AgeClean(Str(age))) == Some(AgeGroups(Some(num), None))
    ensures CalcBirthFromAge(pat, Int(year), Str(age), 1, Null, 25).year == Int(year - DecimalValue(num))
  {
  }

  /** Days, weeks and months round to zero: the birth year is the year. */
  lemma BirthFromSubYearAge(pat: Patterns, age: string, year: int, g: AgeGroups)
    requires age != ""
    requires pat.ageAsDate(AgeClean(Str(age))).None?
    requires pat.age(AgeClean(Str(age))) == Some(g) && g.unit.Some? && g.unit.value != "ye"
    ensures CalcBirthFromAge(pat, Int(year), Str(age), 1, Null, 25).year == Int(year)
  {
  }

  /** With no age, the birth is `generation` generations before the
      anchor, which is `genBirthYear` when given and the year otherwise. */
  lemma BirthEstimatedFromGeneration(pat: Patterns, yearRaw: Value, generation: int, genBirthYear: Value, genYears: int)
    requires ExtractNum(Or(genBirthYear, yearRaw)) >= MinYear && Truthy(Or(genBirthYear, yearRaw))
    ensures var r := CalcBirthFromAge(pat, yearRaw, Null, generation, genBirthYear, genYears);
            r.year == Int(ExtractNum(Or(genBirthYear, yearRaw)) - generation * genYears)
  {
  }

  /** With no age the birth is put `generation` generations before a
      truthy anchor year of at least `MinYear`. */
  lemma EstimatedWithoutAge(pat: Patterns, yearRaw: Value, ageRaw: Value, generation: int, anchor: int)
    requires !Truthy(ageRaw) && anchor >= MinYear
    ensures CalcBirthFromAge(pat, yearRaw, ageRaw, generation, Int(anchor), 25).year == Int(anchor - generation * 25)
  {
  }

  /** The birth of a person of whom only a child's birth year is known:
      one generation of 25 years before it. */
  function NextGeneration(pat: Patterns, childYear: Value): (r: Birth)
    requires childYear.Int? || childYear.Null?
    ensures childYear.Int? && childYear.i >= MinYear ==>
      && r.year == Int(childYear.i - 25)
      && r.date == Str(IntToString(childYear.i - 25))
      && r.note == Str("Estimated: 1 gen before " + IntToString(childYear.i))
    ensures !(childYear.Int? && childYear.i >= MinYear) ==> r == NoBirth
  {
    OneGenerationEstimate(pat, childYear);
    OneGenerationNote(if childYear.Int? then childYear.i else 0);
    CalcBirthFromAge(pat, childYear, Null, 1, Null, 25)
  }

  /** With no age and no generation anchor, the child's year is the anchor. */
  lemma OneGenerationEstimate(pat: Patterns, childYear: Value)
    requires childYear.Int? || childYear.Null?
    ensures CalcBirthFromAge(pat, childYear, Null, 1, Null, 25)
            == if childYear.Int? && childYear.i >= MinYear
               then EstimateFromGeneration(childYear, 1, 25).value else NoBirth
  {
    ExtractNumOfNothing(Null);
  }

  /** The note of a one-generation estimate, with the generation count spelled out. */
  lemma OneGenerationNote(year: int)
    ensures "Estimated: " + IntToString(1) + " gen before " + IntToString(year)
            == "Estimated: 1 gen before " + IntToString(year)
  {
    assert IntToString(1) == "1" by { assert NatToString(1) == [DigitChar(1)]; }
    assert "Estimated: " + "1" + " gen before " == "Estimated: 1 gen before ";
  }

  /** Naming the child's year also as `genBirthYear` changes nothing. */
  lemma NextGenerationEitherAnchor(pat: Patterns, childYear: Value)
    requires childYear.Int? || childYear.Null?
    ensures CalcBirthFromAge(pat, childYear, Null, 1, childYear, 25) == NextGeneration(pat, childYear)
  {
  }

  /** With no age and no usable anchor there is no birth. */
  lemma NoBirthWithoutAnchor(pat: Patterns, yearRaw: Value, generation: int, genBirthYear: Value, genYears: int)
    requires !Truthy(Or(genBirthYear, yearRaw)) || ExtractNum(Or(genBirthYear, yearRaw)) < MinYear
    ensures CalcBirthFromAge(pat, yearRaw, Null, generation, genBirthYear, genYears) == NoBirth
  {
  }

  /** An age at an empty year cell is taken off -1, the no-number marker. */
  lemma BirthWithoutBaseYear(pat: Patterns, age: string, num: Number)
    requires age != ""
    requires pat.ageAsDate(AgeClean(Str(age))).None?
    requires pat.age(AgeClean(Str(age))) == Some(AgeGroups(Some(num), None))
    ensures CalcBirthFromAge(pat, Null, Str(age), 1, Null, 25).year == Int(-1 - DecimalValue(num))
  {
    ExtractNumOfNothing(Null);
  }

  /** A calculated or estimated birth date that is not negative reads back
      as its birth year. */
  lemma BirthDateReadsAsYear(pat: Patterns, yearRaw: Value, ageRaw: Value,
                             generation: int, genBirthYear: Value, genYears: int)
    requires !Truthy(ageRaw) || DateInAgeField(pat, ageRaw).None?
    requires var r := CalcBirthFromAge(pat, yearRaw, ageRaw, generation, genBirthYear, genYears);
             r != NoBirth && r.year.i >= 0
    ensures var r := CalcBirthFromAge(pat, yearRaw, ageRaw, generation, genBirthYear, genYears);
            ExtractNum(r.date) == r.year.i
  {
    var r := CalcBirthFromAge(pat, yearRaw, ageRaw, generation, genBirthYear, genYears);
    assert r.date == Str(NatToString(r.year.i));
    ExtractNumOfNatToString(r.year.i);
  }

  // ------------------------------------------------------ row selectors

  /** `getParentsAge`: the parents' age columns, unless the comments hold
      both ages, which then win. */
  function GetParentsAge(pat: Patterns, d: Record): (r: (Value, Value))
    requires Has(d, "comments")
    ensures pat.parentAges(Show(Get(d, "comments"))).Some? ==>
      var g := pat.parentAges(Show(Get(d, "comments"))).value;
      r == (Str(g.father), Str(g.mother))
    ensures pat.parentAges(Show(Get(d, "comments"))).None? ==>
      r == (GetOr(d, "father's age", Null), GetOr(d, "mother's age", Null))
  {
    match pat.parentAges(Show(Get(d, "comments")))
    case Some(g) => (Str(g.father), Str(g.mother))
    case None => (GetOr(d, "father's age", Null), GetOr(d, "mother's age", Null))
  }

  /** `getSpouseAge`: the spouse's age column, unless the comments hold the
      age, which then wins. */
  function GetSpouseAge(pat: Patterns, d: Record): (r: Value)
    requires Has(d, "comments")
    ensures pat.spouseAge(Show(Get(d, "comments"))).Some? ==>
      r == Str(pat.spouseAge(Show(Get(d, "comments"))).value)
    ensures pat.spouseAge(Show(Get(d, "comments"))).None? ==>
      r == GetOr(d, "spouse's age", Null)
  {
    match pat.spouseAge(Show(Get(d, "comments")))
    case Some(a) => Str(a)
    case None => GetOr(d, "spouse's age", Null)
  }

  /** Every column whose name starts with "witness" holds text (the pattern
      search of `getWitnesses` fails on a number). */
  predicate WitnessCellsAreText(d: Record) {
    forall c :: c in d.fields && StartsWith(c, "witness") ==> d.fields[c].Str?
  }

  /** Column c is a witness column whose cell the witness pattern matches. */
  predicate MatchingWitnessColumn(pat: Patterns, d: Record, c: string)
    requires WitnessCellsAreText(d)
  {
    StartsWith(c, "witness") && Has(d, c) && pat.witnessCell(Get(d, c).s).Some?
  }

  /** The witness pattern's groups for the witness columns among `cols`
      whose cell it matches, in column order. */
  function WitnessMatches(pat: Patterns, d: Record, cols: seq<string>): (r: seq<WitnessGroups>)
    requires WitnessCellsAreText(d)
    ensures |r| <= |cols|
    decreases |cols|
  {
    if cols == [] then []
    else
      var c := cols[0];
      (if MatchingWitnessColumn(pat, d, c) then [pat.witnessCell(Get(d, c).s).value] else [])
      + WitnessMatches(pat, d, cols[1..])
  }

  /** The matches in two runs of columns are those of each run, in order. */
  lemma {:induction false} WitnessMatchesAppend(pat: Patterns, d: Record, a: seq<string>, b: seq<string>)
    requires WitnessCellsAreText(d)
    ensures WitnessMatches(pat, d, a + b) == WitnessMatches(pat, d, a) + WitnessMatches(pat, d, b)
    decreases |a|
  {
    if a == [] {
      assert a + b == b;
    } else {
      assert (a + b)[1..] == a[1..] + b;
      WitnessMatchesAppend(pat, d, a[1..], b);
    }
  }

  /** A single witness column contributes its match, if any; any other
      column contributes nothing. */
  lemma WitnessMatchesOne(pat: Patterns, d: Record, c: string)
    requires WitnessCellsAreText(d)
    ensures !MatchingWitnessColumn(pat, d, c) ==> WitnessMatches(pat, d, [c]) == []
    ensures MatchingWitnessColumn(pat, d, c) ==>
      WitnessMatches(pat, d, [c]) == [pat.witnessCell(Get(d, c).s).value]
  {
    assert [c][1..] == [];
  }

  /** Each column adds one match when it is a matching witness column and
      none otherwise, so the number of matches grows along the columns. */
  lemma WitnessCountStep(pat: Patterns, d: Record, cols: seq<string>, i: nat)
    requires WitnessCellsAreText(d) && i < |cols|
    ensures |WitnessMatches(pat, d, cols[..i + 1])|
            == |WitnessMatches(pat, d, cols[..i])| + (if MatchingWitnessColumn(pat, d, cols[i]) then 1 else 0)
  {
    assert cols[..i + 1] == cols[..i] + [cols[i]];
    WitnessMatchesAppend(pat, d, cols[..i], [cols[i]]);
    WitnessMatchesOne(pat, d, cols[i]);
  }

  /** The witness of a matching "witness..." column sits at the position
      given by the number of matching columns before it: one witness per
      matching column, in column order. */
  lemma WitnessOfColumn(pat: Patterns, nm: NameMaps, d: Record, i: nat)
    requires Has(d, "y") && WitnessCellsAreText(d)
    requires i < |d.columns| && MatchingWitnessColumn(pat, d, d.columns[i])
    ensures var k := |WitnessMatches(pat, d, d.columns[..i])|;
      var w := GetWitnesses(pat, nm, d);
      && k < |w|
      && w[k] == MakeWitness(pat, nm, Get(d, "y"), pat.witnessCell(Get(d, d.columns[i]).s).value)
  {
    var cols := d.columns;
    assert cols == (cols[..i] + [cols[i]]) + cols[i + 1..];
    WitnessMatchesAppend(pat, d, cols[..i] + [cols[i]], cols[i + 1..]);
    WitnessMatchesAppend(pat, d, cols[..i], [cols[i]]);
    WitnessMatchesOne(pat, d, cols[i]);
  }

  /** The person `getWitnesses` makes of one match: the name as given name
      and an empty surname, role "Witness", born the matched age before the
      record's year. */
  function MakeWitness(pat: Patterns, nm: NameMaps, year: Value, g: WitnessGroups): (r: Person)
    ensures r.role == Str("Witness") && r.sourceGiven == Str(g.name) && r.sourceSurname == Str("")
    ensures var b := CalcBirthFromAge(pat, year, Str(g.age), 1, Null, 25);
            r.birthDate == b.date && r.birthNote == b.note
  {
    var b := CalcBirthFromAge(pat, year, Str(g.age), 1, Null, 25);
    var p := NewPerson(pat, nm, Str(g.name), Str(""), None, None).0;
    p.(role := Str("Witness"), birthDate := b.date, birthNote := b.note)
  }

  /** `getWitnesses`: one person per witness cell the witness pattern
      matches, in column order. */
  function GetWitnesses(pat: Patterns, nm: NameMaps, d: Record): (r: seq<Person>)
    requires Has(d, "y") && WitnessCellsAreText(d)
    ensures var ms := WitnessMatches(pat, d, d.columns);
      && |r| == |ms|
      && forall k :: 0 <= k < |r| ==> r[k] == MakeWitness(pat, nm, Get(d, "y"), ms[k])
  {
    var ms := WitnessMatches(pat, d, d.columns);
    seq(|ms|, k requires 0 <= k < |ms| => MakeWitness(pat, nm, Get(d, "y"), ms[k]))
  }

  /** Every witness has the role "Witness" and a birth estimated from the
      age in its cell at the record's year. */
  lemma WitnessesAreWitnesses(pat: Patterns, nm: NameMaps, d: Record, k: nat)
    requires Has(d, "y") && WitnessCellsAreText(d)
    requires k < |GetWitnesses(pat, nm, d)|
    ensures var w := GetWitnesses(pat, nm, d)[k];
            var m := WitnessMatches(pat, d, d.columns)[k];
            && w.role == Str("Witness") && w.sourceGiven == Str(m.name)
            && w.birthDate == CalcBirthFromAge(pat, Get(d, "y"), Str(m.age), 1, Null, 25).date
  {
  }

  /** The cells `commonFields` reads are there, and the place cells are
      text, since they are joined as strings. */
  predicate CommonRecord(d: Record) {
    && Has(d, "fileName") && Has(d, "rowNum") && Has(d, "fileType")
    && Has(d, "source: archive / fond / list / item") && Has(d, "microfilm #")
    && Has(d, "year recorded") && Has(d, "place recorded") && Has(d, "record #")
    && Has(d, "d") && Has(d, "m") && Has(d, "y")
    && Has(d, "town") && Has(d, "uyezd") && Has(d, "gubernia")
    && Get(d, "town").Str? && Get(d, "uyezd").Str? && Get(d, "gubernia").Str?
  }

  /** The columns `commonFields` fills: those copied from the record and
      those composed from several of its cells. */
  const CopiedColumns: set<Field> := {File, RowNumber, Source, Microfilm, RecordedOn, RecordedAt, RecordNumber}
  const DerivedColumns: set<Field> := {SourceDate, SourcePlace, SourceDescription}
  const CommonColumns: set<Field> := CopiedColumns + DerivedColumns

  /** The cells every output row of a record shares. */
  datatype Common = Common(
    file: Value, row: Value, source: Value, microfilm: Value,
    recordedOn: Value, recordedAt: Value, recordNumber: Value,
    sourceDate: string, sourcePlace: string, sourceDescription: string)

  /** The shared cells as the columns of a row. */
  function CommonRow(c: Common): (r: Row)
    ensures r.Keys == CommonColumns
    ensures r[File] == c.file && r[RowNumber] == c.row && r[Source] == c.source
    ensures r[Microfilm] == c.microfilm && r[RecordedOn] == c.recordedOn
    ensures r[RecordedAt] == c.recordedAt && r[RecordNumber] == c.recordNumber
    ensures r[SourceDate] == Str(c.sourceDate) && r[SourcePlace] == Str(c.sourcePlace)
    ensures r[SourceDescription] == Str(c.sourceDescription)
  {
    map[File := c.file, RowNumber := c.row, Source := c.source, Microfilm := c.microfilm,
        RecordedOn := c.recordedOn, RecordedAt := c.recordedAt, RecordNumber := c.recordNumber,
        SourceDate := Str(c.sourceDate), SourcePlace := Str(c.sourcePlace),
        SourceDescription := Str(c.sourceDescription)]
  }

  /** `commonFields`: the record's file, row and source cells as they are;
      the source date as "d/m/y"; the source place as "town,uyezd,gubernia";
      and a description naming the record type, the principal, the year
      and the town. */
  function CommonFields(d: Record, principalName: string): (r: Common)
    requires CommonRecord(d)
    ensures r.file == Get(d, "fileName") && r.row == Get(d, "rowNum")
    ensures r.source == Get(d, "source: archive / fond / list / item")
    ensures r.microfilm == Get(d, "microfilm #") && r.recordedOn == Get(d, "year recorded")
    ensures r.recordedAt == Get(d, "place recorded") && r.recordNumber == Get(d, "record #")
    ensures r.sourcePlace == FormatPlace(Get(d, "town").s, Get(d, "uyezd").s, Get(d, "gubernia").s)
    ensures r.sourceDate == Join("/", [Show(Get(d, "d")), Show(Get(d, "m")), Show(Get(d, "y"))])
    ensures r.sourceDescription == Strip(Show(Get(d, "fileType")) + " of " + principalName + " in "
                                         + Show(Get(d, "y")) + " " + Show(Get(d, "town")))
    ensures |r.sourceDescription| > 0 ==> !IsSpace(r.sourceDescription[0])
  {
    Common(Get(d, "fileName"), Get(d, "rowNum"), Get(d, "source: archive / fond / list / item"),
           Get(d, "microfilm #"), Get(d, "year recorded"), Get(d, "place recorded"), Get(d, "record #"),
           Join("/", [Show(Get(d, "d")), Show(Get(d, "m")), Show(Get(d, "y"))]),
           FormatPlace(Get(d, "town").s, Get(d, "uyezd").s, Get(d, "gubernia").s),
           Describe(d, principalName))
  }

  /** `"{} of {} in {} {}".format(fileType, name, y, town).strip()` */
  function Describe(d: Record, principalName: string): string
    requires CommonRecord(d)
  {
    Strip(Show(Get(d, "fileType")) + " of " + principalName + " in " + Show(Get(d, "y")) + " " + Show(Get(d, "town")))
  }

  /** The source date and place split back into the cells they came from,
      and the description is stripped. */
  lemma CommonFieldsSplitBack(d: Record, principalName: string)
    requires CommonRecord(d)
    requires NoChar(Get(d, "town").s, ',') && NoChar(Get(d, "uyezd").s, ',') && NoChar(Get(d, "gubernia").s, ',')
    requires NoChar(Show(Get(d, "d")), '/') && NoChar(Show(Get(d, "m")), '/') && NoChar(Show(Get(d, "y")), '/')
    ensures var r := CommonFields(d, principalName);
      && SplitOn(r.sourceDate, '/') == [Show(Get(d, "d")), Show(Get(d, "m")), Show(Get(d, "y"))]
      && SplitOn(r.sourcePlace, ',') == [Get(d, "town").s, Get(d, "uyezd").s, Get(d, "gubernia").s]
      && Strip(r.sourceDescription) == r.sourceDescription
  {
    SplitOnJoin([Show(Get(d, "d")), Show(Get(d, "m")), Show(Get(d, "y"))], '/');
    FormatPlaceSplits(Get(d, "town").s, Get(d, "uyezd").s, Get(d, "gubernia").s);
  }

  // ----------------------------------------------------------- row assembly

  /** The birth a processor assigns to a person, with the person's role. */
  function WithBirth(p: Person, b: Birth, role: string): (r: Person)
    ensures r.birthDate == b.date && r.birthNote == b.note && r.role == Str(role)
    ensures r.(birthDate := p.birthDate, birthNote := p.birthNote, role := p.role) == p
  {
    p.(birthDate := b.date, birthNote := b.note, role := Str(role))
  }

  /** `[p for p in people if p]` */
  function PresentOnly(people: seq<Person>): (r: seq<Person>)
    ensures |r| <= |people|
    ensures forall k :: 0 <= k < |r| ==> Present(r[k])
  {
    if people == [] then []
    else (if Present(people[0]) then [people[0]] else []) + PresentOnly(people[1..])
  }

  /** Only absent people are dropped: a list of present people is kept
      whole, and a list of absent people vanishes. */
  lemma {:induction false} PresentOnlyKeepsPresent(people: seq<Person>)
    ensures (forall k :: 0 <= k < |people| ==> Present(people[k])) ==> PresentOnly(people) == people
    ensures (forall k :: 0 <= k < |people| ==> !Present(people[k])) ==> PresentOnly(people) == []
    decreases |people|
  {
    if people != [] {
      PresentOnlyKeepsPresent(people[1..]);
    }
  }

  /** Filtering a concatenation filters each part, in order. */
  lemma {:induction false} PresentOnlyAppend(a: seq<Person>, b: seq<Person>)
    ensures PresentOnly(a + b) == PresentOnly(a) + PresentOnly(b)
    decreases |a|
  {
    if a == [] {
      assert a + b == b;
    } else {
      assert (a + b)[1..] == a[1..] + b;
      PresentOnlyAppend(a[1..], b);
    }
  }

  /** `[{**rowCommon, **p.normalizedFields()} for p in people if p]`: one
      row per present person, in order, each the shared cells overlaid
      with the person's own. */
  function RecordRows(common: Row, people: seq<Person>): (r: seq<Row>)
    ensures |r| == |PresentOnly(people)|
  {
    var present := PresentOnly(people);
    seq(|present|, k requires 0 <= k < |present| => common + NormalizedFields(present[k]))
  }

  /** Every row has the shared columns and the person columns; a column of
      both takes the person's cell, any other shared column the shared one. */
  lemma RecordRowsCells(common: Row, people: seq<Person>, k: nat, f: Field)
    requires k < |RecordRows(common, people)|
    ensures RecordRows(common, people)[k].Keys == common.Keys + PersonFields
    ensures f in PersonFields ==> RecordRows(common, people)[k][f] == NormalizedFields(PresentOnly(people)[k])[f]
    ensures f in common && f !in PersonFields ==> RecordRows(common, people)[k][f] == common[f]
  {
  }

  /** The row for a person carries the person's role and normalised name. */
  lemma RecordRowsNamePeople(common: Row, people: seq<Person>, k: nat)
    requires k < |RecordRows(common, people)|
    ensures var p := PresentOnly(people)[k];
            && RecordRows(common, people)[k][Role] == p.role
            && RecordRows(common, people)[k][Name] == Str(FormatName(p, true))
            && Present(p)
  {
  }

  /** A present person leading the list gives the first row, with its own
      name and role. */
  lemma RecordRowsFirst(common: Row, p: Person, rest: seq<Person>)
    requires Present(p)
    ensures var r := RecordRows(common, [p] + rest);
      && |r| > 0 && Role in r[0] && Name in r[0]
      && r[0][Role] == p.role && r[0][Name] == Str(FormatName(p, true))
  {
    assert PresentOnly([p] + rest) == [p] + PresentOnly(rest) by {
      assert ([p] + rest)[1..] == rest;
    }
    RecordRowsNamePeople(common, [p] + rest, 0);
  }

  /** Splitting off the first person of a family list. */
  lemma LeadingPerson(a: seq<Person>, w: seq<Person>)
    requires |a| > 0
    ensures a + w == [a[0]] + (a[1..] + w)
  {
  }
}
