/** Birth records (litvak/birth.py): the child, the parents and the
    grandfathers, and the witnesses, one output row each; a child cell
    naming twins yields the rows of both twins. */
module Births {
  import opened Text
  import opened Values
  import opened Patterns
  import opened Names
  import opened Persons
  import opened Output
  import opened Normalize

  /** The columns a birth record is read from; the child's names, the
      place cells and the witness cells are text (they are searched or
      concatenated as strings). */
  predicate BirthRecord(d: Record) {
    && CommonRecord(d) && WitnessCellsAreText(d)
    && Has(d, "child's given name") && Has(d, "child's surname")
    && Has(d, "father's given name") && Has(d, "father's patronymic")
    && Has(d, "mother's given name") && Has(d, "mother's patronymic") && Has(d, "mother's maiden name")
    && Has(d, "comments")
    && Get(d, "child's given name").Str? && Get(d, "child's surname").Str?
  }

  /** The births `processBirth` computes for the father, the father's
      father, the mother and the mother's father: the parents from their
      ages at the record's year, each grandfather a generation before his
      child. */
  datatype ParentBirths = ParentBirths(father: Birth, fathersFather: Birth, mother: Birth, mothersFather: Birth)

  function BirthsOfParents(pat: Patterns, d: Record): (r: ParentBirths)
    requires BirthRecord(d)
    ensures var (fatherAge, motherAge) := GetParentsAge(pat, d);
      && r.father == CalcBirthFromAge(pat, Get(d, "y"), fatherAge, 1, Null, 25)
      && r.mother == CalcBirthFromAge(pat, Get(d, "y"), motherAge, 1, Null, 25)
    ensures r.fathersFather == NextGeneration(pat, r.father.year)
    ensures r.mothersFather == NextGeneration(pat, r.mother.year)
  {
    var (fatherAge, motherAge) := GetParentsAge(pat, d);
    var fb := CalcBirthFromAge(pat, Get(d, "y"), fatherAge, 1, Null, 25);
    var mb := CalcBirthFromAge(pat, Get(d, "y"), motherAge, 1, Null, 25);
    NextGenerationEitherAnchor(pat, fb.year);
    ParentBirths(fb, CalcBirthFromAge(pat, fb.year, Null, 1, fb.year, 25),
                 mb, CalcBirthFromAge(pat, mb.year, Null, 1, Null, 25))
  }

  /** Each grandfather is born 25 years before his child when the child's
      birth year is at least `MinYear`, and has no birth otherwise. */
  lemma GrandfathersAGenerationBefore(pat: Patterns, d: Record)
    requires BirthRecord(d)
    ensures var b := BirthsOfParents(pat, d);
      && (b.father.year.Int? && b.father.year.i >= MinYear ==> b.fathersFather.year == Int(b.father.year.i - 25))
      && (b.mother.year.Int? && b.mother.year.i >= MinYear ==> b.mothersFather.year == Int(b.mother.year.i - 25))
      && (!(b.father.year.Int? && b.father.year.i >= MinYear) ==> b.fathersFather == NoBirth)
      && (!(b.mother.year.Int? && b.mother.year.i >= MinYear) ==> b.mothersFather == NoBirth)
  {
  }

  /** The child's birth date: the record's year in both the year and the
      day position, the record's month in the month position. */
  function ChildBirthDate(d: Record): string
    requires BirthRecord(d)
  {
    FormatJulianAsGregorian(Get(d, "y"), Get(d, "m"), Get(d, "y"))
  }

  /** Passing the year as the day puts the date year-1 days after the
      first of the record's month: for a record of September 1900, some
      five years later. In January and March to August the source's
      conversion adds its one or two days more. */
  lemma ChildBirthDateCountsYearAsDays(d: Record, year: int, month: int)
    requires BirthRecord(d) && Get(d, "y") == Int(year) && Get(d, "m") == Int(month)
    requires 1 <= month <= 12
    requires 0 <= Converted(Int(year), Int(month), Int(year)).year < 10000
    ensures var g := Converted(Int(year), Int(month), Int(year));
      var shift := Calendar.GregorianCalendarDay(g)
                   - (Calendar.JulianCalendarDay(Calendar.Date(year, month, 1)) + year - 1);
      && ReadIsoDate(ChildBirthDate(d)) == Some(g)
      && (Calendar.IsLateMonth(month) ==> shift == 0)
      && (Calendar.IsEarlyMonth(month) ==> shift == 1 || shift == 2)
  {
    var y, m := Int(year), Int(month);
    FormatJulianReadsBack(y, m, y, true);
    if Calendar.IsLateMonth(month) {
      AsWrittenInLateMonths(y, m, y);
      FormatJulianIntendedIsExact(y, m, y);
    } else {
      AsWrittenInEarlyMonths(y, m, y);
    }
  }

  /** The child as `processBirth` sets it: born on `ChildBirthDate` in
      the record's place, with an empty note and the role "Principle". */
  function ChildPerson(d: Record, f: Family): (r: Person)
    requires BirthRecord(d)
    ensures r.role == Str("Principle")
    ensures r.birthDate == Str(ChildBirthDate(d)) && r.birthNote == Str("")
    ensures r.birthPlace == Str(FormatPlace(Get(d, "town").s, Get(d, "uyezd").s, Get(d, "gubernia").s))
    ensures r.given == f.principal.given && r.surname == f.principal.surname
  {
    f.principal.(birthDate := Str(ChildBirthDate(d)), birthNote := Str(""),
                 birthPlace := Str(FormatPlace(Get(d, "town").s, Get(d, "uyezd").s, Get(d, "gubernia").s)),
                 role := Str("Principle"))
  }

  /** The five family members with their roles and births, in row order:
      child, father, father's father, mother, mother's father. */
  function FamilyPeople(child: Person, f: Family, b: ParentBirths): (r: seq<Person>)
    ensures |r| == 5 && r[0] == child
    ensures r[1].role == Str("Father") && r[2].role == Str("Father's Father")
    ensures r[3].role == Str("Mother") && r[4].role == Str("Mother's Father")
    ensures r[1].birthDate == b.father.date && r[2].birthDate == b.fathersFather.date
    ensures r[3].birthDate == b.mother.date && r[4].birthDate == b.mothersFather.date
    ensures r[1].given == f.father.given && r[2].given == f.fathersFather.given
    ensures r[3].given == f.mother.given && r[4].given == f.mothersFather.given
  {
    [child,
     WithBirth(f.father, b.father, "Father"),
     WithBirth(f.fathersFather, b.fathersFather, "Father's Father"),
     WithBirth(f.mother, b.mother, "Mother"),
     WithBirth(f.mothersFather, b.mothersFather, "Mother's Father")]
  }

  /** The family of the record, the child under the given-name cell
      `childName` (the child's own cell, or one twin's name), with its
      parents and grandfathers. */
  function RecordFamily(pat: Patterns, nm: NameMaps, d: Record, childName: Value): Family
    requires BirthRecord(d)
  {
    BuildFamily(pat, nm,
                childName, Get(d, "child's surname"),
                Get(d, "father's given name"), Get(d, "father's patronymic"),
                Get(d, "mother's given name"), Get(d, "mother's patronymic"), Get(d, "mother's maiden name"),
                Str(""), Str(""), Str(""), None)
  }

  /** The family members of one child, in row order. */
  function ChildPeople(pat: Patterns, nm: NameMaps, d: Record, childName: Value): seq<Person>
    requires BirthRecord(d)
  {
    var f := RecordFamily(pat, nm, d, childName);
    FamilyPeople(ChildPerson(d, f), f, BirthsOfParents(pat, d))
  }

  /** The rows of one child: the present family members, then the present
      witnesses, each with the record's shared cells. The description
      names the child's cell as written, even for a twin. */
  function ChildRows(pat: Patterns, nm: NameMaps, d: Record, childName: Value): (r: seq<Row>)
    requires BirthRecord(d)
  {
    var common := CommonFields(d, Get(d, "child's given name").s + " " + Get(d, "child's surname").s);
    RecordRows(CommonRow(common), ChildPeople(pat, nm, d, childName) + GetWitnesses(pat, nm, d))
  }

  /** `processBirth`: when the record carries no twin name and its child
      cell names twins, the first row of the first twin followed by every
      row of the second; `None` where the source fails, that is when the
      first twin yields no row at all. The twin's name is passed on
      directly instead of through a "twin name" cell: no other part of the
      record processing reads that cell. */
  function ProcessBirth(pat: Patterns, nm: NameMaps, d: Record): (r: Option<seq<Row>>)
    requires BirthRecord(d)
    ensures Has(d, "twin name") || pat.twins(Get(d, "child's given name").s).None? ==>
      r == Some(ChildRows(pat, nm, d, GetOr(d, "twin name", Get(d, "child's given name"))))
    ensures r.None? ==> !Has(d, "twin name")
  {
    if !Has(d, "twin name") && pat.twins(Get(d, "child's given name").s).Some? then
      var g := pat.twins(Get(d, "child's given name").s).value;
      var first := ChildRows(pat, nm, d, Str(g.first));
      if |first| == 0 then None
      else Some([first[0]] + ChildRows(pat, nm, d, Str(g.second)))
    else Some(ChildRows(pat, nm, d, GetOr(d, "twin name", Get(d, "child's given name"))))
  }

  /** The child row always comes first: a record whose child is present
      yields a first row naming the child with the role "Principle". */
  lemma ChildRowFirst(pat: Patterns, nm: NameMaps, d: Record, childName: Value)
    requires BirthRecord(d)
    requires Present(ChildPerson(d, RecordFamily(pat, nm, d, childName)))
    ensures var r := ChildRows(pat, nm, d, childName);
      && |r| > 0 && Role in r[0] && r[0][Role] == Str("Principle")
      && Name in r[0] && r[0][Name] == Str(FormatName(ChildPerson(d, RecordFamily(pat, nm, d, childName)), true))
  {
    var people := ChildPeople(pat, nm, d, childName);
    var rest := people[1..] + GetWitnesses(pat, nm, d);
    LeadingPerson(people, GetWitnesses(pat, nm, d));
    var common := CommonFields(d, Get(d, "child's given name").s + " " + Get(d, "child's surname").s);
    RecordRowsFirst(CommonRow(common), people[0], rest);
  }

  /** A child cell naming twins gives one row for the first twin, as the
      principal under its own name, followed by all rows of the second
      twin (family members and witnesses alike). */
  lemma TwinRows(pat: Patterns, nm: NameMaps, d: Record)
    requires BirthRecord(d) && !Has(d, "twin name")
    requires pat.twins(Get(d, "child's given name").s).Some?
    requires Present(ChildPerson(d, RecordFamily(pat, nm, d, Str(pat.twins(Get(d, "child's given name").s).value.first))))
    ensures var g := pat.twins(Get(d, "child's given name").s).value;
      var r := ProcessBirth(pat, nm, d);
      var firstChild := ChildPerson(d, RecordFamily(pat, nm, d, Str(g.first)));
      && r.Some? && |r.value| > 0 && r.value[1..] == ChildRows(pat, nm, d, Str(g.second))
      && Role in r.value[0] && r.value[0][Role] == Str("Principle")
      && Name in r.value[0] && r.value[0][Name] == Str(FormatName(firstChild, true))
  {
    var g := pat.twins(Get(d, "child's given name").s).value;
    ChildRowFirst(pat, nm, d, Str(g.first));
  }
}
