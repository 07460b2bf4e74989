/** Marriage records (litvak/marriage.py): the husband's family, the
    wife's family, and the witnesses, one output row each. Both families
    are read by one routine, from the unprefixed columns for the husband
    and the "wife's " columns for the wife. */
module Marriages {
  import opened Text
  import opened Values
  import opened Patterns
  import opened Names
  import opened Persons
  import opened Output
  import opened Normalize

  /** The columns one side of a marriage is read from. The source builds
      them as `prefix + name`, with the empty prefix for the husband and
      "wife's " for the wife; here they are spelled out. */
  datatype SideColumns = SideColumns(
    given: string, surname: string,
    fathersGiven: string, fathersPatronymic: string,
    mothersGiven: string, mothersPatronymic: string, mothersMaiden: string,
    age: string, place: string)

  const HusbandColumns := SideColumns(
    "given name", "surname",
    "father's given name", "father's patronymic",
    "mother's given name", "mother's patronymic", "mother's maiden name",
    "age", "place")

  const WifeColumns := SideColumns(
    "wife's given name", "wife's surname",
    "wife's father's given name", "wife's father's patronymic",
    "wife's mother's given name", "wife's mother's patronymic", "wife's mother's maiden name",
    "wife's age", "wife's place")

  /** The columns of one side that the record must hold. */
  predicate SideRecord(d: Record, c: SideColumns) {
    && Has(d, c.given) && Has(d, c.surname)
    && Has(d, c.fathersGiven) && Has(d, c.mothersGiven)
    && Has(d, c.mothersMaiden) && Has(d, c.age) && Has(d, c.place)
  }

  /** The columns a marriage record is read from. */
  predicate MarriageRecord(d: Record) {
    && CommonRecord(d) && WitnessCellsAreText(d)
    && SideRecord(d, HusbandColumns) && SideRecord(d, WifeColumns)
    && Has(d, "comments")
  }

  /** The family of one side, read from its columns. */
  function SideFamily(pat: Patterns, nm: NameMaps, d: Record, c: SideColumns): Family
    requires SideRecord(d, c)
  {
    BuildFamily(pat, nm,
                Get(d, c.given), Get(d, c.surname),
                Get(d, c.fathersGiven), GetOr(d, c.fathersPatronymic, Str("")),
                Get(d, c.mothersGiven), GetOr(d, c.mothersPatronymic, Str("")),
                Get(d, c.mothersMaiden),
                Str(""), Str(""), Str(""), None)
  }

  /** The births of one side: the spouse's from the spouse's own age at the
      year of the marriage; the parents' from the ages in the record (the
      same, unprefixed, for both sides), else a generation before the
      spouse; each grandfather a generation before his child. */
  datatype SideBirths = SideBirths(spouse: Birth, father: Birth, fathersFather: Birth, mother: Birth, mothersFather: Birth)

  function BirthsOfSide(pat: Patterns, d: Record, c: SideColumns): (r: SideBirths)
    requires MarriageRecord(d) && SideRecord(d, c)
    ensures r.spouse == CalcBirthFromAge(pat, Get(d, "y"), Get(d, c.age), 1, Null, 25)
    ensures var (fatherAge, motherAge) := GetParentsAge(pat, d);
      && r.father == CalcBirthFromAge(pat, Get(d, "y"), fatherAge, 1, r.spouse.year, 25)
      && r.mother == CalcBirthFromAge(pat, Get(d, "y"), motherAge, 1, r.spouse.year, 25)
    ensures r.fathersFather == NextGeneration(pat, r.father.year)
    ensures r.mothersFather == NextGeneration(pat, r.mother.year)
  {
    var y := Get(d, "y");
    var sb := CalcBirthFromAge(pat, y, Get(d, c.age), 1, Null, 25);
    var (fatherAge, motherAge) := GetParentsAge(pat, d);
    var fb := CalcBirthFromAge(pat, y, fatherAge, 1, sb.year, 25);
    var mb := CalcBirthFromAge(pat, y, motherAge, 1, sb.year, 25);
    SideBirths(sb, fb, NextGeneration(pat, fb.year), mb, NextGeneration(pat, mb.year))
  }

  /** Both sides read the parents' ages from the same cells: when the
      spouses share a birth year their parents share their births. */
  lemma SidesShareParentAges(pat: Patterns, d: Record)
    requires MarriageRecord(d)
    requires BirthsOfSide(pat, d, HusbandColumns).spouse.year == BirthsOfSide(pat, d, WifeColumns).spouse.year
    ensures BirthsOfSide(pat, d, HusbandColumns).father == BirthsOfSide(pat, d, WifeColumns).father
    ensures BirthsOfSide(pat, d, HusbandColumns).mother == BirthsOfSide(pat, d, WifeColumns).mother
  {
  }

  /** With no age for a parent, that parent is put a generation before
      the spouse: born 25 years earlier. */
  lemma ParentsAGenerationBeforeSpouse(pat: Patterns, d: Record, c: SideColumns)
    requires MarriageRecord(d) && SideRecord(d, c)
    requires !Truthy(GetParentsAge(pat, d).0)
    requires BirthsOfSide(pat, d, c).spouse.year.Int?
    requires BirthsOfSide(pat, d, c).spouse.year.i >= MinYear
    ensures var b := BirthsOfSide(pat, d, c);
      b.father.year == Int(b.spouse.year.i - 25)
  {
    var b := BirthsOfSide(pat, d, c);
    EstimatedWithoutAge(pat, Get(d, "y"), GetParentsAge(pat, d).0, 1, b.spouse.year.i);
  }

  /** The spouse as `processSpouseFam` sets them: born as the age says in
      the place of the spouse's own place column, married on the record's
      date in the record's place, with the side as role. */
  function SpousePerson(d: Record, c: SideColumns, side: string, p: Person, b: Birth): (r: Person)
    requires MarriageRecord(d) && SideRecord(d, c)
    ensures r.role == Str(side) && r.birthDate == b.date && r.birthNote == b.note
    ensures r.birthPlace == Get(d, c.place)
    ensures r.marriageDate == Str(FormatJulianAsGregorian(Get(d, "y"), Get(d, "m"), Get(d, "d")))
    ensures r.marriagePlace == Str(FormatPlace(Get(d, "town").s, Get(d, "uyezd").s, Get(d, "gubernia").s))
    ensures r.given == p.given && r.surname == p.surname && r.sourceGiven == p.sourceGiven
  {
    WithBirth(p, b, side).(
      birthPlace := Get(d, c.place),
      marriageDate := Str(FormatJulianAsGregorian(Get(d, "y"), Get(d, "m"), Get(d, "d"))),
      marriagePlace := Str(FormatPlace(Get(d, "town").s, Get(d, "uyezd").s, Get(d, "gubernia").s)))
  }

  /** The five members of one side in row order: spouse, father, father's
      father, mother, mother's father, with roles named after the side. */
  function SidePeople(spouse: Person, side: string, f: Family, b: SideBirths): (r: seq<Person>)
    ensures |r| == 5 && r[0] == spouse
    ensures r[1].role == Str(side + "'s Father") && r[2].role == Str(side + "'s Father's Father")
    ensures r[3].role == Str(side + "'s Mother") && r[4].role == Str(side + "'s Mother's Father")
    ensures r[1].birthDate == b.father.date && r[2].birthDate == b.fathersFather.date
    ensures r[3].birthDate == b.mother.date && r[4].birthDate == b.mothersFather.date
    ensures r[1].given == f.father.given && r[2].given == f.fathersFather.given
    ensures r[3].given == f.mother.given && r[4].given == f.mothersFather.given
  {
    [spouse,
     WithBirth(f.father, b.father, side + "'s Father"),
     WithBirth(f.fathersFather, b.fathersFather, side + "'s Father's Father"),
     WithBirth(f.mother, b.mother, side + "'s Mother"),
     WithBirth(f.mothersFather, b.mothersFather, side + "'s Mother's Father")]
  }

  /** `processSpouseFam(d, side, prefix)`, with the prefixed column names in `c`. */
  function ProcessSpouseFam(pat: Patterns, nm: NameMaps, d: Record, side: string, c: SideColumns): (r: seq<Person>)
    requires MarriageRecord(d) && SideRecord(d, c)
    ensures |r| == 5
    ensures r[0].role == Str(side) && r[0].given == SideFamily(pat, nm, d, c).principal.given
  {
    var f := SideFamily(pat, nm, d, c);
    var b := BirthsOfSide(pat, d, c);
    SidePeople(SpousePerson(d, c, side, f.principal, b.spouse), side, f, b)
  }

  /** `"{} {} & {} {}".format(...)`: both spouses as written. */
  function CoupleName(d: Record): string
    requires MarriageRecord(d)
  {
    Show(Get(d, HusbandColumns.given)) + " " + Show(Get(d, HusbandColumns.surname)) + " & "
      + Show(Get(d, WifeColumns.given)) + " " + Show(Get(d, WifeColumns.surname))
  }

  /** `processMarriage`: the rows of the present members of the husband's
      side, then of the wife's side, then of the present witnesses, each
      with the record's shared cells. */
  function ProcessMarriage(pat: Patterns, nm: NameMaps, d: Record): (r: seq<Row>)
    requires MarriageRecord(d)
    ensures |r| <= 10 + |GetWitnesses(pat, nm, d)|
  {
    var people := ProcessSpouseFam(pat, nm, d, "Husband", HusbandColumns)
                 + ProcessSpouseFam(pat, nm, d, "Wife", WifeColumns)
                 + GetWitnesses(pat, nm, d);
    RecordRows(CommonRow(CommonFields(d, CoupleName(d))), people)
  }

  /** A present husband gives the first row, under the role "Husband". */
  lemma HusbandRowFirst(pat: Patterns, nm: NameMaps, d: Record)
    requires MarriageRecord(d)
    requires Present(SideFamily(pat, nm, d, HusbandColumns).principal)
    ensures var r := ProcessMarriage(pat, nm, d);
      && |r| > 0 && Role in r[0] && r[0][Role] == Str("Husband")
  {
    var h := ProcessSpouseFam(pat, nm, d, "Husband", HusbandColumns);
    var w := ProcessSpouseFam(pat, nm, d, "Wife", WifeColumns);
    var ws := GetWitnesses(pat, nm, d);
    var common := CommonRow(CommonFields(d, CoupleName(d)));
    LeadingPair(h, w, ws);
    assert ProcessMarriage(pat, nm, d) == RecordRows(common, [h[0]] + (h[1..] + w + ws));
    RecordRowsFirst(common, h[0], h[1..] + w + ws);
  }

  /** The husband's and the wife's rows come from their own sides in
      order: the present members of each side, side by side. */
  lemma {:induction false} SidesInOrder(pat: Patterns, nm: NameMaps, d: Record)
    requires MarriageRecord(d)
    ensures var h := ProcessSpouseFam(pat, nm, d, "Husband", HusbandColumns);
      var w := ProcessSpouseFam(pat, nm, d, "Wife", WifeColumns);
      var ws := GetWitnesses(pat, nm, d);
      PresentOnly(h + w + ws) == PresentOnly(h) + PresentOnly(w) + PresentOnly(ws)
  {
    var h := ProcessSpouseFam(pat, nm, d, "Husband", HusbandColumns);
    var w := ProcessSpouseFam(pat, nm, d, "Wife", WifeColumns);
    var ws := GetWitnesses(pat, nm, d);
    PresentOnlyAppend(h + w, ws);
    PresentOnlyAppend(h, w);
  }

  lemma LeadingPair(h: seq<Person>, w: seq<Person>, ws: seq<Person>)
    requires |h| > 0
    ensures h + w + ws == [h[0]] + (h[1..] + w + ws)
  {
  }
}
