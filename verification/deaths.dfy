/** Death records (litvak/death.py): the deceased, the parents and the
    grandfathers, the spouse and the spouse's father, and the witnesses,
    one output row each. */
module Deaths {
  import opened Text
  import opened Values
  import opened Patterns
  import opened Names
  import opened Persons
  import opened Output
  import opened Normalize

  /** `clean` on a cell: an empty cell gives the empty name, any other is
      cleaned as text (the source's pattern substitutions fail on a
      number). */
  predicate NameCell(v: Value) { v.Str? || !Truthy(v) }

  function CleanCell(pat: Patterns, v: Value): (r: string)
    requires NameCell(v)
    ensures !Truthy(v) ==> r == ""
    ensures Truthy(v) ==> r == CleanName(pat, v.s)
  {
    if !Truthy(v) then "" else CleanName(pat, v.s)
  }

  /** The columns a death record is read from; the two given names are
      cleaned, the comments searched for "widow". */
  predicate DeathRecord(d: Record) {
    && CommonRecord(d) && WitnessCellsAreText(d)
    && Has(d, "given name") && Has(d, "surname")
    && Has(d, "spouse's given name") && Has(d, "spouse's surname")
    && Has(d, "father's given name") && Has(d, "mother's given name") && Has(d, "mother's maiden name")
    && Has(d, "comments") && Has(d, "age")
    && NameCell(Get(d, "given name")) && NameCell(Get(d, "spouse's given name"))
    && Get(d, "comments").Str?
  }

  /** The married-surname rule: when the deceased has a spouse and a
      surname, an empty spouse surname takes the deceased's, and a
      deceased surname equal to the spouse's is taken to be the married
      name and dropped. The result is the pair (deceased surname, spouse
      surname). */
  function MarriedSurname(spouseGiven: string, deceasedSurname: Value, spouseSurname: Value): (r: (Value, Value))
    ensures r.0 == deceasedSurname || r.0 == Str("")
    ensures Truthy(spouseSurname) ==> r.1 == spouseSurname
    ensures spouseGiven != "" && Truthy(deceasedSurname) ==>
      Truthy(r.1) && (r.0 == Str("") <==> r.1 == deceasedSurname)
    ensures spouseGiven == "" || !Truthy(deceasedSurname) ==> r == (deceasedSurname, spouseSurname)
  {
    if spouseGiven != "" && Truthy(deceasedSurname) then
      var spouseSurname' := if !Truthy(spouseSurname) then deceasedSurname else spouseSurname;
      if spouseSurname' == deceasedSurname then (Str(""), spouseSurname')
      else (deceasedSurname, spouseSurname')
    else (deceasedSurname, spouseSurname)
  }

  /** Applying the rule to its own result changes nothing more. */
  lemma MarriedSurnameIdempotent(spouseGiven: string, deceasedSurname: Value, spouseSurname: Value)
    ensures var r := MarriedSurname(spouseGiven, deceasedSurname, spouseSurname);
      MarriedSurname(spouseGiven, r.0, r.1) == r
  {
  }

  /** The names `processDeath` hands to `buildFamily` for the deceased,
      the father and the spouse. */
  datatype DeathNames = DeathNames(deceasedGiven: string, deceasedSurname: string, fatherGiven: string,
                                   spouseGiven: string, spouseSurname: Value)

  /** The deceased's and the spouse's given names cleaned, the married
      surname rule applied, and an uppercase surname in the father's
      given-name cell split off as the family surname. */
  function NamesOfDeath(pat: Patterns, d: Record): (r: DeathNames)
    requires DeathRecord(d)
    ensures r.deceasedGiven == CleanCell(pat, Get(d, "given name"))
    ensures r.spouseGiven == CleanCell(pat, Get(d, "spouse's given name"))
    ensures var (sn, ssn) := MarriedSurname(r.spouseGiven, Get(d, "surname"), Get(d, "spouse's surname"));
      && r.spouseSurname == ssn
      && (r.fatherGiven, r.deceasedSurname) == ExtractSurname(pat, Get(d, "father's given name"), sn)
  {
    var deceasedGiven := CleanCell(pat, Get(d, "given name"));
    var spouseGiven := CleanCell(pat, Get(d, "spouse's given name"));
    var (sn, ssn) := MarriedSurname(spouseGiven, Get(d, "surname"), Get(d, "spouse's surname"));
    var (fatherGiven, deceasedSurname) := ExtractSurname(pat, Get(d, "father's given name"), sn);
    DeathNames(deceasedGiven, deceasedSurname, fatherGiven, spouseGiven, ssn)
  }

  /** A deceased listed under the spouse's surname keeps no surname of
      their own unless the father's cell supplies one. */
  lemma MarriedNameDropped(pat: Patterns, d: Record)
    requires DeathRecord(d)
    requires CleanCell(pat, Get(d, "spouse's given name")) != ""
    requires Get(d, "surname") == Get(d, "spouse's surname") && Truthy(Get(d, "surname"))
    requires pat.surname(Show(Get(d, "father's given name"))).None?
    ensures NamesOfDeath(pat, d).deceasedSurname == ""
    ensures NamesOfDeath(pat, d).spouseSurname == Get(d, "surname")
  {
  }

  /** The family of the record, built from those names. */
  function DeathFamily(pat: Patterns, nm: NameMaps, d: Record): Family
    requires DeathRecord(d)
  {
    var n := NamesOfDeath(pat, d);
    BuildFamily(pat, nm,
                Str(n.deceasedGiven), Str(n.deceasedSurname),
                Str(n.fatherGiven), GetOr(d, "father's patronymic", Str("")),
                Get(d, "mother's given name"), GetOr(d, "mother's patronymic", Str("")), Get(d, "mother's maiden name"),
                Str(n.spouseGiven), Str(""), n.spouseSurname, None)
  }

  /** The births `processDeath` computes for the seven family members. */
  datatype DeathBirths = DeathBirths(deceased: Birth, father: Birth, fathersFather: Birth,
                                     mother: Birth, mothersFather: Birth, spouse: Birth, spousesFather: Birth)

  /** The deceased's birth from the age at death; the parents' from their
      ages at the year of death, else a generation before the deceased;
      the spouse's from the spouse's age, else in the deceased's own
      generation; each father a generation before his child. */
  function BirthsOfDeath(pat: Patterns, d: Record): (r: DeathBirths)
    requires DeathRecord(d)
    ensures r.deceased == CalcBirthFromAge(pat, Get(d, "y"), Get(d, "age"), 1, Null, 25)
    ensures var (fatherAge, motherAge) := GetParentsAge(pat, d);
      && r.father == CalcBirthFromAge(pat, Get(d, "y"), fatherAge, 1, r.deceased.year, 25)
      && r.mother == CalcBirthFromAge(pat, Get(d, "y"), motherAge, 1, r.deceased.year, 25)
    ensures r.spouse == CalcBirthFromAge(pat, Get(d, "y"), GetSpouseAge(pat, d), 0, r.deceased.year, 25)
    ensures r.fathersFather == NextGeneration(pat, r.father.year)
    ensures r.mothersFather == NextGeneration(pat, r.mother.year)
    ensures r.spousesFather == NextGeneration(pat, r.spouse.year)
  {
    var y := Get(d, "y");
    var db := CalcBirthFromAge(pat, y, Get(d, "age"), 1, Null, 25);
    var (fatherAge, motherAge) := GetParentsAge(pat, d);
    var fb := CalcBirthFromAge(pat, y, fatherAge, 1, db.year, 25);
    var mb := CalcBirthFromAge(pat, y, motherAge, 1, db.year, 25);
    var sb := CalcBirthFromAge(pat, y, GetSpouseAge(pat, d), 0, db.year, 25);
    DeathBirths(db, fb, NextGeneration(pat, fb.year), mb, NextGeneration(pat, mb.year),
                sb, NextGeneration(pat, sb.year))
  }

  /** With no age for the spouse the spouse is put in the deceased's own
      generation: born in the deceased's birth year. */
  lemma SpouseOfSameGeneration(pat: Patterns, d: Record)
    requires DeathRecord(d)
    requires !Truthy(GetSpouseAge(pat, d))
    requires BirthsOfDeath(pat, d).deceased.year.Int?
    requires BirthsOfDeath(pat, d).deceased.year.i >= MinYear
    ensures BirthsOfDeath(pat, d).spouse.year == BirthsOfDeath(pat, d).deceased.year
  {
    var b := BirthsOfDeath(pat, d);
    EstimatedWithoutAge(pat, Get(d, "y"), GetSpouseAge(pat, d), 0, b.deceased.year.i);
  }

  /** With no age for the father he is put a generation before the
      deceased: born 25 years earlier. */
  lemma FatherAGenerationBefore(pat: Patterns, d: Record)
    requires DeathRecord(d)
    requires !Truthy(GetParentsAge(pat, d).0)
    requires BirthsOfDeath(pat, d).deceased.year.Int?
    requires BirthsOfDeath(pat, d).deceased.year.i >= MinYear
    ensures var b := BirthsOfDeath(pat, d);
      b.father.year == Int(b.deceased.year.i - 25)
  {
    var b := BirthsOfDeath(pat, d);
    EstimatedWithoutAge(pat, Get(d, "y"), GetParentsAge(pat, d).0, 1, b.deceased.year.i);
  }

  /** With no age for the mother she is put a generation before the
      deceased: born 25 years earlier. */
  lemma MotherAGenerationBefore(pat: Patterns, d: Record)
    requires DeathRecord(d)
    requires !Truthy(GetParentsAge(pat, d).1)
    requires BirthsOfDeath(pat, d).deceased.year.Int?
    requires BirthsOfDeath(pat, d).deceased.year.i >= MinYear
    ensures var b := BirthsOfDeath(pat, d);
      b.mother.year == Int(b.deceased.year.i - 25)
  {
    var b := BirthsOfDeath(pat, d);
    EstimatedWithoutAge(pat, Get(d, "y"), GetParentsAge(pat, d).1, 1, b.deceased.year.i);
  }

  /** The deceased as `processDeath` sets them: died on the record's
      date in the record's place, with an empty death note, born as the
      age says, with the role "Principle". */
  function DeceasedPerson(d: Record, p: Person, b: Birth): (r: Person)
    requires DeathRecord(d)
    ensures r.role == Str("Principle")
    ensures r.deathDate == Str(FormatJulianAsGregorian(Get(d, "y"), Get(d, "m"), Get(d, "d")))
    ensures r.deathNote == Str("")
    ensures r.deathPlace == Str(FormatPlace(Get(d, "town").s, Get(d, "uyezd").s, Get(d, "gubernia").s))
    ensures r.birthDate == b.date && r.birthNote == b.note
    ensures r.given == p.given && r.surname == p.surname && r.sourceGiven == p.sourceGiven
  {
    WithBirth(p, b, "Principle").(
      deathDate := Str(FormatJulianAsGregorian(Get(d, "y"), Get(d, "m"), Get(d, "d"))),
      deathNote := Str(""),
      deathPlace := Str(FormatPlace(Get(d, "town").s, Get(d, "uyezd").s, Get(d, "gubernia").s)))
  }

  /** The comments call the deceased a widow or widower. */
  predicate Widowed(d: Record)
    requires DeathRecord(d)
  {
    Contains(Lower(Get(d, "comments").s), "widow")
  }

  /** The spouse: born as computed, and, when the deceased was widowed,
      died before the year of the record with a note saying so; otherwise
      the death cells stay as `buildFamily` left them. */
  function SpousePerson(d: Record, p: Person, b: Birth): (r: Person)
    requires DeathRecord(d)
    ensures r.role == Str("Spouse") && r.birthDate == b.date && r.birthNote == b.note
    ensures Widowed(d) ==> r.deathDate == Str("before " + Show(Get(d, "y")))
    ensures Widowed(d) ==> r.deathNote == Str("Spouse died a widow in " + Show(Get(d, "y")) + ".")
    ensures !Widowed(d) ==> r.deathDate == p.deathDate && r.deathNote == p.deathNote
    ensures r.given == p.given && r.surname == p.surname
  {
    var s := WithBirth(p, b, "Spouse");
    if Widowed(d) then
      s.(deathDate := Str("before " + Show(Get(d, "y"))),
         deathNote := Str("Spouse died a widow in " + Show(Get(d, "y")) + "."))
    else s
  }

  /** The seven family members in row order: deceased, father, father's
      father, mother, mother's father, spouse, spouse's father. */
  function DeathPeople(deceased: Person, spouse: Person, f: Family, b: DeathBirths): (r: seq<Person>)
    ensures |r| == 7 && r[0] == deceased && r[5] == spouse
    ensures r[1].role == Str("Father") && r[2].role == Str("Father's Father")
    ensures r[3].role == Str("Mother") && r[4].role == Str("Mother's Father")
    ensures r[6].role == Str("Spouse's Father")
    ensures r[1].birthDate == b.father.date && r[2].birthDate == b.fathersFather.date
    ensures r[3].birthDate == b.mother.date && r[4].birthDate == b.mothersFather.date
    ensures r[6].birthDate == b.spousesFather.date
    ensures r[1].given == f.father.given && r[2].given == f.fathersFather.given
    ensures r[3].given == f.mother.given && r[4].given == f.mothersFather.given
    ensures r[6].given == f.spousesFather.given
  {
    [deceased,
     WithBirth(f.father, b.father, "Father"),
     WithBirth(f.fathersFather, b.fathersFather, "Father's Father"),
     WithBirth(f.mother, b.mother, "Mother"),
     WithBirth(f.mothersFather, b.mothersFather, "Mother's Father"),
     spouse,
     WithBirth(f.spousesFather, b.spousesFather, "Spouse's Father")]
  }

  /** The family members of the record, in row order. */
  function DeathFamilyPeople(pat: Patterns, nm: NameMaps, d: Record): seq<Person>
    requires DeathRecord(d)
  {
    var f := DeathFamily(pat, nm, d);
    var b := BirthsOfDeath(pat, d);
    DeathPeople(DeceasedPerson(d, f.principal, b.deceased), SpousePerson(d, f.spouse, b.spouse), f, b)
  }

  /** `processDeath`: the rows of the present family members, then of the
      present witnesses, each with the record's shared cells; the
      description names the deceased as written in the record. */
  function ProcessDeath(pat: Patterns, nm: NameMaps, d: Record): (r: seq<Row>)
    requires DeathRecord(d)
    ensures |r| <= 7 + |GetWitnesses(pat, nm, d)|
  {
    var f := DeathFamily(pat, nm, d);
    var b := BirthsOfDeath(pat, d);
    var common := CommonFields(d, FormatName(DeceasedPerson(d, f.principal, b.deceased), false));
    RecordRows(CommonRow(common), DeathFamilyPeople(pat, nm, d) + GetWitnesses(pat, nm, d))
  }

  /** A present deceased gives the first row, as the principal. */
  lemma DeceasedRowFirst(pat: Patterns, nm: NameMaps, d: Record)
    requires DeathRecord(d)
    requires Present(DeathFamily(pat, nm, d).principal)
    ensures var r := ProcessDeath(pat, nm, d);
      && |r| > 0 && Role in r[0] && r[0][Role] == Str("Principle")
  {
    var f := DeathFamily(pat, nm, d);
    var b := BirthsOfDeath(pat, d);
    var people := DeathFamilyPeople(pat, nm, d);
    var rest := people[1..] + GetWitnesses(pat, nm, d);
    LeadingPerson(people, GetWitnesses(pat, nm, d));
    var common := CommonFields(d, FormatName(DeceasedPerson(d, f.principal, b.deceased), false));
    RecordRowsFirst(CommonRow(common), people[0], rest);
  }
}
