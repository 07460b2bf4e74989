/** People and family groups (litvak/person.py).

    A person keeps the raw given name and surname it was made from, the
    normalised given name, patronym and surname, a gender, and the event
    fields the record processors fill in. Creating a person with a father
    normalises the child's name against the father's raw names and then
    reconciles the father's normalised names with the child's; the source
    does that by updating the father object in place, the model by handing
    back the updated father. */
module Persons {
  import opened Text
  import opened Values
  import opened Patterns
  import opened Names
  import opened Output

  datatype Person = Person(
    sourceGiven: Value,
    sourceSurname: Value,
    given: string,
    patronym: string,
    surname: string,
    gender: Option<string>,
    birthDate: Value, birthPlace: Value, birthNote: Value,
    deathDate: Value, deathPlace: Value, deathNote: Value,
    marriageDate: Value, marriagePlace: Value, marriageNote: Value,
    role: Value)

  /** `bool(person)`: a person is present when the normalised given name is
      not empty. */
  predicate Present(p: Person) { p.given != "" }

  /** The mark `formatName(True)` writes before a patronym. */
  function MarkFor(gender: Option<string>): (r: string)
    ensures IsMark(r)
    ensures r == "bat" <==> gender == Some("F")
  {
    assert Lower("bat") == "bat" && Lower("ben") == "ben";
    if gender == Some("F") then "bat" else "ben"
  }

  /** `formatName(normalize)`: "" for an absent person; with `normalize`,
      "given [ben|bat patronym] /surname/"; without, the raw given name and
      surname separated by a space; stripped in both cases. */
  function FormatName(p: Person, normalize: bool): (r: string)
    ensures !Present(p) ==> r == ""
    ensures Present(p) && normalize && !IsSpace(p.given[0]) ==>
      r == NameLine(p.given, MarkFor(p.gender), p.patronym, p.surname)
    ensures |r| > 0 ==> !IsSpace(r[0]) && !IsSpace(r[|r| - 1])
  {
    if !Present(p) then ""
    else if normalize then Strip(NameLine(p.given, MarkFor(p.gender), p.patronym, p.surname))
    else Strip(Show(p.sourceGiven) + " " + Show(p.sourceSurname))
  }

  /** The normalised name line parses back, by the source's `parseName`,
      into the person's normalised given name, patronym and surname,
      provided each part is something the pattern can match: a given name
      and patronym of word characters and single spaces that start and end
      with a word character, a given name with no "ben"/"bat" anywhere in
      it, and a surname with no slash. */
  lemma FormatNameParses(p: Person)
    requires Present(p) && NameGroup(p.given) && !IsSpace(p.given[0]) && ClearOfMarks(p.given, false)
    requires p.patronym != "" ==> NameGroup(p.patronym) && !IsSpace(p.patronym[0])
    requires NoChar(p.surname, '/')
    ensures ParseName(FormatName(p, true))
            == Some(ParsedName(p.given, if p.patronym == "" then None else Some(p.patronym), p.surname))
  {
    ParseNameLine(p.given, MarkFor(p.gender), p.patronym, p.surname, false);
  }

  /** With the intended pattern the round trip needs less: "ben"/"bat" may
      occur inside the given name as long as not as a word of its own. */
  lemma FormatNameParsesIntended(p: Person)
    requires Present(p) && NameGroup(p.given) && !IsSpace(p.given[0]) && ClearOfMarks(p.given, true)
    requires p.patronym != "" ==> NameGroup(p.patronym) && !IsSpace(p.patronym[0])
    requires NoChar(p.surname, '/')
    ensures ParseNameIntended(FormatName(p, true))
            == Some(ParsedName(p.given, if p.patronym == "" then None else Some(p.patronym), p.surname))
  {
    ParseNameLine(p.given, MarkFor(p.gender), p.patronym, p.surname, true);
  }

  /** The score of two formatted names pairs their parts: surname with
      surname, patronym with patronym, given name with given name, each
      scored by the source's part score; identical lines score 1. */
  lemma NameScoreOfFormatted(p: Person, q: Person)
    requires Present(p) && NameGroup(p.given) && !IsSpace(p.given[0]) && ClearOfMarks(p.given, false)
    requires p.patronym != "" ==> NameGroup(p.patronym) && !IsSpace(p.patronym[0])
    requires NoChar(p.surname, '/')
    requires Present(q) && NameGroup(q.given) && !IsSpace(q.given[0]) && ClearOfMarks(q.given, false)
    requires q.patronym != "" ==> NameGroup(q.patronym) && !IsSpace(q.patronym[0])
    requires NoChar(q.surname, '/')
    ensures var n1, n2 := FormatName(p, true), FormatName(q, true);
      && (n1 == n2 ==> NameScore(n1, n2) == Some(1.0))
      && (n1 != n2 ==> NameScore(n1, n2) == Some(Product(
            PartScore(Some(p.surname), Some(q.surname)),
            PartScore(PatronymPart(p), PatronymPart(q)),
            PartScore(Some(p.given), Some(q.given)))))
  {
    var n1, n2 := FormatName(p, true), FormatName(q, true);
    FormatNameParses(p);
    FormatNameParses(q);
    if n1 != n2 {
      assert |n1| > 0 && |n2| > 0;
      NameScoreOfParsed(n1, n2, ParsedName(p.given, PatronymPart(p), p.surname),
                        ParsedName(q.given, PatronymPart(q), q.surname));
    }
  }

  /** The patronym as `parseName` returns it: `None` when there is none. */
  function PatronymPart(p: Person): Option<string> {
    if p.patronym == "" then None else Some(p.patronym)
  }

  /** The columns `normalizedFields` fills. */
  const PersonFields: set<Field> := {
    SourceGivenName, SourceSurname, Name, Gender,
    BirthDate, BirthNote, BirthPlace, DeathDate, DeathNote, DeathPlace,
    MarriageDate, MarriagePlace, Role}

  /** `normalizedFields`: the person's output columns. The name column is
      the normalised name line and the gender column the gender; the others
      copy the person's raw names, event fields and role. */
  function NormalizedFields(p: Person): (r: Row)
    ensures r.Keys == PersonFields
    ensures r[Name] == Str(FormatName(p, true))
    ensures r[Gender] == FromOptionString(p.gender)
    ensures r[SourceGivenName] == p.sourceGiven && r[SourceSurname] == p.sourceSurname
    ensures r[BirthDate] == p.birthDate && r[BirthNote] == p.birthNote && r[BirthPlace] == p.birthPlace
    ensures r[DeathDate] == p.deathDate && r[DeathNote] == p.deathNote && r[DeathPlace] == p.deathPlace
    ensures r[MarriageDate] == p.marriageDate && r[MarriagePlace] == p.marriagePlace
    ensures r[Role] == p.role
  {
    FieldsWithName(p, Str(FormatName(p, true)))
  }

  function FieldsWithName(p: Person, name: Value): (r: Row)
    ensures r.Keys == PersonFields
    ensures r[Name] == name
    ensures r[Gender] == FromOptionString(p.gender)
    ensures r[SourceGivenName] == p.sourceGiven && r[SourceSurname] == p.sourceSurname
    ensures r[BirthDate] == p.birthDate && r[BirthNote] == p.birthNote && r[BirthPlace] == p.birthPlace
    ensures r[DeathDate] == p.deathDate && r[DeathNote] == p.deathNote && r[DeathPlace] == p.deathPlace
    ensures r[MarriageDate] == p.marriageDate && r[MarriagePlace] == p.marriagePlace
    ensures r[Role] == p.role
  {
    map[
      SourceGivenName := p.sourceGiven,
      SourceSurname := p.sourceSurname,
      Name := name,
      Gender := FromOptionString(p.gender),
      BirthDate := p.birthDate,
      BirthNote := p.birthNote,
      BirthPlace := p.birthPlace,
      DeathDate := p.deathDate,
      DeathNote := p.deathNote,
      DeathPlace := p.deathPlace,
      MarriageDate := p.marriageDate,
      MarriagePlace := p.marriagePlace,
      Role := p.role]
  }

  /** Names agree when either is empty or they are equal ignoring case. */
  predicate Agrees(a: string, b: string) { a == "" || b == "" || Lower(a) == Lower(b) }

  /** The father's side of `Person(given, surname, father, gender)`: a
      father with no normalised given name takes the child's patronym as
      his given name (and loses his own patronym); the child's surname
      replaces the father's unless the two disagree. A disagreement is only
      reported, and leaves the father as he was. */
  function Reconcile(father: Person, child: Person): (r: Person)
    ensures child.patronym != "" && father.given == "" ==>
      r.given == child.patronym && r.patronym == ""
    ensures child.patronym == "" || father.given != "" ==>
      r.given == father.given && r.patronym == father.patronym
    ensures child.surname != "" && Agrees(father.surname, child.surname) ==> r.surname == child.surname
    ensures child.surname == "" || !Agrees(father.surname, child.surname) ==> r.surname == father.surname
    ensures r == father.(given := r.given, patronym := r.patronym, surname := r.surname)
    ensures r.gender == father.gender
  {
    var f1 :=
      if child.patronym != "" && father.given == "" then father.(given := child.patronym, patronym := "")
      else father;
    if child.surname != "" && Agrees(f1.surname, child.surname) then f1.(surname := child.surname)
    else f1
  }

  /** After reconciling, the father's given name agrees with the child's
      patronym and his surname with the child's surname, unless they
      disagreed from the start. */
  lemma ReconcileAgrees(father: Person, child: Person)
    requires Agrees(father.given, child.patronym) && Agrees(father.surname, child.surname)
    ensures var r := Reconcile(father, child);
            Agrees(r.given, child.patronym) && Agrees(r.surname, child.surname)
            && (child.patronym != "" ==> r.given != "")
            && (child.surname != "" ==> r.surname == child.surname)
  {
  }

  /** Reconciling with the same child twice changes nothing more. */
  lemma ReconcileIdempotent(father: Person, child: Person)
    ensures Reconcile(Reconcile(father, child), child) == Reconcile(father, child)
  {
    var r := Reconcile(father, child);
    if child.surname != "" && Agrees(father.surname, child.surname) {
      assert r.surname == child.surname;
      assert Agrees(r.surname, child.surname);
    }
  }

  function Blank(given: Value, surname: Value, n: NormalizedName): Person {
    Person(given, surname, n.given, n.patronym, n.surname, n.gender,
           Null, Null, Null, Null, Null, Null, Null, Null, Null, Null)
  }

  /** `Person(given, surname, father, gender)`: the child, and the father as
      the child's creation leaves him. With a father, the child's name is
      normalised against the father's raw given name and raw surname (the
      surname passed for the child is kept only as its raw surname);
      without one, against an empty patronym and the child's own surname.
      The event fields and the role start out absent. */
  function NewPerson(pat: Patterns, nm: NameMaps, given: Value, surname: Value,
                     father: Option<Person>, gender: Option<string>): (r: (Person, Option<Person>))
    requires GenderFits(gender)
    ensures var child := r.0;
      && child.sourceGiven == given && child.sourceSurname == surname
      && (Known(gender) ==> child.gender == gender)
      && child.birthDate == Null && child.deathDate == Null && child.marriageDate == Null && child.role == Null
    ensures father.None? ==> r.1.None?
    ensures father.None? ==>
      var n := NormalizeName(pat, nm, given, Str(""), surname, gender);
      r.0.given == n.given && r.0.patronym == n.patronym && r.0.surname == n.surname
    ensures father.Some? ==> r.1 == Some(Reconcile(father.value, r.0))
    ensures father.Some? ==>
      var n := NormalizeName(pat, nm, given, father.value.sourceGiven, father.value.sourceSurname, gender);
      r.0.given == n.given && r.0.patronym == n.patronym && r.0.surname == n.surname
  {
    match father
    case None =>
      (Blank(given, surname, NormalizeName(pat, nm, given, Str(""), surname, gender)), None)
    case Some(f) =>
      var child := Blank(given, surname, NormalizeName(pat, nm, given, f.sourceGiven, f.sourceSurname, gender));
      (child, Some(Reconcile(f, child)))
  }

  /** The seven people of `buildFamily`, in the order it returns them. */
  datatype Family = Family(
    principal: Person, father: Person, fathersFather: Person,
    mother: Person, mothersFather: Person,
    spouse: Person, spousesFather: Person)

  /** `buildFamily`: the grandfathers first (each male), then the mother
      (female) and the father (male) as their children, then the principal
      as the father's child and the spouse, of the opposite gender, as the
      spouse's father's child. Each creation updates the father it names. */
  function BuildFamily(pat: Patterns, nm: NameMaps,
                       givenName: Value, surname: Value,
                       fatherGiven: Value, paternalPatronymic: Value,
                       motherGiven: Value, maternalPatronymic: Value, motherMaidenName: Value,
                       spouseGiven: Value, spousePatronymic: Value, spouseSurname: Value,
                       gender: Option<string>): (r: Family)
    requires GenderFits(gender)
    ensures r.father.gender == Some("M") && r.mother.gender == Some("F")
    ensures r.fathersFather.gender == Some("M") && r.mothersFather.gender == Some("M")
    ensures r.spousesFather.gender == Some("M")
    ensures Known(gender) ==> r.principal.gender == gender
    ensures gender == Some("M") ==> r.spouse.gender == Some("F")
    ensures gender == Some("F") ==> r.spouse.gender == Some("M")
  {
    KnownGenders();
    var mothersFather := Ancestor(pat, nm, maternalPatronymic, motherMaidenName);
    var fathersFather := Ancestor(pat, nm, paternalPatronymic, surname);
    var spousesFather := Ancestor(pat, nm, spousePatronymic, spouseSurname);
    var mother := ChildOf(pat, nm, motherGiven, motherMaidenName, mothersFather, Some("F"));
    var father := ChildOf(pat, nm, fatherGiven, surname, fathersFather, Some("M"));
    var principal := ChildOf(pat, nm, givenName, surname, father.0, gender);
    OppositeGenderFits(gender);
    var spouse := ChildOf(pat, nm, spouseGiven, spouseSurname, spousesFather, OppositeGender(gender));
    Family(principal.0, principal.1, father.1, mother.0, mother.1, spouse.0, spouse.1)
  }

  lemma KnownGenders()
    ensures Known(Some("M")) && Known(Some("F"))
  {
  }

  lemma OppositeGenderFits(g: Option<string>)
    ensures GenderFits(OppositeGender(g))
  {
  }

  /** A man created without a father: a grandfather or the spouse's father. */
  function Ancestor(pat: Patterns, nm: NameMaps, given: Value, surname: Value): (r: Person)
    ensures r.gender == Some("M") && r.sourceGiven == given && r.sourceSurname == surname
  {
    NewPerson(pat, nm, given, surname, None, Some("M")).0
  }

  /** A person created as `father`'s child, and the father as the child
      updates him. */
  function ChildOf(pat: Patterns, nm: NameMaps, given: Value, surname: Value,
                   father: Person, gender: Option<string>): (r: (Person, Person))
    requires GenderFits(gender)
    ensures Known(gender) ==> r.0.gender == gender
    ensures r.0.sourceGiven == given && r.0.sourceSurname == surname
    ensures r.1 == Reconcile(father, r.0) && r.1.gender == father.gender
  {
    var (child, updated) := NewPerson(pat, nm, given, surname, Some(father), gender);
    (child, updated.value)
  }

  lemma ChildOfNames(pat: Patterns, nm: NameMaps, given: Value, surname: Value,
                     father: Person, gender: Option<string>)
    requires GenderFits(gender)
    ensures var r := ChildOf(pat, nm, given, surname, father, gender);
      var n := NormalizeName(pat, nm, given, father.sourceGiven, father.sourceSurname, gender);
      r.0.given == n.given && r.0.patronym == n.patronym && r.0.surname == n.surname
  {
  }

  /** The principal's name is normalised against the father's raw given
      name and the family surname, and the father's normalised surname then
      follows the principal's unless the two disagree. */
  lemma FamilyLinks(pat: Patterns, nm: NameMaps,
                    givenName: Value, surname: Value,
                    fatherGiven: Value, paternalPatronymic: Value,
                    motherGiven: Value, maternalPatronymic: Value, motherMaidenName: Value,
                    spouseGiven: Value, spousePatronymic: Value, spouseSurname: Value,
                    gender: Option<string>)
    requires GenderFits(gender)
    ensures var r := BuildFamily(pat, nm, givenName, surname, fatherGiven, paternalPatronymic,
                                 motherGiven, maternalPatronymic, motherMaidenName,
                                 spouseGiven, spousePatronymic, spouseSurname, gender);
            var n := NormalizeName(pat, nm, givenName, fatherGiven, surname, gender);
            && r.principal.given == n.given && r.principal.patronym == n.patronym
            && r.principal.surname == n.surname
            && (n.surname != "" ==> r.father.surname == n.surname || !Agrees(r.father.surname, n.surname))
  {
    var father := ChildOf(pat, nm, fatherGiven, surname, Ancestor(pat, nm, paternalPatronymic, surname), Some("M")).0;
    ChildOfNames(pat, nm, givenName, surname, father, gender);
  }
}
