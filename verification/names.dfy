/** Name normalisation (litvak/names.py): the spelling tables built from the
    name list, the per-token canonicalisation of a raw name, gender inference
    by unanimous vote, embedded patronyms and surnames, the misfiled-patronym
    correction, `oppositeGender`, `parseName` and `nameScore`.

    The name list itself lives in a module that is not part of this model;
    it is a parameter here. The regular expressions are the abstract
    matchers of `Patterns`. A gender is `None` (Python's `None`) or a
    string; like Python, only a non-empty one counts as known. */
module Names {
  import opened Text
  import opened Values
  import opened Patterns

  // ------------------------------------------------------------ the tables

  /** One entry of the name list: the canonical spelling, its kind ("M" or
      "F" for given names, "S" for surnames, "P" for patronyms, in either
      case) and its variant spellings; `None` stands for a variant list that
      is not a tuple. */
  datatype NameEntry = NameEntry(cooked: string, kind: string, variants: Option<seq<string>>)

  predicate IsTableKey(g: string) { g == "M" || g == "F" || g == "S" || g == "P" }

  /** Title-case spelling to uppercase canonical name, one table per kind. */
  datatype NameMaps = NameMaps(
    male: map<string, string>,
    female: map<string, string>,
    surname: map<string, string>,
    patronym: map<string, string>)

  /** `nameMap[g]` */
  function Table(nm: NameMaps, g: string): map<string, string>
    requires IsTableKey(g)
  {
    if g == "M" then nm.male
    else if g == "F" then nm.female
    else if g == "S" then nm.surname
    else nm.patronym
  }

  function SetTable(nm: NameMaps, g: string, t: map<string, string>): (r: NameMaps)
    requires IsTableKey(g)
    ensures Table(r, g) == t
    ensures forall h :: IsTableKey(h) && h != g ==> Table(r, h) == Table(nm, h)
  {
    if g == "M" then nm.(male := t)
    else if g == "F" then nm.(female := t)
    else if g == "S" then nm.(surname := t)
    else nm.(patronym := t)
  }

  const NoNames := NameMaps(map[], map[], map[], map[])

  /** The entry spells key k: k is the title case of its canonical name or
      of one of its variants. */
  predicate Spells(e: NameEntry, k: string) {
    || k == Title(e.cooked)
    || (e.variants.Some? && exists i :: 0 <= i < |e.variants.value| && Title(e.variants.value[i]) == k)
  }

  /** The entry writes key k into the table of kind g. */
  predicate Writes(e: NameEntry, g: string, k: string) {
    Upper(e.kind) == g && Spells(e, k)
  }

  /** Every entry names one of the four tables (any other kind is a
      `KeyError` in the source). */
  predicate KindsValid(entries: seq<NameEntry>) {
    forall i :: 0 <= i < |entries| ==> IsTableKey(Upper(entries[i].kind))
  }

  predicate AllTuples(entries: seq<NameEntry>) {
    forall i :: 0 <= i < |entries| ==> entries[i].variants.Some?
  }

  /** `for raw in rawList: t[raw.title()] = canonical` */
  function AddSpellings(t: map<string, string>, spellings: seq<string>, canonical: string): (r: map<string, string>)
    ensures forall k :: k in r <==> k in t || exists i :: 0 <= i < |spellings| && Title(spellings[i]) == k
    ensures forall k :: k in r ==>
      r[k] == if exists i :: 0 <= i < |spellings| && Title(spellings[i]) == k then canonical else t[k]
    decreases |spellings|
  {
    if |spellings| == 0 then t
    else
      var r := AddSpellings(t[Title(spellings[0]) := canonical], spellings[1..], canonical);
      assert forall i :: 0 <= i < |spellings| - 1 ==> spellings[1..][i] == spellings[i + 1];
      r
  }

  /** One iteration of `initNameMaps`. */
  function AddEntry(nm: NameMaps, e: NameEntry): (r: NameMaps)
    requires IsTableKey(Upper(e.kind)) && e.variants.Some?
    ensures forall g, k :: IsTableKey(g) ==> (k in Table(r, g) <==> k in Table(nm, g) || Writes(e, g, k))
    ensures forall g, k :: IsTableKey(g) && k in Table(r, g) ==>
      Table(r, g)[k] == if Writes(e, g, k) then Upper(e.cooked) else Table(nm, g)[k]
  {
    var g := Upper(e.kind);
    var cooked := Upper(e.cooked);
    TitleIgnoresCase(e.cooked);
    SetTable(nm, g, AddSpellings(Table(nm, g)[Title(cooked) := cooked], e.variants.value, cooked))
  }

  /** The tables after the entries have been added in order. */
  function Build(entries: seq<NameEntry>): NameMaps
    requires KindsValid(entries) && AllTuples(entries)
  {
    if |entries| == 0 then NoNames
    else
      var n := |entries| - 1;
      AddEntry(Build(entries[..n]), entries[n])
  }

  /** A key is in a table exactly when some entry of that kind spells it. */
  lemma {:induction false} BuildKeys(entries: seq<NameEntry>, g: string, k: string)
    requires KindsValid(entries) && AllTuples(entries) && IsTableKey(g)
    ensures k in Table(Build(entries), g) <==> exists i :: 0 <= i < |entries| && Writes(entries[i], g, k)
  {
    if |entries| > 0 {
      var n := |entries| - 1;
      var prev := entries[..n];
      PrefixValid(entries, n);
      BuildKeys(prev, g, k);
      assert Build(entries) == AddEntry(Build(prev), entries[n]);
      AddEntryKey(Build(prev), entries[n], g, k);
      WritersSnoc(entries, g, k);
    }
  }

  lemma PrefixValid(entries: seq<NameEntry>, n: nat)
    requires KindsValid(entries) && AllTuples(entries) && n <= |entries|
    ensures KindsValid(entries[..n]) && AllTuples(entries[..n])
  {
    assert forall i :: 0 <= i < n ==> entries[..n][i] == entries[i];
  }

  /** Some entry spells the key exactly when an earlier one or the last
      one does. */
  lemma WritersSnoc(entries: seq<NameEntry>, g: string, k: string)
    requires |entries| > 0
    ensures var n := |entries| - 1;
      (exists i :: 0 <= i < |entries| && Writes(entries[i], g, k)) <==>
      (exists i :: 0 <= i < n && Writes(entries[..n][i], g, k)) || Writes(entries[n], g, k)
  {
    var n := |entries| - 1;
    if exists i :: 0 <= i < |entries| && Writes(entries[i], g, k) {
      var i :| 0 <= i < |entries| && Writes(entries[i], g, k);
      if i < n {
        assert Writes(entries[..n][i], g, k);
      }
    }
    if exists i :: 0 <= i < n && Writes(entries[..n][i], g, k) {
      var i :| 0 <= i < n && Writes(entries[..n][i], g, k);
      assert Writes(entries[i], g, k);
    }
  }

  /** One entry adds to a table exactly the keys it spells. */
  lemma AddEntryKey(nm: NameMaps, e: NameEntry, g: string, k: string)
    requires IsTableKey(Upper(e.kind)) && e.variants.Some? && IsTableKey(g)
    ensures k in Table(AddEntry(nm, e), g) <==> k in Table(nm, g) || Writes(e, g, k)
  {
  }

  /** The value of a key is the canonical name of the last entry spelling
      it. */
  lemma {:induction false} BuildLastWriter(entries: seq<NameEntry>, i: int, g: string, k: string)
    requires KindsValid(entries) && AllTuples(entries) && IsTableKey(g)
    requires 0 <= i < |entries| && Writes(entries[i], g, k)
    requires forall j :: i < j < |entries| ==> !Writes(entries[j], g, k)
    ensures k in Table(Build(entries), g) && Table(Build(entries), g)[k] == Upper(entries[i].cooked)
  {
    var n := |entries| - 1;
    var prev := entries[..n];
    if i < n {
      assert forall j :: 0 <= j < n ==> prev[j] == entries[j];
      BuildLastWriter(prev, i, g, k);
    }
  }

  /** `initNameMaps()`: `None` when the program stops on a malformed entry
      (a variant list that is not a tuple). */
  function InitNameMaps(entries: seq<NameEntry>): (r: Option<NameMaps>)
    requires KindsValid(entries)
    ensures r.None? <==> !AllTuples(entries)
    ensures r.Some? ==> forall g, k :: IsTableKey(g) ==>
      (k in Table(r.value, g) <==> exists i :: 0 <= i < |entries| && Writes(entries[i], g, k))
  {
    if AllTuples(entries) then
      var nm := Build(entries);
      assert forall g, k :: IsTableKey(g) ==>
        (k in Table(nm, g) <==> exists i :: 0 <= i < |entries| && Writes(entries[i], g, k)) by {
        forall g, k | IsTableKey(g) {
          BuildKeys(entries, g, k);
        }
      }
      Some(nm)
    else None
  }

  /** After `initNameMaps`, each spelling of an entry (the canonical name and
      its variants, title-cased) maps to the uppercase canonical name in the
      entry's table, unless a later entry of the same kind spells it too:
      the last writer wins. */
  lemma LastWriterWins(entries: seq<NameEntry>, i: int, k: string)
    requires KindsValid(entries) && AllTuples(entries)
    requires 0 <= i < |entries| && Spells(entries[i], k)
    requires forall j :: i < j < |entries| ==> !Writes(entries[j], Upper(entries[i].kind), k)
    ensures var g := Upper(entries[i].kind);
            var r := InitNameMaps(entries);
            r.Some? && k in Table(r.value, g) && Table(r.value, g)[k] == Upper(entries[i].cooked)
  {
    BuildLastWriter(entries, i, Upper(entries[i].kind), k);
  }

  // ------------------------------------------------------------ raw names

  /** `names.clean`: the bracket and slash rewrites, then every run of
      non-word characters becomes one space, then the ends are stripped. */
  function CleanName(pat: Patterns, raw: string): (r: string)
    ensures raw == "" ==> r == ""
    ensures forall i :: 0 <= i < |r| ==> IsWordChar(r[i]) || r[i] == ' '
    ensures |r| > 0 ==> r[0] != ' ' && r[|r| - 1] != ' '
  {
    if raw == "" then ""
    else
      var spaced := NonWordToSpace(pat.bracketRewrite(raw));
      StripKeepsWordsAndSpaces(spaced);
      Strip(spaced)
  }

  /** The title-cased words of the cleaned name: `clean(raw).title().split()` */
  function Tokens(pat: Patterns, raw: string): seq<string> {
    Split(Title(CleanName(pat, raw)))
  }

  /** Python truthiness of a gender. */
  predicate Known(g: Option<string>) { g.Some? && g.value != "" }

  /** A known gender names one of the tables. */
  predicate GenderFits(g: Option<string>) { Known(g) ==> IsTableKey(g.value) }

  /** `t.get(w, w)` for every word. */
  function MapTokens(t: map<string, string>, words: seq<string>): (r: seq<string>)
    ensures |r| == |words|
  {
    seq(|words|, i requires 0 <= i < |words| => if words[i] in t then t[words[i]] else words[i])
  }

  predicate MaleOnly(nm: NameMaps, w: string) { w in nm.male && w !in nm.female }
  predicate FemaleOnly(nm: NameMaps, w: string) { w in nm.female && w !in nm.male }

  predicate AnyMaleOnly(nm: NameMaps, words: seq<string>) {
    exists i :: 0 <= i < |words| && MaleOnly(nm, words[i])
  }

  predicate AnyFemaleOnly(nm: NameMaps, words: seq<string>) {
    exists i :: 0 <= i < |words| && FemaleOnly(nm, words[i])
  }

  /** `mapRawName`: with a known gender, every title-cased word is replaced
      by its entry in that gender's table; otherwise the words that occur in
      exactly one of the male and female tables vote: unanimous male or
      female decides, a mix decides male, and no vote leaves the raw name
      unchanged and the gender unknown. */
  function MapRawName(pat: Patterns, nm: NameMaps, raw: string, gender: Option<string>): (r: (string, Option<string>))
    requires GenderFits(gender)
    ensures Known(gender) ==> r.1 == gender
    ensures !Known(gender) ==> (r.1 == Some("M") <==> AnyMaleOnly(nm, Tokens(pat, raw)))
    ensures !Known(gender) ==>
      (r.1 == Some("F") <==> AnyFemaleOnly(nm, Tokens(pat, raw)) && !AnyMaleOnly(nm, Tokens(pat, raw)))
    ensures !Known(gender) ==>
      (r.1 == None <==> !AnyMaleOnly(nm, Tokens(pat, raw)) && !AnyFemaleOnly(nm, Tokens(pat, raw)))
    ensures r.1 == None ==> r.0 == raw
    ensures Known(r.1) && IsTableKey(r.1.value) ==>
      r.0 == Join(" ", MapTokens(Table(nm, r.1.value), Tokens(pat, raw)))
  {
    var words := Tokens(pat, raw);
    if Known(gender) then
      (Join(" ", MapTokens(Table(nm, gender.value), words)), gender)
    else
      var m := AnyMaleOnly(nm, words);
      var f := AnyFemaleOnly(nm, words);
      if m && !f then (Join(" ", MapTokens(nm.male, words)), Some("M"))
      else if f && !m then (Join(" ", MapTokens(nm.female, words)), Some("F"))
      else if m && f then (Join(" ", MapTokens(nm.male, words)), Some("M"))
      else (raw, None)
  }

  /** A name already in canonical form is left as it is: when the cleaned
      name is the name itself, single-spaced and upper case, and each of
      its title-cased words maps to its own upper case in the table of the
      gender given, mapping the name returns it unchanged. */
  lemma MapRawNameStable(pat: Patterns, nm: NameMaps, s: string, g: string)
    requires IsTableKey(g)
    requires CleanName(pat, s) == s && SingleSpaced(s) && Upper(s) == s
    requires forall k :: 0 <= k < |Tokens(pat, s)| ==>
      Tokens(pat, s)[k] in Table(nm, g) && Table(nm, g)[Tokens(pat, s)[k]] == Upper(Tokens(pat, s)[k])
    ensures MapRawName(pat, nm, s, Some(g)) == (s, Some(g))
  {
    var words := Tokens(pat, s);
    assert MapTokens(Table(nm, g), words) == UpperAll(words);
    UpperJoin(words);
    TitleSingleSpaced(s);
    JoinSplit(Title(s));
    UpperTitle(s);
  }

  /** Word w is the title case of the canonical name of an entry of kind g,
      and no later entry of that kind spells w. */
  predicate CanonicalIn(entries: seq<NameEntry>, g: string, w: string) {
    exists i :: 0 <= i < |entries| && Upper(entries[i].kind) == g && Title(entries[i].cooked) == w
                && forall j :: i < j < |entries| ==> !Writes(entries[j], g, w)
  }

  /** `normalizeName` is stable on canonical names: after `initNameMaps`,
      an upper-case name whose words are the canonical names of entries of
      the gender given maps to itself. */
  lemma CanonicalNameStable(pat: Patterns, entries: seq<NameEntry>, s: string, g: string)
    requires KindsValid(entries) && AllTuples(entries) && IsTableKey(g)
    requires CleanName(pat, s) == s && SingleSpaced(s) && Upper(s) == s
    requires forall k :: 0 <= k < |Tokens(pat, s)| ==> CanonicalIn(entries, g, Tokens(pat, s)[k])
    ensures MapRawName(pat, InitNameMaps(entries).value, s, Some(g)) == (s, Some(g))
  {
    var nm := InitNameMaps(entries).value;
    var words := Tokens(pat, s);
    forall k | 0 <= k < |words|
      ensures words[k] in Table(nm, g) && Table(nm, g)[words[k]] == Upper(words[k])
    {
      CanonicalMapsToItself(entries, g, words[k]);
    }
    MapRawNameStable(pat, nm, s, g);
  }

  /** A canonical name of kind g maps to its own upper case in table g. */
  lemma CanonicalMapsToItself(entries: seq<NameEntry>, g: string, w: string)
    requires KindsValid(entries) && AllTuples(entries) && IsTableKey(g)
    requires CanonicalIn(entries, g, w)
    ensures var nm := InitNameMaps(entries).value;
            w in Table(nm, g) && Table(nm, g)[w] == Upper(w)
  {
    var i :| 0 <= i < |entries| && Upper(entries[i].kind) == g && Title(entries[i].cooked) == w
             && forall j :: i < j < |entries| ==> !Writes(entries[j], g, w);
    LastWriterWins(entries, i, w);
    UpperTitle(entries[i].cooked);
  }

  /** The first three characters of the gender mark, lower-cased. */
  function MarkKey(mark: string): string {
    Lower(if |mark| < 3 then mark else mark[..3])
  }

  predicate IsMaleMark(mark: string) { MarkKey(mark) in {"son", "bar", "ben"} }
  predicate IsFemaleMark(mark: string) { MarkKey(mark) in {"dau", "bat"} }

  /** The gender an embedded patronym's mark implies: a male mark sets "M"
      and a female mark sets "F" only when the gender is unknown or already
      that one. */
  function MarkGender(mark: Option<string>, gender: Option<string>): (r: Option<string>)
    ensures Known(gender) ==> r == gender
    ensures !Known(gender) && mark.Some? && IsMaleMark(mark.value) ==> r == Some("M")
    ensures !Known(gender) && mark.Some? && IsFemaleMark(mark.value) ==> r == Some("F")
    ensures (mark.None? || (!IsMaleMark(mark.value) && !IsFemaleMark(mark.value))) ==> r == gender
  {
    if mark.None? || mark.value == "" then gender
    else if IsMaleMark(mark.value) then
      (if !Known(gender) || gender == Some("M") then Some("M") else gender)
    else if IsFemaleMark(mark.value) then
      (if !Known(gender) || gender == Some("F") then Some("F") else gender)
    else gender
  }

  /** `extractPatronym`: a patronym embedded in the given name is split off
      and replaces the one supplied. */
  function ExtractPatronym(pat: Patterns, gnRaw: string, pnRaw: string, gender: Option<string>): (r: (string, string, Option<string>))
    ensures Known(gender) ==> r.2 == gender
    ensures pat.patronym(gnRaw).None? ==> r == (gnRaw, pnRaw, gender)
    ensures pat.patronym(gnRaw).Some? ==>
      var m := pat.patronym(gnRaw).value;
      r.0 == m.given && r.1 == m.patronym && r.2 == MarkGender(m.mark, gender)
  {
    match pat.patronym(gnRaw)
    case None => (gnRaw, pnRaw, gender)
    case Some(m) => (m.given, m.patronym, MarkGender(m.mark, gender))
  }

  /** `extractSurname`: an uppercase surname embedded in the given name is
      split off and replaces the one supplied. */
  function ExtractSurname(pat: Patterns, gnRaw: Value, snRaw: Value): (r: (string, string))
    ensures pat.surname(Show(gnRaw)).None? ==> r == (Show(gnRaw), Show(snRaw))
    ensures pat.surname(Show(gnRaw)).Some? ==>
      r.0 == pat.surname(Show(gnRaw)).value.given && r.1 == pat.surname(Show(gnRaw)).value.surname
    ensures pat.surname(Show(gnRaw)).Some? ==> |r.1| > 0 && AllUpper(r.1)
  {
    match pat.surname(Show(gnRaw))
    case None => (Show(gnRaw), Show(snRaw))
    case Some(m) => (m.given, m.surname)
  }

  datatype NormalizedName = NormalizedName(given: string, patronym: string, surname: string, gender: Option<string>)

  /** `normalizeName(gn, pn, sn, gender)` */
  function NormalizeName(pat: Patterns, nm: NameMaps, gn: Value, pn: Value, sn: Value, gender: Option<string>): (r: NormalizedName)
    requires GenderFits(gender)
    ensures Known(gender) ==> r.gender == gender
    ensures !Known(gender) ==> r.gender in {None, Some("M"), Some("F")}
  {
    var (g1, s1) := ExtractSurname(pat, gn, sn);
    var (g2, p2, gender2) := ExtractPatronym(pat, g1, Show(pn), gender);
    var (g3, gender3) := MapRawName(pat, nm, g2, gender2);
    var (p4, s4) := MisfiledPatronym(nm, p2, s1);
    var p5 := ExtractPatronym(pat, p4, "", Some("M")).0;
    NormalizedName(g3, MapRawName(pat, nm, p5, Some("M")).0, MapRawName(pat, nm, s4, Some("S")).0, gender3)
  }

  /** A father's name that ended up in the surname field: with no patronym
      and a surname that is a key of the male table, the surname becomes the
      patronym and the surname is emptied. */
  function MisfiledPatronym(nm: NameMaps, pn: string, sn: string): (r: (string, string))
    ensures pn == "" && sn in nm.male ==> r == (sn, "")
    ensures !(pn == "" && sn in nm.male) ==> r == (pn, sn)
  {
    if pn == "" && sn in nm.male then (sn, "") else (pn, sn)
  }

  /** When the surname field holds a key of the male table and no patronym
      was found, the normalised patronym is that name looked up in the male
      table and the normalised surname is empty. */
  lemma MisfiledPatronymMoves(pat: Patterns, nm: NameMaps, gn: Value, pn: Value, sn: Value, gender: Option<string>)
    requires GenderFits(gender)
    requires var (g1, s1) := ExtractSurname(pat, gn, sn);
             ExtractPatronym(pat, g1, Show(pn), gender).1 == "" && s1 in nm.male
    ensures var s1 := ExtractSurname(pat, gn, sn).1;
            var r := NormalizeName(pat, nm, gn, pn, sn, gender);
            r.surname == "" &&
            r.patronym == Join(" ", MapTokens(nm.male, Tokens(pat, ExtractPatronym(pat, s1, "", Some("M")).0)))
  {
    var s1 := ExtractSurname(pat, gn, sn).1;
    assert MisfiledPatronym(nm, "", s1) == (s1, "");
    assert Tokens(pat, "") == [];
  }

  /** `oppositeGender` */
  function OppositeGender(g: Option<string>): (r: Option<string>)
    ensures r == Some("F") <==> g == Some("M")
    ensures r == Some("M") <==> g == Some("F")
    ensures r == None <==> g != Some("M") && g != Some("F")
  {
    if g == Some("M") then Some("F") else if g == Some("F") then Some("M") else None
  }

  /** On "M" and "F", `oppositeGender` undoes itself. */
  lemma OppositeGenderInvolution(g: Option<string>)
    ensures OppositeGender(OppositeGender(g)) == (if g == Some("M") || g == Some("F") then g else None)
  {
  }

  /** `guessGender(gn, spouse)`: the gender the name itself implies, or else
      the opposite of the spouse's. */
  function GuessGender(pat: Patterns, nm: NameMaps, gn: Value, spouse: Value): (r: Option<string>)
    ensures r in {None, Some("M"), Some("F")}
    ensures Known(NormalizeName(pat, nm, gn, Str(""), Str(""), None).gender) ==>
      r == NormalizeName(pat, nm, gn, Str(""), Str(""), None).gender
    ensures !Truthy(spouse) ==> r == NormalizeName(pat, nm, gn, Str(""), Str(""), None).gender
    ensures Truthy(spouse) && !Known(NormalizeName(pat, nm, gn, Str(""), Str(""), None).gender) ==>
      r == OppositeGender(NormalizeName(pat, nm, spouse, Str(""), Str(""), None).gender)
  {
    var gender := NormalizeName(pat, nm, gn, Str(""), Str(""), None).gender;
    if Truthy(spouse) && !Known(gender) then
      OppositeGender(NormalizeName(pat, nm, spouse, Str(""), Str(""), None).gender)
    else gender
  }

  /** When a name says nothing of its gender but the spouse's name does,
      the guess is the other gender than the spouse's own guess, and the
      spouse's guess is in turn the other gender than this one. */
  lemma GuessGenderOpposesSpouse(pat: Patterns, nm: NameMaps, gn: Value, spouse: Value)
    requires Truthy(spouse)
    requires !Known(NormalizeName(pat, nm, gn, Str(""), Str(""), None).gender)
    requires Known(NormalizeName(pat, nm, spouse, Str(""), Str(""), None).gender)
    ensures GuessGender(pat, nm, gn, spouse) == OppositeGender(GuessGender(pat, nm, spouse, Null))
    ensures OppositeGender(GuessGender(pat, nm, gn, spouse)) == GuessGender(pat, nm, spouse, Null)
    ensures Known(GuessGender(pat, nm, gn, spouse))
  {
    var own := GuessGender(pat, nm, spouse, Null);
    assert own == Some("M") || own == Some("F");
    OppositeGenderInvolution(own);
  }
  // ------------------------------------------------------------ parseName

  datatype ParsedName = ParsedName(given: string, patronym: Option<string>, surname: string)

  /** `[\w ]` */
  predicate IsNameChar(c: char) { IsWordChar(c) || c == ' ' }

  /** What `[\w ]+?\w` and `[\w ]+\w` can match: two or more word
      characters and spaces, ending with a word character. */
  predicate NameGroup(s: string) {
    |s| >= 2 && (forall i :: 0 <= i < |s| ==> IsNameChar(s[i])) && IsWordChar(s[|s| - 1])
  }

  /** `ben` or `bat`, in any case. */
  predicate IsMark(s: string) { Lower(s) == "ben" || Lower(s) == "bat" }

  /** `parseName`: the given name, the optional patronym after "ben" or
      "bat", and the surname between slashes; `None` where the source raises
      `ValueError`. The pattern is

        ^\s* ([\w ]+?\w) \s* (?: (?:ben|bat) \s+ ([\w ]+\w) \s+ )? /([^/]*)/ \s*$

      matched case-insensitively; this function follows the regular
      expression engine's order of trying alternatives. Since nothing before
      the slashes can be a slash, the surname lies between the first two
      slashes, which must be followed by whitespace only.

      With `gapBeforeMark` false this is the pattern as written, where the
      given name may end immediately before "ben"/"bat"; with it true, "ben"
      and "bat" must follow whitespace. */
  function ParseNameWith(s: string, gapBeforeMark: bool): (r: Option<ParsedName>)
    ensures r.Some? ==> NameGroup(r.value.given) && NoChar(r.value.surname, '/')
    ensures r.Some? && r.value.patronym.Some? ==> NameGroup(r.value.patronym.value)
  {
    match IndexOf(s, '/')
    case None => None
    case Some(p) =>
      var tail := s[p + 1..];
      match IndexOf(tail, '/')
      case None => None
      case Some(q) =>
        if !AllSpace(tail[q + 1..]) then None
        else
          match TryLead(s[..p], LeadingSpaces(s[..p]), gapBeforeMark)
          case None => None
          case Some(gp) => Some(ParsedName(gp.0, gp.1, tail[..q]))
  }

  /** The given-name alternatives for the leading `\s*` taking w characters,
      the longest first. */
  function TryLead(pre: string, w: nat, gap: bool): (r: Option<(string, Option<string>)>)
    requires w <= |pre|
    ensures r.Some? ==> NameGroup(r.value.0) && (r.value.1.Some? ==> NameGroup(r.value.1.value))
    decreases w
  {
    match TryGiven(pre, w, w + 2, gap)
    case Some(g) => Some(g)
    case None => if w == 0 then None else TryLead(pre, w - 1, gap)
  }

  /** The lazy given-name group `pre[w..n]`, the shortest first. */
  function TryGiven(pre: string, w: nat, n: nat, gap: bool): (r: Option<(string, Option<string>)>)
    requires w + 2 <= n
    ensures r.Some? ==> NameGroup(r.value.0) && (r.value.1.Some? ==> NameGroup(r.value.1.value))
    decreases |pre| + 1 - n
  {
    if n > |pre| then None
    else
      var c := Cut(pre, w, n, gap);
      if c.Some? then c else TryGiven(pre, w, n + 1, gap)
  }

  /** The given name `pre[w..n]` and what follows it, when both match. */
  function Cut(pre: string, w: nat, n: nat, gap: bool): (r: Option<(string, Option<string>)>)
    requires w + 2 <= n <= |pre|
    ensures r.Some? ==> NameGroup(r.value.0) && (r.value.1.Some? ==> NameGroup(r.value.1.value))
  {
    if NameGroup(pre[w..n]) && AfterGiven(pre[n..], gap).Some? then
      Some((pre[w..n], AfterGiven(pre[n..], gap).value))
    else None
  }

  /** What follows the given name up to the first slash: the patronym part
      if it matches, else whitespace only. `None` when neither matches. */
  function AfterGiven(rest: string, gap: bool): (r: Option<Option<string>>)
    ensures r.Some? && r.value.Some? ==> NameGroup(r.value.value)
  {
    match MarkPart(rest, gap)
    case Some(pn) => Some(Some(pn))
    case None => if AllSpace(rest) then Some(None) else None
  }

  /** `\s*(?:ben|bat)\s+([\w ]+\w)\s+` matching all of `rest`. */
  function MarkPart(rest: string, gap: bool): (r: Option<string>)
    ensures r.Some? ==> NameGroup(r.value)
  {
    var i := LeadingSpaces(rest);
    if (gap && i == 0) || |rest| < i + 3 || !IsMark(rest[i..i + 3]) then None
    else
      var after := rest[i + 3..];
      var k := LeadingSpaces(after);
      if k == 0 then None else TryPatronym(after, k, |StripRight(after)|)
  }

  /** The patronym group starting after the `\s+` has taken t characters,
      the longest `\s+` first; it ends where the trailing whitespace
      begins. */
  function TryPatronym(after: string, t: nat, e: nat): (r: Option<string>)
    requires 1 <= t <= |after| && e <= |after|
    ensures r.Some? ==> NameGroup(r.value)
    decreases t
  {
    if e < |after| && t <= e && NameGroup(after[t..e]) then Some(after[t..e])
    else if t == 1 then None
    else TryPatronym(after, t - 1, e)
  }

  /** The pattern as the source writes it; `NameScore` uses this one. */
  function ParseName(s: string): Option<ParsedName> {
    ParseNameWith(s, false)
  }

  /** The pattern with "ben"/"bat" required to follow whitespace, as
      intended. */
  function ParseNameIntended(s: string): Option<ParsedName> {
    ParseNameWith(s, true)
  }

  /** The line `formatName(True)` writes before stripping:
      "given /surname/" or "given mark patronym /surname/". */
  function NameLine(given: string, mark: string, patronym: string, surname: string): string {
    given + (if patronym == "" then "" else " " + mark + " " + patronym) + " /" + surname + "/"
  }

  /** No "ben"/"bat" inside the given name that the parser could take for
      the start of a patronym: none at all for the pattern as written, none
      standing as a whole word when a gap before the mark is required. */
  ghost predicate ClearOfMarks(given: string, gap: bool) {
    forall m :: MarkAt(given, m) ==>
      gap && !(0 < m && given[m - 1] == ' ' && (m + 3 == |given| || given[m + 3] == ' '))
  }

  /** "ben" or "bat" starts at position m. */
  predicate MarkAt(s: string, m: int) { 0 <= m && m + 3 <= |s| && IsMark(s[m..m + 3]) }

  /** Parsing a formatted name line gives back its parts, provided the given
      name and the patronym are what the pattern's groups can match, the
      given name holds no "ben"/"bat" the parser could stop at, and the
      surname has no slash. */
  lemma ParseNameLine(given: string, mark: string, patronym: string, surname: string, gap: bool)
    requires NameGroup(given) && !IsSpace(given[0]) && ClearOfMarks(given, gap)
    requires patronym != "" ==> IsMark(mark) && NameGroup(patronym) && !IsSpace(patronym[0])
    requires NoChar(surname, '/')
    ensures ParseNameWith(NameLine(given, mark, patronym, surname), gap)
            == Some(ParsedName(given, if patronym == "" then None else Some(patronym), surname))
  {
    var t := if patronym == "" then " " else " " + mark + " " + patronym + " ";
    var pre := given + t;
    assert NameLine(given, mark, patronym, surname) == pre + "/" + surname + "/";
    var expected := if patronym == "" then None else Some(patronym);
    assert NoChar(pre, '/') by {
      if patronym != "" {
        forall j | 0 <= j < |mark| ensures mark[j] != '/' {
          MarkNeedsLetters(mark, j);
        }
      }
    }
    // the given name is the shortest candidate whose remainder matches
    AfterGivenName(t, mark, patronym, gap);
    assert LeadingSpaces(pre) == 0;
    SkipShortGivens(given, t, 2, gap);
    assert pre[0..|given|] == given;
    assert pre[|given|..] == t;
    assert TryGiven(pre, 0, |given|, gap) == Some((given, expected));
    ParseSplitsAtSlashes(pre, surname, gap);
  }

  /** A line with two slashes and nothing but whitespace after them: the
      surname is what lies between them, and the part before the first is
      parsed for the given name and patronym. */
  lemma ParseSplitsAtSlashes(pre: string, surname: string, gap: bool)
    requires NoChar(pre, '/') && NoChar(surname, '/')
    ensures var g := TryLead(pre, LeadingSpaces(pre), gap);
            ParseNameWith(pre + "/" + surname + "/", gap)
            == if g.None? then None else Some(ParsedName(g.value.0, g.value.1, surname))
  {
    var s := pre + "/" + surname + "/";
    assert s[|pre|] == '/';
    var p := IndexOf(s, '/').value;
    assert p == |pre|;
    var tail := s[p + 1..];
    assert tail == surname + "/";
    assert tail[|surname|] == '/';
    var q := IndexOf(tail, '/').value;
    assert q == |surname|;
    assert s[..p] == pre;
    assert tail[..q] == surname;
    assert tail[q + 1..] == "";
  }

  /** What follows the given name in a formatted line matches the
      optional patronym part exactly. */
  lemma AfterGivenName(t: string, mark: string, patronym: string, gap: bool)
    requires patronym != "" ==> IsMark(mark) && NameGroup(patronym) && !IsSpace(patronym[0])
    requires t == if patronym == "" then " " else " " + mark + " " + patronym + " "
    ensures AfterGiven(t, gap) == Some(if patronym == "" then None else Some(patronym))
  {
    if patronym == "" {
      assert LeadingSpaces(t) == 1;
      assert MarkPart(t, gap) == None;
    } else {
      AfterGivenMark(mark, patronym, gap);
    }
  }

  lemma AfterGivenMark(mark: string, patronym: string, gap: bool)
    requires IsMark(mark) && NameGroup(patronym) && !IsSpace(patronym[0])
    ensures AfterGiven(" " + mark + " " + patronym + " ", gap) == Some(Some(patronym))
  {
    var t := " " + mark + " " + patronym + " ";
    assert |mark| == 3;
    assert LeadingSpaces(t) == 1 by {
      assert t[1] == mark[0];
      assert !IsSpace(LowerChar(mark[0]));
    }
    assert t[1..4] == mark;
    assert t[4..] == " " + patronym + " ";
    PatronymBetweenSpaces(patronym);
  }

  /** The patronym group of " patronym " is the patronym. */
  lemma PatronymBetweenSpaces(patronym: string)
    requires NameGroup(patronym) && !IsSpace(patronym[0])
    ensures var after := " " + patronym + " ";
      LeadingSpaces(after) == 1 && TryPatronym(after, 1, |StripRight(after)|) == Some(patronym)
  {
    var after := " " + patronym + " ";
    assert LeadingSpaces(after) == 1;
    var e := |StripRight(after)|;
    assert e == |after| - 1 by {
      assert !IsSpace(after[|after| - 2]);
    }
    assert after[1..e] == patronym;
  }

  /** Given names shorter than the real one leave a remainder that matches
      neither alternative, so the lazy group grows to the whole given name. */
  lemma SkipShortGivens(given: string, t: string, n: nat, gap: bool)
    requires NameGroup(given) && ClearOfMarks(given, gap)
    requires |t| > 0 && t[0] == ' '
    requires 2 <= n <= |given|
    ensures TryGiven(given + t, 0, n, gap) == TryGiven(given + t, 0, |given|, gap)
  {
    forall j | n <= j < |given| ensures Unmatched(given + t, j, gap) {
      NoMarkAfter(given, t, j, gap);
    }
    TryGivenSkipsTo(given + t, 0, n, |given|, gap);
  }

  /** Cuts whose remainders match nothing are passed over one by one. */
  lemma {:induction false} TryGivenSkipsTo(pre: string, w: nat, n: nat, m: nat, gap: bool)
    requires w + 2 <= n <= m <= |pre|
    requires forall j :: n <= j < m ==> Unmatched(pre, j, gap)
    ensures TryGiven(pre, w, n, gap) == TryGiven(pre, w, m, gap)
    decreases m - n
  {
    if n < m {
      TryGivenStep(pre, w, n, gap);
      TryGivenSkipsTo(pre, w, n + 1, m, gap);
    }
  }

  lemma TryGivenStep(pre: string, w: nat, n: nat, gap: bool)
    requires w + 2 <= n <= |pre| && Unmatched(pre, n, gap)
    ensures TryGiven(pre, w, n, gap) == TryGiven(pre, w, n + 1, gap)
  {
  }

  /** Nothing after the cut at j matches the rest of the pattern. */
  predicate Unmatched(pre: string, j: nat, gap: bool)
    requires j <= |pre|
  {
    AfterGiven(pre[j..], gap).None?
  }

  /** The remainder after a too-short given name matches nothing. */
  lemma NoMarkAfter(given: string, t: string, n: nat, gap: bool)
    requires NameGroup(given) && ClearOfMarks(given, gap)
    requires |t| > 0 && t[0] == ' '
    requires 2 <= n < |given|
    ensures AfterGiven((given + t)[n..], gap) == None
  {
    var pre := given + t;
    var rest := pre[n..];
    assert rest[|given| - 1 - n] == given[|given| - 1];
    assert !AllSpace(rest);
    NoMarkPartAfter(given, t, n, gap);
  }

  lemma NoMarkPartAfter(given: string, t: string, n: nat, gap: bool)
    requires NameGroup(given) && ClearOfMarks(given, gap)
    requires |t| > 0 && t[0] == ' '
    requires 2 <= n < |given|
    ensures MarkPart((given + t)[n..], gap) == None
  {
    var pre := given + t;
    var rest := pre[n..];
    assert rest[|given| - 1 - n] == given[|given| - 1];
    var i := LeadingSpaces(rest);
    assert i <= |given| - 1 - n;
    if !((gap && i == 0) || |rest| < i + 3 || !IsMark(rest[i..i + 3])) {
      if n + i + 3 <= |given| {
        MarkInGivenRunsOn(given, t, n, i, gap);
      } else {
        MarkNeedsLetters(rest[i..i + 3], |given| - (n + i));
        assert false;
      }
    }
  }

  /** A "ben"/"bat" the parser finds inside the given name is followed by
      more of the given name, not by the whitespace the pattern needs. */
  lemma MarkInGivenRunsOn(given: string, t: string, n: nat, i: nat, gap: bool)
    requires NameGroup(given) && ClearOfMarks(given, gap)
    requires |t| > 0 && t[0] == ' '
    requires 2 <= n < |given| && n + i + 3 <= |given|
    requires i == LeadingSpaces((given + t)[n..]) && !(gap && i == 0)
    requires IsMark((given + t)[n..][i..i + 3])
    ensures LeadingSpaces((given + t)[n..][i + 3..]) == 0
  {
    var pre := given + t;
    var rest := pre[n..];
    var m := n + i;
    assert rest[i] == pre[m] == given[m];
    assert rest[i + 1] == pre[m + 1] == given[m + 1];
    assert rest[i + 2] == pre[m + 2] == given[m + 2];
    assert rest[i..i + 3] == given[m..m + 3];
    assert MarkAt(given, m);
    assert rest[i - 1] == given[m - 1];
    assert m + 3 < |given| && given[m + 3] != ' ';
    var after := rest[i + 3..];
    assert after[0] == given[m + 3];
  }

  /** The pattern as written reads the "ben" inside the given name "REUBEN"
      as the mark, so the line formatted from REUBEN ben CHAIM /COHEN/ gives
      back the given name "REU" and a patronym that swallows the real mark. */
  lemma ReubenMisread(given: string, mark: string, patronym: string, surname: string)
    requires given == "REUBEN" && mark == "ben" && patronym == "CHAIM" && surname == "COHEN"
    ensures ParseName(NameLine(given, mark, patronym, surname))
            == Some(ParsedName("REU", Some("ben CHAIM"), "COHEN"))
  {
    var pre := given + " " + mark + " " + patronym + " ";
    assert NameLine(given, mark, patronym, surname) == pre + "/" + surname + "/";
    ReubenPrefix(pre);
    ParseSplitsAtSlashes(pre, surname, false);
    ReubenLead(pre);
  }

  lemma ReubenPrefix(pre: string)
    requires pre == "REUBEN" + " " + "ben" + " " + "CHAIM" + " "
    ensures pre == "REUBEN ben CHAIM " && NoChar(pre, '/') && LeadingSpaces(pre) == 0
  {
  }

  /** With no leading whitespace the given name is read as "REU". */
  lemma ReubenLead(pre: string)
    requires pre == "REUBEN ben CHAIM " && LeadingSpaces(pre) == 0
    ensures TryLead(pre, LeadingSpaces(pre), false) == Some(("REU", Some("ben CHAIM")))
  {
    ReubenGivenTooShort(pre);
    assert |pre| == 17 && pre[..3] == "REU" && pre[3..] == "BEN ben CHAIM ";
    ReubenGivenReu(pre);
  }

  /** "RE" leaves "UBEN ben CHAIM ", which neither the mark part nor
      whitespace alone matches. */
  lemma ReubenGivenTooShort(pre: string)
    requires pre == "REUBEN ben CHAIM "
    ensures TryGiven(pre, 0, 2, false) == TryGiven(pre, 0, 3, false)
  {
    assert pre[2..][0..3] == "UBE";
    assert !IsMark("UBE") by { assert Lower("UBE")[0] == LowerChar('U') == 'u'; }
    assert LeadingSpaces(pre[2..]) == 0;
    assert MarkPart(pre[2..], false) == None;
    assert !AllSpace(pre[2..]) by { assert !IsSpace(pre[2..][0]); }
  }

  /** "REU" leaves "BEN ben CHAIM ", read as the mark "BEN" and the
      patronym "ben CHAIM". */
  lemma ReubenGivenReu(pre: string)
    requires |pre| == 17 && pre[..3] == "REU" && pre[3..] == "BEN ben CHAIM "
    ensures TryGiven(pre, 0, 3, false) == Some(("REU", Some("ben CHAIM")))
  {
    ReubenMark(pre[3..]);
    ReuIsNameGroup();
    GivenStopsAt(pre, 3, false, "REU", Some("ben CHAIM"));
  }

  lemma ReuIsNameGroup() ensures NameGroup("REU") { }

  /** The lazy given-name group stops at the first length whose remainder
      matches. */
  lemma GivenStopsAt(pre: string, n: nat, gap: bool, given: string, patronym: Option<string>)
    requires 2 <= n <= |pre| && pre[..n] == given && NameGroup(given)
    requires AfterGiven(pre[n..], gap) == Some(patronym)
    ensures TryGiven(pre, 0, n, gap) == Some((given, patronym))
  {
    assert pre[0..n] == pre[..n];
  }

  lemma ReubenMark(rest: string)
    requires rest == "BEN ben CHAIM "
    ensures AfterGiven(rest, false) == Some(Some("ben CHAIM"))
  {
    assert rest[0..3] == "BEN";
    assert Lower("BEN") == "ben";
    assert LeadingSpaces(rest) == 0;
    ReubenPatronym(rest[3..]);
    assert MarkPart(rest, false) == Some("ben CHAIM");
  }

  lemma ReubenPatronym(after: string)
    requires after == " ben CHAIM "
    ensures LeadingSpaces(after) == 1
    ensures TryPatronym(after, 1, |StripRight(after)|) == Some("ben CHAIM")
  {
    BenChaimIsNameGroup();
    assert after == " " + "ben CHAIM" + " ";
    PatronymBetweenSpaces("ben CHAIM");
  }

  lemma BenChaimIsNameGroup() ensures NameGroup("ben CHAIM") { }

  /** With a gap required before the mark, the same line parses as written. */
  lemma ReubenRead()
    ensures ParseNameIntended("REUBEN ben CHAIM /COHEN/")
            == Some(ParsedName("REUBEN", Some("CHAIM"), "COHEN"))
  {
    var given := "REUBEN";
    assert NameGroup(given);
    assert ClearOfMarks(given, true);
    assert IsMark("ben");
    assert NameGroup("CHAIM");
    assert NameLine(given, "ben", "CHAIM", "COHEN") == "REUBEN ben CHAIM /COHEN/";
    ParseNameLine(given, "ben", "CHAIM", "COHEN", true);
  }

  /** A mark has no space in it. */
  lemma MarkNeedsLetters(w: string, j: int)
    requires IsMark(w) && 0 <= j < |w|
    ensures IsLetter(w[j])
  {
    assert Lower(w)[j] == LowerChar(w[j]);
  }

  // ------------------------------------------------------------ nameScore

  function WordSet(s: string): set<string> {
    set w | w in Split(s)
  }

  /** `multiNameScore`: 0.5 when either part is missing, 1 for the same
      words, 0.75 when one part's words are a proper subset of the other's,
      0 otherwise. With `eitherWay` false this is the test as the source
      writes it, whose two subset tests ask the same question, so that only
      the first part being the smaller one is credited; with it true, either
      part may be the smaller one. */
  function PartScoreWith(a: Option<string>, b: Option<string>, eitherWay: bool): (r: real)
    ensures IsPartScore(r)
    ensures a.None? || b.None? || a == Some("") || b == Some("") ==> r == 0.5
    ensures a.Some? && b.Some? && a.value != "" && b.value != "" ==>
      var smaller := WordSet(a.value) < WordSet(b.value) || (eitherWay && WordSet(b.value) < WordSet(a.value));
      && (r == 1.0 <==> WordSet(a.value) == WordSet(b.value))
      && (r == 0.75 <==> smaller)
      && (r == 0.0 <==> WordSet(a.value) != WordSet(b.value) && !smaller)
  {
    if a.None? || b.None? || a.value == "" || b.value == "" then 0.5
    else if WordSet(a.value) == WordSet(b.value) then 1.0
    else if WordSet(a.value) < WordSet(b.value) || (eitherWay && WordSet(b.value) < WordSet(a.value)) then 0.75
    else 0.0
  }

  /** The part score as the source computes it; `NameScore` uses this one. */
  function PartScore(a: Option<string>, b: Option<string>): real {
    PartScoreWith(a, b, false)
  }

  /** The part score as intended. */
  function PartScoreIntended(a: Option<string>, b: Option<string>): real {
    PartScoreWith(a, b, true)
  }

  predicate IsPartScore(x: real) { x == 0.0 || x == 0.5 || x == 0.75 || x == 1.0 }

  /** `nameScore(n1, n2)`; `None` where `parseName` raises. With `intended`
      false the names are parsed and their parts scored as the source
      writes it; with it true, by the intended pattern and part score. */
  function NameScoreWith(n1: string, n2: string, intended: bool): (r: Option<real>)
    ensures n1 == "" || n2 == "" ==> r == Some(0.0)
    ensures n1 == n2 ==> r.Some?
    ensures n1 == n2 && n1 != "" ==> r == Some(1.0)
    ensures r.Some? ==> 0.0 <= r.value <= 1.0
    ensures n1 != "" && n2 != "" && n1 != n2 ==>
      (r.Some? <==> ParseNameWith(n1, intended).Some? && ParseNameWith(n2, intended).Some?)
    ensures n1 != "" && n2 != "" && n1 != n2 && r.Some? ==>
      exists x, y, z :: IsPartScore(x) && IsPartScore(y) && IsPartScore(z) && r.value == x * y * z
  {
    if n1 == "" || n2 == "" then Some(0.0)
    else if n1 == n2 then Some(1.0)
    else
      match (ParseNameWith(n1, intended), ParseNameWith(n2, intended))
      case (Some(a), Some(b)) => Some(ScoreParsed(a, b, intended))
      case _ => None
  }

  /** `nameScore` as the source computes it. */
  function NameScore(n1: string, n2: string): Option<real> {
    NameScoreWith(n1, n2, false)
  }

  /** `nameScore` as intended. */
  function NameScoreIntended(n1: string, n2: string): Option<real> {
    NameScoreWith(n1, n2, true)
  }

  /** Two different names that parse score the product of their paired
      parts: surnames, patronyms and given names. */
  lemma NameScoreOfParsed(n1: string, n2: string, a: ParsedName, b: ParsedName)
    requires n1 != "" && n2 != "" && n1 != n2
    requires ParseName(n1) == Some(a) && ParseName(n2) == Some(b)
    ensures NameScore(n1, n2) == Some(Product(PartScore(Some(a.surname), Some(b.surname)),
                                              PartScore(a.patronym, b.patronym),
                                              PartScore(Some(a.given), Some(b.given))))
  {
    assert NameScoreWith(n1, n2, false) == Some(ScoreParsed(a, b, false));
  }

  /** The product of the surname, patronym and given-name part scores. */
  function ScoreParsed(a: ParsedName, b: ParsedName, intended: bool): (r: real)
    ensures 0.0 <= r <= 1.0
    ensures exists x, y, z :: IsPartScore(x) && IsPartScore(y) && IsPartScore(z) && r == x * y * z
  {
    Product(PartScoreWith(Some(a.surname), Some(b.surname), intended),
            PartScoreWith(a.patronym, b.patronym, intended),
            PartScoreWith(Some(a.given), Some(b.given), intended))
  }

  /** The product of three part scores lies in [0, 1]. */
  function Product(x: real, y: real, z: real): (r: real)
    requires IsPartScore(x) && IsPartScore(y) && IsPartScore(z)
    ensures 0.0 <= r <= 1.0 && r == x * y * z
  {
    assert 0.0 <= x * y <= 1.0 by {
      assert 0.0 <= x * y <= 1.0 * y;
    }
    assert x * y * z <= 1.0 * z;
    x * y * z
  }

  /** As written, the score of two name parts is not symmetric: when the
      first part's words are a proper subset of the second's, it is 0.75 one
      way and 0 the other ("chasha" against "chasha leah"). */
  lemma PartScoreOneSided(a: string, b: string)
    requires a != "" && b != "" && WordSet(a) < WordSet(b)
    ensures PartScore(Some(a), Some(b)) == 0.75
    ensures PartScore(Some(b), Some(a)) == 0.0
  {
  }

  /** A word is a proper part of itself followed by another word. */
  lemma WordSetGrows(w1: string, w2: string)
    requires |w1| > 0 && NoSpace(w1) && |w2| > 0 && NoSpace(w2) && w1 != w2
    ensures WordSet(w1) < WordSet(w1 + " " + w2)
  {
    SplitJoin([w1]);
    SplitJoin([w1, w2]);
    JoinCons(" ", w1, [w2]);
    assert Join(" ", [w2]) == w2;
    assert Join(" ", [w1]) == w1;
    assert WordSet(w1) == {w1};
    assert WordSet(w1 + " " + w2) == {w1, w2};
  }

  /** "chasha" against "chasha leah" scores 0.75, and the other way round 0. */
  lemma ChashaLeah(given: string, second: string)
    requires given == "chasha" && second == "leah"
    ensures PartScore(Some(given), Some(given + " " + second)) == 0.75
    ensures PartScore(Some(given + " " + second), Some(given)) == 0.0
  {
    WordSetGrows(given, second);
    PartScoreOneSided(given, given + " " + second);
  }

  /** The whole names "chasha /X/" and "chasha leah /X/" score 0.375 one
      way round and 0 the other: the surnames agree (1), neither has a
      patronym (0.5), and the given names score as in `ChashaLeah`. */
  lemma ChashaLeahNames(given: string, second: string, surname: string)
    requires given == "chasha" && second == "leah" && surname == "X"
    ensures NameScore(given + " /" + surname + "/", given + " " + second + " /" + surname + "/") == Some(0.375)
    ensures NameScore(given + " " + second + " /" + surname + "/", given + " /" + surname + "/") == Some(0.0)
  {
    var short, long := given, given + " " + second;
    ChashaParses(short, surname);
    ChashaParses(long, surname);
    ChashaLeah(given, second);
    var a, b := ParsedName(short, None, surname), ParsedName(long, None, surname);
    assert PartScore(Some(surname), Some(surname)) == 1.0;
    assert PartScore(None, None) == 0.5;
    assert ScoreParsed(a, b, false) == 1.0 * 0.5 * 0.75;
    assert ScoreParsed(b, a, false) == 1.0 * 0.5 * 0.0;
    assert short + " /" + surname + "/" != long + " /" + surname + "/" by {
      assert |short + " /" + surname + "/"| != |long + " /" + surname + "/"|;
    }
  }

  /** "chasha /X/" and "chasha leah /X/" parse into their given name and
      surname, with no patronym. */
  lemma ChashaParses(given: string, surname: string)
    requires given == "chasha" || given == "chasha leah"
    requires surname == "X"
    ensures ParseName(given + " /" + surname + "/") == Some(ParsedName(given, None, surname))
  {
    assert NameGroup(given);
    assert forall i :: 0 <= i < |given| ==> given[i] != 'b' && given[i] != 'B';
    forall m | 0 <= m && m + 3 <= |given| ensures !MarkAt(given, m) {
      assert Lower(given[m..m + 3])[0] == LowerChar(given[m]);
    }
    assert NameLine(given, "ben", "", surname) == given + " /" + surname + "/";
    ParseNameLine(given, "ben", "", surname, false);
  }

  /** As intended, the part score does not depend on the order of the
      parts. */
  lemma PartScoreSymmetric(a: Option<string>, b: Option<string>)
    ensures PartScoreIntended(a, b) == PartScoreIntended(b, a)
  {
  }

  /** With the intended pattern and part score, comparing two names gives
      the same score either way round. */
  lemma NameScoreSymmetric(n1: string, n2: string)
    ensures NameScoreIntended(n1, n2) == NameScoreIntended(n2, n1)
  {
    match (ParseNameIntended(n1), ParseNameIntended(n2))
    case (Some(a), Some(b)) =>
      PartScoreSymmetric(Some(a.surname), Some(b.surname));
      PartScoreSymmetric(a.patronym, b.patronym);
      PartScoreSymmetric(Some(a.given), Some(b.given));
      assert ScoreParsed(a, b, true) == ScoreParsed(b, a, true);
    case _ =>
  }
}
