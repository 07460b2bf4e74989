# litvak record normaliser, modelled in Dafny

This project models the core of `litvak`, a set of Python scripts. They turn the
transcribed vital-record spreadsheets of the LitvakSIG project (births, deaths,
marriages of Lithuanian Jews, dated in the Julian calendar) into one row per
person mentioned. Each row carries a normalised name, a gender, a role and
Gregorian event dates. The model covers five pieces of the system:

- the date and age engine (`normalize.py`): converting a Julian date to an ISO
  Gregorian date, and deriving a birth year from an age, a date or a
  generation;
- the name normaliser (`names.py`): the spelling tables, gender inference,
  embedded patronyms and surnames, `parseName` and `nameScore`;
- people and families (`person.py`): presence, name formatting, the
  child-to-father reconciliation, and `buildFamily`;
- the three record processors (`birth.py`, `death.py`, `marriage.py`);
- column-header normalisation and row reading (`parsexls.py`).

Modules, in dependency order:

| module | file | what it holds |
|---|---|---|
| `Text` | text.dfy | the Python string operations the code relies on: case mapping, title case, `split`/`join`, `strip`, decimal formatting and parsing, and the hand-written regular-expression substitutions |
| `Values` | values.dfy | a cell value (`None`, a string or an integer), Python truthiness and `str()`, and a record: an ordered mapping from column name to cell |
| `Patterns` | patterns.dfy | the regular expressions, kept abstract as matchers returning their capture groups |
| `Calendar` | calendar.dfy | the Julian Day Number formula, Richards' algorithm, and reference Julian and Gregorian calendars to judge them against |
| `Names` | names.dfy | `names.py` |
| `Persons` | persons.dfy | `person.py` |
| `Output` | output.dfy | the output columns (`fieldInfo`) and the row type |
| `Normalize` | normalize.dfy | `normalize.py`, plus the row assembly the processors share |
| `Births`, `Deaths`, `Marriages` | births.dfy, deaths.dfy, marriages.dfy | the record processors |
| `Sheets` | sheets.dfy | `parsexls.py` without the workbook library |

Python's mutation becomes functions that return the new value. Creating a
`Person` with a father returns the child and the updated father.
`buildFamily` threads those updates through the seven people it builds. A
Python exception or a `fatal` call becomes `None` in an `Option` result.

## Model

| member | source | states |
|---|---|---|
| Calendar.GregorianFromDayNumber | litvak/normalize.py:118-136 | for every integer day number, Richards' algorithm yields a month in 1..12 and a day in 1..31 |
| Calendar.GregorianFromDayNumberIsExact | litvak/normalize.py:118-136 | Richards' algorithm is exact: the date it yields is the proleptic Gregorian date with that Julian Day Number, checked against a calendar built from the Gregorian leap rule |
| Calendar.FloorAgreesWithPublishedFormula | litvak/normalize.py:117 | in February and September to December, the floor-division formula equals the published truncating formula (from year -4999 on) |
| Calendar.FloorRunsLateInEarlyMonths | litvak/normalize.py:117 | in January and March to August, the floor-division formula is 1 or 2 above the published one |
| Calendar.DayNumberExactInLateMonths | litvak/normalize.py:117 | in February and September to December, the day number computed is that of the Julian-calendar date, counted by the Julian leap rule |
| Calendar.DayNumberLateInEarlyMonths | litvak/normalize.py:117 | in January and March to August, the day number computed is 1 or 2 days after that of the Julian-calendar date |
| Calendar.IntendedIsPublished | litvak/normalize.py:114-117 | the corrected formula, with the month term truncated, equals the published formula in every month (from year -4999 on) |
| Calendar.IntendedDayNumberIsExact | litvak/normalize.py:114-117 | the corrected formula gives the day number of the Julian-calendar date in every month and every year |
| Calendar.AsWrittenAgreesInLateMonths | litvak/normalize.py:117 | in February and September to December, the source's formula and the corrected one agree |
| Calendar.ConversionExactInLateMonths | litvak/normalize.py:114-136 | in February and September to December, the source's conversion lands on the same day as the Julian date |
| Calendar.IntendedConversionIsExact | litvak/normalize.py:114-136 | the corrected conversion lands on the same day as the Julian date in every month |
| Calendar.ConversionLateInEarlyMonths | litvak/normalize.py:114-136 | in January and March to August, the source's conversion lands 1 or 2 days after the Julian date |
| Normalize.CleanNum | litvak/normalize.py:88-96 | `None` is 0, an integer is itself, a string is never negative, and a string of digits reads as its decimal value |
| Normalize.CleanNumIgnoresParenthesized | litvak/normalize.py:92-96 | digits followed by a parenthesised note read as the digits alone |
| Normalize.MonthNumber | litvak/normalize.py:48-61 | a month abbreviation gives its position 1..12 in the month list; anything else gives 0 |
| Normalize.CleanMonth | litvak/normalize.py:99-104 | a string whose first three characters title-case to a month abbreviation is that month's number; anything else is `cleanNum` of it |
| Normalize.CleanMonthReadsMonthWords | litvak/normalize.py:99-104 | a month word in any case, abbreviated or spelled out, reads as its month number |
| Normalize.IsoDateReadsBack | litvak/normalize.py:137 | a date with a four-digit year and two-digit month and day is written as ten characters that read back as the same date |
| Normalize.FormatJulianWith | litvak/normalize.py:106-112 | the year alone when month and day clean to 0, and "0-" and the year when only the month does; the dated case is stated by `FormatJulianReadsBack` and the calendar lemmas |
| Normalize.FormatJulianReadsBack | litvak/normalize.py:114-137 | with a month, the text reads back as the date the day number converts to, for either reading of line 117 |
| Normalize.FormatJulianIntendedIsExact | litvak/normalize.py:114-137 | with the month term truncated as intended, the text for a month in 1..12 reads back as a date that is the same day as the Julian date in the cells |
| Normalize.FormatJulianAsGregorianSeptember | litvak/normalize.py:106-137 | as written, Julian 1 September 1900 is written "1900-09-14" |
| Normalize.FormatJulianAsGregorianWithoutMonth | litvak/normalize.py:109-112 | with no month, a year alone is written as the year, and a year with a day as "0-" and the year |
| Normalize.AsWrittenInLateMonths | litvak/normalize.py:117-137 | in February and September to December, the source's text is the corrected text |
| Normalize.AsWrittenInEarlyMonths | litvak/normalize.py:117-137 | in January and March to August, the source's text reads back as a date 1 or 2 days after the Julian date |
| Normalize.JanuaryAsWritten | litvak/normalize.py:117-137 | Julian 1 January 1900 is written "1900-01-15" by the source and "1900-01-13" by the corrected conversion |
| Normalize.FormatPlaceSplits | litvak/normalize.py:140-141 | place names without commas are recovered by splitting the joined place at its commas |
| Normalize.AgeClean | litvak/normalize.py:188-193 | the cleaned age text holds only word characters and whitespace |
| Normalize.ExtractNum | litvak/normalize.py:195-202 | an integer is itself; anything else gives a number of at least -1, where -1 means no number |
| Normalize.ExtractNumReadsDecimal | litvak/normalize.py:195-202 | a cell of digits reads as its decimal value |
| Normalize.ExtractNumOfNatToString | litvak/normalize.py:195-202 | a number written out in decimal reads back as itself |
| Normalize.ExtractNumOfNothing | litvak/normalize.py:199-201 | an empty or missing cell reads as the no-number marker -1 |
| Normalize.DateInAgeField | litvak/normalize.py:204-214 | a result exactly when the date pattern matches; its year is the four-digit group, its date the Julian date converted as line 209 does (the floor-division formula), its note "Given: ... (Julian)" |
| Normalize.AgeOffset | litvak/normalize.py:222-227 | an age with no number, or with a unit other than "ye", counts as 0 years |
| Normalize.AgeOffsetCountsYears | litvak/normalize.py:222-227 | a non-zero age is subtracted in full exactly when it has no unit or its unit is "ye", and counts as 0 otherwise |
| Normalize.AgeOffsetIsCaseSensitive | litvak/normalize.py:223-226 | "5 Years" matches the case-insensitive pattern with unit "Ye", and counts as 0 years |
| Normalize.AgeAtYear | litvak/normalize.py:216-241 | a result exactly when the age pattern matches; the year is the anchor's number less the age offset, the date its decimal text, the note "Calculated: age ... in ..." |
| Normalize.EstimateFromGeneration | litvak/normalize.py:243-251 | no result exactly when the anchor is below 1000; otherwise the year is generation times generation length before the anchor, with an "Estimated" note |
| Normalize.CalcBirthFromAge | litvak/normalize.py:253-268 | all three parts are present or all absent; a date in a non-empty age wins; failing that, an age the age pattern reads is taken off the year; with no age, or neither reading, the estimate from the generation year (else the record's year) when that anchor is truthy and gives one, and no birth otherwise |
| Normalize.BirthFromAgeInYears | litvak/normalize.py:216-241 | a plain numeric age N at year Y gives the birth year Y - N |
| Normalize.BirthFromSubYearAge | litvak/normalize.py:223-227 | an age in days, weeks or months gives the year itself |
| Normalize.BirthEstimatedFromGeneration | litvak/normalize.py:261-266 | with no age, the birth year is generations before the anchor: the generation year when given, else the record's year |
| Normalize.EstimatedWithoutAge | litvak/normalize.py:243-266 | with no age and an anchor of at least 1000, the birth year is the anchor less 25 years per generation |
| Normalize.NextGeneration | litvak/normalize.py:261-268 | a father is born 25 years before a child's birth year of at least 1000, with that year's decimal text as his date and the note "Estimated: 1 gen before <child's year>"; he has no birth otherwise |
| Normalize.NextGenerationEitherAnchor | litvak/birth.py:69-80 | naming the child's year also as the generation year changes nothing |
| Normalize.NoBirthWithoutAnchor | litvak/normalize.py:261-268 | with no age and no usable anchor, all three parts are absent |
| Normalize.BirthWithoutBaseYear | litvak/normalize.py:230-240 | an age N with an empty year cell gives the year -1 - N |
| Normalize.BirthDateReadsAsYear | litvak/normalize.py:237-250 | a calculated or estimated birth that is not negative has a date text that reads back as its year |
| Normalize.GetParentsAge | litvak/normalize.py:288-296 | the ages in the comments win when the pattern matches them; otherwise the parents' age columns, absent ones as `None` |
| Normalize.GetSpouseAge | litvak/normalize.py:299-304 | the age in the comments wins when the pattern matches it; otherwise the spouse's age column |
| Normalize.MakeWitness | litvak/normalize.py:312-316 | a witness has the role "Witness", the matched name as raw given name, and a birth from the matched age at the record's year |
| Normalize.GetWitnesses | litvak/normalize.py:307-317 | one witness per "witness" column whose cell the pattern matches, in column order |
| Normalize.WitnessesAreWitnesses | litvak/normalize.py:307-317 | every witness has the role "Witness", its matched name, and a birth from its matched age |
| Normalize.WitnessCountStep | litvak/normalize.py:309-313 | going along the columns, a "witness" column whose cell the pattern matches adds one match and any other column none |
| Normalize.WitnessOfColumn | litvak/normalize.py:309-317 | the witness of a matching "witness" column is the one at the position counting the matching columns before it: one witness per matching column, in column order |
| Normalize.CommonRow | litvak/normalize.py:272-285 | the shared row has exactly the ten shared columns, each with its cell |
| Normalize.CommonFields | litvak/normalize.py:271-285 | file, row and source cells are copied; the date is day, month and year joined by "/"; the place is the comma-joined town, uyezd and gubernia; the description is "<fileType> of <name> in <y> <town>", stripped |
| Normalize.CommonFieldsSplitBack | litvak/normalize.py:280-284 | the source date splits at "/" back into day, month and year, the place at "," into its three cells |
| Normalize.WithBirth | litvak/birth.py:59-62 | a person gets the birth date, note and role given, and nothing else changes |
| Normalize.PresentOnly | litvak/birth.py:85-96 | only present people are kept, never more than were given |
| Normalize.PresentOnlyKeepsPresent | litvak/birth.py:85-96 | a list of present people is kept whole; a list of absent people vanishes |
| Normalize.PresentOnlyAppend | litvak/marriage.py:70-77 | filtering a concatenation filters each part, in order |
| Normalize.RecordRows | litvak/birth.py:85-96 | one row per present person |
| Normalize.RecordRowsCells | litvak/birth.py:86 | each row has the shared and the person columns; where both have a column, the person's cell wins |
| Normalize.RecordRowsNamePeople | litvak/birth.py:85-96 | the k-th row carries the k-th present person's role and normalised name |
| Normalize.RecordRowsFirst | litvak/birth.py:85-96 | a present person leading the list gives the first row, with its name and role |
| Names.AddSpellings | litvak/names.py:30-31 | the title case of each spelling maps to the canonical name; every other key keeps its value |
| Names.AddEntry | litvak/names.py:22-31 | one entry adds exactly the keys it spells, and only to its own kind's table, each mapped to the uppercase canonical name |
| Names.BuildKeys | litvak/names.py:21-31 | a key is in a table exactly when some entry of that kind spells it |
| Names.BuildLastWriter | litvak/names.py:21-31 | a key's value is the canonical name of the last entry of that kind spelling it |
| Names.InitNameMaps | litvak/names.py:21-31 | fails exactly when a variant list is not a tuple; otherwise a key is in a table exactly when an entry of that kind spells it |
| Names.LastWriterWins | litvak/names.py:21-31 | each spelling of an entry maps to its uppercase canonical name, unless a later entry of the same kind spells it too |
| Names.CleanName | litvak/names.py:80-92 | the cleaned name is empty for an empty name, holds only word characters and single spaces, and has no space at either end |
| Names.MapRawName | litvak/names.py:96-132 | a known gender is kept; otherwise male-only words decide "M", female-only words alone decide "F", and no vote returns the raw name with no gender; the words are mapped through the chosen table |
| Names.MapRawNameStable | litvak/names.py:96-104 | a clean, single-spaced upper-case name whose words map to their own upper case in the gender's table is returned unchanged |
| Names.CanonicalMapsToItself | litvak/names.py:21-31 | after `initNameMaps`, the title case of a canonical name, not respelled by a later entry of its kind, maps to its own upper case |
| Names.CanonicalNameStable | litvak/names.py:21-31 | after `initNameMaps`, an upper-case name made of canonical names of the gender, not respelled by a later entry, maps to itself |
| Names.MarkGender | litvak/names.py:149-169 | son/bar/ben sets "M" and dau/bat sets "F" only when the gender is unknown; a known gender never changes |
| Names.ExtractPatronym | litvak/names.py:138-171 | without a match the names are unchanged; with one, the given name and the embedded patronym replace the supplied ones, and the mark adjusts the gender |
| Names.ExtractSurname | litvak/names.py:203-210 | without a match the cells are returned as text; with one, the given name and an uppercase surname replace them |
| Names.NormalizeName | litvak/names.py:173-200 | a known gender is returned unchanged; otherwise the gender is "M", "F" or unknown |
| Names.MisfiledPatronym | litvak/names.py:180-182 | with no patronym and a surname in the male table, the surname becomes the patronym and the surname is emptied |
| Names.MisfiledPatronymMoves | litvak/names.py:180-190 | in that case the normalised surname is empty and the patronym is the surname looked up in the male table |
| Names.OppositeGender | litvak/names.py:213-218 | "M" and "F" swap; anything else gives `None` |
| Names.OppositeGenderInvolution | litvak/names.py:213-218 | applied twice, it gives back "M" and "F" |
| Names.GuessGender | litvak/names.py:222-228 | the gender the name implies wins; without a spouse it is the only evidence; with a spouse and no gender from the name, the opposite of the spouse's; the result is "M", "F" or `None` |
| Names.GuessGenderOpposesSpouse | litvak/names.py:213-228 | when the name says nothing and the spouse's name does, the guess and the spouse's own guess are opposite genders, each the other's `oppositeGender` |
| Names.ParseNameWith | litvak/names.py:231-248 | a parsed given name and patronym are what the pattern's groups can match, and the surname has no slash |
| Names.ParseNameLine | litvak/names.py:231-248 | a line written as "given [ben\|bat patronym] /surname/" parses back into its parts |
| Names.ParseSplitsAtSlashes | litvak/names.py:235-241 | the surname is what lies between the two slashes; the part before is parsed for the given name and patronym |
| Names.ReubenMisread | litvak/names.py:235-240 | as written, "REUBEN ben CHAIM /COHEN/" parses as given name "REU" and patronym "ben CHAIM" |
| Names.ReubenRead | litvak/names.py:235-240 | with whitespace required before the mark, the same line parses as "REUBEN", "CHAIM", "COHEN" |
| Names.PartScoreWith | litvak/names.py:257-266 | 0.5 for a missing part; 1 exactly for the same words; 0.75 exactly when one part's words are a proper subset of the other's (only the first's, as written); 0 otherwise |
| Names.PartScoreOneSided | litvak/names.py:264-265 | as written, a part that is a proper subset scores 0.75 one way and 0 the other |
| Names.ChashaLeah | litvak/names.py:264-265 | as written, "chasha" against "chasha leah" scores 0.75, and 0 the other way round |
| Names.PartScoreSymmetric | litvak/names.py:257-266 | the corrected part score does not depend on the order of the parts |
| Names.NameScoreWith | litvak/names.py:252-282 | 0 when a name is empty, 1 for identical names; otherwise defined exactly when both names parse, and then the product of three part scores, in [0, 1]; `NameScore` is the instance as written |
| Names.ChashaLeahNames | litvak/names.py:252-282 | as written, "chasha /X/" against "chasha leah /X/" scores 0.375, and 0 the other way round |
| Names.ChashaParses | litvak/names.py:231-248 | as written, "chasha /X/" and "chasha leah /X/" parse into their given name and surname with no patronym |
| Names.ScoreParsed | litvak/names.py:275-279 | the product of the surname, patronym and given-name scores lies in [0, 1] |
| Names.NameScoreOfParsed | litvak/names.py:252-282 | for two different non-empty names that parse, the score pairs surname with surname, patronym with patronym and given name with given name, and multiplies the three part scores as written |
| Names.NameScoreSymmetric | litvak/names.py:264 | with the intended pattern and part score, comparing two names gives the same score either way round; the corrected half of the line-264 finding |
| Persons.MarkFor | litvak/person.py:77 | the mark is "bat" exactly for gender "F", and "ben" otherwise |
| Persons.FormatName | litvak/person.py:72-83 | an absent person formats as ""; the normalised line is "given [mark patronym] /surname/"; the result has no space at either end |
| Persons.FormatNameParses | litvak/person.py:75-82 | the source's `parseName` reads the normalised name line back into the person's given name, patronym and surname, when the given name holds no "ben"/"bat" at all |
| Persons.NameScoreOfFormatted | litvak/names.py:252-282 | two people's normalised name lines score 1 when identical, and otherwise the product of the as-written part scores of their surnames, their patronyms (absent when empty) and their given names |
| Persons.FormatNameParsesIntended | litvak/person.py:75-82 | the intended pattern reads the line back when the given name holds no "ben"/"bat" as a word of its own |
| Persons.NormalizedFields | litvak/person.py:85-100 | exactly the thirteen person columns: the normalised name line, the gender, and the raw names, events and role as they are |
| Persons.Reconcile | litvak/person.py:47-67 | a father with no given name takes the child's patronym; the surname follows the child's unless they disagree; nothing else changes |
| Persons.ReconcileAgrees | litvak/person.py:47-67 | after reconciling, the father agrees with the child's patronym and surname |
| Persons.ReconcileIdempotent | litvak/person.py:47-67 | reconciling with the same child twice changes nothing more |
| Persons.NewPerson | litvak/person.py:13-67 | the child keeps its raw names and an explicit gender; events and role start absent; the name is normalised against the father's raw names, or the child's own surname without a father; only the father is updated |
| Persons.BuildFamily | litvak/person.py:113-146 | the father and both grandfathers are "M", the mother "F", and the spouse the opposite of the given gender |
| Persons.Ancestor | litvak/person.py:127-129 | a grandfather or spouse's father is male and keeps his raw names |
| Persons.ChildOf | litvak/person.py:130-136 | a child keeps its raw names and explicit gender; its father comes back reconciled with it |
| Persons.ChildOfNames | litvak/person.py:21-32 | a child's name is normalised against its father's raw given name and raw surname |
| Persons.FamilyLinks | litvak/person.py:126-146 | the principal is normalised against the father's given name and the family surname; the father's surname then follows the principal's unless they disagree |
| Births.BirthsOfParents | litvak/birth.py:58-81 | the parents' births come from their ages at the record's year; each grandfather's from his child's birth year |
| Births.GrandfathersAGenerationBefore | litvak/birth.py:69-81 | each grandfather is born 25 years before his child, when the child's year is at least 1000, and has no birth otherwise |
| Births.ChildBirthDateCountsYearAsDays | litvak/birth.py:53 | passing the year as the day gives a date year - 1 days after the first of the record's month in February and September to December, and 1 or 2 days more in the other months, as the source converts |
| Births.ChildPerson | litvak/birth.py:53-56 | the child has the role "Principle", the birth date `formatJulianAsGregorian(y, m, y)` as the source converts it, an empty birth note, and the record's place as birthplace |
| Births.FamilyPeople | litvak/birth.py:52-81 | the five family members in row order, with the roles Father, Father's Father, Mother and Mother's Father and their computed births |
| Births.ProcessBirth | litvak/birth.py:25-96 | a record that is not about twins gives the rows of its child; a failure happens only in the twin split |
| Births.ChildRowFirst | litvak/birth.py:85-96 | a present child gives the first row, named after the child, with the role "Principle" |
| Births.TwinRows | litvak/birth.py:34-40 | a twins record gives the first twin's principal row, then every row of the second twin |
| Deaths.CleanCell | litvak/death.py:27-29 | an empty cell gives the empty name, any other the cleaned name |
| Deaths.MarriedSurname | litvak/death.py:35-42 | with a spouse and a surname, an empty spouse surname takes the deceased's, and the deceased's is dropped exactly when it equals the spouse's; otherwise nothing changes |
| Deaths.MarriedSurnameIdempotent | litvak/death.py:35-42 | applying the married-surname rule to its own result changes nothing more |
| Deaths.NamesOfDeath | litvak/death.py:27-43 | the given names are cleaned, the married-surname rule applied, then an uppercase surname in the father's cell is split off |
| Deaths.MarriedNameDropped | litvak/death.py:35-43 | a deceased listed under the spouse's surname keeps no surname unless the father's cell supplies one |
| Deaths.BirthsOfDeath | litvak/death.py:77-124 | the deceased is born from the age at death; parents from their ages, else a generation before; the spouse from their age, else in the same generation; each father a generation before his child |
| Deaths.SpouseOfSameGeneration | litvak/death.py:110-114 | with no age, the spouse is born in the deceased's birth year |
| Deaths.FatherAGenerationBefore | litvak/death.py:86-89 | with no age, the father is born 25 years before the deceased |
| Deaths.MotherAGenerationBefore | litvak/death.py:91-94 | with no age, the mother is born 25 years before the deceased |
| Deaths.DeceasedPerson | litvak/death.py:73-81 | the deceased died on the record's date converted as the source does, in its place, with an empty note and the role "Principle" |
| Deaths.SpousePerson | litvak/death.py:110-118 | the spouse has the role "Spouse"; when the comments say "widow", died "before" the record's year with a note saying so; otherwise the death cells are unchanged |
| Deaths.DeathPeople | litvak/death.py:127-141 | the seven family members in row order, with their roles and births |
| Deaths.ProcessDeath | litvak/death.py:17-141 | at most one row per family member and per witness |
| Deaths.DeceasedRowFirst | litvak/death.py:127-141 | a present deceased gives the first row, with the role "Principle" |
| Marriages.BirthsOfSide | litvak/marriage.py:23-53 | the spouse is born from their own age; the parents from the shared ages, else a generation before the spouse; each grandfather a generation before his child |
| Marriages.SidesShareParentAges | litvak/marriage.py:33-40 | both sides read the same parents' ages: spouses sharing a birth year have parents with the same births |
| Marriages.ParentsAGenerationBeforeSpouse | litvak/marriage.py:33-40 | with no age, a father is born 25 years before the spouse |
| Marriages.SpousePerson | litvak/marriage.py:23-31 | a spouse is born in their own place column, married on the record's date converted as the source does, in its place, with the side as role |
| Marriages.SidePeople | litvak/marriage.py:36-54 | the five members of one side in row order, with roles named after the side |
| Marriages.ProcessSpouseFam | litvak/marriage.py:10-54 | five people, the first with the side as role and the side's given name |
| Marriages.ProcessMarriage | litvak/marriage.py:57-77 | at most ten family rows and one per witness |
| Marriages.HusbandRowFirst | litvak/marriage.py:70-77 | a present husband gives the first row, with the role "Husband" |
| Marriages.SidesInOrder | litvak/marriage.py:70-77 | the present members of the husband's side come first, then the wife's side, then the witnesses |
| Sheets.MapKey | litvak/parsexls.py:102 | a spelling in the table maps to its entry; any other passes through |
| Sheets.StarredGrows | litvak/parsexls.py:107-109 | each renaming round makes the key longer, which ends the renaming loop |
| Sheets.Unused | litvak/parsexls.py:107-109 | the renamed key is not in the header; a key not yet in it is kept |
| Sheets.NextKey | litvak/parsexls.py:100-110 | a new column's key is never already in the header; a clean name that nothing remaps is kept as it is |
| Sheets.RowHeader | litvak/parsexls.py:95-113 | exactly one key per cell, all pairwise distinct |
| Sheets.RowHeaderPrefix | litvak/parsexls.py:99-111 | the keys of the first n columns do not depend on the columns after them |
| Sheets.GetRowHeader | litvak/parsexls.py:95-113 | the loop computes the header `RowHeader` defines |
| Sheets.Rename | litvak/parsexls.py:107-109 | the inner loop computes the first unused key |
| Sheets.RepeatedColumn | litvak/parsexls.py:107-110 | a repeated column is renamed by its starred table entry when that entry is free |
| Sheets.RepeatedAgeIsWifes | litvak/parsexls.py:107-110 | a second "age" column becomes "wife's age" |
| Sheets.RepeatedGivenNameIsWifes | litvak/parsexls.py:107-110 | a second "given name" column becomes "wife's given name" |
| Sheets.BlankAfterCommentsIsSource | litvak/parsexls.py:104-105 | a blank header after "comments" names the archival source |
| Sheets.CleanKeyOfPlain | litvak/parsexls.py:101 | a lower-case, single-spaced name is its own cleaned key |
| Sheets.FirstType | litvak/parsexls.py:136-139 | the kind of the first marking column present, in table order, and none when no marking column is present |
| Sheets.FileTypePriority | litvak/parsexls.py:88-92 | a birth column decides the kind, then a marriage column, then a death column; with none the kind is unknown |
| Sheets.Fill | litvak/parsexls.py:146-149 | each header key holds its cell, stripped when it is text, in header order |
| Sheets.RowRecord | litvak/parsexls.py:146-157 | fails exactly when there is no "y" column; otherwise both year cells, the row number counting from one, the file name and the kind are set |
| Sheets.RowYears | litvak/parsexls.py:153-156 | a missing "year recorded" is the year; an empty year is the year recorded |
| Sheets.RowCellKept | litvak/parsexls.py:146-149 | every other cell of the row is in the record under its key |
| Sheets.Stamp | litvak/parsexls.py:150-152 | the row number, file name and kind are added, and nothing else changes |
| Sheets.DefaultYears | litvak/parsexls.py:153-156 | the two year cells default from each other, and no other cell changes |
| Sheets.YearsFilled | litvak/parsexls.py:153-156 | after defaulting, the year is empty only when both year cells were |
| Sheets.KindAfter | litvak/parsexls.py:132-143 | a header row's own kind wins, else the kind found before stays in force |
| Sheets.ReadFrom | litvak/parsexls.py:129-157 | the records come in row order; a sheet with no header row yields none |
| Sheets.SheetRecords | litvak/parsexls.py:116-158 | the records of a sheet come in row order, each from a row of the sheet |
| Sheets.ChosenSheet | litvak/parsexls.py:122-125 | the sheet named "Chronological" when there is one, else the first |
| Text.RemoveParenthesized | litvak/normalize.py:93 | never longer than its input; text without "(" is unchanged |
| Text.KeepDigits | litvak/normalize.py:94 | only digits are left; a string of digits is unchanged |
| Text.LeadingDigits | litvak/normalize.py:199 | the longest run of digits at the start of the text |
| Text.PunctuationToSpace | litvak/normalize.py:193 | only word characters and whitespace are left; text with nothing else is unchanged |
| Text.NonWordToSpace | litvak/names.py:91 | only word characters and spaces are left, with no two spaces in a row |

## Left out

- Network, scraping and file code is not part of this model: `utils.py` (session login, `get`, `url`), `download.py` and `__init__.py`.
- Reading the workbook (`open_workbook`, `sheet_by_name`, `row_values`) is left out: a sheet is the sequence of its rows' cells, and `Sheets.ChosenSheet` picks it from the sheet names.
- Numeric cells are integers. The workbook library stores them as floats, and the row reader truncates them with `int`. A header cell that is a number reads as its float text ("3.0"), which `Sheets.CellText` writes as the integer followed by ".0".
- `warning`, `info` and `setWarningContext` only print, so they are not modelled. This covers the impossible-age, impossible-year and no-base-year messages, the two-patronym and patronym-gender warnings, the surname and patronym mismatch warnings of `Person.__init__`, and the same-gender warning of `processDeath`. `fatal` in `initNameMaps` becomes a `None` result.
- The name list (`namelist.py`) is not part of this model. It is the parameter of `Names.InitNameMaps`. An entry whose kind names no table (a `KeyError` in the source) is excluded by a precondition.
- `genderSet` (names.py:18, 25-26) is filled but never read by the modelled code, so it is left out.
- The debugging branches (`dump` in `normalizeName`, `Person.dump`) are left out.
- The regular expressions are abstract matchers (`Patterns`). The model proves the logic around each match, not what the patterns accept. The one exception is `parseNameRe`, which is written out by hand. The digit filters, the punctuation and non-word substitutions, and the parenthesis removal are written out in `Text`. The three bracket and slash rewrites that open `names.clean` stay abstract.
- Case mapping is ASCII only. Every non-ASCII character counts as a cased letter and a word character.
- Text.IsSpace: whitespace is the six ASCII whitespace characters. Python's `\s`, `str.strip()` and `str.split()` also treat "\xa0" and the other Unicode spaces as whitespace; the model treats them as word characters.
- Sheets.Cell: an empty cell (`None`) is passed through, where `int(None)` at parsexls.py:149 would raise. The workbook library never yields `None` for a cell, so the case does not arise.
- A witness cell that holds a number (the pattern search fails on it) and any name, place or comment cell the processors concatenate as text are excluded by preconditions, which are the `...Record` predicates.
- `processBirth` passes a twin's name to itself through a "twin name" cell. Here the name is a parameter of `Births.ChildRows` instead, because nothing else reads that cell. `[0]` on a first twin that yields no row raises `IndexError` in the source; `Births.ProcessBirth` returns `None` then. A missing "y" column in `xlsRows` raises `KeyError`; `Sheets.RowRecord` and `Sheets.ReadFrom` return `None` then.
- The `deathYear`, `marriageYear` and `birthYear` attributes the processors set on people are not stored. They only feed the births computed next to them, and the model passes those values on directly.
- Names.NormalizeName: its contract states only the gender. The names it returns are stated by the contracts of `MapRawName`, `ExtractPatronym`, `ExtractSurname` and `MisfiledPatronymMoves`, which it composes.
- Deaths.ProcessDeath: its contract bounds the number of rows. The row order and contents are stated by `DeathPeople`, `DeceasedRowFirst` and the `RecordRows` lemmas.
- Marriages.ProcessMarriage: its contract bounds the number of rows. The order is stated by `SidesInOrder` and `HusbandRowFirst`.
- normalize.py:111-112: the branch for a partial date fires when the month is missing, and writes "0-" followed by the year, whatever the day (`Normalize.FormatJulianAsGregorianWithoutMonth`).
- birth.py:37-40: of the first twin only its first row is kept, followed by every row of the second twin (`Births.TwinRows`).
- Two quirks are kept as written because their intent is unclear. The age unit is compared with "ye" case-sensitively (`Normalize.AgeOffsetIsCaseSensitive`). The child's birth date passes the year in the day position, and is then converted with the source's floor-division formula (`Births.ChildBirthDateCountsYearAsDays`).

## Findings

| source | as written | input that shows it | evidently intended | confidence | as-written member | corrected member |
|---|---|---|---|---|---|---|
| litvak/names.py:235-240 | `([\w ]+?\w)\s*` lets the lazy given-name group end right before "ben"/"bat" inside a word | "REUBEN ben CHAIM /COHEN/", as `formatName(True)` writes it, parses as given "REU" and patronym "ben CHAIM" | "ben"/"bat" starts the patronym only after whitespace, so the line parses as "REUBEN", "CHAIM", "COHEN" | not executed | Names.ReubenMisread | Names.ReubenRead |
| litvak/normalize.py:117 | the month term `(M - 9) // 7` uses floor division, while the cited formula truncates toward zero | Julian 1 January 1900 gives "1900-01-15" | "1900-01-13", the Gregorian date of the same day; every month is converted exactly | not executed | Normalize.JanuaryAsWritten | Normalize.FormatJulianIntendedIsExact |
| litvak/names.py:264 | `n1set < n2set or n2set > n1set` asks the same question twice | "chasha" against "chasha leah" scores 0.75, but "chasha leah" against "chasha" scores 0 | 0.75 when either part is a proper subset of the other, so the score does not depend on argument order | not executed | Names.ChashaLeahNames | Names.NameScoreSymmetric |

The rest of the model follows the source as written: `Names.ParseName`, `Names.PartScore`, `Names.NameScore` and `Normalize.FormatJulianAsGregorian` behave as the code does, and every record processor converts its dates with the floor-division formula. The corrected definitions are kept beside them, with the intended properties proved about them: `Names.ParseNameIntended`, `Names.PartScoreIntended`, `Names.NameScoreIntended` and `Normalize.FormatJulianIntended`. Each pair is two instances of one definition with a flag: `ParseNameWith`, `PartScoreWith`, `NameScoreWith` and `FormatJulianWith`.
