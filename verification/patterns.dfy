/** The regular expressions of the normaliser, kept abstract.

    Each pattern is a matcher from the searched text to the capture groups of
    its first match, or `None` when it does not match. What the model relies
    on from a pattern is written into the types of its groups: a group the
    pattern restricts to decimal digits is a `Number`, the four-digit year of
    a date is a `Year4`, an uppercase surname is an `UpperWord`, and so on.
    Everything else about the patterns is left to the matcher. */
module Patterns {
  import opened Text

  /** `\d+` */
  type Number = s: string | |s| > 0 && AllDigits(s) witness "0"

  /** `\d{4}` */
  type Year4 = s: string | |s| == 4 && AllDigits(s) witness "0000"

  /** `[A-Z]+` */
  type UpperWord = s: string | |s| > 0 && AllUpper(s) witness "A"

  /** `(da|we|mo|ye)` under case-insensitive matching: the two letters as
      written in the text, so "Ye" is possible. */
  type AgeUnit = s: string | |s| == 2 && [LowerChar(s[0]), LowerChar(s[1])] in {"da", "we", "mo", "ye"} witness "ye"

  /** Groups of the age-as-date pattern: an optional day, an optional month
      word (its first three characters), an optional second day, and the
      year. */
  datatype AgeDate = AgeDate(day1: Option<string>, month: Option<string>, day2: Option<string>, year: Year4)

  /** Groups of the age pattern: the number and its unit. The alternatives
      "newborn", "stillborn" and a cleaned fraction match with no number. */
  datatype AgeGroups = AgeGroups(num: Option<Number>, unit: Option<AgeUnit>)

  /** Groups of the witness pattern: the full name and the age. */
  datatype WitnessGroups = WitnessGroups(name: string, age: Number)

  /** Groups of the embedded-patronym pattern: the given name, the gender
      mark ("son", "dau...", "bar", "ben", "bat") when the patronym was
      introduced by one, and the patronym itself. The pattern has three
      alternative patronym groups of which exactly one takes part in a
      match; `patronym` is that one. */
  datatype PatronymGroups = PatronymGroups(given: string, mark: Option<string>, patronym: string)

  /** Groups of the embedded-surname pattern: the given name and the
      uppercase surname. */
  datatype SurnameGroups = SurnameGroups(given: string, surname: UpperWord)

  /** Groups of the twins pattern: the two children's names. */
  datatype TwinGroups = TwinGroups(first: string, second: string)

  /** Groups of the parents'-ages-in-comments pattern. */
  datatype ParentAgeGroups = ParentAgeGroups(father: Number, mother: Number)

  datatype Patterns = Patterns(
    /** `_ageAsDateRe`, searched in the cleaned age text */
    ageAsDate: string -> Option<AgeDate>,
    /** `_ageRe`, matched against the cleaned age text */
    age: string -> Option<AgeGroups>,
    /** `_witnessRe`, searched in a witness cell */
    witnessCell: string -> Option<WitnessGroups>,
    /** `_parentAgeInCommentsRe`, searched in the comments */
    parentAges: string -> Option<ParentAgeGroups>,
    /** `_spouseAgeInCommentsRe`, searched in the comments */
    spouseAge: string -> Option<Number>,
    /** `_twinsRe`, searched in the child's given name */
    twins: string -> Option<TwinGroups>,
    /** `_patronymRe`, searched in a given name */
    patronym: string -> Option<PatronymGroups>,
    /** `_surnameRe`, searched in a given name */
    surname: string -> Option<SurnameGroups>,
    /** the three bracket and slash rewrites that open `names.clean` */
    bracketRewrite: string -> string
  )
}
