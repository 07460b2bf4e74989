/** The columns of the normalised output (litvak/normalize.py, `fieldInfo`).

    Every output row maps some of these columns to cell values; a column a
    row does not mention is written empty. */
module Output {
  import opened Values

  datatype Field =
    | File | RowNumber | SourceDescription | Name | Gender | Role
    | BirthDate | BirthNote | BirthPlace
    | DeathDate | DeathNote | DeathPlace
    | MarriageDate | MarriagePlace
    | Source | Microfilm | RecordedOn | RecordedAt | RecordNumber
    | SourceGivenName | SourceSurname | SourceDate | SourcePlace | Errors

  /** The column heading. */
  function Heading(f: Field): string {
    match f
    case File => "File"
    case RowNumber => "Row"
    case SourceDescription => "Source Description"
    case Name => "Name"
    case Gender => "Gender"
    case Role => "Role"
    case BirthDate => "Birth Date"
    case BirthNote => "Birth Note"
    case BirthPlace => "Birth Place"
    case DeathDate => "Death Date"
    case DeathNote => "Death Note"
    case DeathPlace => "Death Place"
    case MarriageDate => "Marriage Date"
    case MarriagePlace => "Marriage Place"
    case Source => "Source"
    case Microfilm => "Microfilm"
    case RecordedOn => "Recorded On"
    case RecordedAt => "Recorded At"
    case RecordNumber => "Record Number"
    case SourceGivenName => "Source Given Name"
    case SourceSurname => "Source Surname"
    case SourceDate => "Source Date"
    case SourcePlace => "Source Place"
    case Errors => "Errors"
  }

  /** `fieldNames`: the columns in output order. */
  const Columns: seq<Field> := [
    File, RowNumber, SourceDescription, Name, Gender, Role,
    BirthDate, BirthNote, BirthPlace, DeathDate, DeathNote, DeathPlace,
    MarriageDate, MarriagePlace, Source, Microfilm, RecordedOn, RecordedAt,
    RecordNumber, SourceGivenName, SourceSurname, SourceDate, SourcePlace, Errors]

  /** One output row. `{**a, **b}` is `a + b`: b's cells win. */
  type Row = map<Field, Value>
}
