/** Spreadsheet cells as the record processors see them, and the row
    mapping they are read from.

    A cell holds a stripped string or an integer (numeric cells are
    truncated to integers when a row is read); fields the processors set
    themselves may also be absent (Python's `None`). */
module Values {
  import opened Text

  datatype Value = Null | Str(s: string) | Int(i: int)

  /** Python truthiness: `None`, `""` and `0` are false. */
  predicate Truthy(v: Value) {
    match v
    case Null => false
    case Str(s) => s != ""
    case Int(i) => i != 0
  }

  /** `str(v)`, which is also what `"{}".format(v)` prints. */
  function Show(v: Value): string {
    match v
    case Null => "None"
    case Str(s) => s
    case Int(i) => IntToString(i)
  }

  /** `a or b` */
  function Or(a: Value, b: Value): (r: Value)
    ensures Truthy(a) ==> r == a
    ensures !Truthy(a) ==> r == b
  {
    if Truthy(a) then a else b
  }

  function FromOptionString(o: Option<string>): Value {
    match o
    case None => Null
    case Some(s) => Str(s)
  }

  function FromOptionInt(o: Option<int>): Value {
    match o
    case None => Null
    case Some(i) => Int(i)
  }

  /** One source row: a mapping from logical column name to cell, with the
      column names in insertion order (Python dictionaries keep it, and the
      witness columns are read in that order). */
  datatype Record = Record(columns: seq<string>, fields: map<string, Value>)

  /** The column list names every key exactly once. */
  predicate WellFormed(d: Record) {
    && d.fields.Keys == (set k | k in d.columns)
    && (forall i, j :: 0 <= i < j < |d.columns| ==> d.columns[i] != d.columns[j])
  }

  predicate Has(d: Record, k: string) { k in d.fields }

  /** `d[k]` */
  function Get(d: Record, k: string): Value
    requires Has(d, k)
  {
    d.fields[k]
  }

  /** `d.get(k, default)` */
  function GetOr(d: Record, k: string, default: Value): (v: Value)
    ensures Has(d, k) ==> v == d.fields[k]
    ensures !Has(d, k) ==> v == default
  {
    if k in d.fields then d.fields[k] else default
  }

  /** `{**d, k: v}`: a new key goes to the end, an existing one keeps its place. */
  function With(d: Record, k: string, v: Value): (r: Record)
    requires WellFormed(d)
    ensures WellFormed(r)
    ensures r.fields == d.fields[k := v]
    ensures k in d.fields ==> r.columns == d.columns
    ensures k !in d.fields ==> r.columns == d.columns + [k]
  {
    if k in d.fields then Record(d.columns, d.fields[k := v])
    else Record(d.columns + [k], d.fields[k := v])
  }
}
