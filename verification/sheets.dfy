/** Spreadsheet headers and rows (litvak/parsexls.py): the column names of
    a header row normalised into the common template, the record type
    guessed from them, and each data row turned into a record with its
    row number, file and type and its year cells defaulted from each
    other. Reading the workbook itself is not part of this model: a sheet
    is the sequence of its rows' cells. */
module Sheets {
  import opened Text
  import opened Values

  // -------------------------------------------------------------- key map

  predicate EndsWithStar(k: string) { |k| > 0 && k[|k| - 1] == '*' }

  /** The entries of `_keyMap` whose spelling ends in "*": a husband's
      column seen a second time, which names the wife's. */
  function StarredKey(k: string): (r: Option<string>)
    ensures r.Some? ==> |r.value| > |k|
  {
    if k == "age*" then Some("wife's age")
    else if k == "father's given name*" then Some("wife's father's given name")
    else if k == "father's patronymic*" then Some("wife's father's patronymic")
    else if k == "given name*" then Some("wife's given name")
    else if k == "maternal grandfather*" then Some("wife's mother's patronymic")
    else if k == "mother's given name*" then Some("wife's mother's given name")
    else if k == "mother's maiden name*" then Some("wife's mother's maiden name")
    else if k == "mother's patronymic*" then Some("wife's mother's patronymic")
    else if k == "paternal grandfather*" then Some("wife's father's patronymic")
    else if k == "surname*" then Some("wife's surname")
    else None
  }

  /** The other entries of `_keyMap`, grouped by their first letter. Of
      the spellings listed twice ("w1", "w2", "w3") both entries agree. */
  function PlainKey(k: string): Option<string> {
    if k == "" then None
    else match k[0]
      case '3' =>
        if k == "3.0" then Some("witness 3")
        else None
      case '4' =>
        if k == "4.0" then Some("witness 4")
        else None
      case 'a' =>
        if k == "age / yr. born" then Some("age")
        else if k == "age/ yr. born" then Some("age")
        else if k == "age /year born" then Some("age")
        else None
      case 'c' =>
        if k == "comments (witness ii, age)" then Some("witness 2")
        else if k == "comments|" then Some("source: archive / fond / list / item")
        else None
      case 'd' =>
        if k == "day" then Some("d")
        else if k == "district" then Some("uyezd")
        else if k == "descendants" then Some("comments")
        else None
      case 'f' =>
        if k == "father's father" then Some("father's patronymic")
        else if k == "father" then Some("father's given name")
        else if k == "ff" then Some("father's patronymic")
        else None
      case 'g' =>
        if k == "gf" then Some("father's patronymic")
        else if k == "guberniya" then Some("gubernia")
        else None
      case 'h' =>
        if k == "husband's given name" then Some("given name")
        else if k == "husband's surname" then Some("surname")
        else if k == "husband's father's given name" then Some("father's given name")
        else if k == "husband's mother's given name" then Some("mother's given name")
        else if k == "husband's maternal grandfather" then Some("mother's patronymic")
        else if k == "husband's paternal grandfather" then Some("father's patronymic")
        else if k == "husband's mother's maiden name" then Some("mother's maiden name")
        else if k == "husband's place" then Some("place")
        else if k == "husband's age" then Some("age")
        else None
      case 'm' =>
        if k == "mf" then Some("mother's patronymic")
        else if k == "maternal grandfather" then Some("mother's patronymic")
        else if k == "month" then Some("m")
        else if k == "mother's father" then Some("mother's patronymic")
        else if k == "mother's given name|father's patronymic" then Some("mother's patronymic")
        else if k == "mother's given name|pat" then Some("mother's patronymic")
        else if k == "mother's maiden surname" then Some("mother's maiden name")
        else if k == "mother" then Some("mother's given name")
        else None
      case 'o' =>
        if k == "other surnames (wittness i, age)" then Some("witness 1")
        else None
      case 'p' =>
        if k == "paternal grandfather" then Some("father's patronymic")
        else None
      case 's' =>
        if k == "spouse surname" then Some("spouse's surname")
        else if k == "spouse" then Some("spouse's given name")
        else if k == "source: archive/fond/list/item" then Some("source: archive / fond / list / item")
        else None
      case 't' =>
        if k == "town, uyezd" then Some("place")
        else None
      case 'w' =>
        if k == "w1" then Some("witness 1")
        else if k == "w2" then Some("witness 2")
        else if k == "w3" then Some("witness 3")
        else if k == "wife's mother's given name|" then Some("wife's mother's patronymic")
        else if k == "wife's maternal grandfather" then Some("wife's mother's patronymic")
        else if k == "wife's paternal grandfather" then Some("wife's father's patronymic")
        else if k == "witness" then Some("witness 1")
        else if k == "witness1" then Some("witness 1")
        else if k == "witness2" then Some("witness 2")
        else if k == "witness3" then Some("witness 3")
        else if k == "witness4" then Some("witness 4")
        else if k == "witness 1" then Some("witness 1")
        else if k == "witness 2" then Some("witness 2")
        else if k == "witness 3" then Some("witness 3")
        else if k == "witness 4" then Some("witness 4")
        else if k == "w4" then Some("witness 4")
        else if k == "wife's father's given name|" then Some("wife's father's patronymic")
        else if k == "wife's mother's given name|patronymic" then Some("wife's mother's patronymic")
        else None
      case 'y' =>
        if k == "year" then Some("y")
        else None
      case _ => None
  }

  /** `_keyMap.get(k)`: no plain entry ends in "*", so the table is the
      union of the two parts. */
  function KeyMapGet(k: string): Option<string> {
    if EndsWithStar(k) then StarredKey(k) else PlainKey(k)
  }

  /** `_keyMap.get(k, default)` */
  function MapKey(k: string, default: string): (r: string)
    ensures KeyMapGet(k).None? ==> r == default
    ensures KeyMapGet(k).Some? ==> r == KeyMapGet(k).value
  {
    match KeyMapGet(k)
    case Some(v) => v
    case None => default
  }

  /** One round of the renaming loop: append "*" and look it up. */
  function Starred(k: string): string {
    MapKey(k + "*", k + "*")
  }

  /** Each round lengthens the key: a starred spelling always names a
      longer wife's column. This is what ends the renaming loop. */
  lemma StarredGrows(k: string)
    ensures |Starred(k)| > |k|
  {
    assert EndsWithStar(k + "*") by {
      assert (k + "*")[|k|] == '*';
    }
  }

  // ------------------------------------------------------------- headers

  /** `str(cell)` for a header cell: text as it is, a number as the float
      the workbook stores ("3.0"). */
  function CellText(v: Value): string {
    match v
    case Str(s) => s
    case Int(i) => IntToString(i) + ".0"
    case Null => "None"
  }

  /** `" ".join(str(k).split()).lower()` */
  function CleanKey(v: Value): string {
    Lower(CollapseSpaces(CellText(v)))
  }

  /** The length of the longest key. */
  function MaxLength(header: seq<string>): (n: nat)
    ensures forall i :: 0 <= i < |header| ==> |header[i]| <= n
  {
    if header == [] then 0
    else
      var n := MaxLength(header[1..]);
      assert forall i :: 1 <= i < |header| ==> header[i] == header[1..][i - 1];
      if |header[0]| > n then |header[0]| else n
  }

  /** The `while k in header` loop: rename until the key is unused. */
  function Unused(header: seq<string>, k: string): (r: string)
    ensures r !in header
    ensures k !in header ==> r == k
    decreases MaxLength(header) + 1 - |k|
  {
    if k in header then
      StarredGrows(k);
      Unused(header, Starred(k))
    else k
  }

  /** The key of one more column after `header`, whose last key is `last`:
      the cleaned name mapped once, then remapped as "last|name", then
      renamed until unused. */
  function NextKey(header: seq<string>, last: string, cell: Value): (r: string)
    ensures r !in header
    ensures var k := CleanKey(cell);
      KeyMapGet(k).None? && KeyMapGet(last + "|" + k).None? && k !in header ==> r == k
  {
    var k := MapKey(CleanKey(cell), CleanKey(cell));
    Unused(header, MapKey(last + "|" + k, k))
  }

  function LastKey(header: seq<string>): string {
    if header == [] then "" else header[|header| - 1]
  }

  /** Pairwise distinct keys. */
  predicate Distinct(keys: seq<string>) {
    forall i, j :: 0 <= i < j < |keys| ==> keys[i] != keys[j]
  }

  /** `getRowHeader`: one key per cell, each distinct from those before. */
  function RowHeader(row: seq<Value>): (r: seq<string>)
    ensures |r| == |row|
    ensures Distinct(r)
  {
    if row == [] then []
    else
      var header := RowHeader(row[..|row| - 1]);
      header + [NextKey(header, LastKey(header), row[|row| - 1])]
  }

  /** Each key of a header extends the header of the columns before it. */
  lemma {:induction false} RowHeaderPrefix(row: seq<Value>, n: nat)
    requires n <= |row|
    ensures RowHeader(row)[..n] == RowHeader(row[..n])
    decreases |row|
  {
    if n < |row| {
      assert row[..|row| - 1][..n] == row[..n];
      RowHeaderPrefix(row[..|row| - 1], n);
    } else {
      assert row[..n] == row;
    }
  }

  /** `getRowHeader` as the source writes it, with its two loops. */
  method GetRowHeader(row: seq<Value>) returns (header: seq<string>)
    ensures header == RowHeader(row)
  {
    header := [];
    var last := "";
    var i := 0;
    while i < |row|
      invariant 0 <= i <= |row|
      invariant header == RowHeader(row[..i])
      invariant last == LastKey(header)
    {
      var k := MapKey(CleanKey(row[i]), CleanKey(row[i]));
      k := MapKey(last + "|" + k, k);
      k := Rename(header, k);
      RowHeaderStep(row, i);
      header := header + [k];
      last := k;
      i := i + 1;
    }
    assert row[..i] == row;
  }

  lemma RowHeaderStep(row: seq<Value>, i: nat)
    requires i < |row|
    ensures var header := RowHeader(row[..i]);
      RowHeader(row[..i + 1]) == header + [NextKey(header, LastKey(header), row[i])]
  {
    assert row[..i + 1][..i] == row[..i];
  }

  /** The inner loop of `getRowHeader`: star and remap the key while it is
      taken. */
  method Rename(header: seq<string>, key: string) returns (k: string)
    ensures k == Unused(header, key)
  {
    k := key;
    while k in header
      invariant Unused(header, k) == Unused(header, key)
      decreases MaxLength(header) + 1 - |k|
    {
      StarredGrows(k);
      k := k + "*";
      k := MapKey(k, k);
    }
  }

  /** A column whose name is already taken is renamed by the starred
      entry of its name, when that entry is free. */
  lemma RepeatedColumn(header: seq<string>, last: string, name: string, renamed: string)
    requires CleanKey(Str(name)) == name && KeyMapGet(name).None?
    requires KeyMapGet(last + "|" + name).None?
    requires name in header && Starred(name) == renamed && renamed !in header
    ensures NextKey(header, last, Str(name)) == renamed
  {
    assert Unused(header, name) == Unused(header, renamed);
  }

  /** A column repeated under "age" is the wife's age. */
  lemma RepeatedAgeIsWifes(header: seq<string>, last: string)
    requires "age" in header && "wife's age" !in header
    requires KeyMapGet(last + "|" + "age").None?
    ensures NextKey(header, last, Str("age")) == "wife's age"
  {
    AgeIsClean();
    StarredEntry("age", "wife's age");
    RepeatedColumn(header, last, "age", "wife's age");
  }

  /** A column repeated under "given name" is the wife's given name. */
  lemma RepeatedGivenNameIsWifes(header: seq<string>, last: string)
    requires "given name" in header && "wife's given name" !in header
    requires KeyMapGet(last + "|" + "given name").None?
    ensures NextKey(header, last, Str("given name")) == "wife's given name"
  {
    GivenNameIsClean();
    GivenNameStarred();
    RepeatedColumn(header, last, "given name", "wife's given name");
  }

  /** "age" and "given name" are their own clean keys and are not in the
      table. */
  lemma AgeIsClean()
    ensures CleanKey(Str("age")) == "age" && KeyMapGet("age").None?
  {
    CleanKeyOfPlain("age");
  }

  lemma GivenNameIsClean()
    ensures CleanKey(Str("given name")) == "given name" && KeyMapGet("given name").None?
  {
    GivenNameSpacing();
    CleanKeyOfPlain("given name");
    GivenNameUnmapped();
  }

  lemma GivenNameSpacing()
    ensures SingleSpaced("given name")
  {
  }

  lemma GivenNameStarred()
    ensures Starred("given name") == "wife's given name"
  {
    StarredEntry("given name", "wife's given name");
  }

  lemma GivenNameUnmapped()
    ensures KeyMapGet("given name").None?
  {
  }

  /** A starred spelling listed in the table is renamed by it. */
  lemma StarredEntry(k: string, renamed: string)
    requires StarredKey(k + "*") == Some(renamed)
    ensures Starred(k) == renamed
  {
    assert EndsWithStar(k + "*") by { assert (k + "*")[|k|] == '*'; }
  }

  /** A blank header after "comments" names the archival source. */
  lemma BlankAfterCommentsIsSource(header: seq<string>)
    requires "source: archive / fond / list / item" !in header
    ensures NextKey(header, "comments", Str("")) == "source: archive / fond / list / item"
  {
    BlankIsClean();
    BlankUnmapped();
    CommentsBarEntry();
  }

  lemma BlankIsClean()
    ensures CleanKey(Str("")) == ""
  {
  }

  lemma BlankUnmapped()
    ensures KeyMapGet("").None?
  {
  }

  lemma CommentsBarEntry()
    ensures KeyMapGet("comments" + "|" + "") == Some("source: archive / fond / list / item")
  {
    assert "comments" + "|" + "" == "comments|";
  }

  /** A lower-case, single-spaced name is its own cleaned key. */
  lemma CleanKeyOfPlain(s: string)
    requires SingleSpaced(s) && forall i :: 0 <= i < |s| ==> !IsUpper(s[i])
    ensures CleanKey(Str(s)) == s
  {
    JoinSplit(s);
    assert Lower(s) == s;
  }

  // ----------------------------------------------------------- file type

  /** `fileTypeMap`, in its order: the column that marks each kind of
      record. */
  const FileTypes: seq<(string, string)> :=
    [("child's surname", "Birth"), ("marriage or divorce", "Marriage"), ("cause of death", "Death")]

  /** The first kind whose marking column is in the header. */
  function FirstType(header: seq<string>, types: seq<(string, string)>): (r: Option<string>)
    ensures r.None? <==> forall i :: 0 <= i < |types| ==> types[i].0 !in header
    ensures r.Some? ==> exists i :: 0 <= i < |types| && types[i].0 in header && r.value == types[i].1
                                 && forall j :: 0 <= j < i ==> types[j].0 !in header
  {
    if types == [] then None
    else if types[0].0 in header then Some(types[0].1)
    else
      var r := FirstType(header, types[1..]);
      assert forall i :: 1 <= i < |types| ==> types[i] == types[1..][i - 1];
      r
  }

  function FileType(header: seq<string>): Option<string> {
    FirstType(header, FileTypes)
  }

  /** A birth column decides the kind whatever else is there; a marriage
      column decides it unless there is a birth column; and no marking
      column leaves the kind unknown. */
  lemma FileTypePriority(header: seq<string>)
    ensures "child's surname" in header ==> FileType(header) == Some("Birth")
    ensures "child's surname" !in header && "marriage or divorce" in header ==> FileType(header) == Some("Marriage")
    ensures "child's surname" !in header && "marriage or divorce" !in header && "cause of death" in header ==>
      FileType(header) == Some("Death")
    ensures FileType(header).None? <==>
      "child's surname" !in header && "marriage or divorce" !in header && "cause of death" !in header
  {
    var t := FileTypes;
    if t[0].0 !in header {
      FirstTypeSkips(header, t);
      if t[1].0 !in header {
        FirstTypeSkips(header, t[1..]);
      }
    }
  }

  lemma FirstTypeSkips(header: seq<string>, types: seq<(string, string)>)
    requires |types| > 0 && types[0].0 !in header
    ensures FirstType(header, types) == FirstType(header, types[1..])
  {
  }

  // --------------------------------------------------------------- rows

  /** A data cell: text stripped, a number as the integer it holds. */
  function Cell(v: Value): Value {
    match v
    case Str(s) => Str(Strip(s))
    case _ => v
  }

  /** `{k: cell(row[i]) for i, k in enumerate(header)}` */
  function Fill(header: seq<string>, row: seq<Value>): (r: Record)
    requires |row| >= |header| && Distinct(header)
    ensures WellFormed(r) && r.columns == header
    ensures forall i :: 0 <= i < |header| ==> header[i] in r.fields && r.fields[header[i]] == Cell(row[i])
  {
    var m := Cells(header, row);
    assert m.Keys == set k | k in header;
    Record(header, m)
  }

  /** The cells of a row under the header's keys. */
  function Cells(header: seq<string>, row: seq<Value>): (m: map<string, Value>)
    requires |row| >= |header| && Distinct(header)
    ensures forall k :: k in m <==> k in header
    ensures forall i :: 0 <= i < |header| ==> header[i] in m && m[header[i]] == Cell(row[i])
  {
    if header == [] then map[]
    else
      var n := |header| - 1;
      DistinctSnoc(header);
      var prev := Cells(header[..n], row);
      var m := prev[header[n] := Cell(row[n])];
      forall i | 0 <= i < n
        ensures header[i] in m && m[header[i]] == Cell(row[i])
      {
        assert header[..n][i] == header[i];
      }
      m
  }

  /** A list of distinct keys is its distinct front and a last key not
      among them. */
  lemma DistinctSnoc(keys: seq<string>)
    requires Distinct(keys) && |keys| > 0
    ensures var n := |keys| - 1;
      && Distinct(keys[..n]) && keys[n] !in keys[..n]
      && keys == keys[..n] + [keys[n]]
      && forall i :: 0 <= i < n ==> keys[i] != keys[n]
  {
    var n := |keys| - 1;
    assert forall i :: 0 <= i < n ==> keys[..n][i] == keys[i];
  }

  /** One data row as a record: its cells under the header's keys, its
      row number (counting from one), file and kind, and the year cells
      defaulted from each other; `None` where the source fails, that is
      when the header has no "y" column. */
  function RowRecord(header: seq<string>, row: seq<Value>, rowNum: nat, baseName: string, fileType: string): (r: Option<Record>)
    requires |row| >= |header| && Distinct(header)
    ensures r.None? <==> "y" !in header
    ensures r.Some? ==> WellFormed(r.value) && Has(r.value, "y") && Has(r.value, "year recorded")
    ensures r.Some? ==> Has(r.value, "fileType") && Get(r.value, "fileType") == Str(fileType)
    ensures r.Some? ==> Has(r.value, "rowNum") && Get(r.value, "rowNum") == Int(rowNum + 1)
    ensures r.Some? ==> Has(r.value, "fileName") && Get(r.value, "fileName") == Str(baseName)
  {
    if "y" !in header then None
    else
      var c := Fill(header, row);
      StampedRow(c, rowNum, baseName, fileType);
      Some(DefaultYears(Stamp(c, rowNum, baseName, fileType)))
  }

  /** The year cells of a row's record: the year recorded is its own cell
      or, missing, the year's; the year is its own cell unless that is
      empty, and then the year recorded. */
  lemma RowYears(header: seq<string>, row: seq<Value>, rowNum: nat, baseName: string, fileType: string)
    requires |row| >= |header| && Distinct(header) && "y" in header
    ensures var r := RowRecord(header, row, rowNum, baseName, fileType).value;
      var cells := Fill(header, row).fields;
      && ("year recorded" in header ==> Get(r, "year recorded") == cells["year recorded"])
      && ("year recorded" !in header ==> Get(r, "year recorded") == cells["y"])
      && (Truthy(cells["y"]) ==> Get(r, "y") == cells["y"])
      && (!Truthy(cells["y"]) ==> Get(r, "y") == Get(r, "year recorded"))
  {
    var c := Fill(header, row);
    var d := Stamp(c, rowNum, baseName, fileType);
    StampKeeps(c, rowNum, baseName, fileType, "y");
    StampKeeps(c, rowNum, baseName, fileType, "year recorded");
    assert RowRecord(header, row, rowNum, baseName, fileType) == Some(DefaultYears(d));
  }

  /** Every other cell of the row is in its record under its column,
      stripped when it is text. */
  lemma RowCellKept(header: seq<string>, row: seq<Value>, rowNum: nat, baseName: string, fileType: string, j: nat)
    requires |row| >= |header| && Distinct(header) && "y" in header && j < |header|
    requires header[j] != "y" && header[j] != "year recorded"
    requires header[j] != "rowNum" && header[j] != "fileName" && header[j] != "fileType"
    ensures var r := RowRecord(header, row, rowNum, baseName, fileType).value;
      Has(r, header[j]) && Get(r, header[j]) == Cell(row[j])
  {
    var c := Fill(header, row);
    var d := Stamp(c, rowNum, baseName, fileType);
    StampKeeps(c, rowNum, baseName, fileType, header[j]);
    assert RowRecord(header, row, rowNum, baseName, fileType) == Some(DefaultYears(d));
  }

  lemma StampedRow(c: Record, rowNum: nat, baseName: string, fileType: string)
    requires WellFormed(c) && Has(c, "y")
    ensures var d := Stamp(c, rowNum, baseName, fileType);
      && Has(d, "y")
      && var r := DefaultYears(d);
      && Has(r, "fileType") && Get(r, "fileType") == Str(fileType)
      && Has(r, "rowNum") && Get(r, "rowNum") == Int(rowNum + 1)
      && Has(r, "fileName") && Get(r, "fileName") == Str(baseName)
  {
    var d := Stamp(c, rowNum, baseName, fileType);
    assert Has(d, "y");
    DefaultKeeps(d, "fileType");
    DefaultKeeps(d, "rowNum");
    DefaultKeeps(d, "fileName");
  }

  lemma DefaultKeeps(d: Record, k: string)
    requires WellFormed(d) && Has(d, "y") && Has(d, k) && k != "y" && k != "year recorded"
    ensures Has(DefaultYears(d), k) && Get(DefaultYears(d), k) == Get(d, k)
  {
  }

  lemma StampKeeps(c: Record, rowNum: nat, baseName: string, fileType: string, k: string)
    requires WellFormed(c) && k != "rowNum" && k != "fileName" && k != "fileType"
    ensures var d := Stamp(c, rowNum, baseName, fileType);
      (k in d.fields <==> k in c.fields) && (k in c.fields ==> d.fields[k] == c.fields[k])
  {
  }

  /** The row number, file name and kind added to a row's cells. */
  function Stamp(d: Record, rowNum: nat, baseName: string, fileType: string): (r: Record)
    requires WellFormed(d)
    ensures WellFormed(r)
    ensures r.fields == d.fields["rowNum" := Int(rowNum + 1)]["fileName" := Str(baseName)]["fileType" := Str(fileType)]
  {
    With(With(With(d, "rowNum", Int(rowNum + 1)), "fileName", Str(baseName)), "fileType", Str(fileType))
  }

  /** A missing "year recorded" is the year, and an empty
      year is the year recorded. */
  function DefaultYears(d: Record): (r: Record)
    requires WellFormed(d) && Has(d, "y")
    ensures WellFormed(r) && Has(r, "y") && Has(r, "year recorded")
    ensures !Has(d, "year recorded") ==> Get(r, "year recorded") == Get(d, "y")
    ensures Has(d, "year recorded") ==> Get(r, "year recorded") == Get(d, "year recorded")
    ensures Truthy(Get(d, "y")) ==> Get(r, "y") == Get(d, "y")
    ensures !Truthy(Get(d, "y")) ==> Get(r, "y") == Get(r, "year recorded")
    ensures forall k :: k in d.fields && k != "y" && k != "year recorded" ==> k in r.fields && r.fields[k] == d.fields[k]
  {
    var d1 := if !Has(d, "year recorded") then With(d, "year recorded", Get(d, "y")) else d;
    if !Truthy(Get(d1, "y")) then With(d1, "y", Get(d1, "year recorded")) else d1
  }

  /** After defaulting, the year is empty only when both year cells were,
      and a missing year recorded agrees with the year. */
  lemma YearsFilled(d: Record)
    requires WellFormed(d) && Has(d, "y")
    ensures var r := DefaultYears(d);
      && (Truthy(Get(r, "y")) <==> Truthy(Get(d, "y")) || (Has(d, "year recorded") && Truthy(Get(d, "year recorded"))))
      && (!Has(d, "year recorded") ==> Get(r, "y") == Get(r, "year recorded"))
  {
  }

  // --------------------------------------------------------------- sheet

  /** Every row of a sheet has the same number of cells. */
  predicate Rectangular(rows: seq<seq<Value>>) {
    forall i :: 0 <= i < |rows| ==> |rows[i]| == |rows[0]|
  }

  /** The header in force and the kind of record it was found to hold. */
  datatype Layout = Layout(header: seq<string>, fileType: string)

  predicate FitsRows(rows: seq<seq<Value>>, layout: Option<Layout>) {
    layout.Some? && |rows| > 0 ==> |layout.value.header| == |rows[0]| && Distinct(layout.value.header)
  }

  predicate IsKind(v: Value) { v == Str("Birth") || v == Str("Marriage") || v == Str("Death") }

  /** A record as the sheet yields it: both year cells, a kind, and the
      row it came from. */
  predicate SheetRecord(d: Record) {
    && WellFormed(d) && Has(d, "y") && Has(d, "year recorded")
    && Has(d, "fileType") && IsKind(Get(d, "fileType"))
    && Has(d, "rowNum") && Get(d, "rowNum").Int?
  }

  function RowNumber(d: Record): int
    requires SheetRecord(d)
  {
    Get(d, "rowNum").i
  }

  /** The records come in the order of their rows, each from a row in
      `(lo, hi]` counting from one. */
  predicate InRowOrder(s: seq<Record>, lo: int, hi: int) {
    && (forall k :: 0 <= k < |s| ==> SheetRecord(s[k]) && lo < RowNumber(s[k]) <= hi)
    && (forall k, l :: 0 <= k < l < |s| ==> RowNumber(s[k]) < RowNumber(s[l]))
  }

  /** The kind a header row leaves in force: its own when a marking
      column is in it, else the one found before. */
  function KindAfter(header: seq<string>, layout: Option<Layout>): (r: Option<string>)
    ensures FileType(header).Some? ==> r == FileType(header)
    ensures FileType(header).None? && layout.Some? ==> r == Some(layout.value.fileType)
    ensures r.None? <==> FileType(header).None? && layout.None?
    ensures layout.Some? && IsKind(Str(layout.value.fileType)) && r.Some? ==> IsKind(Str(r.value))
  {
    match FileType(header)
    case Some(t) => FileTypeIsKind(header); Some(t)
    case None => if layout.Some? then Some(layout.value.fileType) else None
  }

  /** The rows from `i` on, under the layout read so far: a row holding
      "Record #" is a header row and sets the layout, or ends the sheet
      when no kind has been found yet; rows before the first header row
      are skipped; every other row is a record. `None` where the source
      fails. */
  function ReadFrom(rows: seq<seq<Value>>, baseName: string, i: nat, layout: Option<Layout>): (r: Option<seq<Record>>)
    requires i <= |rows| && Rectangular(rows) && FitsRows(rows, layout)
    requires layout.Some? ==> IsKind(Str(layout.value.fileType))
    ensures r.Some? ==> InRowOrder(r.value, i, |rows|)
    ensures layout.None? && (forall j :: i <= j < |rows| ==> Str("Record #") !in rows[j]) ==> r == Some([])
    decreases |rows| - i
  {
    if i == |rows| then Some([])
    else if Str("Record #") in rows[i] then
      var header := RowHeader(rows[i]);
      match KindAfter(header, layout)
      case None => Some([])
      case Some(t) =>
        var r := ReadFrom(rows, baseName, i + 1, Some(Layout(header, t)));
        InRowOrderWeaker(r, i + 1, i, |rows|);
        r
    else if layout.None? then
      var r := ReadFrom(rows, baseName, i + 1, layout);
      InRowOrderWeaker(r, i + 1, i, |rows|);
      r
    else
      match RowRecord(layout.value.header, rows[i], i, baseName, layout.value.fileType)
      case None => None
      case Some(d) =>
        var rest := ReadFrom(rows, baseName, i + 1, layout);
        if rest.None? then None else Some(Prepend(d, rest.value, i + 1, |rows|))
  }

  lemma InRowOrderWeaker(r: Option<seq<Record>>, lo: int, lo': int, hi: int)
    requires lo' <= lo && (r.Some? ==> InRowOrder(r.value, lo, hi))
    ensures r.Some? ==> InRowOrder(r.value, lo', hi)
  {
  }

  /** The record of row `n` before the records of the rows after it. */
  function Prepend(d: Record, rest: seq<Record>, n: int, hi: int): (r: seq<Record>)
    requires SheetRecord(d) && RowNumber(d) == n && n <= hi && InRowOrder(rest, n, hi)
    ensures r == [d] + rest && InRowOrder(r, n - 1, hi)
  {
    [d] + rest
  }

  lemma FileTypeIsKind(header: seq<string>)
    requires FileType(header).Some?
    ensures IsKind(Str(FileType(header).value))
  {
    FileTypePriority(header);
  }

  /** `xlsRows` on the rows of the chosen sheet. */
  function SheetRecords(rows: seq<seq<Value>>, baseName: string): (r: Option<seq<Record>>)
    requires Rectangular(rows)
    ensures r.Some? ==> InRowOrder(r.value, 0, |rows|)
    ensures (forall j :: 0 <= j < |rows| ==> Str("Record #") !in rows[j]) ==> r == Some([])
  {
    ReadFrom(rows, baseName, 0, None)
  }

  /** `xlsRows` reads the sheet named "Chronological" when there is one,
      and the first sheet otherwise. */
  function ChosenSheet(names: seq<string>): (r: nat)
    ensures "Chronological" in names ==> r < |names| && names[r] == "Chronological"
    ensures "Chronological" !in names ==> r == 0
  {
    if "Chronological" in names then IndexOf(names, "Chronological") else 0
  }

  function IndexOf(names: seq<string>, name: string): (r: nat)
    requires name in names
    ensures r < |names| && names[r] == name && name !in names[..r]
  {
    if names[0] == name then 0
    else
      assert name in names[1..];
      var r := IndexOf(names[1..], name);
      assert names[..r + 1] == [names[0]] + names[1..][..r];
      r + 1
  }
}
