/**
  From CSV records to rows of named cells: three header records give description, name and type of
  each column, the rest are data. Names are validated, and each data record becomes a map from
  column name to parsed cell.
 */
module Sheets {
  import opened Wrappers
  import opened CellParser

  datatype Header = Header(description: string, name: string, typ: string)

  datatype Sheet = Sheet(headers: seq<Header>, rows: seq<seq<Cell>>)

  datatype SheetError =
    | TooFewRecords
    | BadCell(error: CellError)
    | BadName(column: nat, name: string)
    | DuplicateName(column: nat, name: string, previous: nat)

  type Records = seq<seq<string>>

  /** The CSV reader refuses records of different lengths. */
  predicate Rectangular(records: Records) {
    forall i | 0 <= i < |records| :: |records[i]| == |records[0]|
  }

  // ----- parsing -----

  predicate HasHeaders(records: Records) {
    |records| >= 3 && Rectangular(records)
  }

  function CellAt(records: Records, i: nat, j: nat): Parsed<Cell>
    requires HasHeaders(records) && i < |records| - 3 && j < |records[0]|
  {
    CellOf(records[i + 3][j], records[2][j])
  }

  predicate HeadersMatch(records: Records, headers: seq<Header>)
    requires HasHeaders(records)
  {
    && |headers| == |records[0]|
    && forall j | 0 <= j < |headers| :: headers[j] == Header(records[0][j], records[1][j], records[2][j])
  }

  predicate RowMatches(records: Records, i: nat, row: seq<Cell>)
    requires HasHeaders(records) && i < |records| - 3
  {
    |row| <= |records[0]| && forall j | 0 <= j < |row| :: CellAt(records, i, j) == Ok(row[j])
  }

  /** The sheet holds every data cell of the records, parsed with the type of its column. */
  predicate Matches(records: Records, sheet: Sheet)
    requires HasHeaders(records)
  {
    && HeadersMatch(records, sheet.headers)
    && |sheet.rows| == |records| - 3
    && forall i | 0 <= i < |sheet.rows| :: |sheet.rows[i]| == |records[0]| && RowMatches(records, i, sheet.rows[i])
  }

  predicate CellFails(records: Records, i: nat, j: nat, e: CellError)
    requires HasHeaders(records)
  {
    i < |records| - 3 && j < |records[0]| && CellAt(records, i, j) == Err(e)
  }

  /** Every data cell before row `i`, column `j` parses, reading row by row. */
  predicate CleanBefore(records: Records, i: nat, j: nat)
    requires HasHeaders(records) && i < |records| - 3 && j <= |records[0]|
  {
    forall r: nat, c: nat | r <= i && c < |records[0]| && (r < i || c < j) :: CellAt(records, r, c).Ok?
  }

  ghost predicate FirstFailure(records: Records, e: CellError)
    requires HasHeaders(records)
  {
    exists i: nat, j: nat :: CellFails(records, i, j, e) && CleanBefore(records, i, j)
  }

  method ParseHeaders(records: Records) returns (headers: seq<Header>)
    requires HasHeaders(records)
    ensures HeadersMatch(records, headers)
  {
    headers := [];
    for j := 0 to |records[0]|
      invariant |headers| == j
      invariant forall k | 0 <= k < j :: headers[k] == Header(records[0][k], records[1][k], records[2][k])
    {
      headers := headers + [Header(records[0][j], records[1][j], records[2][j])];
    }
  }

  /** A sheet when every data cell parses, else the error of the first cell that does not. */
  method Parse(records: Records) returns (r: Result<Sheet, SheetError>)
    requires Rectangular(records)
    ensures |records| < 3 ==> r == Err(TooFewRecords)
    ensures |records| >= 3 ==>
              match r
              case Ok(sheet) => Matches(records, sheet)
              case Err(e) => e.BadCell? && FirstFailure(records, e.error)
  {
    if |records| < 3 { return Err(TooFewRecords); }
    hide CellOf;
    var headers := ParseHeaders(records);
    var rows: seq<seq<Cell>> := [];
    for i := 0 to |records| - 3
      invariant |rows| == i
      invariant forall k | 0 <= k < i :: |rows[k]| == |records[0]| && RowMatches(records, k, rows[k])
    {
      var values: seq<Cell> := [];
      for j := 0 to |records[0]|
        invariant |values| == j && RowMatches(records, i, values)
      {
        var cell := ParseValue(records[i + 3][j], headers[j].typ);
        if cell.Err? {
          assert CellFails(records, i, j, cell.error);
          assert CleanBefore(records, i, j) by {
            forall r: nat, c: nat | r <= i && c < |records[0]| && (r < i || c < j) ensures CellAt(records, r, c).Ok? {
              if r < i { assert RowMatches(records, r, rows[r]); }
            }
          }
          return Err(BadCell(cell.error));
        }
        values := values + [cell.value];
      }
      rows := rows + [values];
    }
    r := Ok(Sheet(headers, rows));
  }

  // ----- column names -----

  predicate NameChar(c: char) {
    'a' <= c <= 'z' || '0' <= c <= '9' || c == '_'
  }

  predicate SnakeCase(name: string) {
    name != "" && 'a' <= name[0] <= 'z' && forall i | 0 <= i < |name| :: NameChar(name[i])
  }

  const LETTERS := "abcdefghijklmnopqrstuvwxyz"

  /** A name is a lower-case letter followed by lower-case letters, digits and underscores. */
  lemma SnakeCaseMeans(name: string)
    ensures SnakeCase(name) <==>
            name != "" && name[0] in LETTERS && forall c | c in name :: c in LETTERS + "0123456789_"
  {
    forall c ensures 'a' <= c <= 'z' <==> c in LETTERS { LetterIs(c); }
    forall c ensures NameChar(c) <==> c in LETTERS + "0123456789_" { NameCharIs(c); }
    hide NameChar;
    assert forall i | 0 <= i < |name| :: name[i] in name;
  }

  lemma LetterIs(c: char)
    ensures 'a' <= c <= 'z' <==> c in LETTERS
  {
    if 'a' <= c <= 'z' { assert LETTERS[c as int - 'a' as int] == c; }
  }

  lemma NameCharIs(c: char)
    ensures NameChar(c) <==> c in LETTERS + "0123456789_"
  {
    LetterIs(c);
    var others := "0123456789_";
    if '0' <= c <= '9' { assert others[c as int - '0' as int] == c; }
    assert others[10] == '_';
    assert c in LETTERS + others <==> c in LETTERS || c in others;
  }

  predicate GoodNames(headers: seq<Header>) {
    && (forall i | 0 <= i < |headers| :: SnakeCase(headers[i].name))
    && forall i, j | 0 <= i < j < |headers| :: headers[i].name != headers[j].name
  }

  /** Accepts exactly snake_case names that are all different; the error is about the first column that breaks this. */
  method Validate(headers: seq<Header>) returns (r: Option<SheetError>)
    ensures r.None? <==> GoodNames(headers)
    ensures r.Some? ==>
              match r.value
              case BadName(i, name) =>
                i < |headers| && GoodNames(headers[..i]) && name == headers[i].name && !SnakeCase(name)
              case DuplicateName(i, name, k) =>
                k < i < |headers| && GoodNames(headers[..i]) && name == headers[i].name == headers[k].name &&
                  SnakeCase(name)
              case _ => false
  {
    var seen: map<string, nat> := map[];
    for i := 0 to |headers|
      invariant GoodNames(headers[..i])
      invariant forall name | name in seen :: seen[name] < i && headers[seen[name]].name == name
      invariant forall k | 0 <= k < i :: headers[k].name in seen
    {
      var h := headers[i];
      if !SnakeCase(h.name) { return Some(BadName(i, h.name)); }
      if h.name in seen { return Some(DuplicateName(i, h.name, seen[h.name])); }
      seen := seen[h.name := i];
    }
    assert headers[..|headers|] == headers;
    r := None;
  }

  // ----- rows of named cells -----

  type NamedRow = map<string, Cell>

  /** A row by column name; of columns with the same name the last one stays. */
  function NameCells(headers: seq<Header>, row: seq<Cell>): NamedRow
    requires |row| <= |headers|
  {
    if row == [] then map[]
    else NameCells(headers, row[..|row| - 1])[headers[|row| - 1].name := row[|row| - 1]]
  }

  /** Cells past the last header are dropped. */
  function KnownCells(headers: seq<Header>, row: seq<Cell>): seq<Cell> {
    if |row| <= |headers| then row else row[..|headers|]
  }

  method Generate(sheet: Sheet) returns (data: seq<NamedRow>)
    ensures |data| == |sheet.rows|
    ensures forall i | 0 <= i < |data| :: data[i] == NameCells(sheet.headers, KnownCells(sheet.headers, sheet.rows[i]))
  {
    data := [];
    for i := 0 to |sheet.rows|
      invariant |data| == i
      invariant forall k | 0 <= k < i :: data[k] == NameCells(sheet.headers, KnownCells(sheet.headers, sheet.rows[k]))
    {
      var rowData := GenerateRow(sheet.headers, sheet.rows[i]);
      data := data + [rowData];
    }
  }

  method GenerateRow(headers: seq<Header>, row: seq<Cell>) returns (rowData: NamedRow)
    ensures rowData == NameCells(headers, KnownCells(headers, row))
  {
    rowData := map[];
    for j := 0 to |row|
      invariant rowData == NameCells(headers, KnownCells(headers, row[..j]))
    {
      assert row[..j + 1][..j] == row[..j];
      if j < |headers| {
        rowData := rowData[headers[j].name := row[j]];
      } else {
        assert row[..j + 1][..|headers|] == row[..j][..|headers|];
      }
    }
    assert row[..|row|] == row;
  }

  lemma {:induction false} NamedCellsAre(headers: seq<Header>, row: seq<Cell>, name: string)
    requires |row| <= |headers|
    ensures name in NameCells(headers, row) <==> exists j :: 0 <= j < |row| && headers[j].name == name
  {
    if row != [] {
      NamedCellsAre(headers, row[..|row| - 1], name);
    }
  }

  /** Of cells under one name the last one stays. */
  lemma {:induction false} LastCellStays(headers: seq<Header>, row: seq<Cell>, j: nat)
    requires j < |row| <= |headers| && forall k | j < k < |row| :: headers[k].name != headers[j].name
    ensures headers[j].name in NameCells(headers, row) && NameCells(headers, row)[headers[j].name] == row[j]
  {
    if j < |row| - 1 {
      LastCellStays(headers, row[..|row| - 1], j);
    }
  }

  /**
    In a sheet with good names a generated row has exactly the columns' names as keys, and under each
    name the cell parsed from that column.
   */
  lemma EachCellUnderItsName(records: Records, sheet: Sheet, i: nat)
    requires HasHeaders(records) && Matches(records, sheet) && GoodNames(sheet.headers) && i < |sheet.rows|
    ensures var row := NameCells(sheet.headers, KnownCells(sheet.headers, sheet.rows[i]));
            && (forall name :: name in row <==> exists j :: 0 <= j < |sheet.headers| && sheet.headers[j].name == name)
            && (forall j | 0 <= j < |sheet.headers| ::
                  sheet.headers[j].name in row && CellAt(records, i, j) == Ok(row[sheet.headers[j].name]))
  {
    hide CellAt;
    hide SnakeCase;
    var cells := sheet.rows[i];
    assert RowMatches(records, i, cells);
    forall name
      ensures name in NameCells(sheet.headers, cells) <==>
              exists j :: 0 <= j < |sheet.headers| && sheet.headers[j].name == name
    {
      NamedCellsAre(sheet.headers, cells, name);
    }
    forall j | 0 <= j < |sheet.headers| ensures sheet.headers[j].name in NameCells(sheet.headers, cells)
                                             && NameCells(sheet.headers, cells)[sheet.headers[j].name] == cells[j] {
      LastCellStays(sheet.headers, cells, j);
    }
  }
}
