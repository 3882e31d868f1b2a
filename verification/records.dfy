/** The loader of script.js: the fetched text is cut into lines, the header
    line is dropped, and every remaining line becomes one fixed 15-column
    incident record whose fields are taken positionally from its
    comma-separated cells. */
module Records {
  import opened Wrappers
  import Text

  /** A JavaScript number as the loader produces it: a finite value or NaN.
      Values are exact reals (no floating-point rounding). */
  datatype Num = Finite(value: real) | NaN

  /** `parseInt` and `parseFloat`, whose exact behaviour belongs to the
      JavaScript runtime and is left abstract: any two total conversions. */
  datatype Converters = Converters(parseInt: string -> Num, parseFloat: string -> Num)

  /** One parsed row, in column order. `dn` is the raw day/night cell, kept
      as a string; `None` stands for a cell the row does not have. */
  datatype Record = Record(
    cluster: Num,
    centroidLat: Num,
    centroidLon: Num,
    dn: Option<string>,
    all: Num,
    drug: Num,
    financial: Num,
    lowLevelProperty: Num,
    lowLevelViolent: Num,
    nonCriminal: Num,
    publicOrder: Num,
    severeProperty: Num,
    severeViolent: Num,
    sexualOffenses: Num,
    weapon: Num)

  const ColumnCount: nat := 15

  /** How a column's cell is turned into a value. */
  datatype Kind = IntColumn | FloatColumn | RawColumn

  /** Column i's conversion: `parseFloat` for the coordinates, the raw
      string for DN, `parseInt` for everything else. */
  function KindOf(i: nat): (k: Kind)
  {
    if i == 1 || i == 2 then FloatColumn
    else if i == 3 then RawColumn
    else IntColumn
  }

  /** A record field viewed without its type: a number or a raw cell. */
  datatype Cell = NumCell(num: Num) | RawCell(raw: Option<string>)

  /** The record's fields as a sequence, in declaration order. */
  function Columns(r: Record): (cs: seq<Cell>)
    ensures |cs| == ColumnCount
  {
    [NumCell(r.cluster), NumCell(r.centroidLat), NumCell(r.centroidLon),
     RawCell(r.dn), NumCell(r.all),
     NumCell(r.drug), NumCell(r.financial), NumCell(r.lowLevelProperty),
     NumCell(r.lowLevelViolent), NumCell(r.nonCriminal), NumCell(r.publicOrder),
     NumCell(r.severeProperty), NumCell(r.severeViolent),
     NumCell(r.sexualOffenses), NumCell(r.weapon)]
  }

  /** Array destructuring: position i of the split cells, or `undefined`
      when the row is shorter. Cells past the fifteenth are ignored. */
  function CellAt(cells: seq<string>, i: nat): (cell: Option<string>)
  {
    if i < |cells| then Some(cells[i]) else None
  }

  /** Conversion of one cell; `parseInt(undefined)` and
      `parseFloat(undefined)` are NaN. */
  function ToNum(cell: Option<string>, parse: string -> Num): (n: Num)
  {
    match cell
    case None => NaN
    case Some(s) => parse(s)
  }

  /** The reference conversion of column i from its raw cell. */
  function Convert(i: nat, cell: Option<string>, conv: Converters): (c: Cell)
  {
    match KindOf(i)
    case IntColumn => NumCell(ToNum(cell, conv.parseInt))
    case FloatColumn => NumCell(ToNum(cell, conv.parseFloat))
    case RawColumn => RawCell(cell)
  }

  /** The record built from the cells of one row. */
  function FromCells(cells: seq<string>, conv: Converters): (r: Record)
  {
    var asInt := (i: nat) => ToNum(CellAt(cells, i), conv.parseInt);
    var asFloat := (i: nat) => ToNum(CellAt(cells, i), conv.parseFloat);
    Record(asInt(0), asFloat(1), asFloat(2), CellAt(cells, 3), asInt(4),
           asInt(5), asInt(6), asInt(7), asInt(8), asInt(9),
           asInt(10), asInt(11), asInt(12), asInt(13), asInt(14))
  }

  /** One line of the file, split on commas and destructured: cell i of
      the row lands in column i, converted as that column's kind says, and
      the DN column keeps the raw cell. */
  function ParseRow(row: string, conv: Converters): (r: Record)
    ensures forall i :: 0 <= i < ColumnCount ==>
      Columns(r)[i] == Convert(i, CellAt(Text.Split(row, ','), i), conv)
  {
    FromCells(Text.Split(row, ','), conv)
  }

  /** The whole file: split on newlines, header dropped, one record per
      remaining line in order. */
  function ParseData(text: string, conv: Converters): (data: seq<Record>)
    ensures |data| == Text.Count(text, '\n')
  {
    var lines := Text.Split(text, '\n');
    seq(|lines| - 1, i requires 0 <= i < |lines| - 1 => ParseRow(lines[i + 1], conv))
  }

  /** Round trip of one row: fifteen comma-free cells joined with commas
      parse back cell by cell. */
  lemma ParseFormattedRow(cells: seq<string>, conv: Converters)
    requires |cells| == ColumnCount
    requires forall i :: 0 <= i < |cells| ==> ',' !in cells[i]
    ensures forall i :: 0 <= i < ColumnCount ==>
      Columns(ParseRow(Text.Join(cells, ','), conv))[i] == Convert(i, Some(cells[i]), conv)
    ensures ParseRow(Text.Join(cells, ','), conv).dn == Some(cells[3])
  {
    Text.SplitJoin(cells, ',');
  }

  /** Cells beyond the fifteenth do not change the record. */
  lemma ExtraCellsIgnored(cells: seq<string>, extra: seq<string>, conv: Converters)
    requires |cells| == ColumnCount
    ensures FromCells(cells + extra, conv) == FromCells(cells, conv)
  {
  }

  /** Round trip of a file: a header line followed by newline-free rows
      yields exactly one record per row, in order, whatever the header. */
  lemma ParseFile(header: string, rows: seq<string>, conv: Converters)
    requires '\n' !in header
    requires forall i :: 0 <= i < |rows| ==> '\n' !in rows[i]
    ensures var data := ParseData(Text.Join([header] + rows, '\n'), conv);
      |data| == |rows| &&
      forall i :: 0 <= i < |rows| ==> data[i] == ParseRow(rows[i], conv)
  {
    var lines := [header] + rows;
    Text.SplitJoin(lines, '\n');
    assert Text.Split(Text.Join(lines, '\n'), '\n')[1..] == rows;
  }

  /** A newline at the end of the file adds one last record, parsed from an
      empty line: it has no DN cell. */
  lemma TrailingNewline(text: string, conv: Converters)
    ensures ParseData(text + "\n", conv) == ParseData(text, conv) + [ParseRow("", conv)]
    ensures ParseRow("", conv).dn == None
  {
    Text.SplitTrailingSeparator(text, '\n');
  }
}
