/** The table: the fixed column definitions (`headers`), the header row and
    one body row per record of the filtered view, each with one cell per
    column showing the record's value for that column's attribute. */
module Table {
  import opened Strings
  import opened Records

  /** A column definition: the header text and the record attribute shown. */
  datatype Column = Column(caption: string, key: string)

  /** The eleven columns, in display order. */
  const Headers: seq<Column> := [
    Column("ID", "id"),
    Column("Name", "name"),
    Column("AGS Number", "numberb"),
    Column("Market Number", "numbersm"),
    Column("Code", "ID"),
    Column("Internet IP", "ip"),
    Column("Router User", "user"),
    Column("Router Password", "password"),
    Column("Address", "address"),
    Column("Latitude", "latitude"),
    Column("Longtitude", "longtitude")
  ]

  /** Position of the "Name" column in `Headers`. */
  const NameColumn: nat := 1

  /** The column list has eleven columns with pairwise different attribute
      keys (`id` and `ID` are different keys), and the Name column shows the
      attribute the search filter reads. */
  lemma HeadersShape()
    ensures |Headers| == 11
    ensures forall j, k | 0 <= j < k < |Headers| :: Headers[j].key != Headers[k].key
    ensures Headers[NameColumn] == Column("Name", "name")
  {
  }

  /** The attribute value a cell is rendered from: the record's value for
      the column's attribute, or JavaScript's `undefined` when the record
      lacks that attribute. It is the value before React turns it into text
      and before the clipboard write turns it into a string. */
  datatype Cell = Shown(value: Value) | Undefined

  /** The value of `item[key]` for the column's key: `undefined` exactly when
      the key is absent, otherwise the stored value. */
  function CellOf(item: Record, column: Column): (c: Cell)
    ensures c == Undefined <==> column.key !in item
    ensures c.Shown? ==> c.value == item[column.key]
  {
    if column.key in item then Shown(item[column.key]) else Undefined
  }

  /** The header row: one label per column, in column order. */
  function HeaderCells(columns: seq<Column>): (labels: seq<string>)
    ensures |labels| == |columns|
    ensures forall j | 0 <= j < |columns| :: labels[j] == columns[j].caption
  {
    if columns == [] then [] else [columns[0].caption] + HeaderCells(columns[1..])
  }

  /** One body row: one cell per column, in column order. */
  function RowCells(item: Record, columns: seq<Column>): (cells: seq<Cell>)
    ensures |cells| == |columns|
    ensures forall j | 0 <= j < |columns| :: cells[j] == CellOf(item, columns[j])
  {
    if columns == [] then [] else [CellOf(item, columns[0])] + RowCells(item, columns[1..])
  }

  /** The table body: one row per record of the view, in order. */
  function BodyRows(view: seq<Record>, columns: seq<Column>): (rows: seq<seq<Cell>>)
    ensures |rows| == |view|
    ensures forall i | 0 <= i < |view| :: rows[i] == RowCells(view[i], columns)
  {
    if view == [] then [] else [RowCells(view[0], columns)] + BodyRows(view[1..], columns)
  }

  /** The rendered table: header labels and body cells. */
  datatype Rendered = Rendered(head: seq<string>, body: seq<seq<Cell>>)

  function Render(view: seq<Record>): (t: Rendered)
    ensures |t.head| == |Headers| == 11
    ensures forall j | 0 <= j < |Headers| :: t.head[j] == Headers[j].caption
    ensures |t.body| == |view|
    ensures forall i | 0 <= i < |view| :: |t.body[i]| == |Headers|
    ensures forall i, j | 0 <= i < |view| && 0 <= j < |Headers| :: t.body[i][j] == CellOf(view[i], Headers[j])
  {
    Rendered(HeaderCells(Headers), BodyRows(view, Headers))
  }

  /** The argument of `copyToClipboard` when the cell in row `row` and column
      `col` is clicked: the same attribute value the cell is rendered from. */
  function CopiedValue(view: seq<Record>, row: nat, col: nat): (c: Cell)
    requires row < |view| && col < |Headers|
    ensures c == Render(view).body[row][col]
  {
    CellOf(view[row], Headers[col])
  }

  /** Every body row of the table for a search term shows, in its Name
      column, a name that includes the term, case-insensitively. */
  lemma RenderedNamesMatch(data: seq<Record>, term: string, row: nat)
    requires FilteredData(data, term).View?
    requires row < |FilteredData(data, term).records|
    ensures var view := FilteredData(data, term).records;
      HasName(view[row]) &&
      Render(view).body[row][NameColumn] == Shown(Str(NameOf(view[row]))) &&
      Includes(Lower(NameOf(view[row])), Lower(term))
  {
  }

  /** An empty dataset (the state before, or after a failed, fetch) renders
      the header row and no body row. */
  lemma EmptyDatasetRendersHeaderOnly(term: string)
    ensures FilteredData([], term) == View([])
    ensures Render([]).body == [] && |Render([]).head| == 11
  {
  }

  /** Two sample stations. */
  const StationA: Record := map["id" := Num(1.0), "name" := Str("Station A"), "ip" := Str("1.2.3.4")]
  const DepotB: Record := map["id" := Num(2.0), "name" := Str("Depot B"), "ip" := Str("5.6.7.8")]

  /** A sample search: searching "stat" over the two stations
      keeps only "Station A". */
  lemma StationSearchExample()
    ensures FilteredData([StationA, DepotB], "stat") == View([StationA])
  {
    assert HasName(StationA) && NameOf(StationA) == "Station A";
    assert HasName(DepotB) && NameOf(DepotB) == "Depot B";
    StationNamesAgainstStat();
    KeepFirstOfTwo(StationA, DepotB, "stat");
  }

  lemma KeepFirstOfTwo(a: Record, b: Record, term: string)
    requires HasName(a) && HasName(b)
    requires Matches(a, term) && !Matches(b, term)
    ensures FilteredData([a, b], term) == View([a])
  {
    FilterCons(b, [], term);
    FilterCons(a, [b], term);
    assert [b] + [] == [b];
    assert [a] + [b] == [a, b];
  }

  lemma StationNamesAgainstStat()
    ensures Includes(Lower("Station A"), Lower("stat"))
    ensures !Includes(Lower("Depot B"), Lower("stat"))
  {
    FoldedStationNames();
    assert OccursAt("station a", "stat", 0);
    IncludesIff("station a", "stat");
    assert !Includes("depot b", "stat");
  }

  lemma FoldedStationNames()
    ensures Lower("Station A") == "station a"
    ensures Lower("Depot B") == "depot b"
    ensures Lower("stat") == "stat"
  {
    FoldedStationA();
    FoldedDepotB();
  }

  lemma FoldedStationA()
    ensures Lower("Station A") == "station a"
  {
    var s := Lower("Station A");
    assert s[0] == LowerChar('S') == 's';
    assert s[8] == LowerChar('A') == 'a';
  }

  lemma FoldedDepotB()
    ensures Lower("Depot B") == "depot b"
  {
    var d := Lower("Depot B");
    assert d[0] == LowerChar('D') == 'd';
    assert d[6] == LowerChar('B') == 'b';
  }
}
