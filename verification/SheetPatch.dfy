/** Replacing single cells of a worksheet part and keeping every other cell's XML as it is. */
module SheetPatch {
  import opened Lib
  import opened Columns
  import opened SheetEdits

  /** What a cell element says besides its reference and style. `Original` is XML the workbook came with:
      whether it anchors a shared or array formula, and the value a reader sees. */
  datatype Body =
    | Original(xml: string, anchorsFormula: bool, shows: Value)
    | Blank
    | BoolBody(b: bool)
    | NumberBody(n: real)
    | Inline(s: string)

  datatype Ref = Ref(letters: string, row: nat)

  /** A cell style. For a date format, `dates` is what a reader makes of a number under it, given by its text: a
      date, a time or a duration, or the error for a number out of range. */
  datatype Style = Style(id: string, dates: Option<real -> string>)

  datatype Cell = Cell(ref: Option<Ref>, style: Option<Style>, body: Body)

  /** A row element: its number, its `spans` hint, its other attributes, its cells. */
  datatype RowXml = RowXml(number: Option<nat>, spans: Option<string>, rest: string, cells: seq<Cell>)

  /** A parsed row; `original` is empty for a row the patch itself added. */
  datatype Entry = Entry(rest: string, cells: map<nat, Cell>, original: seq<RowXml>)

  type Entries = map<nat, Entry>

  // ---- values and cells ----------------------------------------------------------------------------------

  /** Characters XML 1.0 cannot hold. */
  predicate Forbidden(c: char) {
    var code := c as int;
    code <= 8 || code == 0x0b || code == 0x0c || 0x0e <= code <= 0x1f || code == 0xfffe || code == 0xffff
  }

  /** They are those outside its production for characters (section 2.2 of XML 1.0). */
  lemma ForbiddenMeans(c: char)
    ensures !Forbidden(c) <==>
      var code := c as int;
      || code == 0x9 || code == 0xa || code == 0xd || 0x20 <= code <= 0xd7ff || 0xe000 <= code <= 0xfffd
      || 0x10000 <= code <= 0x10ffff
  {
  }

  function Strip(s: string): (t: string)
    ensures forall i | 0 <= i < |t| :: !Forbidden(t[i])
    ensures (forall i | 0 <= i < |s| :: !Forbidden(s[i])) ==> t == s
  {
    if s == "" then "" else if Forbidden(s[0]) then Strip(s[1..]) else [s[0]] + Strip(s[1..])
  }

  function BodyOf(value: Value): Body {
    match value
    case Nil => Blank
    case Flag(b) => BoolBody(b)
    case Number(n) => NumberBody(n)
    case Infinite(negative) => Inline(if negative then "-inf" else "inf")
    case NotANumber => Inline("nan")
    case Text(s) => Inline(Strip(s))
    case Other(repr) => Inline(Strip(repr))
  }

  /** How XML reads line ends (section 2.11 of XML 1.0): CR LF, or CR alone, is one line feed. */
  function ReadLines(s: string): (t: string)
    ensures |t| <= |s|
    ensures '\r' !in t
    ensures '\r' !in s ==> t == s
  {
    if s == "" then ""
    else if s[0] != '\r' then [s[0]] + ReadLines(s[1..])
    else if |s| > 1 && s[1] == '\n' then ReadLines(s[1..])
    else "\n" + ReadLines(s[1..])
  }

  predicate IsDateStyle(style: Option<Style>) {
    style.Some? && style.value.dates.Some?
  }

  /** The value a reader sees in a cell. */
  function Shown(style: Option<Style>, body: Body): (v: Value)
    ensures body.Original? ==> v == body.shows
  {
    match body
    case Original(_, _, shows) => shows
    case Blank => Nil
    case BoolBody(b) => Flag(b)
    case NumberBody(n) => if IsDateStyle(style) then Other(style.value.dates.value(n)) else Number(n)
    case Inline(s) => Text(ReadLines(s))
  }

  predicate Anchors(cell: Option<Cell>) {
    cell.Some? && cell.value.body.Original? && cell.value.body.anchorsFormula
  }

  /** `_replace_cell`: the new cell, labelled with its own position and keeping the old one's style. */
  function ReplaceCell(row: nat, column: nat, existing: Option<Cell>, value: Value): Result<Option<Cell>> {
    if Anchors(existing) then Err
    else if value.Nil? && existing.None? then Ok(None)
    else
      var style := if existing.Some? then existing.value.style else None;
      Ok(Some(Cell(Some(Ref(Letters(column), row)), style, BodyOf(value))))
  }

  // ---- parsing -------------------------------------------------------------------------------------------

  predicate HasReference(cell: Cell) {
    cell.ref.Some? && cell.ref.value.letters != "" && IsLetters(cell.ref.value.letters)
  }

  function ColumnOf(cell: Cell): nat
    requires HasReference(cell)
  {
    Index(cell.ref.value.letters)
  }

  function ParseCells(cells: seq<Cell>): Result<map<nat, Cell>> {
    if cells == [] then Ok(map[])
    else
      var last := cells[|cells| - 1];
      var front :- ParseCells(cells[..|cells| - 1]);
      if HasReference(last) then Ok(front[ColumnOf(last) := last]) else Err
  }

  function ParseRow(row: RowXml): Result<Entry> {
    if row.number.None? then Err else (var cells :- ParseCells(row.cells); Ok(Entry(row.rest, cells, [row])))
  }

  /** `_parse_rows`; of two rows with one number the later counts. */
  function Parse(rows: seq<RowXml>): Result<Entries> {
    if rows == [] then Ok(map[])
    else
      var last := rows[|rows| - 1];
      var front :- Parse(rows[..|rows| - 1]);
      var entry :- ParseRow(last);
      Ok(front[last.number.value := entry])
  }

  function Find(entries: Entries, row: nat, column: nat): Option<Cell> {
    if row in entries && column in entries[row].cells then Some(entries[row].cells[column]) else None
  }

  /** Every cell sits under the column its reference names. */
  predicate WellKeyed(cells: map<nat, Cell>) {
    forall c | c in cells :: HasReference(cells[c]) && ColumnOf(cells[c]) == c
  }

  /** The entry is what parsing its own original row gives. */
  ghost predicate IsParsed(n: nat, e: Entry) {
    |e.original| == 1 && e.original[0].number == Some(n) && ParseRow(e.original[0]) == Ok(e)
  }

  lemma {:induction false} ParsedCellsAreWellKeyed(cells: seq<Cell>)
    requires ParseCells(cells).Ok?
    ensures WellKeyed(ParseCells(cells).value)
  {
    if cells != [] {
      ParsedCellsAreWellKeyed(cells[..|cells| - 1]);
    }
  }

  lemma {:induction false} ParsedEntries(rows: seq<RowXml>)
    requires Parse(rows).Ok?
    ensures forall n | n in Parse(rows).value :: IsParsed(n, Parse(rows).value[n])
  {
    if rows != [] {
      ParsedEntries(rows[..|rows| - 1]);
    }
  }

  /** A row's cells are refused exactly if one has no reference. */
  lemma {:induction false} CellsParse(cells: seq<Cell>)
    ensures ParseCells(cells).Ok? <==> forall c | c in cells :: HasReference(c)
  {
    hide HasReference, ColumnOf;
    if cells != [] {
      var front, last := cells[..|cells| - 1], cells[|cells| - 1];
      CellsParse(front);
      assert cells == front + [last];
    }
  }

  /** A column holds the last cell that names it. */
  lemma {:induction false} LastCellCounts(cells: seq<Cell>, i: nat)
    requires ParseCells(cells).Ok? && i < |cells| && forall c | c in cells :: HasReference(c)
    requires forall j | i < j < |cells| :: ColumnOf(cells[j]) != ColumnOf(cells[i])
    ensures ColumnOf(cells[i]) in ParseCells(cells).value
    ensures ParseCells(cells).value[ColumnOf(cells[i])] == cells[i]
    decreases |cells|
  {
    hide HasReference, ColumnOf;
    if i < |cells| - 1 {
      var front := cells[..|cells| - 1];
      assert forall c | c in front :: c in cells;
      LastCellCounts(front, i);
    }
  }

  /** No column is there that no cell names. */
  lemma {:induction false} OnlyNamedColumns(cells: seq<Cell>, column: nat)
    requires ParseCells(cells).Ok? && column in ParseCells(cells).value
    ensures exists c | c in cells :: HasReference(c) && ColumnOf(c) == column
  {
    hide HasReference, ColumnOf;
    var front, last := cells[..|cells| - 1], cells[|cells| - 1];
    assert last in cells && forall c | c in front :: c in cells;
    if column in ParseCells(front).value {
      OnlyNamedColumns(front, column);
    }
  }

  /** Rows are refused exactly if one has no number, or a cell without a reference. */
  lemma {:induction false} RowsParse(rows: seq<RowXml>)
    ensures Parse(rows).Ok? <==>
      forall row | row in rows :: row.number.Some? && forall c | c in row.cells :: HasReference(c)
  {
    hide HasReference, ParseCells;
    if rows != [] {
      var front, last := rows[..|rows| - 1], rows[|rows| - 1];
      RowsParse(front);
      CellsParse(last.cells);
      assert rows == front + [last];
    }
  }

  /** A number holds the last row that has it, with its own cells. */
  lemma {:induction false} LastRowCounts(rows: seq<RowXml>, i: nat)
    requires Parse(rows).Ok? && i < |rows| && forall j | i < j < |rows| :: rows[j].number != rows[i].number
    ensures rows[i].number.Some? && rows[i].number.value in Parse(rows).value && ParseCells(rows[i].cells).Ok?
    ensures Parse(rows).value[rows[i].number.value]
         == Entry(rows[i].rest, ParseCells(rows[i].cells).value, [rows[i]])
    decreases |rows|
  {
    hide ParseCells;
    if i < |rows| - 1 {
      LastRowCounts(rows[..|rows| - 1], i);
    }
  }

  /** No number is there that no row has. */
  lemma {:induction false} OnlyNumberedRows(rows: seq<RowXml>, n: nat)
    requires Parse(rows).Ok? && n in Parse(rows).value
    ensures exists row | row in rows :: row.number == Some(n)
  {
    hide ParseCells;
    var front, last := rows[..|rows| - 1], rows[|rows| - 1];
    assert last in rows && forall row | row in front :: row in rows;
    if n in Parse(front).value {
      OnlyNumberedRows(front, n);
    }
  }

  /** The parsing loop. */
  method ParseRows(rows: seq<RowXml>) returns (r: Result<Entries>)
    ensures r == Parse(rows)
  {
    var entries: Entries := map[];
    for i := 0 to |rows|
      invariant Parse(rows[..i]) == Ok(entries)
    {
      assert rows[..i + 1][..i] == rows[..i];
      var entry := ParseRow(rows[i]);
      if entry.Err? {
        ParseFailsLater(rows, i + 1);
        return Err;
      }
      entries := entries[rows[i].number.value := entry.value];
    }
    assert rows[..|rows|] == rows;
    r := Ok(entries);
  }

  lemma {:induction false} ParseFailsLater(rows: seq<RowXml>, i: nat)
    requires i <= |rows| && Parse(rows[..i]).Err?
    ensures Parse(rows).Err?
    decreases |rows| - i
  {
    if i < |rows| {
      assert rows[..i + 1][..i] == rows[..i];
      ParseFailsLater(rows, i + 1);
    } else {
      assert rows[..i] == rows;
    }
  }

  // ---- what a patch is ---------------------------------------------------------------------------------------

  /** The cell at a position after the edits. */
  function After(before: Entries, edits: Edits, row: nat, column: nat): Option<Cell> {
    var existing := Find(before, row, column);
    if (row, column) !in edits then existing
    else
      var cell := ReplaceCell(row, column, existing, edits[(row, column)]);
      if cell.Ok? && cell.value.Some? then cell.value else existing
  }

  /** An edit that writes a cell: clearing a cell that is not there writes nothing. */
  predicate Writes(before: Entries, edits: Edits, row: nat, column: nat) {
    (row, column) in edits && (!edits[(row, column)].Nil? || Find(before, row, column).Some?)
  }

  ghost predicate Touched(before: Entries, edits: Edits, row: nat) {
    exists column :: Writes(before, edits, row, column)
  }

  /** A row the patch did not touch is the original element; a touched one keeps its other attributes,
      drops the stale hint and lists its cells from left to right. */
  ghost predicate IsPatchedRow(row: RowXml, before: Entries, edits: Edits) {
    && row.number.Some?
    && var n := row.number.value;
       if Touched(before, edits, n)
       then row.spans.None? && row.rest == (if n in before then before[n].rest else "") && LeftToRight(row.cells)
       else n in before && [row] == before[n].original
  }

  ghost predicate LeftToRight(cells: seq<Cell>) {
    && (forall i | 0 <= i < |cells| :: HasReference(cells[i]))
    && (forall i, j | 0 <= i < j < |cells| :: ColumnOf(cells[i]) < ColumnOf(cells[j]))
  }

  /** What patching must give, said of the parsed output alone. */
  ghost predicate IsPatch(before: Entries, edits: Edits, out: seq<RowXml>) {
    && Parse(out).Ok?
    && (forall row, column :: Find(Parse(out).value, row, column) == After(before, edits, row, column))
    && (forall row | row in out :: IsPatchedRow(row, before, edits))
    && (forall i, j | 0 <= i < j < |out| && out[i].number.Some? && out[j].number.Some? ::
          out[i].number.value < out[j].number.value)
    && (forall n :: n in Parse(out).value <==> n in before || Touched(before, edits, n))
  }

  // ---- applying the edits -----------------------------------------------------------------------------------

  /** The cells while edits are being applied: those in `done` are in place. */
  ghost predicate CellsAfter(before: Entries, edits: Edits, done: set<(nat, nat)>, entries: Entries) {
    forall row: nat, column: nat :: Find(entries, row, column)
      == if (row, column) in done then After(before, edits, row, column) else Find(before, row, column)
  }

  /** The rows in which an edit of `done` wrote a cell. */
  ghost predicate TouchedBy(before: Entries, edits: Edits, done: set<(nat, nat)>, touched: set<nat>) {
    && (forall p | p in done && Writes(before, edits, p.0, p.1) :: p.0 in touched)
    && (forall row | row in touched :: Touched(before, edits, row))
  }

  ghost predicate EntriesOf(before: Entries, entries: Entries) {
    before.Keys <= entries.Keys && forall n | n in entries :: IsEntryOf(before, entries[n], n)
  }

  ghost predicate IsEntryOf(before: Entries, e: Entry, n: nat) {
    && WellKeyed(e.cells)
    && e.rest == (if n in before then before[n].rest else "")
    && e.original == (if n in before then before[n].original else [])
  }

  /** `rows.setdefault(row, ...)`, then the replacement if there is one. */
  function Put(entries: Entries, row: nat, column: nat, cell: Option<Cell>): Entries {
    var e := if row in entries then entries[row] else Entry("", map[], []);
    entries[row := if cell.Some? then e.(cells := e.cells[column := cell.value]) else e]
  }

  lemma PutFinds(before: Entries, entries: Entries, row: nat, column: nat, cell: Option<Cell>)
    requires EntriesOf(before, entries)
    requires cell.Some? ==> HasReference(cell.value) && ColumnOf(cell.value) == column
    ensures var after := Put(entries, row, column, cell);
      && (forall r: nat, c: nat :: Find(after, r, c)
            == if (r, c) == (row, column) && cell.Some? then cell else Find(entries, r, c))
      && EntriesOf(before, after)
  {
  }

  lemma ApplyEdit(before: Entries, edits: Edits, done: set<(nat, nat)>, entries: Entries, row: nat, column: nat)
    requires CellsAfter(before, edits, done, entries) && EntriesOf(before, entries)
    requires (row, column) in edits && (row, column) !in done && column >= 1
    requires !Anchors(Find(before, row, column))
    ensures Find(entries, row, column) == Find(before, row, column)
    ensures var cell := ReplaceCell(row, column, Find(before, row, column), edits[(row, column)]);
      && cell.Ok? && (cell.value.Some? <==> Writes(before, edits, row, column))
      && CellsAfter(before, edits, done + {(row, column)}, Put(entries, row, column, cell.value))
      && EntriesOf(before, Put(entries, row, column, cell.value))
  {
    hide Put, Find, EntriesOf, BodyOf;
    IndexOfLetters(column);
    var cell := ReplaceCell(row, column, Find(before, row, column), edits[(row, column)]).value;
    PutFinds(before, entries, row, column, cell);
  }

  // ---- writing the rows back ----------------------------------------------------------------------------------

  function CellsInOrder(columns: seq<nat>, cells: map<nat, Cell>): (q: seq<Cell>)
    requires forall c | c in columns :: c in cells
    ensures |q| == |columns| && forall i | 0 <= i < |q| :: q[i] == cells[columns[i]]
  {
    seq(|columns|, i requires 0 <= i < |columns| => cells[columns[i]])
  }

  /** What is appended for one row. */
  function RowOut(n: nat, e: Entry, touched: bool): seq<RowXml> {
    if touched then [RowXml(Some(n), None, e.rest, CellsInOrder(Sorted(e.cells.Keys), e.cells))] else e.original
  }

  function Rendered(numbers: seq<nat>, entries: Entries, touched: set<nat>): seq<RowXml>
    requires forall n | n in numbers :: n in entries
  {
    if numbers == [] then []
    else
      var last := numbers[|numbers| - 1];
      Rendered(numbers[..|numbers| - 1], entries, touched) + RowOut(last, entries[last], last in touched)
  }

  /** Reading back cells written in column order gives the same cells. */
  lemma {:induction false} ParseOfSortedCells(columns: seq<nat>, cells: map<nat, Cell>)
    requires WellKeyed(cells) && Ascending(columns) && forall c | c in columns :: c in cells
    ensures ParseCells(CellsInOrder(columns, cells)).Ok?
    ensures var back := ParseCells(CellsInOrder(columns, cells)).value;
      (forall c :: c in back <==> c in columns) && forall c | c in back :: back[c] == cells[c]
  {
    if columns != [] {
      var front, last := columns[..|columns| - 1], columns[|columns| - 1];
      ParseOfSortedCells(front, cells);
      var all := CellsInOrder(columns, cells);
      assert all[..|all| - 1] == CellsInOrder(front, cells);
      assert forall c :: c in columns <==> c in front || c == last;
    }
  }

  lemma ParseOfRebuiltRow(n: nat, e: Entry)
    requires WellKeyed(e.cells)
    ensures var row := RowOut(n, e, true)[0];
      ParseRow(row) == Ok(Entry(e.rest, e.cells, [row])) && LeftToRight(row.cells)
  {
    ParseOfSortedCells(Sorted(e.cells.Keys), e.cells);
    var back := ParseCells(RowOut(n, e, true)[0].cells).value;
    assert back == e.cells;
  }

  /** What the patched rows must be for each number. */
  ghost predicate Renderable(before: Entries, entries: Entries, touched: set<nat>) {
    && EntriesOf(before, entries)
    && (forall n | n in before :: IsParsed(n, before[n]))
    && (forall n | n in entries && n !in touched ::
          if n in before then entries[n] == before[n] else entries[n].cells == map[])
  }

  lemma RowOutParses(before: Entries, entries: Entries, touched: set<nat>, n: nat)
    requires Renderable(before, entries, touched) && n in entries
    ensures var out := RowOut(n, entries[n], n in touched);
      if n in touched || n in before
      then |out| == 1 && out[0].number == Some(n) && ParseRow(out[0]).Ok?
        && ParseRow(out[0]).value.cells == entries[n].cells
      else out == [] && entries[n].cells == map[]
  {
    ParseOfRebuiltRow(n, entries[n]);
  }

  /** Parsing what was written for the numbers gives the same cells. */
  ghost predicate ReadsBack(out: seq<RowXml>, numbers: seq<nat>, before: Entries, entries: Entries, touched: set<nat>) {
    && Parse(out).Ok?
    && (forall n :: n in Parse(out).value <==> n in numbers && (n in touched || n in before))
    && (forall n | n in Parse(out).value && n in entries :: Parse(out).value[n].cells == entries[n].cells)
  }

  /** The rows written for the numbers, in ascending order. */
  ghost predicate InOrder(out: seq<RowXml>, numbers: seq<nat>, entries: Entries, touched: set<nat>) {
    && (forall i | 0 <= i < |out| :: IsRowOut(out[i], numbers, entries, touched))
    && (forall i, j | 0 <= i < j < |out| :: NumberOf(out[i]) < NumberOf(out[j]))
  }

  function NumberOf(row: RowXml): nat {
    if row.number.Some? then row.number.value else 0
  }

  ghost predicate IsRowOut(row: RowXml, numbers: seq<nat>, entries: Entries, touched: set<nat>) {
    && row.number.Some? && row.number.value in numbers && row.number.value in entries
    && [row] == RowOut(row.number.value, entries[row.number.value], row.number.value in touched)
  }

  lemma {:induction false} RenderedReadsBack(numbers: seq<nat>, before: Entries, entries: Entries, touched: set<nat>)
    requires Renderable(before, entries, touched)
    requires Ascending(numbers) && forall n | n in numbers :: n in entries
    ensures ReadsBack(Rendered(numbers, entries, touched), numbers, before, entries, touched)
    ensures InOrder(Rendered(numbers, entries, touched), numbers, entries, touched)
  {
    hide Renderable, RowOut, ReadsBack, InOrder;
    if numbers == [] {
      NothingReadsBack(before, entries, touched);
    } else {
      var front, last := numbers[..|numbers| - 1], numbers[|numbers| - 1];
      RenderedReadsBack(front, before, entries, touched);
      OneMoreRowReadsBack(Rendered(front, entries, touched), front, last, before, entries, touched);
      assert numbers == front + [last];
    }
  }

  lemma NothingReadsBack(before: Entries, entries: Entries, touched: set<nat>)
    ensures ReadsBack([], [], before, entries, touched) && InOrder([], [], entries, touched)
  {
  }

  lemma ParseOfMore(out: seq<RowXml>, row: RowXml)
    requires Parse(out).Ok? && ParseRow(row).Ok?
    ensures Parse(out + [row]) == Ok(Parse(out).value[row.number.value := ParseRow(row).value])
  {
    assert (out + [row])[..|out|] == out;
  }

  lemma OneMoreRowReadsBack(out: seq<RowXml>, front: seq<nat>, n: nat, before: Entries, entries: Entries,
                            touched: set<nat>)
    requires Ascending(front + [n]) && n in entries && Renderable(before, entries, touched)
    requires ReadsBack(out, front, before, entries, touched) && InOrder(out, front, entries, touched)
    ensures var all := out + RowOut(n, entries[n], n in touched);
      ReadsBack(all, front + [n], before, entries, touched) && InOrder(all, front + [n], entries, touched)
  {
    hide Renderable, RowOut, Ascending, ParseRow, Parse, InOrder;
    RowOutParses(before, entries, touched, n);
    var more := RowOut(n, entries[n], n in touched);
    assert forall m :: m in front + [n] <==> m in front || m == n;
    if more == [] {
      assert out + more == out;
    } else {
      assert more == [more[0]];
      ParseOfMore(out, more[0]);
    }
    OneMoreRowInOrder(out, front, n, entries, touched);
  }

  lemma OneMoreRowInOrder(out: seq<RowXml>, front: seq<nat>, n: nat, entries: Entries, touched: set<nat>)
    requires Ascending(front + [n]) && n in entries && InOrder(out, front, entries, touched)
    requires var more := RowOut(n, entries[n], n in touched);
      more == [] || (|more| == 1 && more[0].number == Some(n))
    ensures InOrder(out + RowOut(n, entries[n], n in touched), front + [n], entries, touched)
  {
    hide RowOut, Ascending;
    var all := out + RowOut(n, entries[n], n in touched);
    LastIsGreatest(front, n);
    forall i | 0 <= i < |all|
      ensures IsRowOut(all[i], front + [n], entries, touched)
    {
      assert i < |out| ==> IsRowOut(out[i], front, entries, touched);
      assert i == |out| ==> [all[i]] == RowOut(n, entries[n], n in touched) && n in front + [n];
    }
  }

  lemma LastIsGreatest(front: seq<nat>, n: nat)
    requires Ascending(front + [n])
    ensures forall m | m in front :: m < n
  {
    var all := front + [n];
    forall m | m in front
      ensures m < n
    {
      var i :| 0 <= i < |front| && front[i] == m;
      assert all[i] < all[|front|];
    }
  }

  // ---- the patch ---------------------------------------------------------------------------------------------

  predicate OneBased(edits: Edits) {
    forall p | p in edits :: p.0 >= 1 && p.1 >= 1
  }

  /** An edited cell anchors a shared or array formula. */
  ghost predicate BreaksFormula(before: Entries, edits: Edits) {
    exists p | p in edits :: Anchors(Find(before, p.0, p.1))
  }

  /** All edits are in place. */
  ghost predicate AllApplied(before: Entries, edits: Edits, entries: Entries, touched: set<nat>) {
    && (forall n | n in before :: IsParsed(n, before[n]))
    && CellsAfter(before, edits, edits.Keys, entries) && EntriesOf(before, entries)
    && TouchedBy(before, edits, edits.Keys, touched)
  }

  /** The edits one at a time, in whatever order. */
  method ApplyEdits(before: Entries, edits: Edits) returns (r: Result<(Entries, set<nat>)>)
    requires OneBased(edits) && forall n | n in before :: IsParsed(n, before[n])
    ensures r.Ok? <==> !BreaksFormula(before, edits)
    ensures r.Ok? ==> AllApplied(before, edits, r.value.0, r.value.1)
  {
    hide Find, Put, ReplaceCell, After, IsEntryOf, IsParsed;
    var entries, touched: set<nat> := before, {};
    var rest := edits.Keys;
    StartOfEdits(before, edits);
    while rest != {}
      invariant rest <= edits.Keys
      invariant forall p | p in edits && p !in rest :: !Anchors(Find(before, p.0, p.1))
      invariant CellsAfter(before, edits, edits.Keys - rest, entries) && EntriesOf(before, entries)
      invariant TouchedBy(before, edits, edits.Keys - rest, touched)
    {
      var p :| p in rest;
      ghost var done := edits.Keys - rest;
      var cell := ReplaceCell(p.0, p.1, Find(entries, p.0, p.1), edits[p]);
      assert p == (p.0, p.1);
      assert Find(entries, p.0, p.1) == Find(before, p.0, p.1);
      AnchorsBlock(p.0, p.1, Find(before, p.0, p.1), edits[p]);
      if cell.Err? {
        return Err;
      }
      ApplyEdit(before, edits, done, entries, p.0, p.1);
      rest := rest - {p};
      assert edits.Keys - rest == done + {p};
      entries := Put(entries, p.0, p.1, cell.value);
      if cell.value.Some? {
        touched := touched + {p.0};
      }
    }
    assert edits.Keys - rest == edits.Keys;
    r := Ok((entries, touched));
  }

  lemma AnchorsBlock(row: nat, column: nat, existing: Option<Cell>, value: Value)
    ensures ReplaceCell(row, column, existing, value).Err? <==> Anchors(existing)
  {
  }

  lemma StartOfEdits(before: Entries, edits: Edits)
    requires forall n | n in before :: IsParsed(n, before[n])
    ensures CellsAfter(before, edits, {}, before) && EntriesOf(before, before) && TouchedBy(before, edits, {}, {})
  {
    forall n | n in before
      ensures WellKeyed(before[n].cells)
    {
      ParsedCellsAreWellKeyed(before[n].original[0].cells);
    }
  }

  lemma TouchedExactly(before: Entries, edits: Edits, touched: set<nat>)
    requires TouchedBy(before, edits, edits.Keys, touched)
    ensures forall n :: n in touched <==> Touched(before, edits, n)
  {
  }

  lemma UntouchedIsVerbatim(before: Entries, edits: Edits, entries: Entries, n: nat)
    requires CellsAfter(before, edits, edits.Keys, entries) && EntriesOf(before, entries)
    requires n in entries && !Touched(before, edits, n)
    ensures if n in before then entries[n] == before[n] else entries[n].cells == map[]
  {
    forall column: nat
      ensures Find(entries, n, column) == Find(before, n, column)
    {
      assert !Writes(before, edits, n, column);
    }
    if n in before {
      assert forall column: nat :: column in entries[n].cells <==> Find(before, n, column).Some?;
      assert entries[n].cells.Keys == before[n].cells.Keys;
      forall column | column in entries[n].cells
        ensures entries[n].cells[column] == before[n].cells[column]
      {
        assert Find(entries, n, column) == Find(before, n, column);
      }
      assert entries[n].cells == before[n].cells;
    } else {
      assert forall column: nat :: column in entries[n].cells <==> Find(entries, n, column).Some?;
      assert entries[n].cells.Keys == {};
    }
  }

  lemma PatchIsRenderable(before: Entries, edits: Edits, entries: Entries, touched: set<nat>)
    requires AllApplied(before, edits, entries, touched)
    ensures Renderable(before, entries, touched)
  {
    hide CellsAfter, EntriesOf, TouchedBy, IsParsed;
    TouchedExactly(before, edits, touched);
    forall n | n in entries && n !in touched
      ensures if n in before then entries[n] == before[n] else entries[n].cells == map[]
    {
      UntouchedIsVerbatim(before, edits, entries, n);
    }
  }

  lemma RowsArePatched(row: RowXml, numbers: seq<nat>, before: Entries, edits: Edits, entries: Entries,
                       touched: set<nat>)
    requires Renderable(before, entries, touched) && IsRowOut(row, numbers, entries, touched)
    requires forall n :: n in touched <==> Touched(before, edits, n)
    ensures IsPatchedRow(row, before, edits)
  {
  }

  lemma PatchedCell(before: Entries, edits: Edits, entries: Entries, touched: set<nat>, out: seq<RowXml>,
                    row: nat, column: nat)
    requires AllApplied(before, edits, entries, touched)
    requires ReadsBack(out, Sorted(entries.Keys), before, entries, touched) && Renderable(before, entries, touched)
    ensures Find(Parse(out).value, row, column) == After(before, edits, row, column)
  {
  }

  lemma PatchedNumbers(before: Entries, edits: Edits, entries: Entries, touched: set<nat>, out: seq<RowXml>, n: nat)
    requires AllApplied(before, edits, entries, touched)
    requires ReadsBack(out, Sorted(entries.Keys), before, entries, touched)
    ensures n in Parse(out).value <==> n in before || Touched(before, edits, n)
  {
  }

  lemma RenderedIsPatch(before: Entries, edits: Edits, entries: Entries, touched: set<nat>, out: seq<RowXml>)
    requires AllApplied(before, edits, entries, touched) && Renderable(before, entries, touched)
    requires ReadsBack(out, Sorted(entries.Keys), before, entries, touched)
    requires InOrder(out, Sorted(entries.Keys), entries, touched)
    ensures IsPatch(before, edits, out)
  {
    hide CellsAfter, EntriesOf, TouchedBy, IsPatchedRow, Renderable, Touched, After, Find, Parse;
    assert Parse(out).Ok?;
    forall row: nat, column: nat
      ensures Find(Parse(out).value, row, column) == After(before, edits, row, column)
    {
      PatchedCell(before, edits, entries, touched, out, row, column);
    }
    forall n: nat
      ensures n in Parse(out).value <==> n in before || Touched(before, edits, n)
    {
      PatchedNumbers(before, edits, entries, touched, out, n);
    }
    TouchedExactly(before, edits, touched);
    forall row | row in out
      ensures IsPatchedRow(row, before, edits)
    {
      RowsArePatched(row, Sorted(entries.Keys), before, edits, entries, touched);
    }
  }

  lemma AppliedIsPatch(before: Entries, edits: Edits, entries: Entries, touched: set<nat>)
    requires AllApplied(before, edits, entries, touched)
    ensures IsPatch(before, edits, Rendered(Sorted(entries.Keys), entries, touched))
  {
    hide Parse, AllApplied, Renderable, RowOut, IsPatch, ReadsBack, InOrder, Rendered;
    var numbers := Sorted(entries.Keys);
    PatchIsRenderable(before, edits, entries, touched);
    RenderedReadsBack(numbers, before, entries, touched);
    RenderedIsPatch(before, edits, entries, touched, Rendered(numbers, entries, touched));
  }

  /** `patch_sheet_xml`: the edited cells replaced and nothing else changed, or an error exactly when
      the sheet does not parse or an edit would overwrite the anchor of a multi-cell formula. */
  method Patch(sheet: seq<RowXml>, edits: Edits) returns (r: Result<seq<RowXml>>)
    requires OneBased(edits)
    ensures r.Ok? <==> Parse(sheet).Ok? && !BreaksFormula(Parse(sheet).value, edits)
    ensures r.Ok? ==> IsPatch(Parse(sheet).value, edits, r.value)
  {
    hide Parse, AllApplied, IsParsed, RowOut, IsPatch, BreaksFormula;
    var parsed := ParseRows(sheet);
    if parsed.Err? {
      return Err;
    }
    ParsedEntries(sheet);
    var applied := ApplyEdits(parsed.value, edits);
    if applied.Err? {
      return Err;
    }
    var (entries, touched) := applied.value;
    var numbers := Sorted(entries.Keys);
    var parts: seq<RowXml> := [];
    for i := 0 to |numbers|
      invariant parts == Rendered(numbers[..i], entries, touched)
    {
      assert numbers[..i + 1][..i] == numbers[..i];
      parts := parts + RowOut(numbers[i], entries[numbers[i]], numbers[i] in touched);
    }
    assert numbers[..|numbers|] == numbers;
    AppliedIsPatch(parsed.value, edits, entries, touched);
    r := Ok(parts);
  }

  // ---- diff, then patch ----------------------------------------------------------------------------------------

  function ShownAt(entries: Entries, row: nat, column: nat): Value {
    var cell := Find(entries, row, column);
    if cell.Some? then Shown(cell.value.style, cell.value.body) else Nil
  }

  /** The rows are what a reader of the sheet sees. */
  ghost predicate Reads(rows: Rows, entries: Entries) {
    forall r: nat, c: nat :: Get(rows, r, c) == ShownAt(entries, r + 1, c + 1)
  }

  /** What a reader sees of a value once it is stored in a cell of that style: text loses the characters XML cannot
      hold, its line ends become line feeds, and a number under a date format becomes a date. */
  function Stored(style: Option<Style>, value: Value): Value {
    Shown(style, BodyOf(value))
  }

  predicate IsXmlText(s: string) {
    forall i | 0 <= i < |s| :: !Forbidden(s[i])
  }

  /** XML holds the text, and reads it as it was written. */
  predicate IsClean(s: string) {
    IsXmlText(s) && '\r' !in s
  }

  /** Values a sheet holds as they are: nothing, booleans, finite numbers, and text XML reads as it is written. */
  predicate IsKept(value: Value) {
    value.Nil? || value.Flag? || value.Number? || (value.Text? && IsClean(value.s))
  }

  lemma {:induction false} StripKeepsXmlText(s: string)
    ensures Strip(s) == s <==> IsXmlText(s)
    ensures |Strip(s)| <= |s|
  {
    if s != "" {
      StripKeepsXmlText(s[1..]);
      assert s == [s[0]] + s[1..];
      assert IsXmlText(s) <==> !Forbidden(s[0]) && IsXmlText(s[1..]);
    }
  }

  lemma {:induction false} StripShrinks(s: string)
    requires !IsXmlText(s)
    ensures |Strip(s)| < |s|
  {
    StripKeepsXmlText(s[1..]);
    if !Forbidden(s[0]) {
      assert s == [s[0]] + s[1..];
      StripShrinks(s[1..]);
    }
  }

  lemma StoredTextIsClean(s: string)
    ensures ReadLines(Strip(s)) == s <==> IsClean(s)
  {
    if IsXmlText(s) {
      StripKeepsXmlText(s);
    } else {
      StripShrinks(s);
    }
  }

  /** The condition under which a cell of that style shows the value put into it. */
  predicate IsKeptUnder(style: Option<Style>, value: Value) {
    IsKept(value) && !(value.Number? && IsDateStyle(style))
  }

  /** A stored cell shows the neutralized value exactly for those values, but for a number under a date format; a
      NaN, an infinity or any other object becomes text, and text loses the characters XML forbids and its
      carriage returns. */
  lemma StoredAsNeutralized(style: Option<Style>, value: Value)
    ensures Stored(style, Neutralize(value)) == Neutralize(value) <==> IsKeptUnder(style, value)
  {
    hide RunsAsFormula, IsClean, NumberLike, Strip, ReadLines, Forbidden;
    if Neutralize(value).Text? {
      StoredTextIsClean(Neutralize(value).s);
      if Neutralize(value) != value {
        ApostropheIsClean(value.s);
      }
    }
  }

  /** A carriage return is read as a line feed, alone or before one. */
  lemma CarriageReturnIsLost(before: string, after: string, style: Option<Style>)
    requires IsClean(before) && IsClean(after) && !RunsAsFormula(before + "\r" + after)
    ensures var text := before + "\r" + after;
      Stored(style, Neutralize(Text(text)))
        == Text(before + (if after != "" && after[0] == '\n' then "" else "\n") + after)
  {
    hide Forbidden, RunsAsFormula, ReadLines, Strip;
    var text := before + "\r" + after;
    XmlTextAround(before, after);
    StripKeepsXmlText(text);
    LinesAround(before, after);
  }

  lemma XmlTextAround(before: string, after: string)
    requires IsXmlText(before) && IsXmlText(after)
    ensures IsXmlText(before + "\r" + after)
  {
    forall i | 0 <= i < |before + "\r" + after|
      ensures !Forbidden((before + "\r" + after)[i])
    {
    }
  }

  lemma {:induction false} LinesAround(before: string, after: string)
    requires '\r' !in before && '\r' !in after
    ensures ReadLines(before + "\r" + after)
         == before + (if after != "" && after[0] == '\n' then "" else "\n") + after
  {
    var text := before + "\r" + after;
    if before == "" {
      assert text[1..] == after && (after != "" ==> text[1] == after[0]);
    } else {
      assert text[1..] == before[1..] + "\r" + after;
      LinesAround(before[1..], after);
    }
  }

  /** A number put into a cell formatted as a date is read as a date. */
  lemma NumberBecomesDate(style: Style, n: real)
    requires style.dates.Some?
    ensures Stored(Some(style), Neutralize(Number(n))) == Other(style.dates.value(n))
    ensures Differs(Number(n), Stored(Some(style), Neutralize(Number(n))))
  {
  }

  /** Sending the same value again edits the cell again, unless the cell shows it: exactly for values that are not
      kept, texts that would run, and numbers under a date format. */
  lemma EditedAgain(style: Option<Style>, value: Value)
    ensures Differs(value, Stored(style, Neutralize(value)))
       <==> !(IsKeptUnder(style, value) && Neutralize(value) == value)
  {
    hide RunsAsFormula, IsClean;
    StoredAsNeutralized(style, value);
    if Neutralize(value) != value {
      var t := "'" + value.s;
      assert Neutralize(value) == Text(t);
      ApostropheStays(value.s);
    }
  }

  lemma ApostropheStays(s: string)
    requires RunsAsFormula(s)
    ensures ReadLines(Strip("'" + s)) != s
  {
    assert ("'" + s)[0] == '\'' && ("'" + s)[1..] == s;
    assert ReadLines(Strip("'" + s))[0] == '\'';
  }

  lemma ApostropheIsClean(s: string)
    ensures IsClean("'" + s) <==> IsClean(s)
  {
    assert forall c :: c in "'" + s <==> c == '\'' || c in s;
    assert forall i | 0 <= i < |s| :: ("'" + s)[i + 1] == s[i];
  }

  // ---- what is stored may run after all --------------------------------------------------------------------------

  predicate IsNumberChar(c: char) {
    IsDecimal(c) || c == '.' || c == '+' || c == '-' || c == 'e' || c == 'E'
  }

  lemma MantissaChars(s: string)
    requires Mantissa(s)
    ensures forall i | 0 <= i < |s| :: IsNumberChar(s[i])
  {
    var i :| 0 <= i <= |s| && AllDecimal(s[..i])
      && if i == |s| then i > 0 else s[i] == '.' && AllDecimal(s[i + 1..]) && |s| > 1;
    forall j | 0 <= j < |s|
      ensures IsNumberChar(s[j])
    {
      assert j < i ==> s[..i][j] == s[j];
      assert j > i ==> s[i + 1..][j - i - 1] == s[j];
    }
  }

  lemma ExponentChars(s: string)
    requires Exponent(s)
    ensures forall i | 0 <= i < |s| :: IsNumberChar(s[i])
  {
    if s != "" {
      var from := if Signed(s[1..]) then 2 else 1;
      forall j | from <= j < |s|
        ensures IsNumberChar(s[j])
      {
        assert s[from..][j - from] == s[j];
      }
      assert from == 2 ==> s[1..][0] == s[1];
    }
  }

  lemma NumberChars(s: string)
    requires NumberLike(s)
    ensures forall j | 0 <= j < |s| :: IsNumberChar(s[j])
  {
    hide Mantissa, Exponent;
    var from := if Signed(s) then 1 else 0;
    var unsigned := s[from..];
    assert from == 0 ==> unsigned == s;
    var i :| 0 <= i <= |unsigned| && SplitsNumber(unsigned, i);
    MantissaChars(unsigned[..i]);
    ExponentChars(unsigned[i..]);
    forall j | 0 <= j < |s|
      ensures IsNumberChar(s[j])
    {
      assert from <= j < from + i ==> unsigned[..i][j - from] == s[j];
      assert from + i <= j ==> unsigned[i..][j - from - i] == s[j];
    }
  }

  lemma NumberIsClean(s: string)
    requires NumberLike(s)
    ensures IsClean(s) && '\n' !in s
  {
    hide NumberLike, IsDecimal;
    NumberChars(s);
    forall i | 0 <= i < |s|
      ensures !Forbidden(s[i]) && s[i] != '\r' && s[i] != '\n'
    {
      if IsDecimal(s[i]) {
        DecimalsAreCharacters(s[i]);
      }
    }
  }

  lemma {:induction false} LinesMakeFeeds(s: string)
    ensures '\r' in s ==> '\n' in ReadLines(s)
  {
    if s != "" {
      LinesMakeFeeds(s[1..]);
      if s[0] == '\r' && |s| > 1 && s[1] == '\n' {
        assert ReadLines(s[1..])[0] == '\n';
      }
    }
  }

  /** Reading line ends makes no text run and stops none from running. */
  lemma LinesRunAlike(s: string)
    ensures RunsAsFormula(ReadLines(s)) <==> RunsAsFormula(s)
  {
    hide NumberLike;
    LinesMakeFeeds(s);
    if Signed(ReadLines(s)) && NumberLike(ReadLines(s)) {
      NumberIsClean(ReadLines(s));
    }
    if Signed(s) && NumberLike(s) {
      NumberIsClean(s);
    }
  }

  /** Neutralizing looks at the text before the forbidden characters go: a text it passed as harmless runs once
      stored exactly when it began with such a character and what is left of it runs. */
  lemma HarmlessTextStored(s: string)
    requires !RunsAsFormula(s)
    ensures RunsAsFormula(Strip(s)) <==> s != "" && Forbidden(s[0]) && RunsAsFormula(Strip(s[1..]))
  {
    hide NumberLike;
    if s != "" && !Forbidden(s[0]) {
      if Signed(s) {
        NumberIsClean(s);
      }
      StripKeepsXmlText(s);
    }
  }

  /** The values whose stored text runs as a formula although they were neutralized. */
  predicate RunsOnceStored(value: Value) {
    match value
    case Text(s) => s != "" && Forbidden(s[0]) && RunsAsFormula(Strip(s[1..]))
    case Infinite(negative) => negative
    case Other(repr) => RunsAsFormula(Strip(repr))
    case _ => false
  }

  /** What is stored runs as a formula exactly for those values. */
  lemma StoredTextRuns(style: Option<Style>, value: Value)
    ensures var stored := Stored(style, Neutralize(value));
      (stored.Text? && RunsAsFormula(stored.s)) <==> RunsOnceStored(value)
  {
    hide RunsAsFormula, Strip, ReadLines;
    if BodyOf(Neutralize(value)).Inline? {
      LinesRunAlike(BodyOf(Neutralize(value)).s);
    }
    match value
    case Text(s) =>
      if RunsAsFormula(s) {
        StripOfApostrophe(s);
      } else {
        HarmlessTextStored(s);
      }
    case Infinite(_) =>
      InfinityIsNoNumber();
    case NotANumber =>
      InfinityIsNoNumber();
    case _ =>
  }

  lemma StripOfApostrophe(s: string)
    requires RunsAsFormula(s)
    ensures !RunsAsFormula(Strip("'" + s))
    ensures s != "" && !Forbidden(s[0])
  {
    assert ("'" + s)[0] == '\'' && ("'" + s)[1..] == s;
  }

  lemma InfinityIsNoNumber()
    ensures RunsAsFormula("-inf") && !RunsAsFormula("inf") && !RunsAsFormula("nan")
  {
    assert !IsNumberChar("-inf"[1]);
    if NumberLike("-inf") {
      NumberChars("-inf");
    }
  }

  /** So a control character in front defeats the guard. */
  lemma LeadingControlCharacter(c: char, formula: string, style: Option<Style>)
    requires Forbidden(c) && RunsAsFormula(formula) && IsClean(formula)
    ensures Neutralize(Text([c] + formula)) == Text([c] + formula)
    ensures Stored(style, Neutralize(Text([c] + formula))) == Text(formula)
  {
    hide NumberLike, IsDecimal;
    assert ([c] + formula)[1..] == formula && ([c] + formula)[0] == c;
    StripKeepsXmlText(formula);
  }

  /** Replacing the rows of a sheet: every position that differed shows the new value, neutralized and stored, in
      the old cell's style, and that is the neutralized value itself exactly for the values a cell of that style
      holds as they are; every other position keeps its very cell, whose value already equals the new one. */
  lemma DiffThenPatch(before: Entries, current: Rows, rows: Rows, edits: Edits, out: seq<RowXml>, r: nat, c: nat)
    requires Reads(current, before) && IsDiff(edits, rows, current)
    requires !BreaksFormula(before, edits) && IsPatch(before, edits, out)
    ensures var old_, new_ := Find(before, r + 1, c + 1), Find(Parse(out).value, r + 1, c + 1);
      var style := if old_.Some? then old_.value.style else None;
      if Changed(rows, current, r, c)
      then ShownAt(Parse(out).value, r + 1, c + 1) == Stored(style, Neutralize(Get(rows, r, c)))
        && (IsKeptUnder(style, Get(rows, r, c)) <==>
            ShownAt(Parse(out).value, r + 1, c + 1) == Neutralize(Get(rows, r, c)))
        && new_.Some? && new_.value.ref == Some(Ref(Letters(c + 1), r + 1)) && new_.value.style == style
      else new_ == old_ && !Differs(Get(rows, r, c), ShownAt(Parse(out).value, r + 1, c + 1))
  {
    hide Parse, IsPatchedRow, BodyOf, Shown, Neutralize, IsKeptUnder, Differs, Anchors;
    var old_ := Find(before, r + 1, c + 1);
    StoredAsNeutralized(if old_.Some? then old_.value.style else None, Get(rows, r, c));
    assert Edited(edits, r, c) <==> Changed(rows, current, r, c);
    assert Get(current, r, c) == ShownAt(before, r + 1, c + 1);
    assert Find(Parse(out).value, r + 1, c + 1) == After(before, edits, r + 1, c + 1);
    if Changed(rows, current, r, c) {
      assert !Anchors(Find(before, (r + 1, c + 1).0, (r + 1, c + 1).1));
      ShownWhenBlank(None);
    }
  }

  lemma ShownWhenBlank(style: Option<Style>)
    ensures Stored(style, Nil) == Nil && Neutralize(Nil) == Nil && !Differs(Nil, Nil) && !Anchors(None)
  {
  }

  /** Sending back exactly what was read leaves every row as it was. */
  lemma PatchWithNothing(before: Entries, out: seq<RowXml>, row: RowXml)
    requires IsPatch(before, map[], out) && row in out
    ensures row.number.Some? && row.number.value in before && before[row.number.value].original == [row]
  {
  }
}
