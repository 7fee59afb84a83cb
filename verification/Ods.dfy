/** Reading a run-length compressed OpenDocument sheet: the sparse arithmetic reader against the
    naive reading that expands every repeated row and cell (section 9.1 of OpenDocument 1.2 part 1). */
module Ods {
  import opened Lib

  /** A child of a row element: a cell with its value and repeat attribute, or anything else. */
  datatype Node<V> = Cell(value: Option<V>, repeatAttr: Option<int>) | NotCell

  datatype Row<V> = Row(nodes: seq<Node<V>>, repeatAttr: Option<int>)

  datatype Table<V> = Table(name: string, rows: seq<Row<V>>)

  /** `max(1, int(attribute or 1))`. */
  function Repeat(attr: Option<int>): (n: nat)
    ensures n >= 1
    ensures attr.Some? && attr.value >= 1 ==> n == attr.value
    ensures attr.None? || attr.value < 1 ==> n == 1
  {
    if attr.Some? && attr.value > 1 then attr.value else 1
  }

  // ---- the naive reading ---------------------------------------------------------------------------------

  type Line<V> = seq<Option<V>>

  function Copies<T>(x: T, n: nat): (s: seq<T>)
    ensures |s| == n && forall i | 0 <= i < n :: s[i] == x
  {
    seq(n, i requires 0 <= i < n => x)
  }

  function ExpandNode<V>(node: Node<V>): Line<V> {
    if node.Cell? then Copies(node.value, Repeat(node.repeatAttr)) else []
  }

  function ExpandNodes<V>(nodes: seq<Node<V>>): Line<V> {
    if nodes == [] then [] else ExpandNodes(nodes[..|nodes| - 1]) + ExpandNode(nodes[|nodes| - 1])
  }

  function ExpandRows<V>(rows: seq<Row<V>>): seq<Line<V>> {
    if rows == [] then []
    else
      var last := rows[|rows| - 1];
      ExpandRows(rows[..|rows| - 1]) + Copies(ExpandNodes(last.nodes), Repeat(last.repeatAttr))
  }

  /** A cell repeated k times stands for exactly k cells with its value, and without an attribute, or with zero or a
      negative one, for exactly one; anything else in a row stands for none. */
  lemma NodeStandsFor<V>(nodes: seq<Node<V>>, node: Node<V>, k: int)
    ensures var before, after := ExpandNodes(nodes), ExpandNodes(nodes + [node]);
      && before <= after
      && (node.NotCell? ==> after == before)
      && (node.Cell? ==> forall c | |before| <= c < |after| :: after[c] == node.value)
      && (node.Cell? && node.repeatAttr == Some(k) && k >= 1 ==> |after| == |before| + k)
      && (node.Cell? && node.repeatAttr == Some(k) && k < 1 ==> |after| == |before| + 1)
      && (node.Cell? && node.repeatAttr == None ==> |after| == |before| + 1)
  {
    assert (nodes + [node])[..|nodes|] == nodes;
  }

  /** A row repeated k times stands for exactly k equal lines, and without an attribute, or with zero or a negative
      one, for exactly one. */
  lemma RowStandsFor<V>(rows: seq<Row<V>>, row: Row<V>, k: int)
    ensures var before, after := ExpandRows(rows), ExpandRows(rows + [row]);
      && before <= after
      && (forall r | |before| <= r < |after| :: after[r] == ExpandNodes(row.nodes))
      && (row.repeatAttr == Some(k) && k >= 1 ==> |after| == |before| + k)
      && (row.repeatAttr == Some(k) && k < 1 ==> |after| == |before| + 1)
      && (row.repeatAttr == None ==> |after| == |before| + 1)
  {
    hide ExpandNodes;
    assert (rows + [row])[..|rows|] == rows;
  }

  /** One past the last cell that holds a value. */
  function Extent<V>(line: Line<V>): (n: nat)
    ensures n <= |line|
    ensures n > 0 ==> line[n - 1].Some?
    ensures forall c | n <= c < |line| :: line[c].None?
  {
    if line == [] then 0
    else if line[|line| - 1].Some? then |line|
    else Extent(line[..|line| - 1])
  }

  /** One past the last line that holds a value. */
  function Height<V>(lines: seq<Line<V>>): (n: nat)
    ensures n <= |lines|
    ensures n > 0 ==> Extent(lines[n - 1]) > 0
    ensures forall r | n <= r < |lines| :: Extent(lines[r]) == 0
  {
    if lines == [] then 0
    else if Extent(lines[|lines| - 1]) > 0 then |lines|
    else Height(lines[..|lines| - 1])
  }

  /** The widest line's extent. */
  function Width<V>(lines: seq<Line<V>>): (n: nat)
    ensures forall r | 0 <= r < |lines| :: Extent(lines[r]) <= n
    ensures n > 0 ==> exists r | 0 <= r < |lines| :: Extent(lines[r]) == n
  {
    if lines == [] then 0
    else Max(Width(lines[..|lines| - 1]), Extent(lines[|lines| - 1]))
  }

  function Max(a: nat, b: nat): nat {
    if a >= b then a else b
  }

  function Times(a: nat, b: nat): (n: nat)
    ensures n == a * b
  {
    Product(a, b, 0, b);
    a * b
  }

  /** Cells of the padded rectangle left when trailing empty rows and columns are dropped. */
  function Area<V>(rows: seq<Row<V>>): nat {
    Times(Height(ExpandRows(rows)), Width(ExpandRows(rows)))
  }

  function At<V>(lines: seq<Line<V>>, r: nat, c: nat): Option<V>
    requires r < |lines|
  {
    if c < |lines[r]| then lines[r][c] else None
  }

  predicate HasValue<V>(lines: seq<Line<V>>, r: nat, c: nat) {
    r < |lines| && At(lines, r, c).Some?
  }

  ghost predicate RowInUse<V>(lines: seq<Line<V>>, r: nat) {
    exists c: nat :: HasValue(lines, r, c)
  }

  ghost predicate ColumnInUse<V>(lines: seq<Line<V>>, c: nat) {
    exists r: nat :: HasValue(lines, r, c)
  }

  /** The rectangle loses no value, and its last row and last column each hold one. */
  lemma RectangleIsTight<V>(lines: seq<Line<V>>)
    ensures forall r: nat, c: nat | HasValue(lines, r, c) :: r < Height(lines) && c < Width(lines)
    ensures Height(lines) > 0 ==> RowInUse(lines, Height(lines) - 1)
    ensures Width(lines) > 0 ==> ColumnInUse(lines, Width(lines) - 1)
  {
    hide Height, Width, Extent;
    var h, w := Height(lines), Width(lines);
    forall r: nat, c: nat | HasValue(lines, r, c)
      ensures r < h && c < w
    {
      assert c < Extent(lines[r]);
    }
    if h > 0 {
      assert HasValue(lines, h - 1, Extent(lines[h - 1]) - 1);
    }
    if w > 0 {
      var r: nat :| r < |lines| && Extent(lines[r]) == w;
      assert HasValue(lines, r, w - 1);
    }
  }

  // ---- adding rows one at a time ----------------------------------------------------------------------------

  lemma {:induction false} HeightOfMore<V>(lines: seq<Line<V>>, line: Line<V>, n: nat)
    requires n >= 1
    ensures Height(lines + Copies(line, n)) == if Extent(line) > 0 then |lines| + n else Height(lines)
  {
    var all := lines + Copies(line, n);
    assert all[..|all| - 1] == lines + Copies(line, n - 1);
    if Extent(line) == 0 {
      if n > 1 {
        HeightOfMore(lines, line, n - 1);
      } else {
        assert lines + Copies(line, 0) == lines;
      }
    }
  }

  lemma {:induction false} WidthOfMore<V>(lines: seq<Line<V>>, line: Line<V>, n: nat)
    requires n >= 1
    ensures Width(lines + Copies(line, n)) == Max(Width(lines), Extent(line))
  {
    hide Extent;
    var all := lines + Copies(line, n);
    assert all[..|all| - 1] == lines + Copies(line, n - 1);
    if n > 1 {
      WidthOfMore(lines, line, n - 1);
    } else {
      assert lines + Copies(line, 0) == lines;
    }
  }

  lemma {:induction false} MoreRowsNoSmaller<V>(rows: seq<Row<V>>, i: nat)
    requires i <= |rows|
    ensures ExpandRows(rows[..i]) <= ExpandRows(rows)
    ensures Height(ExpandRows(rows[..i])) <= Height(ExpandRows(rows))
    ensures Width(ExpandRows(rows[..i])) <= Width(ExpandRows(rows))
    decreases |rows| - i
  {
    hide Height, Width, ExpandRows, Extent, ExpandNodes;
    if i < |rows| {
      MoreRowsNoSmaller(rows, i + 1);
      OneMoreRow(rows, i);
    } else {
      assert rows[..i] == rows;
    }
  }

  lemma OneMoreRow<V>(rows: seq<Row<V>>, i: nat)
    requires i < |rows|
    ensures var before, line, n := ExpandRows(rows[..i]), ExpandNodes(rows[i].nodes), Repeat(rows[i].repeatAttr);
      var after := ExpandRows(rows[..i + 1]);
      && after == before + Copies(line, n)
      && Height(after) == (if Extent(line) > 0 then |before| + n else Height(before))
      && Width(after) == Max(Width(before), Extent(line))
  {
    assert rows[..i + 1][..i] == rows[..i];
    HeightOfMore(ExpandRows(rows[..i]), ExpandNodes(rows[i].nodes), Repeat(rows[i].repeatAttr));
    WidthOfMore(ExpandRows(rows[..i]), ExpandNodes(rows[i].nodes), Repeat(rows[i].repeatAttr));
  }

  lemma {:induction false} MoreNodesNoShorter<V>(nodes: seq<Node<V>>, j: nat)
    requires j <= |nodes|
    ensures ExpandNodes(nodes[..j]) <= ExpandNodes(nodes)
    decreases |nodes| - j
  {
    if j < |nodes| {
      MoreNodesNoShorter(nodes, j + 1);
      assert nodes[..j + 1][..j] == nodes[..j];
    } else {
      assert nodes[..j] == nodes;
    }
  }

  /** A valued run that ends past the limit already makes the rectangle too large. */
  lemma WideCellIsTooBig<V>(rows: seq<Row<V>>, i: nat, j: nat, limit: nat)
    requires i < |rows| && TooWide(rows[i].nodes, j, limit)
    ensures Area(rows) > limit
  {
    hide Height, Width, Extent, ExpandRows;
    LastCellIsWide(rows[i].nodes, j);
    OneMoreRow(rows, i);
    MoreRowsNoSmaller(rows, i + 1);
    Product(Height(ExpandRows(rows)), Width(ExpandRows(rows)), 1, limit + 1);
  }

  lemma LastCellIsWide<V>(nodes: seq<Node<V>>, j: nat)
    requires j < |nodes| && nodes[j].Cell? && nodes[j].value.Some?
    ensures Extent(ExpandNodes(nodes)) >= |ExpandNodes(nodes[..j + 1])|
  {
    hide Extent;
    var line, part := ExpandNodes(nodes), ExpandNodes(nodes[..j + 1]);
    MoreNodesNoShorter(nodes, j + 1);
    assert nodes[..j + 1][j] == nodes[j];
    assert line[|part| - 1] == part[|part| - 1] == nodes[j].value;
  }

  lemma Product(a: nat, b: nat, c: nat, d: nat)
    requires c <= a && d <= b
    ensures c * d <= a * b
  {
    assert c * d <= a * d && a * d <= a * b;
  }

  // ---- the sparse reader --------------------------------------------------------------------------------------

  type Cells<V> = map<nat, V>

  /** The columns of a line that hold a value. */
  function Sparse<V>(line: Line<V>): Cells<V> {
    map c: nat | c < |line| && line[c].Some? :: line[c].value
  }

  /** A stretch of equal rows: the first row's index, its values, how often it repeats. */
  datatype Run<V> = Run(start: nat, cells: Cells<V>, repeat: nat)

  predicate Covers<V>(run: Run<V>, r: nat) {
    run.start <= r < run.start + run.repeat
  }

  /** Runs come in order, do not overlap, and end by `end`. */
  predicate Ordered<V>(runs: seq<Run<V>>, end: nat) {
    && (forall k | 0 <= k < |runs| :: runs[k].start + runs[k].repeat <= end)
    && (forall k, l | 0 <= k < l < |runs| :: runs[k].start + runs[k].repeat <= runs[l].start)
  }

  /** The runs hold exactly the values of the lines. */
  ghost predicate Describes<V>(runs: seq<Run<V>>, lines: seq<Line<V>>) {
    && Ordered(runs, |lines|)
    && (forall k | 0 <= k < |runs| :: runs[k].cells.Keys != {})
    && (forall k, r | 0 <= k < |runs| && 0 <= r < |lines| && Covers(runs[k], r) :: runs[k].cells == Sparse(lines[r]))
    && (forall r | 0 <= r < |lines| && Extent(lines[r]) > 0 :: exists k | 0 <= k < |runs| :: Covers(runs[k], r))
  }

  predicate IsFrom(column: nat, c: nat) {
    column <= c
  }

  /** `n` columns from `column` on, all holding `value`. */
  function RunOfCells<V>(column: nat, n: nat, value: V): Cells<V> {
    map c: nat | c < column + n && IsFrom(column, c) :: value
  }

  lemma SparseOfMore<V>(line: Line<V>, value: Option<V>, n: nat)
    ensures Sparse(line + Copies(value, n))
         == if value.Some? then Sparse(line) + RunOfCells(|line|, n, value.value) else Sparse(line)
  {
  }

  lemma SparseExtent<V>(line: Line<V>)
    ensures Sparse(line).Keys == {} <==> Extent(line) == 0
    ensures Extent(line) > 0 ==> Extent(line) - 1 in Sparse(line)
    ensures forall c | c in Sparse(line) :: c < Extent(line)
  {
    if Extent(line) > 0 {
      assert Extent(line) - 1 in Sparse(line);
    }
  }

  /** Write `value` into `repeat` columns from `column` on. */
  method AddRun<V>(before: Cells<V>, column: nat, repeat: nat, value: V) returns (cells: Cells<V>)
    ensures cells == before + RunOfCells(column, repeat, value)
  {
    cells := before;
    var offset := 0;
    while offset < repeat
      invariant 0 <= offset <= repeat
      invariant cells == before + RunOfCells(column, offset, value)
    {
      cells := cells[column + offset := value];
      offset := offset + 1;
    }
  }

  /** A valued run of this row ends past the limit. */
  ghost predicate TooWide<V>(nodes: seq<Node<V>>, j: nat, limit: nat) {
    j < |nodes| && nodes[j].Cell? && nodes[j].value.Some? && |ExpandNodes(nodes[..j + 1])| > limit
  }

  /** One row's values; `Err` only when a valued run ends past `maxCells`. */
  method ReadRow<V>(nodes: seq<Node<V>>, maxCells: nat) returns (r: Result<Cells<V>>)
    ensures r.Ok? ==> r.value == Sparse(ExpandNodes(nodes))
    ensures r.Err? ==> exists j :: TooWide(nodes, j, maxCells)
  {
    hide Sparse, RunOfCells;
    var cells: Cells<V> := map[];
    var column: nat := 0;
    var j := 0;
    SparseOfNothing<V>();
    while j < |nodes|
      invariant 0 <= j <= |nodes|
      invariant column == |ExpandNodes(nodes[..j])| && cells == Sparse(ExpandNodes(nodes[..j]))
    {
      var node := nodes[j];
      ghost var line := ExpandNodes(nodes[..j]);
      assert nodes[..j + 1][..j] == nodes[..j];
      assert ExpandNodes(nodes[..j + 1]) == line + ExpandNode(node);
      if node.Cell? {
        var repeat := Repeat(node.repeatAttr);
        SparseOfMore(line, node.value, repeat);
        if node.value.Some? {
          if column + repeat > maxCells {
            assert TooWide(nodes, j, maxCells);
            return Err;
          }
          cells := AddRun(cells, column, repeat, node.value.value);
        }
        column := column + repeat;
      } else {
        assert line + ExpandNode(node) == line;
      }
      j := j + 1;
    }
    assert nodes[..j] == nodes;
    r := Ok(cells);
  }

  lemma SparseOfNothing<V>()
    ensures Sparse<V>([]) == map[]
  {
    assert Sparse<V>([]).Keys == {};
  }

  /** `max(cells)`. */
  method LastColumn<V>(cells: Cells<V>) returns (last: nat)
    requires cells.Keys != {}
    ensures last in cells && forall c | c in cells :: c <= last
  {
    var rest := cells.Keys;
    last :| last in rest;
    while rest != {}
      invariant last in cells && rest <= cells.Keys
      invariant forall c | c in cells && c !in rest :: c <= last
      decreases |rest|
    {
      var c :| c in rest;
      if c > last {
        last := c;
      }
      rest := rest - {c};
    }
  }

  /** What is known of the first lines once their rows have been read. */
  ghost predicate Scanned<V>(lines: seq<Line<V>>, runs: seq<Run<V>>, height: nat, width: nat) {
    Describes(runs, lines) && height == Height(lines) && width == Width(lines)
  }

  lemma DescribesMore<V>(runs: seq<Run<V>>, lines: seq<Line<V>>, line: Line<V>, n: nat)
    requires Describes(runs, lines) && n >= 1
    ensures Describes(if Extent(line) == 0 then runs else runs + [Run(|lines|, Sparse(line), n)],
                      lines + Copies(line, n))
  {
    hide Sparse, Extent;
    SparseExtent(line);
    var all := lines + Copies(line, n);
    assert forall r | 0 <= r < |lines| :: all[r] == lines[r];
    assert forall r | |lines| <= r < |all| :: all[r] == line;
    if Extent(line) > 0 {
      var more := runs + [Run(|lines|, Sparse(line), n)];
      assert forall r | |lines| <= r < |all| :: Covers(more[|runs|], r);
      forall r | 0 <= r < |all| && Extent(all[r]) > 0
        ensures exists k | 0 <= k < |more| :: Covers(more[k], r)
      {
        if r < |lines| {
          var k :| 0 <= k < |runs| && Covers(runs[k], r);
          assert Covers(more[k], r);
        }
      }
    }
  }

  /** Reading one more row: nothing to record, or one run and the new size of the rectangle. */
  lemma ScannedMore<V>(rows: seq<Row<V>>, i: nat, runs: seq<Run<V>>, height: nat, width: nat)
    requires i < |rows| && Scanned(ExpandRows(rows[..i]), runs, height, width)
    ensures var before, line, n := ExpandRows(rows[..i]), ExpandNodes(rows[i].nodes), Repeat(rows[i].repeatAttr);
      var after := ExpandRows(rows[..i + 1]);
      && |after| == |before| + n
      && (Extent(line) == 0 ==> Scanned(after, runs, height, width))
      && (Extent(line) > 0 ==>
            Scanned(after, runs + [Run(|before|, Sparse(line), n)], |before| + n, Max(width, Extent(line))))
  {
    hide Describes, Height, Width, Extent, ExpandRows, ExpandNodes, Sparse;
    OneMoreRow(rows, i);
    DescribesMore(runs, ExpandRows(rows[..i]), ExpandNodes(rows[i].nodes), Repeat(rows[i].repeatAttr));
  }

  lemma ScannedNothing<V>()
    ensures ExpandRows<V>([]) == [] && Scanned<V>([], [], 0, 0)
  {
  }

  lemma PrefixTooBig<V>(rows: seq<Row<V>>, i: nat, limit: nat)
    requires i <= |rows| && Times(Height(ExpandRows(rows[..i])), Width(ExpandRows(rows[..i]))) > limit
    ensures Area(rows) > limit
  {
    hide Height, Width, ExpandRows, Times;
    MoreRowsNoSmaller(rows, i);
    var h, w := Height(ExpandRows(rows[..i])), Width(ExpandRows(rows[..i]));
    Product(Height(ExpandRows(rows)), Width(ExpandRows(rows)), h, w);
  }

  /** The first pass: runs of valued rows and the size of the rectangle, or the limit was exceeded. */
  method Scan<V>(rows: seq<Row<V>>, maxCells: nat) returns (r: Result<(seq<Run<V>>, nat, nat)>)
    ensures r.Ok? <==> Area(rows) <= maxCells
    ensures r.Ok? ==> Scanned(ExpandRows(rows), r.value.0, r.value.1, r.value.2)
  {
    hide Describes, Height, Width, Extent, ExpandRows, ExpandNodes, Sparse;
    var runs: seq<Run<V>> := [];
    var height: nat, width: nat, rowIndex: nat := 0, 0, 0;
    var i := 0;
    ScannedNothing<V>();
    assert rows[..0] == [];
    while i < |rows|
      invariant 0 <= i <= |rows|
      invariant rowIndex == |ExpandRows(rows[..i])|
      invariant Scanned(ExpandRows(rows[..i]), runs, height, width)
      invariant Times(height, width) <= maxCells
    {
      var rowRepeat := Repeat(rows[i].repeatAttr);
      ScannedMore(rows, i, runs, height, width);
      SparseExtent(ExpandNodes(rows[i].nodes));
      var cells := ReadRow(rows[i].nodes, maxCells);
      if cells.Err? {
        ghost var j :| TooWide(rows[i].nodes, j, maxCells);
        WideCellIsTooBig(rows, i, j, maxCells);
        return Err;
      }
      if cells.value.Keys != {} {
        runs := runs + [Run(rowIndex, cells.value, rowRepeat)];
        height := rowIndex + rowRepeat;
        var last := LastColumn(cells.value);
        width := Max(width, last + 1);
      }
      rowIndex := rowIndex + rowRepeat;
      if Times(height, width) > maxCells {
        PrefixTooBig(rows, i + 1, maxCells);
        return Err;
      }
      i := i + 1;
    }
    assert rows[..i] == rows;
    r := Ok((runs, height, width));
  }

  /** `grid` is the naive reading of the lines, trimmed and padded to a rectangle. */
  ghost predicate IsNaiveGrid<V>(grid: array2<Option<V>>, lines: seq<Line<V>>)
    reads grid
  {
    && grid.Length0 == Height(lines) && grid.Length1 == Width(lines)
    && forall r, c | 0 <= r < grid.Length0 && 0 <= c < grid.Length1 :: grid[r, c] == At(lines, r, c)
  }

  /** Write one sparse row into the grid. */
  method FillRow<V>(grid: array2<Option<V>>, r: nat, cells: Cells<V>)
    requires r < grid.Length0 && forall c | c in cells :: c < grid.Length1
    modifies grid
    ensures forall c | 0 <= c < grid.Length1 :: grid[r, c] == if c in cells then Some(cells[c]) else old(grid[r, c])
    ensures forall q, c | 0 <= q < grid.Length0 && 0 <= c < grid.Length1 && q != r :: grid[q, c] == old(grid[q, c])
  {
    var rest := cells.Keys;
    while rest != {}
      invariant rest <= cells.Keys
      invariant forall c | 0 <= c < grid.Length1 ::
        grid[r, c] == if c in cells && c !in rest then Some(cells[c]) else old(grid[r, c])
      invariant forall q, c | 0 <= q < grid.Length0 && 0 <= c < grid.Length1 && q != r :: grid[q, c] == old(grid[q, c])
      decreases |rest|
    {
      var c :| c in rest;
      grid[r, c] := Some(cells[c]);
      rest := rest - {c};
    }
  }

  lemma RunFits<V>(runs: seq<Run<V>>, lines: seq<Line<V>>, k: nat)
    requires Describes(runs, lines) && k < |runs|
    ensures RunMatches(runs[k], lines)
  {
  }

  /** Every row the run covers lies in the rectangle and holds exactly the run's cells. */
  ghost predicate RunMatches<V>(run: Run<V>, lines: seq<Line<V>>) {
    && run.start + run.repeat <= |lines|
    && forall r | 0 <= r < |lines| && Covers(run, r) ::
         r < Height(lines) && run.cells == Sparse(lines[r]) && forall c | c in run.cells :: c < Width(lines)
  }

  /** The grid holds the naive values of the rows in `written`, and nothing elsewhere. */
  ghost predicate Holds<V>(grid: array2<Option<V>>, lines: seq<Line<V>>, written: set<nat>)
    reads grid
  {
    && grid.Length0 == Height(lines) && grid.Length1 == Width(lines)
    && forall r, c | 0 <= r < grid.Length0 && 0 <= c < grid.Length1 ::
         grid[r, c] == if r in written then At(lines, r, c) else None
  }

  function RowsOf<V>(run: Run<V>): (rows: set<nat>)
    ensures forall r: nat :: r in rows <==> Covers(run, r)
  {
    set r: nat | r < run.start + run.repeat && Covers(run, r)
  }

  function RowsOfAll<V>(runs: seq<Run<V>>): (rows: set<nat>) {
    if runs == [] then {} else RowsOfAll(runs[..|runs| - 1]) + RowsOf(runs[|runs| - 1])
  }

  lemma {:induction false} RunIsWritten<V>(runs: seq<Run<V>>, k: nat, r: nat)
    requires k < |runs| && Covers(runs[k], r)
    ensures r in RowsOfAll(runs)
  {
    if k < |runs| - 1 {
      RunIsWritten(runs[..|runs| - 1], k, r);
    }
  }

  /** Write all the rows of one run. */
  method WriteRun<V>(grid: array2<Option<V>>, run: Run<V>, ghost lines: seq<Line<V>>, ghost written: set<nat>)
    requires RunMatches(run, lines) && Holds(grid, lines, written)
    modifies grid
    ensures Holds(grid, lines, written + RowsOf(run))
  {
    hide Height, Width;
    var q := run.start;
    ghost var done: set<nat> := written;
    while q < run.start + run.repeat
      invariant run.start <= q <= run.start + run.repeat
      invariant forall r: nat :: r in done <==> r in written || run.start <= r < q
      invariant Holds(grid, lines, done)
    {
      assert Covers(run, q);
      FillRow(grid, q, run.cells);
      done := done + {q};
      q := q + 1;
    }
    assert done == written + RowsOf(run);
  }

  lemma AllRowsHold<V>(grid: array2<Option<V>>, lines: seq<Line<V>>, runs: seq<Run<V>>)
    requires Describes(runs, lines) && Holds(grid, lines, RowsOfAll(runs))
    ensures IsNaiveGrid(grid, lines)
  {
    hide Height, Width, Extent, RowsOfAll;
    forall r, c | 0 <= r < grid.Length0 && 0 <= c < grid.Length1
      ensures grid[r, c] == At(lines, r, c)
    {
      if Extent(lines[r]) > 0 {
        var k :| 0 <= k < |runs| && Covers(runs[k], r);
        RunIsWritten(runs, k, r);
      }
    }
  }

  /** `_read_table`: the naive grid, or an error exactly when it has more than `maxCells` cells. */
  method ReadTable<V>(rows: seq<Row<V>>, maxCells: nat) returns (r: Result<array2<Option<V>>>)
    ensures r.Ok? <==> Area(rows) <= maxCells
    ensures r.Ok? ==> fresh(r.value) && IsNaiveGrid(r.value, ExpandRows(rows))
  {
    hide Height, Width, Extent, ExpandRows, RunMatches, Describes;
    var scan := Scan(rows, maxCells);
    if scan.Err? {
      return Err;
    }
    var (runs, height, width) := scan.value;
    ghost var lines := ExpandRows(rows);
    var grid := new Option<V>[height, width]((_, _) => None);
    var k := 0;
    while k < |runs|
      invariant 0 <= k <= |runs|
      invariant Holds(grid, lines, RowsOfAll(runs[..k]))
    {
      RunFits(runs, lines, k);
      assert runs[..k + 1][..k] == runs[..k];
      WriteRun(grid, runs[k], lines, RowsOfAll(runs[..k]));
      k := k + 1;
    }
    assert runs[..k] == runs;
    AllRowsHold(grid, lines, runs);
    r := Ok(grid);
  }

  function TotalArea<V>(tables: seq<Table<V>>): nat {
    if tables == [] then 0 else TotalArea(tables[..|tables| - 1]) + Area(tables[|tables| - 1].rows)
  }

  lemma {:induction false} PrefixArea<V>(tables: seq<Table<V>>, i: nat)
    requires i <= |tables|
    ensures TotalArea(tables[..i]) <= TotalArea(tables)
    decreases |tables| - i
  {
    if i < |tables| {
      PrefixArea(tables, i + 1);
      assert tables[..i + 1][..i] == tables[..i];
    } else {
      assert tables[..i] == tables;
    }
  }

  /** The rows of the last table called `name`. */
  function LastNamed<V>(tables: seq<Table<V>>, name: string): Option<seq<Row<V>>> {
    if tables == [] then None
    else if tables[|tables| - 1].name == name then Some(tables[|tables| - 1].rows)
    else LastNamed(tables[..|tables| - 1], name)
  }

  /** The rows of the table called `name` after which no other is called so. */
  lemma {:induction false} LastNamedMeans<V>(tables: seq<Table<V>>, name: string, i: nat)
    requires i < |tables| && tables[i].name == name && forall j | i < j < |tables| :: tables[j].name != name
    ensures LastNamed(tables, name) == Some(tables[i].rows)
    decreases |tables|
  {
    if i < |tables| - 1 {
      var front := tables[..|tables| - 1];
      assert forall j | i < j < |front| :: front[j].name != name;
      LastNamedMeans(front, name, i);
    }
  }

  lemma {:induction false} UnnamedIsAbsent<V>(tables: seq<Table<V>>, name: string)
    requires forall i | 0 <= i < |tables| :: tables[i].name != name
    ensures LastNamed(tables, name) == None
  {
    if tables != [] {
      UnnamedIsAbsent(tables[..|tables| - 1], name);
    }
  }

  /** One naive grid for each name; of tables that share a name, the last. */
  ghost predicate HoldsSheets<V>(sheets: map<string, array2<Option<V>>>, tables: seq<Table<V>>)
    reads sheets.Values
  {
    && (forall name :: name in sheets <==> LastNamed(tables, name).Some?)
    && (forall name | name in sheets :: IsNaiveGrid(sheets[name], ExpandRows(LastNamed(tables, name).value)))
  }

  /** `read`: every sheet, exactly when all of them together fit the cap. */
  method Read<V>(tables: seq<Table<V>>, maxCells: nat) returns (r: Result<map<string, array2<Option<V>>>>)
    ensures r.Ok? <==> TotalArea(tables) <= maxCells
    ensures r.Ok? ==> HoldsSheets(r.value, tables)
  {
    hide ExpandRows, Height, Width;
    var sheets: map<string, array2<Option<V>>> := map[];
    var budget: nat := maxCells;
    var i := 0;
    while i < |tables|
      invariant 0 <= i <= |tables|
      invariant budget + TotalArea(tables[..i]) == maxCells
      invariant HoldsSheets(sheets, tables[..i])
    {
      assert tables[..i + 1][..i] == tables[..i];
      var grid := ReadTable(tables[i].rows, budget);
      if grid.Err? {
        PrefixArea(tables, i + 1);
        return Err;
      }
      budget := budget - grid.value.Length0 * grid.value.Length1;
      sheets := sheets[tables[i].name := grid.value];
      i := i + 1;
    }
    assert tables[..i] == tables;
    r := Ok(sheets);
  }
}
