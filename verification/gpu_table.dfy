/** `redrawTable` of the GPU usage page: a title row, then for every cluster
    key a title row and a grid of eight node slots per row, filled column by
    column. Each slot spans nine columns: a name cell and eight GPU cells, a
    name cell and one wide status cell, or one empty cell. The DOM is modelled
    as a list of rows, each a list of cells. */
module GpuTable {
  import opened Common

  const TitleSpan: nat := 72
  const SlotsPerRow: nat := 8
  const SlotSpan: nat := 9
  const GpuColumns: nat := 8
  const GlobalTitle: string := "GAIA usage information"

  /** One entry of `data[key]`: a node's status text and its GPU readings. */
  datatype Node = Node(status: string, gpus: seq<string>)

  /** The `class` of a cell (`title`, `name`, `status`, `item`; the empty
      filler cell has none). */
  datatype Kind = Title | Name | Filler | Status | Item

  /** What a cell shows: nothing, a text, or a node index. */
  datatype Content = NoText | Text(text: string) | Index(index: nat)

  datatype Cell = Cell(kind: Kind, colSpan: nat, content: Content)

  type Row = seq<Cell>

  /** The data: cluster keys in enumeration order, each with its nodes. */
  type Data = seq<(string, seq<Node>)>

  /** Total number of grid columns a row covers. */
  function Width(cells: Row): nat
    decreases |cells|
  {
    if |cells| == 0 then 0 else cells[0].colSpan + Width(cells[1..])
  }

  lemma {:induction false} WidthConcat(a: Row, b: Row)
    ensures Width(a + b) == Width(a) + Width(b)
    decreases |a|
  {
    if |a| == 0 {
      assert a + b == b;
    } else {
      assert (a + b)[1..] == a[1..] + b;
      WidthConcat(a[1..], b);
    }
  }

  /** `(num_of_nodes + 7) >> 3`: the number of grid rows, the ceiling of
      `n / 8` (the shift of a non-negative number is a floor division). */
  function RowsFor(n: nat): (rows: nat)
    ensures n <= SlotsPerRow * rows < n + SlotsPerRow
  {
    (n + 7) / 8
  }

  /** `node_index = col * num_of_rows + row`. */
  function SlotIndex(rows: nat, row: nat, col: nat): nat {
    col * rows + row
  }

  function TitleRow(text: string): (r: Row)
    ensures Width(r) == TitleSpan
  {
    [Cell(Title, TitleSpan, Text(text))]
  }

  /** The eight `item` cells of a node with GPUs; a missing reading
      (`gpus[i]` past the end) leaves the cell empty. */
  function Items(gpus: seq<string>, i: nat): (r: Row)
    requires i <= GpuColumns
    ensures |r| == GpuColumns - i
    ensures forall k :: 0 <= k < |r| ==> r[k].kind == Item && r[k].colSpan == 1
    ensures forall k :: 0 <= k < |r| ==>
      r[k].content == if i + k < |gpus| then Text(gpus[i + k]) else NoText
    decreases GpuColumns - i
  {
    if i == GpuColumns then []
    else [Cell(Item, 1, if i < |gpus| then Text(gpus[i]) else NoText)] + Items(gpus, i + 1)
  }

  /** The cells after the name cell for one node: one status cell spanning
      eight columns when it has no GPUs, eight item cells otherwise. */
  function NodeCells(node: Node): (r: Row)
    ensures |node.gpus| == 0 ==> r == [Cell(Status, GpuColumns, Text(node.status))]
    ensures |node.gpus| > 0 ==> |r| == GpuColumns && forall k :: 0 <= k < |r| ==> r[k].kind == Item
    ensures Width(r) == GpuColumns
    ensures forall x :: x in r ==> !x.content.Index?
  {
    if |node.gpus| == 0 then [Cell(Status, GpuColumns, Text(node.status))]
    else
      var r := Items(node.gpus, 0);
      ItemsWidth(node.gpus, 0);
      r
  }

  lemma {:induction false} ItemsWidth(gpus: seq<string>, i: nat)
    requires i <= GpuColumns
    ensures Width(Items(gpus, i)) == GpuColumns - i
    decreases GpuColumns - i
  {
    if i < GpuColumns {
      ItemsWidth(gpus, i + 1);
      var r := Items(gpus, i);
      assert r[1..] == Items(gpus, i + 1);
    }
  }

  /** The cells of grid slot (row, col): a name cell showing the node index
      followed by the node's cells, or a single empty cell spanning nine
      columns when the index is past the last node. */
  function SlotCells(nodes: seq<Node>, rows: nat, row: nat, col: nat): (r: Row)
    ensures |r| >= 1
    ensures SlotIndex(rows, row, col) < |nodes| ==>
      r[0] == Cell(Name, 1, Index(SlotIndex(rows, row, col)))
      && r[1..] == NodeCells(nodes[SlotIndex(rows, row, col)])
    ensures SlotIndex(rows, row, col) >= |nodes| ==> r == [Cell(Filler, SlotSpan, NoText)]
    ensures Width(r) == SlotSpan
  {
    var k := SlotIndex(rows, row, col);
    if k >= |nodes| then [Cell(Filler, SlotSpan, NoText)]
    else
      var name := [Cell(Name, 1, Index(k))];
      WidthConcat(name, NodeCells(nodes[k]));
      name + NodeCells(nodes[k])
  }

  /** The slots `col .. 7` of one grid row, left to right. */
  function SlotsFrom(nodes: seq<Node>, rows: nat, row: nat, col: nat): (r: Row)
    requires col <= SlotsPerRow
    ensures Width(r) == SlotSpan * (SlotsPerRow - col)
    decreases SlotsPerRow - col
  {
    if col == SlotsPerRow then []
    else
      var here := SlotCells(nodes, rows, row, col);
      var rest := SlotsFrom(nodes, rows, row, col + 1);
      WidthConcat(here, rest);
      here + rest
  }

  /** One data row of a section: all eight slots. */
  function DataRow(nodes: seq<Node>, rows: nat, row: nat): (r: Row)
    ensures Width(r) == TitleSpan
  {
    SlotsFrom(nodes, rows, row, 0)
  }

  /** The rows for one key: its title row, then `ceil(n / 8)` data rows. */
  function Section(key: string, nodes: seq<Node>): (r: seq<Row>)
    ensures |r| == 1 + RowsFor(|nodes|)
    ensures r[0] == TitleRow(key)
    ensures forall k :: 0 <= k < RowsFor(|nodes|) ==> r[k + 1] == DataRow(nodes, RowsFor(|nodes|), k)
    ensures forall k :: 0 <= k < |r| ==> Width(r[k]) == TitleSpan
  {
    var rows := RowsFor(|nodes|);
    var body := Tabulate((row: nat) => DataRow(nodes, rows, row), rows);
    var r := [TitleRow(key)] + body;
    assert forall k :: 0 <= k < |body| ==> r[k + 1] == body[k];
    r
  }

  /** `[f(0), ..., f(count - 1)]`. */
  function Tabulate<T>(f: nat -> T, count: nat): (r: seq<T>)
    ensures |r| == count
    ensures forall k :: 0 <= k < count ==> r[k] == f(k)
  {
    seq(count, k requires 0 <= k < count => f(k))
  }

  function Sections(data: Data): seq<Row>
    decreases |data|
  {
    if |data| == 0 then [] else Section(data[0].0, data[0].1) + Sections(data[1..])
  }

  /** `redrawTable()`: the table is emptied and rebuilt from `data`. */
  function RedrawTable(data: Data): (t: seq<Row>)
    ensures |t| >= 1 && t[0] == TitleRow(GlobalTitle)
    ensures forall k :: 0 <= k < |t| ==> Width(t[k]) == TitleSpan
  {
    SectionsWidth(data);
    [TitleRow(GlobalTitle)] + Sections(data)
  }

  /** Every row of every section spans the 72 columns of the title cells. */
  lemma {:induction false} SectionsWidth(data: Data)
    ensures forall k :: 0 <= k < |Sections(data)| ==> Width(Sections(data)[k]) == TitleSpan
    decreases |data|
  {
    if |data| > 0 {
      SectionsWidth(data[1..]);
      var s := Section(data[0].0, data[0].1);
      var rest := Sections(data[1..]);
      AllWidth(s, rest);
    }
  }

  lemma AllWidth(a: seq<Row>, b: seq<Row>)
    requires forall k :: 0 <= k < |a| ==> Width(a[k]) == TitleSpan
    requires forall k :: 0 <= k < |b| ==> Width(b[k]) == TitleSpan
    ensures forall k :: 0 <= k < |a + b| ==> Width((a + b)[k]) == TitleSpan
  {
  }

  /** The table has one title row, then for every key one title row and
      `ceil(n / 8)` data rows. */
  function RowCount(data: Data): nat
    decreases |data|
  {
    if |data| == 0 then 0 else 1 + RowsFor(|data[0].1|) + RowCount(data[1..])
  }

  lemma {:induction false} TableRowCount(data: Data)
    ensures |RedrawTable(data)| == 1 + RowCount(data)
  {
    SectionsCount(data);
  }

  lemma {:induction false} SectionsCount(data: Data)
    ensures |Sections(data)| == RowCount(data)
    decreases |data|
  {
    if |data| > 0 {
      SectionsCount(data[1..]);
    }
  }

  /** Column-major layout, one direction: node `k` sits in slot
      (`k mod rows`, `k div rows`) of the grid, which shows its index. */
  lemma ColumnMajorPlacement(nodes: seq<Node>, k: nat)
    requires k < |nodes|
    ensures var rows := RowsFor(|nodes|);
      && rows > 0
      && k % rows < rows && k / rows < SlotsPerRow
      && SlotIndex(rows, k % rows, k / rows) == k
      && SlotCells(nodes, rows, k % rows, k / rows)[0] == Cell(Name, 1, Index(k))
  {
    var rows := RowsFor(|nodes|);
    var col := k / rows;
    assert k == col * rows + k % rows;
    if col >= SlotsPerRow {
      MulLe(SlotsPerRow, col, rows);
    }
  }

  /** Column-major layout, the other direction: a grid slot that shows node
      `k` is the slot `ColumnMajorPlacement` names, so no node appears twice. */
  lemma ColumnMajorUnique(rows: nat, row: nat, col: nat, k: nat)
    requires row < rows && SlotIndex(rows, row, col) == k
    ensures row == k % rows && col == k / rows
  {
    DivModUnique(k, rows, col, row);
  }

  /** Slots past the last node are single empty cells nine columns wide. */
  lemma FillerSlots(nodes: seq<Node>, row: nat, col: nat)
    requires SlotIndex(RowsFor(|nodes|), row, col) >= |nodes|
    ensures SlotCells(nodes, RowsFor(|nodes|), row, col) == [Cell(Filler, SlotSpan, NoText)]
  {
  }

  /** A data row is its eight slots side by side, left to right. */
  lemma DataRowSlots(nodes: seq<Node>, rows: nat, row: nat)
    ensures DataRow(nodes, rows, row) ==
      SlotCells(nodes, rows, row, 0) + SlotCells(nodes, rows, row, 1) +
      SlotCells(nodes, rows, row, 2) + SlotCells(nodes, rows, row, 3) +
      SlotCells(nodes, rows, row, 4) + SlotCells(nodes, rows, row, 5) +
      SlotCells(nodes, rows, row, 6) + SlotCells(nodes, rows, row, 7)
  {
    SlotsStep(nodes, rows, row, 0);
    SlotsStep(nodes, rows, row, 1);
    SlotsStep(nodes, rows, row, 2);
    SlotsStep(nodes, rows, row, 3);
    SlotsStep(nodes, rows, row, 4);
    SlotsStep(nodes, rows, row, 5);
    SlotsStep(nodes, rows, row, 6);
    SlotsStep(nodes, rows, row, 7);
    assert SlotsFrom(nodes, rows, row, 8) == [];
    ConcatEight(
      SlotCells(nodes, rows, row, 0), SlotCells(nodes, rows, row, 1),
      SlotCells(nodes, rows, row, 2), SlotCells(nodes, rows, row, 3),
      SlotCells(nodes, rows, row, 4), SlotCells(nodes, rows, row, 5),
      SlotCells(nodes, rows, row, 6), SlotCells(nodes, rows, row, 7),
      SlotsFrom(nodes, rows, row, 1), SlotsFrom(nodes, rows, row, 2),
      SlotsFrom(nodes, rows, row, 3), SlotsFrom(nodes, rows, row, 4),
      SlotsFrom(nodes, rows, row, 5), SlotsFrom(nodes, rows, row, 6),
      SlotsFrom(nodes, rows, row, 7));
  }

  /** Unrolling a right-nested concatenation of eight rows. */
  lemma ConcatEight(a0: Row, a1: Row, a2: Row, a3: Row, a4: Row, a5: Row, a6: Row, a7: Row,
                    s1: Row, s2: Row, s3: Row, s4: Row, s5: Row, s6: Row, s7: Row)
    requires s7 == a7 + [] && s6 == a6 + s7 && s5 == a5 + s6 && s4 == a4 + s5
    requires s3 == a3 + s4 && s2 == a2 + s3 && s1 == a1 + s2
    ensures a0 + s1 == a0 + a1 + a2 + a3 + a4 + a5 + a6 + a7
  {
    assert a7 + [] == a7;
  }

  /** The slots from `col` on are slot `col` followed by the slots after it. */
  lemma SlotsStep(nodes: seq<Node>, rows: nat, row: nat, col: nat)
    requires col < SlotsPerRow
    ensures SlotsFrom(nodes, rows, row, col) ==
      SlotCells(nodes, rows, row, col) + SlotsFrom(nodes, rows, row, col + 1)
  {
  }

  /** Every cell of slot `c` is a cell of the slots `col .. 7` when `c` is one
      of them. */
  lemma {:induction false} SlotInSlots(nodes: seq<Node>, rows: nat, row: nat, col: nat, c: nat, x: Cell)
    requires col <= c < SlotsPerRow
    requires x in SlotCells(nodes, rows, row, c)
    ensures x in SlotsFrom(nodes, rows, row, col)
    decreases c - col
  {
    SlotsStep(nodes, rows, row, col);
    if col < c {
      SlotInSlots(nodes, rows, row, col + 1, c, x);
    }
  }

  /** The only cell of a slot that shows a node index is its name cell, which
      shows the index its grid position computes to. */
  lemma SlotShowsOwnIndex(nodes: seq<Node>, rows: nat, row: nat, col: nat, k: nat, x: Cell)
    requires x in SlotCells(nodes, rows, row, col) && x.content == Index(k)
    ensures SlotIndex(rows, row, col) == k
  {
  }

  /** A cell of a data row belongs to one of its eight slots. */
  lemma CellSlot(nodes: seq<Node>, rows: nat, row: nat, x: Cell) returns (c: nat)
    requires x in DataRow(nodes, rows, row)
    ensures c < SlotsPerRow && x in SlotCells(nodes, rows, row, c)
  {
    DataRowSlots(nodes, rows, row);
    c := if x in SlotCells(nodes, rows, row, 0) then 0
      else if x in SlotCells(nodes, rows, row, 1) then 1
      else if x in SlotCells(nodes, rows, row, 2) then 2
      else if x in SlotCells(nodes, rows, row, 3) then 3
      else if x in SlotCells(nodes, rows, row, 4) then 4
      else if x in SlotCells(nodes, rows, row, 5) then 5
      else if x in SlotCells(nodes, rows, row, 6) then 6
      else 7;
  }

  /** Every node appears in the table: node `k` has its name cell in data row
      `k mod rows` of its section. */
  lemma NodeShown(nodes: seq<Node>, k: nat)
    requires k < |nodes|
    ensures RowsFor(|nodes|) > 0 && k % RowsFor(|nodes|) < RowsFor(|nodes|)
    ensures Cell(Name, 1, Index(k)) in DataRow(nodes, RowsFor(|nodes|), k % RowsFor(|nodes|))
  {
    var rows := RowsFor(|nodes|);
    ColumnMajorPlacement(nodes, k);
    var cells := SlotCells(nodes, rows, k % rows, k / rows);
    assert cells[0] in cells;
    SlotInSlots(nodes, rows, k % rows, 0, k / rows, Cell(Name, 1, Index(k)));
  }

  /** And only there: a cell of a section's data row that shows node `k` sits
      in row `k mod rows`, in slot `k div rows`. */
  lemma NodeShownOnlyAtItsSlot(nodes: seq<Node>, row: nat, k: nat, x: Cell) returns (c: nat)
    requires row < RowsFor(|nodes|)
    requires x in DataRow(nodes, RowsFor(|nodes|), row) && x.content == Index(k)
    ensures c < SlotsPerRow && SlotIndex(RowsFor(|nodes|), row, c) == k
    ensures row == k % RowsFor(|nodes|) && c == k / RowsFor(|nodes|)
  {
    var rows := RowsFor(|nodes|);
    c := CellSlot(nodes, rows, row, x);
    SlotShowsOwnIndex(nodes, rows, row, c, k, x);
    ColumnMajorUnique(rows, row, c, k);
  }

  /** Quotient and remainder are unique. */
  lemma DivModUnique(k: int, d: int, q: int, r: int)
    requires d > 0 && 0 <= r < d && k == q * d + r
    ensures q == k / d && r == k % d
  {
    var q' := k / d;
    var r' := k % d;
    assert k == q' * d + r';
    if q > q' {
      MulLe(q' + 1, q, d);
    } else if q < q' {
      MulLe(q + 1, q', d);
    }
  }
}
