/**
 * A table tab: one row per row definition, `columnCount` typed cells per row.
 * Its data payload is row-major: each row is its label followed by one
 * encoded string per column.
 */
module TableTab {
  import opened Basics
  import opened Cells
  import opened Catalog

  // ---------------------------------------------------------------------
  // Shapes
  // ---------------------------------------------------------------------

  predicate CellsFit(k: Kind, cells: seq<Cell>) {
    forall c :: 0 <= c < |cells| ==> Fits(k, cells[c])
  }

  /** One row of `n` well-formed cells for every row definition. */
  predicate GridFits(rows: seq<Def>, n: nat, grid: seq<seq<Cell>>) {
    && |grid| == |rows|
    && forall r :: 0 <= r < |rows| ==> |grid[r]| == n && CellsFit(rows[r].kind, grid[r])
  }

  /** The shape of a grid without fixing its width. */
  predicate RowsFit(rows: seq<Def>, grid: seq<seq<Cell>>) {
    && |grid| == |rows|
    && forall r :: 0 <= r < |rows| ==> CellsFit(rows[r].kind, grid[r])
  }

  /** `s[1:]`, which Python also allows on an empty list. */
  function Tail<T>(s: seq<T>): (t: seq<T>)
    ensures |t| == if |s| == 0 then 0 else |s| - 1
    ensures forall i :: 0 <= i < |t| ==> t[i] == s[i + 1]
  {
    if |s| == 0 then [] else s[1..]
  }

  // ---------------------------------------------------------------------
  // Specification of the table operations
  // ---------------------------------------------------------------------

  /** A freshly built row of `n` cells. */
  function DefaultRow(k: Kind, n: nat): (cells: seq<Cell>)
    requires KindOk(k)
    ensures |cells| == n && CellsFit(k, cells)
    ensures forall c :: 0 <= c < n ==> cells[c] == Default(k)
  {
    if n == 0 then [] else DefaultRow(k, n - 1) + [Default(k)]
  }

  /** The grid `clear_fields` leaves: every cell at its cleared state. */
  function DefaultGrid(rows: seq<Def>, n: nat): (grid: seq<seq<Cell>>)
    requires DefsOk(rows)
    ensures GridFits(rows, n, grid)
    ensures forall r :: 0 <= r < |rows| ==> grid[r] == DefaultRow(rows[r].kind, n)
  {
    if rows == [] then [] else [DefaultRow(rows[0].kind, n)] + DefaultGrid(rows[1..], n)
  }

  /** A row of `n` newly built cells. */
  function FreshRow(k: Kind, n: nat): (cells: seq<Cell>)
    requires KindOk(k)
    ensures |cells| == n && CellsFit(k, cells)
    ensures forall c :: 0 <= c < n ==> cells[c] == Fresh(k)
  {
    if n == 0 then [] else FreshRow(k, n - 1) + [Fresh(k)]
  }

  /** The grid `set_columns(n)` builds: one row of `n` newly built cells per definition. */
  function FreshGrid(rows: seq<Def>, n: nat): (grid: seq<seq<Cell>>)
    requires DefsOk(rows)
    ensures GridFits(rows, n, grid)
    ensures forall r :: 0 <= r < |rows| ==> grid[r] == FreshRow(rows[r].kind, n)
  {
    if rows == [] then [] else [FreshRow(rows[0].kind, n)] + FreshGrid(rows[1..], n)
  }

  /** The encoded strings of one row's cells. */
  function Texts(k: Kind, cells: seq<Cell>): (ts: seq<string>)
    requires CellsFit(k, cells)
    ensures |ts| == |cells|
    ensures forall c :: 0 <= c < |cells| ==> ts[c] == CellText(k, cells[c])
  {
    if cells == [] then [] else [CellText(k, cells[0])] + Texts(k, cells[1..])
  }

  /** What `get_data` reports: per row, its label, then one string per column. */
  function Encode(rows: seq<Def>, grid: seq<seq<Cell>>): (data: seq<seq<string>>)
    requires RowsFit(rows, grid)
    ensures |data| == |rows|
    ensures forall r :: 0 <= r < |rows| ==>
      |data[r]| == |grid[r]| + 1 && data[r][0] == rows[r].name && Tail(data[r]) == Texts(rows[r].kind, grid[r])
  {
    if rows == [] then []
    else [[rows[0].name] + Texts(rows[0].kind, grid[0])] + Encode(rows[1..], grid[1..])
  }

  /** Row `r` of the payload is the row's label followed by its cells' texts. */
  lemma EncodeRows(rows: seq<Def>, grid: seq<seq<Cell>>)
    requires RowsFit(rows, grid)
    ensures forall r :: 0 <= r < |rows| ==> Encode(rows, grid)[r] == [rows[r].name] + Texts(rows[r].kind, grid[r])
  {
    var data := Encode(rows, grid);
    forall r | 0 <= r < |rows|
      ensures data[r] == [rows[r].name] + Texts(rows[r].kind, grid[r])
    {
      assert data[r] == [data[r][0]] + Tail(data[r]);
    }
  }

  /** One row of `set_data`: value `c` goes to column `c`; surplus values are ignored. */
  function RestoreRow(k: Kind, cells: seq<Cell>, vals: seq<string>): (r: seq<Cell>)
    requires KindOk(k) && CellsFit(k, cells)
    ensures |r| == |cells| && CellsFit(k, r)
    ensures forall c :: 0 <= c < |cells| ==>
      r[c] == if c < |vals| then SetText(k, cells[c], vals[c]) else cells[c]
  {
    if cells == [] then []
    else if vals == [] then cells
    else [SetText(k, cells[0], vals[0])] + RestoreRow(k, cells[1..], vals[1..])
  }

  /** Positional restore: row `r` takes the values of payload row `r`; rows beyond the payload stay. */
  function RestoreRows(rows: seq<Def>, grid: seq<seq<Cell>>, data: seq<seq<string>>): (g: seq<seq<Cell>>)
    requires DefsOk(rows) && RowsFit(rows, grid)
    ensures |g| == |rows|
    ensures forall r :: 0 <= r < |rows| ==>
      g[r] == if r < |data| then RestoreRow(rows[r].kind, grid[r], Tail(data[r])) else grid[r]
  {
    if rows == [] then []
    else if data == [] then grid
    else [RestoreRow(rows[0].kind, grid[0], Tail(data[0]))] + RestoreRows(rows[1..], grid[1..], data[1..])
  }

  /** The grid after `set_data(data)`; an empty payload clears the table. */
  function Restore(rows: seq<Def>, n: nat, grid: seq<seq<Cell>>, data: seq<seq<string>>): (g: seq<seq<Cell>>)
    requires DefsOk(rows) && GridFits(rows, n, grid)
    ensures GridFits(rows, n, g)
  {
    if data == [] then DefaultGrid(rows, n) else RestoreRows(rows, grid, data)
  }

  /** The grid after the capture / `set_columns(m)` / restore sequence. */
  function Refitted(rows: seq<Def>, grid: seq<seq<Cell>>, m: int): (g: seq<seq<Cell>>)
    requires DefsOk(rows) && RowsFit(rows, grid)
    ensures GridFits(rows, Max1(m), g)
  {
    Restore(rows, Max1(m), FreshGrid(rows, Max1(m)), Encode(rows, grid))
  }

  /** The grid after `set_row_definitions(newRows)` on a table of `n` columns. */
  function Rebuilt(oldRows: seq<Def>, grid: seq<seq<Cell>>, newRows: seq<Def>, n: nat): (g: seq<seq<Cell>>)
    requires RowsFit(oldRows, grid) && DefsOk(newRows)
    ensures GridFits(newRows, Max1(n), g)
  {
    Restore(newRows, Max1(n), FreshGrid(newRows, Max1(n)), Encode(oldRows, grid))
  }

  // ---------------------------------------------------------------------
  // Properties
  // ---------------------------------------------------------------------

  predicate AllOptionsDistinct(rows: seq<Def>) {
    forall r :: 0 <= r < |rows| ==> OptionsDistinct(rows[r].kind)
  }

  /**
   * `set_data(get_data())` leaves the table as it was; the payload brings the
   * cells back into a table of the same rows and width whatever its cells held.
   */
  lemma {:induction false} TableRoundTrip(rows: seq<Def>, n: nat, grid: seq<seq<Cell>>, start: seq<seq<Cell>>)
    requires DefsOk(rows) && GridFits(rows, n, grid) && GridFits(rows, n, start) && AllOptionsDistinct(rows)
    ensures Restore(rows, n, start, Encode(rows, grid)) == grid
  {
    var data := Encode(rows, grid);
    if rows != [] {
      var g := RestoreRows(rows, start, data);
      forall r | 0 <= r < |rows|
        ensures g[r] == grid[r]
      {
        var k := rows[r].kind;
        var row := RestoreRow(k, start[r], Tail(data[r]));
        forall c | 0 <= c < n
          ensures row[c] == grid[r][c]
        {
          TextRestores(k, grid[r][c], start[r][c]);
        }
      }
    }
  }

  /**
   * Resizing through capture / `set_columns(m)` / restore: the table is `max(1, m)`
   * wide; every cell in a column that existed before keeps its encoded value
   * (and its state, when no combo box repeats an option); every new column
   * holds newly built cells.
   */
  lemma {:induction false} RefitKeepsOverlap(rows: seq<Def>, n: nat, grid: seq<seq<Cell>>, m: int)
    requires DefsOk(rows) && GridFits(rows, n, grid)
    ensures GridFits(rows, Max1(m), Refitted(rows, grid, m))
    ensures forall r, c :: 0 <= r < |rows| && 0 <= c < Max1(m) ==>
      var k := rows[r].kind;
      var cell := Refitted(rows, grid, m)[r][c];
      (c < n ==> CellText(k, cell) == CellText(k, grid[r][c])
                 && (OptionsDistinct(k) ==> cell == grid[r][c])) &&
      (c >= n ==> cell == Fresh(k))
  {
    var w := Max1(m);
    var g := Refitted(rows, grid, m);
    var data := Encode(rows, grid);
    var blank := FreshGrid(rows, w);
    forall r, c | 0 <= r < |rows| && 0 <= c < w
      ensures
        var k := rows[r].kind;
        (c < n ==> CellText(k, g[r][c]) == CellText(k, grid[r][c])
                   && (OptionsDistinct(k) ==> g[r][c] == grid[r][c])) &&
        (c >= n ==> g[r][c] == Fresh(k))
    {
      var k := rows[r].kind;
      assert g == RestoreRows(rows, blank, data);
      assert g[r] == RestoreRow(k, blank[r], Tail(data[r]));
      if c < n {
        assert g[r][c] == SetText(k, Fresh(k), CellText(k, grid[r][c]));
        TextSurvives(k, grid[r][c], Fresh(k));
        if OptionsDistinct(k) {
          TextRestores(k, grid[r][c], Fresh(k));
        }
      }
    }
  }

  /**
   * Replacing the row definitions restores by row index: a row that existed
   * before at the same index gets the old row's encoded strings written into
   * newly built cells of its new kind; every other cell is newly built, except
   * that a table that had no rows reports no data, and `set_data` then clears
   * every new cell. The width is `max(1, n)`.
   */
  lemma {:induction false} RebuiltByIndex(oldRows: seq<Def>, n: nat, grid: seq<seq<Cell>>, newRows: seq<Def>)
    requires DefsOk(oldRows) && GridFits(oldRows, n, grid) && DefsOk(newRows)
    ensures forall r, c :: 0 <= r < |newRows| && 0 <= c < Max1(n) ==>
      var k := newRows[r].kind;
      Rebuilt(oldRows, grid, newRows, n)[r][c] ==
        if r < |oldRows| && c < n then SetText(k, Fresh(k), CellText(oldRows[r].kind, grid[r][c]))
        else if oldRows == [] then Default(k)
        else Fresh(k)
  {
    var w := Max1(n);
    var g := Rebuilt(oldRows, grid, newRows, n);
    var data := Encode(oldRows, grid);
    var blank := FreshGrid(newRows, w);
    if oldRows == [] {
      assert g == DefaultGrid(newRows, w);
    } else {
      assert g == RestoreRows(newRows, blank, data);
    }
  }

  /** A row kept at its index with its kind unchanged keeps every cell's encoded value. */
  lemma RebuiltKeepsRow(oldRows: seq<Def>, n: nat, grid: seq<seq<Cell>>, newRows: seq<Def>, r: nat)
    requires DefsOk(oldRows) && GridFits(oldRows, n, grid) && DefsOk(newRows)
    requires r < |oldRows| && r < |newRows| && oldRows[r].kind == newRows[r].kind
    ensures forall c :: 0 <= c < n ==>
      var k := newRows[r].kind;
      CellText(k, Rebuilt(oldRows, grid, newRows, n)[r][c]) == CellText(k, grid[r][c])
      && (OptionsDistinct(k) ==> Rebuilt(oldRows, grid, newRows, n)[r][c] == grid[r][c])
  {
    RebuiltByIndex(oldRows, n, grid, newRows);
    var k := newRows[r].kind;
    forall c | 0 <= c < n
      ensures CellText(k, Rebuilt(oldRows, grid, newRows, n)[r][c]) == CellText(k, grid[r][c])
      ensures OptionsDistinct(k) ==> Rebuilt(oldRows, grid, newRows, n)[r][c] == grid[r][c]
    {
      TextSurvives(k, grid[r][c], Fresh(k));
      if OptionsDistinct(k) {
        TextRestores(k, grid[r][c], Fresh(k));
      }
    }
  }

  /** A row of a kind without repeated options, kept at its index and kind, comes back unchanged. */
  lemma RebuiltRowSame(oldRows: seq<Def>, n: nat, grid: seq<seq<Cell>>, newRows: seq<Def>, r: nat)
    requires DefsOk(oldRows) && GridFits(oldRows, n, grid) && DefsOk(newRows) && n >= 1
    requires r < |oldRows| && r < |newRows| && oldRows[r].kind == newRows[r].kind
    requires OptionsDistinct(newRows[r].kind)
    ensures Rebuilt(oldRows, grid, newRows, n)[r] == grid[r]
  {
    RebuiltKeepsRow(oldRows, n, grid, newRows, r);
    var row := Rebuilt(oldRows, grid, newRows, n)[r];
    assert |row| == n;
    assert forall c :: 0 <= c < n ==> row[c] == grid[r][c];
  }

  // ---------------------------------------------------------------------
  // The NSTR row: how many structures the widest branch declares
  // ---------------------------------------------------------------------

  /** `next(idx for idx, rd in enumerate(rows) if rd["label"] == name)`, or `None`. */
  function FirstNamed(rows: seq<Def>, name: string): (r: Option<nat>)
    ensures r.Some? ==> r.value < |rows| && rows[r.value].name == name
                        && forall j :: 0 <= j < r.value ==> rows[j].name != name
    ensures r.None? ==> forall j :: 0 <= j < |rows| ==> rows[j].name != name
  {
    if rows == [] then None
    else if rows[0].name == name then Some(0)
    else match FirstNamed(rows[1..], name)
      case None => None
      case Some(i) => Some(i + 1)
  }

  /** The largest value in a row of integer cells, starting from 0. */
  function ColumnMax(k: Kind, cells: seq<Cell>): (m: nat)
    requires k.Integer? && CellsFit(k, cells)
    ensures forall c :: 0 <= c < |cells| ==> cells[c].value <= m
    ensures m == 0 || exists c :: 0 <= c < |cells| && cells[c].value == m
  {
    if cells == [] then 0
    else
      var m := ColumnMax(k, cells[..|cells| - 1]);
      var v := cells[|cells| - 1].value;
      if v > m then v else m
  }

  /** `max_nstr`: the maximum over columns of the first row labelled NSTR, 0 without one. */
  function NstrCount(rows: seq<Def>, grid: seq<seq<Cell>>): (k: nat)
    requires RowsFit(rows, grid)
  {
    match FirstNamed(rows, "NSTR")
    case None => 0
    case Some(i) => if rows[i].kind.Integer? then ColumnMax(rows[i].kind, grid[i]) else 0
  }

  // ---------------------------------------------------------------------
  // The table widget
  // ---------------------------------------------------------------------

  class TabularDataTab {
    /** The tab's title; it decides the header prefix. */
    const name: string
    /** The row definitions the tab was built with. */
    const baseRows: seq<Def>
    var rows: seq<Def>
    var columnCount: nat
    var headers: seq<string>
    var grid: seq<seq<Cell>>

    ghost predicate Valid()
      reads this
    {
      DefsOk(baseRows) && DefsOk(rows) && GridFits(rows, columnCount, grid)
    }

    /** The table as built: one row per definition and no columns yet. */
    constructor (rows: seq<Def>, name: string)
      requires DefsOk(rows)
      ensures Valid()
      ensures this.name == name && baseRows == rows && this.rows == rows
      ensures columnCount == 0 && headers == [] && grid == FreshGrid(rows, 0)
    {
      this.name := name;
      baseRows := rows;
      this.rows := rows;
      columnCount := 0;
      headers := [];
      grid := FreshGrid(rows, 0);
    }

    /**
     * `set_columns(n)`: the width becomes `max(1, n)`, the headers follow the
     * tab's category and every cell is replaced by a newly built widget.
     */
    method SetColumns(n: int)
      requires DefsOk(baseRows) && DefsOk(rows)
      modifies this
      ensures Valid() && rows == old(rows)
      ensures columnCount == Max1(n)
      ensures headers == ColumnHeaders(name, columnCount)
      ensures grid == FreshGrid(rows, columnCount)
    {
      var width := Max1(n);
      columnCount := width;
      headers := ColumnHeaders(name, width);
      var g: seq<seq<Cell>> := [];
      var r := 0;
      while r < |rows|
        invariant 0 <= r <= |rows|
        invariant |g| == r
        invariant forall i :: 0 <= i < r ==> g[i] == FreshRow(rows[i].kind, width)
      {
        var k := rows[r].kind;
        var row: seq<Cell> := [];
        var c := 0;
        while c < width
          invariant 0 <= c <= width
          invariant |row| == c
          invariant forall j :: 0 <= j < c ==> row[j] == Fresh(k)
        {
          row := row + [Fresh(k)];
          c := c + 1;
        }
        g := g + [row];
        r := r + 1;
      }
      grid := g;
    }

    /** `get_data`: the row-major payload. */
    method GetData() returns (data: seq<seq<string>>)
      requires Valid()
      ensures data == Encode(rows, grid)
    {
      EncodeRows(rows, grid);
      data := [];
      var r := 0;
      while r < |rows|
        invariant 0 <= r <= |rows|
        invariant |data| == r
        invariant forall i :: 0 <= i < r ==> data[i] == [rows[i].name] + Texts(rows[i].kind, grid[i])
      {
        var rowData := RowData(r);
        data := data + [rowData];
        r := r + 1;
      }
    }

    /** One row of `get_data`: the row's label, then each column's text. */
    method RowData(r: nat) returns (rowData: seq<string>)
      requires Valid() && r < |rows|
      ensures rowData == [rows[r].name] + Texts(rows[r].kind, grid[r])
    {
      var k := rows[r].kind;
      rowData := [rows[r].name];
      var c := 0;
      while c < columnCount
        invariant 0 <= c <= columnCount
        invariant |rowData| == c + 1 && rowData[0] == rows[r].name
        invariant forall j :: 0 <= j < c ==> rowData[j + 1] == CellText(k, grid[r][j])
      {
        rowData := rowData + [CellText(k, grid[r][c])];
        c := c + 1;
      }
    }

    /** `clear_fields`: every cell of the current shape cleared. */
    method ClearFields()
      requires Valid()
      modifies this
      ensures Valid() && rows == old(rows) && columnCount == old(columnCount) && headers == old(headers)
      ensures grid == DefaultGrid(rows, columnCount)
    {
      var r := 0;
      while r < |rows|
        invariant 0 <= r <= |rows|
        invariant Valid() && rows == old(rows) && columnCount == old(columnCount) && headers == old(headers)
        invariant forall i :: 0 <= i < r ==> grid[i] == DefaultRow(rows[i].kind, columnCount)
      {
        var k := rows[r].kind;
        var c := 0;
        while c < columnCount
          invariant 0 <= c <= columnCount
          invariant Valid() && rows == old(rows) && columnCount == old(columnCount) && headers == old(headers)
          invariant forall i :: 0 <= i < r ==> grid[i] == DefaultRow(rows[i].kind, columnCount)
          invariant forall j :: 0 <= j < c ==> grid[r][j] == Default(k)
        {
          grid := grid[r := grid[r][c := Default(k)]];
          c := c + 1;
        }
        r := r + 1;
      }
    }

    /**
     * `set_data`: an empty payload clears the table; otherwise row `r` (while
     * `r` is within the payload) takes `data[r][c + 1]` into column `c` for
     * each column the table has; cells the payload does not reach stay.
     */
    method SetData(data: seq<seq<string>>)
      requires Valid()
      modifies this
      ensures Valid() && rows == old(rows) && columnCount == old(columnCount) && headers == old(headers)
      ensures grid == Restore(rows, columnCount, old(grid), data)
    {
      if data == [] {
        ClearFields();
        return;
      }
      var r := 0;
      while r < |rows|
        invariant 0 <= r <= |rows|
        invariant Valid() && rows == old(rows) && columnCount == old(columnCount) && headers == old(headers)
        invariant forall i :: 0 <= i < r ==>
          grid[i] == if i < |data| then RestoreRow(rows[i].kind, old(grid)[i], Tail(data[i])) else old(grid)[i]
        invariant forall i :: r <= i < |rows| ==> grid[i] == old(grid)[i]
      {
        if r < |data| {
          var k := rows[r].kind;
          var values := Tail(data[r]);
          var row := grid[r];
          var c := 0;
          while c < |values|
            invariant 0 <= c <= |values|
            invariant |row| == columnCount
            invariant forall j :: 0 <= j < columnCount ==>
              row[j] == if j < c then SetText(k, old(grid)[r][j], values[j]) else old(grid)[r][j]
          {
            if c < columnCount {
              row := row[c := SetText(k, row[c], values[c])];
            }
            c := c + 1;
          }
          assert row == RestoreRow(k, old(grid)[r], values);
          grid := grid[r := row];
        }
        r := r + 1;
      }
    }

    /**
     * `set_row_definitions`: capture the payload, install the new rows,
     * rebuild at the current width (at least one), restore by row index.
     */
    method SetRowDefinitions(newRows: seq<Def>)
      requires Valid() && DefsOk(newRows)
      modifies this
      ensures Valid() && rows == newRows
      ensures columnCount == Max1(old(columnCount))
      ensures headers == ColumnHeaders(name, columnCount)
      ensures grid == Rebuilt(old(rows), old(grid), newRows, old(columnCount))
    {
      var currentData := GetData();
      var currentColumns := columnCount;
      rows := newRows;
      SetColumns(currentColumns);
      SetData(currentData);
    }

    /** The capture / `set_columns(n)` / restore sequence `sync_tabs` runs on each dependent table. */
    method Refit(n: int)
      requires Valid()
      modifies this
      ensures Valid() && rows == old(rows)
      ensures columnCount == Max1(n)
      ensures headers == ColumnHeaders(name, columnCount)
      ensures grid == Refitted(rows, old(grid), n)
    {
      var currentData := GetData();
      SetColumns(n);
      SetData(currentData);
    }

    /** The `max_nstr` loop of `sync_tabs`, which reads this table. */
    method NstrMax() returns (k: nat)
      requires Valid()
      ensures k == NstrCount(rows, grid)
    {
      k := 0;
      var index: Option<nat> := None;
      var i := 0;
      while i < |rows| && index.None?
        invariant 0 <= i <= |rows|
        invariant index.None? ==> forall j :: 0 <= j < i ==> rows[j].name != "NSTR"
        invariant index.Some? ==> index == FirstNamed(rows, "NSTR")
      {
        if rows[i].name == "NSTR" {
          index := Some(i);
        }
        i := i + 1;
      }
      if index.Some? {
        var r := index.value;
        var kind := rows[r].kind;
        if kind.Integer? {
          var c := 0;
          while c < columnCount
            invariant 0 <= c <= columnCount
            invariant k == ColumnMax(kind, grid[r][..c])
          {
            assert grid[r][..c + 1][..c] == grid[r][..c];
            if grid[r][c].value > k {
              k := grid[r][c].value;
            }
            c := c + 1;
          }
          assert grid[r][..columnCount] == grid[r];
        }
      }
    }
  }
}
