/**
 * The dependency sync on values: how `sync_tabs` reads NWB and NBR from the
 * grid tab, and the state it leaves each table in.
 */
module Sync {
  import opened Basics
  import opened Numerals
  import opened Cells
  import opened Catalog
  import opened ScalarTab
  import opened TableTab

  // ---------------------------------------------------------------------
  // Reading NWB and NBR
  // ---------------------------------------------------------------------

  /**
   * What the reading loop of `sync_tabs` leaves in its counter for `key`: the
   * value of the last pair labelled `key` whose value is a non-empty string
   * that parses as an integer, and 0 when there is none.
   */
  function DimValue(pairs: seq<Pair>, key: string): int
  {
    if pairs == [] then 0
    else
      var p := pairs[|pairs| - 1];
      if p.0 == key && p.1.Some? && p.1.value != "" && ParseInt(p.1.value).Some?
      then ParseInt(p.1.value).value
      else DimValue(pairs[..|pairs| - 1], key)
  }

  /** Reading one more pair: the counter takes its value when it is labelled `key` and parses. */
  lemma DimStep(pairs: seq<Pair>, i: nat, key: string)
    requires i < |pairs|
    ensures DimValue(pairs[..i + 1], key) ==
      var p := pairs[i];
      if p.0 == key && p.1.Some? && p.1.value != "" && ParseInt(p.1.value).Some?
      then ParseInt(p.1.value).value
      else DimValue(pairs[..i], key)
  {
    assert pairs[..i + 1][..i] == pairs[..i];
  }

  /** Without a pair labelled `key` the counter stays at 0. */
  lemma {:induction false} DimAbsent(pairs: seq<Pair>, key: string)
    requires forall i :: 0 <= i < |pairs| ==> pairs[i].0 != key
    ensures DimValue(pairs, key) == 0
  {
    if pairs != [] {
      DimAbsent(pairs[..|pairs| - 1], key);
    }
  }

  /** Pairs after the last one labelled `key` do not matter. */
  lemma {:induction false} DimLast(pairs: seq<Pair>, key: string, i: nat)
    requires i < |pairs|
    requires forall j :: i < j < |pairs| ==> pairs[j].0 != key
    ensures DimValue(pairs, key) == DimValue(pairs[..i + 1], key)
  {
    if i + 1 < |pairs| {
      var front := pairs[..|pairs| - 1];
      assert front[..i + 1] == pairs[..i + 1];
      DimLast(front, key, i);
    } else {
      assert pairs[..i + 1] == pairs;
    }
  }

  /**
   * The counter read from a tab whose only field labelled `key` is an integer
   * field: the field's value, or 0 while the field is at its minimum (then
   * the tab reports `None` for it).
   */
  lemma DimOfField(defs: seq<Def>, cells: seq<Cell>, i: nat, key: string)
    requires DefsOk(defs) && Fitted(defs, cells)
    requires i < |defs| && defs[i].name == key && defs[i].kind.Integer?
    requires forall j :: 0 <= j < |defs| && j != i ==> defs[j].name != key
    ensures DimValue(Pairs(defs, cells), key) ==
      if cells[i].value == defs[i].kind.min then 0 else cells[i].value
  {
    var pairs := Pairs(defs, cells);
    DimLast(pairs, key, i);
    var front := pairs[..i + 1];
    assert front[..i] == pairs[..i];
    DimAbsent(pairs[..i], key);
    if cells[i].value != defs[i].kind.min {
      ParseShowInt(cells[i].value);
    }
  }

  /** With the catalog's grid fields, NWB and NBR are the first two spin boxes. */
  lemma GridDims(cells: seq<Cell>)
    requires Fitted(GridFields, cells)
    ensures DimValue(Pairs(GridFields, cells), "NWB") == cells[0].value
    ensures DimValue(Pairs(GridFields, cells), "NBR") == cells[1].value
  {
    forall j | 1 <= j < |GridFields|
      ensures GridFields[j].name != "NWB"
    {
      if j == 1 {
        assert GridFields[j].name[1] != "NWB"[1];
      } else if j == 4 {
        assert GridFields[j].name[1] != "NWB"[1];
      }
    }
    forall j | 0 <= j < |GridFields| && j != 1
      ensures GridFields[j].name != "NBR"
    {
      if j == 0 || j == 4 {
        assert GridFields[j].name[1] != "NBR"[1];
      }
    }
    DimOfField(GridFields, cells, 0, "NWB");
    DimOfField(GridFields, cells, 1, "NBR");
  }

  // ---------------------------------------------------------------------
  // What `sync_tabs` does to one table
  // ---------------------------------------------------------------------

  /** The observable state of a table tab. */
  datatype TableState = TableState(rows: seq<Def>, columnCount: nat, headers: seq<string>, grid: seq<seq<Cell>>)

  predicate StateOk(s: TableState) {
    DefsOk(s.rows) && GridFits(s.rows, s.columnCount, s.grid)
  }

  /** The base rows followed by STRUCT_1..STRUCT_k, for some k. */
  predicate Shaped(base: seq<Def>, rows: seq<Def>) {
    |rows| >= |base| && rows == base + StructRows(|rows| - |base|)
  }

  /** Resizing table `name` to `max(1, m)` columns, keeping what fits. */
  function Resized(name: string, s: TableState, m: int): (t: TableState)
    requires StateOk(s)
    ensures StateOk(t) && t.rows == s.rows && t.columnCount == Max1(m)
  {
    TableState(s.rows, Max1(m), ColumnHeaders(name, Max1(m)), Refitted(s.rows, s.grid, m))
  }

  /** STRUCT rows are text rows, so adding them keeps the definitions well-formed. */
  lemma StructuredDefsOk(base: seq<Def>, k: nat)
    requires DefsOk(base)
    ensures DefsOk(base + StructRows(k))
  {
    var rows := base + StructRows(k);
    forall i | 0 <= i < |rows|
      ensures KindOk(rows[i].kind)
    {
      if i >= |base| {
        assert rows[i] == StructRows(k)[i - |base|];
      }
    }
  }

  /**
   * The Structures step of `sync_tabs`: when the NSTR maximum differs from the
   * number of rows beyond the base rows, the rows become the base rows
   * followed by STRUCT_1..STRUCT_k, restored by row index at the current width.
   */
  function Restructured(base: seq<Def>, s: TableState): (t: TableState)
    requires DefsOk(base) && StateOk(s)
    ensures StateOk(t)
    ensures Shaped(base, s.rows) ==> t.rows == base + StructRows(NstrCount(s.rows, s.grid))
    ensures t == s || (t.columnCount == Max1(s.columnCount)
                       && t.headers == ColumnHeaders(StructuresTab, Max1(s.columnCount)))
    ensures t == s <==> NstrCount(s.rows, s.grid) == (if |s.rows| > |base| then |s.rows| - |base| else 0)
  {
    var k := NstrCount(s.rows, s.grid);
    var current := if |s.rows| > |base| then |s.rows| - |base| else 0;
    if k == current then s
    else
      var newRows := base + StructRows(k);
      StructuredDefsOk(base, k);
      TableState(newRows, Max1(s.columnCount), ColumnHeaders(StructuresTab, Max1(s.columnCount)),
                 Rebuilt(s.rows, s.grid, newRows, s.columnCount))
  }

  /** The state `sync_tabs` leaves table `name` (base rows `base`) in, given NWB and NBR. */
  function Synced(name: string, base: seq<Def>, s: TableState, nwb: int, nbr: int): (t: TableState)
    requires DefsOk(base) && StateOk(s)
    ensures StateOk(t)
    ensures name in NwbTabs ==> t.rows == s.rows && t.columnCount == Max1(nwb)
    ensures name in NbrTabs ==> t.columnCount == Max1(nbr)
    ensures name in NbrTabs && name != StructuresTab ==> t.rows == s.rows
    ensures name !in NwbTabs && name !in NbrTabs ==> t == s
  {
    CategoriesDisjoint();
    if name in NwbTabs then Resized(name, s, nwb)
    else if name == StructuresTab then Restructured(base, Resized(name, s, nbr))
    else if name in NbrTabs then Resized(name, s, nbr)
    else s
  }

  // ---------------------------------------------------------------------
  // Properties of the sync
  // ---------------------------------------------------------------------

  /** Resizing a table to the width it already has changes nothing. */
  lemma RefitFixpoint(rows: seq<Def>, n: nat, grid: seq<seq<Cell>>, m: int)
    requires DefsOk(rows) && GridFits(rows, n, grid) && AllOptionsDistinct(rows) && n == Max1(m)
    ensures Refitted(rows, grid, m) == grid
  {
    RefitKeepsOverlap(rows, n, grid, m);
    var g := Refitted(rows, grid, m);
    forall r | 0 <= r < |rows|
      ensures g[r] == grid[r]
    {
      assert forall c :: 0 <= c < n ==> g[r][c] == grid[r][c];
    }
  }

  /** A table already resized to `max(1, m)` is left as it is by another resize to `m`. */
  lemma ResizedNoop(name: string, t: TableState, m: int)
    requires StateOk(t) && AllOptionsDistinct(t.rows)
    requires t.columnCount == Max1(m) && t.headers == ColumnHeaders(name, Max1(m))
    ensures Resized(name, t, m) == t
  {
    RefitFixpoint(t.rows, t.columnCount, t.grid, m);
  }

  /** The STRUCT rows are never labelled NSTR, so the NSTR row is always a base row. */
  lemma {:induction false} NstrInBase(base: seq<Def>, k: nat)
    ensures FirstNamed(base + StructRows(k), "NSTR") == FirstNamed(base, "NSTR")
  {
    var s := StructRows(k);
    if base == [] {
      assert base + s == s;
    } else if base[0].name != "NSTR" {
      assert (base + s)[1..] == base[1..] + s;
      NstrInBase(base[1..], k);
    }
  }

  /** Text rows have no options, so adding STRUCT rows keeps every combo box duplicate-free. */
  lemma StructRowsDistinct(base: seq<Def>, k: nat)
    requires AllOptionsDistinct(base)
    ensures AllOptionsDistinct(base + StructRows(k))
  {
    var rows := base + StructRows(k);
    forall i | 0 <= i < |rows|
      ensures OptionsDistinct(rows[i].kind)
    {
      if i >= |base| {
        assert rows[i] == StructRows(k)[i - |base|];
      }
    }
  }

  /** Row `i` has the same kind in two STRUCT-extended row lists that both reach it. */
  lemma StructKindsAgree(base: seq<Def>, j: nat, k: nat, i: nat)
    requires i < |base| + j && i < |base| + k
    ensures (base + StructRows(j))[i].kind == (base + StructRows(k))[i].kind
  {
    if i >= |base| {
      assert (base + StructRows(j))[i] == StructRows(j)[i - |base|];
      assert (base + StructRows(k))[i] == StructRows(k)[i - |base|];
    }
  }

  /**
   * When Structures goes from j to k STRUCT rows, every base row and each of
   * STRUCT_1..STRUCT_min(j, k) keeps its encoded values in every column.
   */
  lemma RestructuredKeepsRows(base: seq<Def>, s: TableState, j: nat)
    requires DefsOk(base) && StateOk(s) && s.rows == base + StructRows(j)
    ensures
      var t := Restructured(base, s);
      var k := NstrCount(s.rows, s.grid);
      forall i, c :: 0 <= i < |base| + (if j < k then j else k) && 0 <= c < s.columnCount ==>
        CellText(t.rows[i].kind, t.grid[i][c]) == CellText(s.rows[i].kind, s.grid[i][c])
  {
    var t := Restructured(base, s);
    var k := NstrCount(s.rows, s.grid);
    var m := if j < k then j else k;
    if k == j {
      assert t == s;
    } else {
      var newRows := base + StructRows(k);
      StructuredDefsOk(base, k);
      assert t.rows == newRows && t.grid == Rebuilt(s.rows, s.grid, newRows, s.columnCount);
      forall i, c | 0 <= i < |base| + m && 0 <= c < s.columnCount
        ensures CellText(t.rows[i].kind, t.grid[i][c]) == CellText(s.rows[i].kind, s.grid[i][c])
      {
        StructKindsAgree(base, j, k, i);
        RebuiltKeepsRow(s.rows, s.columnCount, s.grid, newRows, i);
      }
    }
  }

  /** Rebuilding Structures keeps its NSTR row, so the NSTR maximum stays the same. */
  lemma NstrKept(base: seq<Def>, s: TableState, k: nat)
    requires DefsOk(base) && StateOk(s) && Shaped(base, s.rows) && s.columnCount >= 1
    requires DefsOk(base + StructRows(k))
    ensures
      var newRows := base + StructRows(k);
      NstrCount(newRows, Rebuilt(s.rows, s.grid, newRows, s.columnCount)) == NstrCount(s.rows, s.grid)
  {
    var newRows := base + StructRows(k);
    var j := |s.rows| - |base|;
    assert s.rows == base + StructRows(j);
    NstrInBase(base, j);
    NstrInBase(base, k);
    var f := FirstNamed(base, "NSTR");
    if f.Some? {
      var i := f.value;
      assert newRows[i] == base[i] && s.rows[i] == base[i];
      if base[i].kind.Integer? {
        RebuiltRowSame(s.rows, s.columnCount, s.grid, newRows, i);
      }
    }
  }

  /** After one Structures step the NSTR maximum equals the number of STRUCT rows. */
  lemma RestructuredStable(base: seq<Def>, s: TableState)
    requires DefsOk(base) && StateOk(s) && Shaped(base, s.rows) && s.columnCount >= 1
    ensures Restructured(base, Restructured(base, s)) == Restructured(base, s)
  {
    var t := Restructured(base, s);
    var k := NstrCount(s.rows, s.grid);
    if k != |s.rows| - |base| {
      StructuredDefsOk(base, k);
      NstrKept(base, s, k);
      assert |t.rows| == |base| + k;
    }
  }

  /**
   * Syncing twice is syncing once: with the same NWB and NBR, a second
   * `sync_tabs` (each click on the tab list runs one) changes no table.
   */
  lemma SyncedFixpoint(name: string, base: seq<Def>, s: TableState, nwb: int, nbr: int)
    requires DefsOk(base) && StateOk(s) && AllOptionsDistinct(base) && AllOptionsDistinct(s.rows)
    requires name == StructuresTab ==> Shaped(base, s.rows)
    ensures
      var t := Synced(name, base, s, nwb, nbr);
      Synced(name, base, t, nwb, nbr) == t
  {
    CategoriesDisjoint();
    var t := Synced(name, base, s, nwb, nbr);
    if name in NwbTabs {
      ResizedNoop(name, t, nwb);
    } else if name == StructuresTab {
      var r := Resized(name, s, nbr);
      RestructuredStable(base, r);
      StructRowsDistinct(base, NstrCount(r.rows, r.grid));
      ResizedNoop(name, t, nbr);
    } else if name in NbrTabs {
      ResizedNoop(name, t, nbr);
    }
  }
}
