/**
 * The two serialisations of a tab, without the file I/O: the rows the CSV
 * export writes, and the per-tab payload of the saved JSON state.
 */
module Flatten {
  import opened Basics
  import opened Cells
  import opened Catalog
  import opened ScalarTab
  import opened TableTab

  // ---------------------------------------------------------------------
  // CSV export
  // ---------------------------------------------------------------------

  /** The labels row of a scalar tab. */
  function Labels(pairs: seq<Pair>): (ls: seq<string>)
    ensures |ls| == |pairs|
    ensures forall i :: 0 <= i < |pairs| ==> ls[i] == pairs[i].0
  {
    if pairs == [] then [] else [pairs[0].0] + Labels(pairs[1..])
  }

  /** The values row of a scalar tab: `None` written as "". */
  function Values(pairs: seq<Pair>): (vs: seq<string>)
    ensures |vs| == |pairs|
    ensures forall i :: 0 <= i < |pairs| ==>
      vs[i] == match pairs[i].1 case None => "" case Some(v) => v
  {
    if pairs == [] then []
    else [match pairs[0].1 case None => "" case Some(v) => v] + Values(pairs[1..])
  }

  /**
   * A scalar tab's CSV block (the blank separator row is added by the caller):
   * a row of labels over a row of values, one column per field, with "" for a
   * field that reported `None`.
   */
  function ScalarBlock(pairs: seq<Pair>): (b: seq<seq<string>>)
    ensures |b| == 2 && |b[0]| == |pairs| && |b[1]| == |pairs|
    ensures forall i :: 0 <= i < |pairs| ==> b[0][i] == pairs[i].0
    ensures forall i :: 0 <= i < |pairs| ==> b[1][i] == if pairs[i].1.None? then "" else pairs[i].1.value
  {
    [Labels(pairs), Values(pairs)]
  }

  /** Every payload row without its label. */
  function Tails(data: seq<seq<string>>): (ts: seq<seq<string>>)
    ensures |ts| == |data|
    ensures forall r :: 0 <= r < |data| ==> ts[r] == Tail(data[r])
  {
    if data == [] then [] else [Tail(data[0])] + Tails(data[1..])
  }

  /**
   * A table's CSV block: nothing for an empty payload, otherwise the header
   * row for the width of the first row, then each row without its label.
   */
  function TableBlock(tab: string, data: seq<seq<string>>): (b: seq<seq<string>>)
    ensures data == [] ==> b == []
    ensures data != [] ==> |b| == |data| + 1 && b[0] == CsvHeaders(tab, |Tail(data[0])|)
    ensures data != [] ==> forall r :: 0 <= r < |data| ==> b[r + 1] == Tail(data[r])
  {
    if data == [] then [] else [CsvHeaders(tab, |Tail(data[0])|)] + Tails(data)
  }

  /**
   * The CSV block of a scalar tab determines what `get_data` reported: a label
   * per field, and "" exactly where the value was `None`.
   */
  lemma ScalarBlockReadsBack(defs: seq<Def>, cells: seq<Cell>)
    requires DefsOk(defs) && Fitted(defs, cells)
    requires forall i :: 0 <= i < |defs| ==> OptionsNonEmpty(defs[i].kind)
    ensures
      var pairs := Pairs(defs, cells);
      var b := ScalarBlock(pairs);
      |b[0]| == |defs| && |b[1]| == |defs| &&
      forall i :: 0 <= i < |defs| ==>
        pairs[i] == (b[0][i], if b[1][i] == "" then None else Some(b[1][i]))
  {
    var pairs := Pairs(defs, cells);
    forall i | 0 <= i < |defs|
      ensures pairs[i].1 != Some("")
    {
      ScalarValueNotEmpty(defs[i].kind, cells[i]);
    }
  }

  /**
   * The CSV block of a non-empty table: a header row of one entry per column
   * (WBi / BRi) or an empty header row for other tabs, then the payload rows,
   * which give back `get_data` once their labels are put in front.
   */
  lemma TableBlockReadsBack(tab: string, rows: seq<Def>, n: nat, grid: seq<seq<Cell>>)
    requires GridFits(rows, n, grid) && rows != []
    ensures
      var data := Encode(rows, grid);
      var b := TableBlock(tab, data);
      |b| == |rows| + 1 &&
      |b[0]| == (if tab in NwbTabs || tab in NbrTabs then n else 0) &&
      forall r :: 0 <= r < |rows| ==> [rows[r].name] + b[r + 1] == data[r]
  {
    var data := Encode(rows, grid);
    forall r | 0 <= r < |rows|
      ensures [rows[r].name] + Tail(data[r]) == data[r]
    {
      assert data[r] == [data[r][0]] + data[r][1..];
    }
  }

  // ---------------------------------------------------------------------
  // Saved state
  // ---------------------------------------------------------------------

  /**
   * A scalar tab's entry as JSON brings it back: a list of pairs, an object,
   * or something else; `falsy` marks null, false, 0 and the empty string.
   */
  datatype ScalarPayload =
    | PairList(items: seq<Pair>)
    | PairObject(entries: seq<Pair>)
    | NotAContainer(falsy: bool)

  /** One tab's entry of the saved state. */
  datatype Saved =
    | ScalarSaved(payload: ScalarPayload)
    | TableSaved(data: seq<seq<string>>)

  /** The `set_data` argument `load_gui_state` builds from a scalar payload: items of a list, entries of an object, or nothing. */
  function DataList(p: ScalarPayload): (data: seq<Pair>)
    ensures p.NotAContainer? ==> data == []
  {
    match p
    case PairList(items) => items
    case PairObject(entries) => entries
    case NotAContainer(_) => []
  }

  /** Every row of a table payload has exactly two entries, so `tuple(row)` unpacks as a (label, value) pair. */
  predicate AllPairs(data: seq<seq<string>>) {
    forall r :: 0 <= r < |data| ==> |data[r]| == 2
  }

  /** The pairs a scalar tab reads from a table payload of two-entry rows. */
  function RowPairs(data: seq<seq<string>>): (ps: seq<Pair>)
    requires AllPairs(data)
    ensures |ps| == |data|
    ensures forall r :: 0 <= r < |data| ==> ps[r] == (data[r][0], Some(data[r][1]))
  {
    if data == [] then [] else [(data[0][0], Some(data[0][1]))] + RowPairs(data[1..])
  }

  /**
   * The rows a table reads from a list of pairs: the label, then the value,
   * with `None` read as the empty string.
   */
  function PairRows(items: seq<Pair>): (data: seq<seq<string>>)
    ensures |data| == |items|
    ensures forall i :: 0 <= i < |items| ==>
      data[i] == [items[i].0, if items[i].1.None? then "" else items[i].1.value]
  {
    if items == [] then []
    else [[items[0].0, if items[0].1.None? then "" else items[0].1.value]] + PairRows(items[1..])
  }

  /**
   * A scalar tab after loading its saved entry. A table payload is read as
   * tuples: an empty one, or one whose row count differs from the field count,
   * clears the tab; one of two-entry rows is applied as pairs; any other row
   * length stops the load (the tab is left as it was).
   */
  function LoadedScalar(defs: seq<Def>, cells: seq<Cell>, s: Saved): (r: seq<Cell>)
    requires DefsOk(defs) && Fitted(defs, cells)
    ensures Fitted(defs, r)
    ensures s.ScalarSaved? && s.payload.NotAContainer? ==> r == Defaults(defs)
    ensures s.TableSaved? && (|s.data| == 0 || |s.data| != |defs|) ==> r == Defaults(defs)
    ensures s.TableSaved? && |s.data| == |defs| && !AllPairs(s.data) ==> r == cells
  {
    match s
    case ScalarSaved(p) => Applied(defs, cells, DataList(p))
    case TableSaved(data) =>
      if |data| == 0 || |data| != |defs| then Defaults(defs)
      else if AllPairs(data) then Applied(defs, cells, RowPairs(data))
      else cells
  }

  /** A table payload of two-entry rows loads into a scalar tab exactly as the list of the same pairs does. */
  lemma TableRowsLoadAsPairs(defs: seq<Def>, cells: seq<Cell>, data: seq<seq<string>>)
    requires DefsOk(defs) && Fitted(defs, cells) && AllPairs(data)
    ensures LoadedScalar(defs, cells, TableSaved(data)) == LoadedScalar(defs, cells, ScalarSaved(PairList(RowPairs(data))))
  {
    if |data| == 0 || |data| != |defs| {
      MismatchClears(defs, cells, RowPairs(data));
    }
  }

  /**
   * A table after loading its saved entry. A list of pairs is read as rows of
   * a label and one value, so each value lands in the first column; an empty
   * object, or null, false, 0 or "", clears the table; a non-empty object
   * stops the load and a non-empty string writes nothing (the table is left as
   * it was).
   */
  function LoadedTable(rows: seq<Def>, n: nat, grid: seq<seq<Cell>>, s: Saved): (g: seq<seq<Cell>>)
    requires DefsOk(rows) && GridFits(rows, n, grid)
    ensures GridFits(rows, n, g)
    ensures s.ScalarSaved? && s.payload.PairObject? ==> g == if s.payload.entries == [] then DefaultGrid(rows, n) else grid
    ensures s.ScalarSaved? && s.payload.NotAContainer? ==> g == if s.payload.falsy then DefaultGrid(rows, n) else grid
  {
    match s
    case TableSaved(data) => Restore(rows, n, grid, data)
    case ScalarSaved(PairList(items)) => Restore(rows, n, grid, PairRows(items))
    case ScalarSaved(PairObject(entries)) => if entries == [] then DefaultGrid(rows, n) else grid
    case ScalarSaved(NotAContainer(falsy)) => if falsy then DefaultGrid(rows, n) else grid
  }

  /**
   * A non-empty list of pairs loaded into a table writes pair `r`'s value into
   * the first column of row `r` and nothing else.
   */
  lemma PairsLandInFirstColumn(rows: seq<Def>, n: nat, grid: seq<seq<Cell>>, items: seq<Pair>)
    requires DefsOk(rows) && GridFits(rows, n, grid) && items != []
    ensures
      var g := LoadedTable(rows, n, grid, ScalarSaved(PairList(items)));
      forall r, c :: 0 <= r < |rows| && 0 <= c < n ==>
        g[r][c] == if r < |items| && c == 0
                   then SetText(rows[r].kind, grid[r][c], if items[r].1.None? then "" else items[r].1.value)
                   else grid[r][c]
  {
    var data := PairRows(items);
    forall r | 0 <= r < |items|
      ensures Tail(data[r]) == [if items[r].1.None? then "" else items[r].1.value]
    {
    }
  }

  /** Loading what was saved gives each scalar tab back, whatever its fields held before the load. */
  lemma ScalarSnapshotRoundTrip(defs: seq<Def>, cells: seq<Cell>, start: seq<Cell>)
    requires DefsOk(defs) && Fitted(defs, cells) && Fitted(defs, start)
    requires forall i :: 0 <= i < |defs| ==> OptionsDistinct(defs[i].kind)
    ensures LoadedScalar(defs, start, ScalarSaved(PairList(Pairs(defs, cells)))) == cells
  {
    PairsRoundTrip(defs, cells, start);
  }

  /** Loading what was saved gives each table back, when it has the same rows and width as when it was saved. */
  lemma TableSnapshotRoundTrip(rows: seq<Def>, n: nat, grid: seq<seq<Cell>>, start: seq<seq<Cell>>)
    requires DefsOk(rows) && GridFits(rows, n, grid) && GridFits(rows, n, start) && AllOptionsDistinct(rows)
    ensures LoadedTable(rows, n, start, TableSaved(Encode(rows, grid))) == grid
  {
    TableRoundTrip(rows, n, grid, start);
  }
}
