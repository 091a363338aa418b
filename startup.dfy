/**
 * The start-up sequence of the application: the tabs are built, the first
 * tab is selected and displayed (each of which runs `sync_tabs`), the saved
 * state is loaded, and `sync_tabs` runs once more. Loading happens while every
 * table is still one column wide and Structures has only its base rows, so
 * whatever was saved beyond the first column is not read back; the corrected
 * sequence gives each table the shape of its saved entry before loading it.
 */
module Startup {
  import opened Basics
  import opened Cells
  import opened Catalog
  import opened ScalarTab
  import opened TableTab
  import opened Flatten
  import opened Sync
  import opened AppState

  /** One `sync_tabs`, with the NWB and NBR the grid tab holds. */
  function SyncNow(defs: map<string, seq<Def>>, bases: map<string, seq<Def>>, t: Tabs): (r: Tabs)
    requires TabsOk(defs, t) && BasesOk(bases, t)
    ensures TabsOk(defs, r) && BasesOk(bases, r) && r.cells == t.cells && r.states.Keys == t.states.Keys
  {
    var (nwb, nbr) := DimsOf(defs, t);
    SyncedTabs(defs, bases, t, nwb, nbr)
  }

  /**
   * `__init__` as written, from the tabs `initUI` has built: the sync that
   * selecting the first tab sets off, the one `display_tab` runs,
   * `load_gui_state` with the decoded entries `saved`, and the last sync.
   */
  function StartupAsWritten(defs: map<string, seq<Def>>, bases: map<string, seq<Def>>, t0: Tabs,
                            saved: seq<(string, Saved)>): (r: Tabs)
    requires TabsOk(defs, t0) && BasesOk(bases, t0)
    ensures TabsOk(defs, r) && r.states.Keys == t0.states.Keys
  {
    var s := SyncNow(defs, bases, SyncNow(defs, bases, t0));
    SyncNow(defs, bases, LoadAll(defs, s, saved))
  }

  /** The tabs as `initUI` builds them: fresh widgets, and tables of their base rows with no column. */
  predicate AsBuilt(defs: map<string, seq<Def>>, bases: map<string, seq<Def>>, t0: Tabs) {
    && TabsOk(defs, t0) && BasesOk(bases, t0) && Disjoint(t0)
    && (forall n :: n in t0.cells ==> t0.cells[n] == FreshCells(defs[n]))
    && (forall n :: n in t0.states ==> t0.states[n] == TableState(bases[n], 0, [], FreshGrid(bases[n], 0)))
  }

  /** Fresh grid-tab fields hold NWB = NBR = 0. */
  lemma FreshDims(defs: map<string, seq<Def>>, t0: Tabs)
    requires TabsOk(defs, t0) && GridTab in t0.cells && defs[GridTab] == GridFields
    requires t0.cells[GridTab] == FreshCells(GridFields)
    ensures DimsOf(defs, t0) == (0, 0)
  {
    DimsOfGrid(defs, t0);
    assert t0.cells[GridTab][0] == Fresh(GridFields[0].kind);
    assert t0.cells[GridTab][1] == Fresh(GridFields[1].kind);
  }

  /** A sync changes neither the rows of a table other than Structures nor, with NWB = NBR = 0, its width from 1. */
  lemma SyncAtZero(defs: map<string, seq<Def>>, bases: map<string, seq<Def>>, t: Tabs)
    requires TabsOk(defs, t) && BasesOk(bases, t) && DimsOf(defs, t) == (0, 0)
    ensures var r := SyncNow(defs, bases, t);
      && DimsOf(defs, r) == (0, 0)
      && forall n :: n in t.states && (n in NwbTabs || n in NbrTabs) && n != StructuresTab ==>
           r.states[n].rows == t.states[n].rows && r.states[n].columnCount == 1
  {
  }

  /** As written, `load_gui_state` runs while every WB or BR table other than Structures is one column wide. */
  lemma LoadedAtWidthOne(defs: map<string, seq<Def>>, bases: map<string, seq<Def>>, t0: Tabs,
                         saved: seq<(string, Saved)>)
    requires AsBuilt(defs, bases, t0) && Titled(saved)
    requires GridTab in t0.cells && defs[GridTab] == GridFields
    ensures var l := LoadAll(defs, SyncNow(defs, bases, SyncNow(defs, bases, t0)), saved);
      forall n :: n in l.states && (n in NwbTabs || n in NbrTabs) && n != StructuresTab ==>
        l.states[n].columnCount == 1
  {
    FreshDims(defs, t0);
    var a := SyncNow(defs, bases, t0);
    SyncAtZero(defs, bases, t0);
    var b := SyncNow(defs, bases, a);
    SyncAtZero(defs, bases, a);
    assert Disjoint(b);
    LoadAllStates(defs, b, saved);
  }

  /** Every cell after the first column of the table is a newly built one. */
  predicate OnlyFirstColumn(s: TableState)
    requires StateOk(s)
  {
    forall row, c :: 0 <= row < |s.rows| && 1 <= c < s.columnCount ==> s.grid[row][c] == Fresh(s.rows[row].kind)
  }

  /** A sync leaves a one-column WB or BR table other than Structures with newly built cells beyond its first column. */
  lemma SyncFromWidthOne(defs: map<string, seq<Def>>, bases: map<string, seq<Def>>, l: Tabs, n: string)
    requires TabsOk(defs, l) && BasesOk(bases, l)
    requires n in l.states && (n in NwbTabs || n in NbrTabs) && n != StructuresTab && l.states[n].columnCount == 1
    ensures OnlyFirstColumn(SyncNow(defs, bases, l).states[n])
  {
    var (nwb, nbr) := DimsOf(defs, l);
    var s := l.states[n];
    CategoriesDisjoint();
    var m := if n in NwbTabs then nwb else nbr;
    assert SyncNow(defs, bases, l).states[n] == Resized(n, s, m);
    RefitKeepsOverlap(s.rows, 1, s.grid, m);
  }

  /**
   * As written, the start-up leaves every column after the first of every
   * WB or BR table other than Structures holding newly built cells, whatever
   * the saved state held there.
   */
  lemma StartupKeepsOneColumn(defs: map<string, seq<Def>>, bases: map<string, seq<Def>>, t0: Tabs,
                              saved: seq<(string, Saved)>)
    requires AsBuilt(defs, bases, t0) && Titled(saved)
    requires GridTab in t0.cells && defs[GridTab] == GridFields
    ensures var r := StartupAsWritten(defs, bases, t0, saved);
      forall n :: n in r.states && (n in NwbTabs || n in NbrTabs) && n != StructuresTab ==> OnlyFirstColumn(r.states[n])
  {
    var l := LoadAll(defs, SyncNow(defs, bases, SyncNow(defs, bases, t0)), saved);
    LoadedAtWidthOne(defs, bases, t0, saved);
    var r := SyncNow(defs, bases, l);
    assert r.states.Keys == l.states.Keys;
    forall n | n in r.states && (n in NwbTabs || n in NbrTabs) && n != StructuresTab
      ensures OnlyFirstColumn(r.states[n])
    {
      SyncFromWidthOne(defs, bases, l, n);
    }
  }

  /**
   * So a state with anything but a newly built cell in the second or a later
   * column of such a table does not come back after a restart, whatever the
   * saved file holds (in particular when it holds exactly that state).
   */
  lemma StartupLosesColumns(defs: map<string, seq<Def>>, bases: map<string, seq<Def>>, t0: Tabs,
                            saved: seq<(string, Saved)>, t: Tabs, n: string, row: nat, c: nat)
    requires AsBuilt(defs, bases, t0) && Titled(saved)
    requires GridTab in t0.cells && defs[GridTab] == GridFields
    requires TabsOk(defs, t) && n in t.states && (n in NwbTabs || n in NbrTabs) && n != StructuresTab
    requires row < |t.states[n].rows| && 1 <= c < t.states[n].columnCount
    requires t.states[n].grid[row][c] != Fresh(t.states[n].rows[row].kind)
    ensures StartupAsWritten(defs, bases, t0, saved) != t
  {
    StartupKeepsOneColumn(defs, bases, t0, saved);
  }

  // ---------------------------------------------------------------------
  // The corrected start-up
  // ---------------------------------------------------------------------

  /**
   * A table entry loaded into a table first given the shape of that entry:
   * Structures its saved number of STRUCT rows, and every table the width of
   * the saved first row (at least one column) with that width's headers. An
   * empty or non-table entry loads as before.
   */
  function LoadedFitted(n: string, base: seq<Def>, s: TableState, e: Saved): (t: TableState)
    requires DefsOk(base) && StateOk(s)
    ensures StateOk(t)
    ensures n != StructuresTab ==> t.rows == s.rows
    ensures e.TableSaved? && e.data != [] ==>
      t.columnCount == Max1(|Tail(e.data[0])|) && t.headers == ColumnHeaders(n, t.columnCount)
    ensures n == StructuresTab && e.TableSaved? && |e.data| >= |base| > 0 ==> |t.rows| == |e.data|
  {
    match e
    case TableSaved(data) =>
      if data == [] then LoadedState(s, e)
      else
        var k := if |data| > |base| then |data| - |base| else 0;
        StructuredDefsOk(base, k);
        var rows := if n == StructuresTab then base + StructRows(k) else s.rows;
        var w := Max1(|Tail(data[0])|);
        TableState(rows, w, ColumnHeaders(n, w), Restore(rows, w, FreshGrid(rows, w), data))
    case ScalarSaved(_) => LoadedState(s, e)
  }

  /**
   * A non-empty table, synced at least once (one column or more, and the
   * headers of its width), comes back from its own entry; Structures needs only
   * its base rows to agree, every other table its rows.
   */
  lemma FittedRoundTrip(n: string, base: seq<Def>, s: TableState, t: TableState)
    requires DefsOk(base) && StateOk(s) && StateOk(t) && AllOptionsDistinct(t.rows)
    requires t.rows != [] && t.columnCount >= 1 && t.headers == ColumnHeaders(n, t.columnCount)
    requires if n == StructuresTab then Shaped(base, t.rows) else t.rows == s.rows
    ensures LoadedFitted(n, base, s, TableSaved(Encode(t.rows, t.grid))) == t
  {
    var data := Encode(t.rows, t.grid);
    var w := t.columnCount;
    assert |Tail(data[0])| == w;
    var k := if |data| > |base| then |data| - |base| else 0;
    StructuredDefsOk(base, k);
    var rows := if n == StructuresTab then base + StructRows(k) else s.rows;
    assert rows == t.rows;
    TableRoundTrip(rows, w, t.grid, FreshGrid(rows, w));
    assert LoadedFitted(n, base, s, TableSaved(data)) == TableState(rows, w, ColumnHeaders(n, w), t.grid);
  }

  /** One entry loaded into the tab of its title, tables in the corrected way. */
  function LoadOneFitted(defs: map<string, seq<Def>>, bases: map<string, seq<Def>>, t: Tabs, n: string, e: Saved): (r: Tabs)
    requires TabsOk(defs, t) && BasesOk(bases, t)
    ensures TabsOk(defs, r) && r.cells.Keys == t.cells.Keys && r.states.Keys == t.states.Keys
  {
    if n in t.cells then t.(cells := t.cells[n := LoadedScalar(defs[n], t.cells[n], e)])
    else if n in t.states then t.(states := t.states[n := LoadedFitted(n, bases[n], t.states[n], e)])
    else t
  }

  /** The corrected `load_gui_state`: the entries loaded one after the other. */
  function LoadAllFitted(defs: map<string, seq<Def>>, bases: map<string, seq<Def>>, t: Tabs,
                         saved: seq<(string, Saved)>): (r: Tabs)
    requires TabsOk(defs, t) && BasesOk(bases, t)
    ensures TabsOk(defs, r) && r.cells.Keys == t.cells.Keys && r.states.Keys == t.states.Keys
  {
    if saved == [] then t
    else
      var last := saved[|saved| - 1];
      LoadOneFitted(defs, bases, LoadAllFitted(defs, bases, t, saved[..|saved| - 1]), last.0, last.1)
  }

  /** Each tab is loaded from its own entry, or left alone. */
  lemma {:induction false} LoadAllFittedTabs(defs: map<string, seq<Def>>, bases: map<string, seq<Def>>, t: Tabs,
                                             saved: seq<(string, Saved)>)
    requires TabsOk(defs, t) && BasesOk(bases, t) && Disjoint(t) && Titled(saved)
    ensures var r := LoadAllFitted(defs, bases, t, saved); var e := Entries(saved);
      && (forall n :: n in t.cells ==>
            r.cells[n] == if n in e then LoadedScalar(defs[n], t.cells[n], e[n]) else t.cells[n])
      && (forall n :: n in t.states ==>
            r.states[n] == if n in e then LoadedFitted(n, bases[n], t.states[n], e[n]) else t.states[n])
  {
    if saved != [] {
      var init, last := saved[..|saved| - 1], saved[|saved| - 1];
      assert Titled(init);
      LoadAllFittedTabs(defs, bases, t, init);
      TitledFresh(saved, |saved| - 1);
      var p := LoadAllFitted(defs, bases, t, init);
      var r := LoadAllFitted(defs, bases, t, saved);
      var e := Entries(saved);
      assert r == LoadOneFitted(defs, bases, p, last.0, last.1);
      assert e == Entries(init)[last.0 := last.1];
      forall n | n in t.cells && n != last.0
        ensures r.cells[n] == if n in e then LoadedScalar(defs[n], t.cells[n], e[n]) else t.cells[n]
      {
        assert n in e <==> n in Entries(init);
      }
      forall n | n in t.states && n != last.0
        ensures r.states[n] == if n in e then LoadedFitted(n, bases[n], t.states[n], e[n]) else t.states[n]
      {
        assert n in e <==> n in Entries(init);
      }
    }
  }

  /** `__init__` with the corrected load. */
  function StartupFitted(defs: map<string, seq<Def>>, bases: map<string, seq<Def>>, t0: Tabs,
                         saved: seq<(string, Saved)>): (r: Tabs)
    requires TabsOk(defs, t0) && BasesOk(bases, t0)
    ensures TabsOk(defs, r) && r.states.Keys == t0.states.Keys
  {
    var s := SyncNow(defs, bases, SyncNow(defs, bases, t0));
    SyncNow(defs, bases, LoadAllFitted(defs, bases, s, saved))
  }

  /**
   * With the corrected load, a restart from the state `save_gui_state` wrote
   * for `t` gives `t` back as the next `sync_tabs` would show it (so `t` itself
   * when it was saved after a sync): every scalar tab, and every table's rows,
   * width, headers and cells. `t` is a state the running application can
   * reach: its tables are non-empty and have been synced, Structures holds
   * its base rows and STRUCT rows, and every other table its base rows.
   */
  lemma StartupRestores(defs: map<string, seq<Def>>, bases: map<string, seq<Def>>, t0: Tabs,
                        saved: seq<(string, Saved)>, t: Tabs)
    requires TabsOk(defs, t0) && BasesOk(bases, t0) && Disjoint(t0)
    requires TabsOk(defs, t) && t.states.Keys == t0.states.Keys && OptionsUnique(defs, t)
    requires forall n :: n in t.states ==>
      t.states[n].rows != [] && t.states[n].columnCount >= 1 && t.states[n].headers == ColumnHeaders(n, t.states[n].columnCount)
    requires forall n :: n in t.states && n != StructuresTab ==> t.states[n].rows == t0.states[n].rows
    requires StructuresTab in t.states ==> Shaped(bases[StructuresTab], t.states[StructuresTab].rows)
    requires Titled(saved) && Entries(saved) == SavedOf(defs, t)
    ensures StartupFitted(defs, bases, t0, saved) == SyncNow(defs, bases, t)
  {
    var a := SyncNow(defs, bases, t0);
    var b := SyncNow(defs, bases, a);
    assert Disjoint(b);
    var l := LoadAllFitted(defs, bases, b, saved);
    LoadAllFittedTabs(defs, bases, b, saved);
    var e := Entries(saved);
    forall n | n in l.cells
      ensures l.cells[n] == t.cells[n]
    {
      assert e[n] == ScalarSaved(PairList(Pairs(defs[n], t.cells[n])));
      ScalarSnapshotRoundTrip(defs[n], t.cells[n], b.cells[n]);
    }
    forall n | n in l.states
      ensures l.states[n] == t.states[n]
    {
      assert e[n] == SavedEntry(defs, t, n);
      assert n != StructuresTab ==> b.states[n].rows == a.states[n].rows == t0.states[n].rows;
      FittedRoundTrip(n, bases[n], b.states[n], t.states[n]);
    }
    Agree(l.cells, t.cells);
    Agree(l.states, t.states);
  }
}
