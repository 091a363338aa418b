/**
 * All tabs of the application as one value: what each scalar tab and each
 * table holds, by title, and what loading the saved state, clearing,
 * exporting and syncing do to it.
 */
module AppState {
  import opened Basics
  import opened Cells
  import opened Catalog
  import opened ScalarTab
  import opened TableTab
  import opened Flatten
  import opened Sync

  /** The contents of every tab by title: scalar tabs' cells and tables' states. */
  datatype Tabs = Tabs(cells: map<string, seq<Cell>>, states: map<string, TableState>)

  /** Contents that fit the scalar tabs' field definitions `defs`. */
  predicate TabsOk(defs: map<string, seq<Def>>, t: Tabs) {
    && t.cells.Keys == defs.Keys
    && (forall n :: n in t.cells ==> DefsOk(defs[n]) && Fitted(defs[n], t.cells[n]))
    && (forall n :: n in t.states ==> StateOk(t.states[n]))
  }

  /** No title is both a scalar tab and a table. */
  predicate Disjoint(t: Tabs) {
    forall n :: n in t.cells ==> n !in t.states
  }

  /** Two maps over the same keys that agree everywhere are equal. */
  lemma Agree<K, V>(a: map<K, V>, b: map<K, V>)
    requires a.Keys == b.Keys && forall j :: j in a ==> a[j] == b[j]
    ensures a == b
  {
  }

  /** Two maps over the same keys that agree away from `k`, where the first holds `v`. */
  lemma Pointwise<K, V>(a: map<K, V>, b: map<K, V>, k: K, v: V)
    requires a.Keys == b.Keys && (k in a ==> a[k] == v)
    requires forall j :: j in a && j != k ==> a[j] == b[j]
    ensures a == if k in b then b[k := v] else b
  {
  }

  // ---------------------------------------------------------------------
  // Loading the saved state
  // ---------------------------------------------------------------------

  /** A table after loading its saved entry: only the cells change. */
  function LoadedState(s: TableState, entry: Saved): (t: TableState)
    requires StateOk(s)
    ensures StateOk(t) && t.rows == s.rows && t.columnCount == s.columnCount && t.headers == s.headers
  {
    s.(grid := LoadedTable(s.rows, s.columnCount, s.grid, entry))
  }

  /** A decoded JSON object: entries with distinct titles. */
  predicate Titled(saved: seq<(string, Saved)>) {
    forall i, j :: 0 <= i < j < |saved| ==> saved[i].0 != saved[j].0
  }

  /** The decoded object as a dictionary from title to entry. */
  function Entries(saved: seq<(string, Saved)>): (m: map<string, Saved>)
    ensures forall i :: 0 <= i < |saved| ==> saved[i].0 in m
  {
    if saved == [] then map[]
    else
      var last := saved[|saved| - 1];
      Entries(saved[..|saved| - 1])[last.0 := last.1]
  }

  /** A title no entry carries is not a key of the dictionary. */
  lemma {:induction false} EntriesMissing(saved: seq<(string, Saved)>, n: string)
    requires forall i :: 0 <= i < |saved| ==> saved[i].0 != n
    ensures n !in Entries(saved)
  {
    if saved != [] {
      EntriesMissing(saved[..|saved| - 1], n);
    }
  }

  /** Each title of a decoded object is new to the entries before it. */
  lemma TitledFresh(saved: seq<(string, Saved)>, i: nat)
    requires Titled(saved) && i < |saved|
    ensures saved[i].0 !in Entries(saved[..i])
  {
    EntriesMissing(saved[..i], saved[i].0);
  }

  /** One entry of the saved state loaded into the tab of its title, if there is one. */
  function LoadOne(defs: map<string, seq<Def>>, t: Tabs, n: string, e: Saved): (r: Tabs)
    requires TabsOk(defs, t)
    ensures TabsOk(defs, r) && r.cells.Keys == t.cells.Keys && r.states.Keys == t.states.Keys
  {
    if n in t.cells then t.(cells := t.cells[n := LoadedScalar(defs[n], t.cells[n], e)])
    else if n in t.states then t.(states := t.states[n := LoadedState(t.states[n], e)])
    else t
  }

  /** The entries of a decoded state loaded one after the other. */
  function LoadAll(defs: map<string, seq<Def>>, t: Tabs, saved: seq<(string, Saved)>): (r: Tabs)
    requires TabsOk(defs, t)
    ensures TabsOk(defs, r) && r.cells.Keys == t.cells.Keys && r.states.Keys == t.states.Keys
  {
    if saved == [] then t
    else
      var last := saved[|saved| - 1];
      LoadOne(defs, LoadAll(defs, t, saved[..|saved| - 1]), last.0, last.1)
  }

  /**
   * Loading a decoded state touches each scalar tab at most once: one whose
   * title has an entry ends up as that entry loaded into its old cells, every
   * other one is unchanged.
   */
  lemma {:induction false} LoadAllCells(defs: map<string, seq<Def>>, t: Tabs, saved: seq<(string, Saved)>)
    requires TabsOk(defs, t) && Titled(saved)
    ensures var r := LoadAll(defs, t, saved); var e := Entries(saved);
      forall n :: n in t.cells ==>
        r.cells[n] == if n in e then LoadedScalar(defs[n], t.cells[n], e[n]) else t.cells[n]
  {
    if saved != [] {
      var init, last := saved[..|saved| - 1], saved[|saved| - 1];
      assert Titled(init);
      LoadAllCells(defs, t, init);
      TitledFresh(saved, |saved| - 1);
      var p := LoadAll(defs, t, init);
      var r := LoadAll(defs, t, saved);
      var e := Entries(saved);
      assert r == LoadOne(defs, p, last.0, last.1);
      assert e == Entries(init)[last.0 := last.1];
      forall n | n in t.cells
        ensures r.cells[n] == if n in e then LoadedScalar(defs[n], t.cells[n], e[n]) else t.cells[n]
      {
        if n != last.0 {
          assert r.cells[n] == p.cells[n];
          assert n in e <==> n in Entries(init);
        }
      }
    }
  }

  /** The same for tables: each one is loaded from its own entry, or left alone. */
  lemma {:induction false} LoadAllStates(defs: map<string, seq<Def>>, t: Tabs, saved: seq<(string, Saved)>)
    requires TabsOk(defs, t) && Titled(saved) && Disjoint(t)
    ensures var r := LoadAll(defs, t, saved); var e := Entries(saved);
      forall n :: n in t.states ==>
        r.states[n] == if n in e then LoadedState(t.states[n], e[n]) else t.states[n]
  {
    if saved != [] {
      var init, last := saved[..|saved| - 1], saved[|saved| - 1];
      assert Titled(init);
      LoadAllStates(defs, t, init);
      TitledFresh(saved, |saved| - 1);
      var p := LoadAll(defs, t, init);
      var r := LoadAll(defs, t, saved);
      var e := Entries(saved);
      assert r == LoadOne(defs, p, last.0, last.1);
      assert e == Entries(init)[last.0 := last.1];
      forall n | n in t.states
        ensures r.states[n] == if n in e then LoadedState(t.states[n], e[n]) else t.states[n]
      {
        if n != last.0 {
          assert r.states[n] == p.states[n];
          assert n in e <==> n in Entries(init);
        }
      }
    }
  }

  /** No dropdown of any tab repeats an option. */
  predicate OptionsUnique(defs: map<string, seq<Def>>, t: Tabs)
    requires TabsOk(defs, t)
  {
    && (forall n :: n in t.cells ==> forall i :: 0 <= i < |defs[n]| ==> OptionsDistinct(defs[n][i].kind))
    && (forall n :: n in t.states ==> AllOptionsDistinct(t.states[n].rows))
  }

  /**
   * `load_gui_state` after `save_gui_state`: whatever order the decoded object
   * lists the saved entries in, loading them gives every tab back as it was.
   */
  lemma SaveLoadRoundTrip(defs: map<string, seq<Def>>, t: Tabs, saved: seq<(string, Saved)>)
    requires TabsOk(defs, t) && Disjoint(t) && OptionsUnique(defs, t)
    requires Titled(saved) && Entries(saved) == SavedOf(defs, t)
    ensures LoadAll(defs, t, saved) == t
  {
    var r := LoadAll(defs, t, saved);
    SaveLoadCells(defs, t, saved);
    SaveLoadStates(defs, t, saved);
    Agree(r.cells, t.cells);
    Agree(r.states, t.states);
  }

  /** The scalar half of the round trip. */
  lemma SaveLoadCells(defs: map<string, seq<Def>>, t: Tabs, saved: seq<(string, Saved)>)
    requires TabsOk(defs, t) && OptionsUnique(defs, t)
    requires Titled(saved) && Entries(saved) == SavedOf(defs, t)
    ensures forall n :: n in t.cells ==> LoadAll(defs, t, saved).cells[n] == t.cells[n]
  {
    var r := LoadAll(defs, t, saved);
    var e := Entries(saved);
    LoadAllCells(defs, t, saved);
    forall n | n in t.cells
      ensures r.cells[n] == t.cells[n]
    {
      assert e[n] == ScalarSaved(PairList(Pairs(defs[n], t.cells[n])));
      ScalarSnapshotRoundTrip(defs[n], t.cells[n], t.cells[n]);
    }
  }

  /** The table half of the round trip. */
  lemma SaveLoadStates(defs: map<string, seq<Def>>, t: Tabs, saved: seq<(string, Saved)>)
    requires TabsOk(defs, t) && Disjoint(t) && OptionsUnique(defs, t)
    requires Titled(saved) && Entries(saved) == SavedOf(defs, t)
    ensures forall n :: n in t.states ==> LoadAll(defs, t, saved).states[n] == t.states[n]
  {
    var r := LoadAll(defs, t, saved);
    var e := Entries(saved);
    LoadAllStates(defs, t, saved);
    forall n | n in t.states
      ensures r.states[n] == t.states[n]
    {
      assert e[n] == SavedEntry(defs, t, n);
      StateSnapshotRoundTrip(t.states[n]);
    }
  }

  /** A table loaded from its own saved entry is unchanged. */
  lemma StateSnapshotRoundTrip(s: TableState)
    requires StateOk(s) && AllOptionsDistinct(s.rows)
    ensures LoadedState(s, TableSaved(Encode(s.rows, s.grid))) == s
  {
    TableSnapshotRoundTrip(s.rows, s.columnCount, s.grid, s.grid);
  }

  // ---------------------------------------------------------------------
  // Clearing
  // ---------------------------------------------------------------------

  /** A table after `clear_fields`: same shape, every cell cleared. */
  function ClearedState(s: TableState): (t: TableState)
    requires StateOk(s)
    ensures StateOk(t) && t.rows == s.rows && t.columnCount == s.columnCount && t.headers == s.headers
  {
    s.(grid := DefaultGrid(s.rows, s.columnCount))
  }

  /** One tab's `clear_fields`, by title. */
  function ClearOne(defs: map<string, seq<Def>>, t: Tabs, n: string): (r: Tabs)
    requires TabsOk(defs, t)
    ensures TabsOk(defs, r) && r.cells.Keys == t.cells.Keys && r.states.Keys == t.states.Keys
  {
    if n in t.cells then t.(cells := t.cells[n := Defaults(defs[n])])
    else if n in t.states then t.(states := t.states[n := ClearedState(t.states[n])])
    else t
  }

  /** The tabs `names` cleared one after the other. */
  function ClearEach(defs: map<string, seq<Def>>, t: Tabs, names: seq<string>): (r: Tabs)
    requires TabsOk(defs, t)
    ensures TabsOk(defs, r) && r.cells.Keys == t.cells.Keys && r.states.Keys == t.states.Keys
  {
    if names == [] then t
    else ClearOne(defs, ClearEach(defs, t, names[..|names| - 1]), names[|names| - 1])
  }

  /** Every tab cleared: scalar fields to their defaults, table cells to theirs, table shapes kept. */
  function ClearedTabs(defs: map<string, seq<Def>>, t: Tabs): (r: Tabs)
    requires TabsOk(defs, t)
  {
    Tabs(map n | n in t.cells :: Defaults(defs[n]), map n | n in t.states :: ClearedState(t.states[n]))
  }

  /** Clearing a list of titles clears exactly the scalar tabs named in it. */
  lemma {:induction false} ClearEachCells(defs: map<string, seq<Def>>, t: Tabs, names: seq<string>)
    requires TabsOk(defs, t)
    ensures var r := ClearEach(defs, t, names);
      forall n :: n in t.cells ==> r.cells[n] == if n in names then Defaults(defs[n]) else t.cells[n]
  {
    if names != [] {
      var init, last := names[..|names| - 1], names[|names| - 1];
      ClearEachCells(defs, t, init);
      assert names == init + [last];
      var p := ClearEach(defs, t, init);
      var r := ClearEach(defs, t, names);
      assert r == ClearOne(defs, p, last);
      forall n | n in t.cells
        ensures r.cells[n] == if n in names then Defaults(defs[n]) else t.cells[n]
      {
        if n != last {
          assert r.cells[n] == p.cells[n];
          assert n in names <==> n in init;
        }
      }
    }
  }

  /** Clearing a list of titles clears exactly the tables named in it. */
  lemma {:induction false} ClearEachStates(defs: map<string, seq<Def>>, t: Tabs, names: seq<string>)
    requires TabsOk(defs, t) && Disjoint(t)
    ensures var r := ClearEach(defs, t, names);
      forall n :: n in t.states ==> r.states[n] == if n in names then ClearedState(t.states[n]) else t.states[n]
  {
    if names != [] {
      var init, last := names[..|names| - 1], names[|names| - 1];
      ClearEachStates(defs, t, init);
      assert names == init + [last];
      var p := ClearEach(defs, t, init);
      var r := ClearEach(defs, t, names);
      assert r == ClearOne(defs, p, last);
      forall n | n in t.states
        ensures r.states[n] == if n in names then ClearedState(t.states[n]) else t.states[n]
      {
        if n != last {
          assert r.states[n] == p.states[n];
          assert n in names <==> n in init;
        }
      }
    }
  }

  /** Clearing every title, in any order, clears every tab. */
  lemma ClearEachAll(defs: map<string, seq<Def>>, t: Tabs, names: seq<string>)
    requires TabsOk(defs, t) && Disjoint(t)
    requires forall n :: n in t.cells || n in t.states ==> n in names
    ensures ClearEach(defs, t, names) == ClearedTabs(defs, t)
  {
    ClearEachCells(defs, t, names);
    ClearEachStates(defs, t, names);
    var r := ClearEach(defs, t, names);
    var c := ClearedTabs(defs, t);
    Agree(r.cells, c.cells);
    Agree(r.states, c.states);
  }

  // ---------------------------------------------------------------------
  // The CSV rows and the saved state
  // ---------------------------------------------------------------------

  /** The CSV block of tab `n`. */
  function BlockOf(defs: map<string, seq<Def>>, t: Tabs, n: string): seq<seq<string>>
    requires TabsOk(defs, t)
  {
    if n in t.cells then ScalarBlock(Pairs(defs[n], t.cells[n]))
    else if n in t.states then TableBlock(n, Encode(t.states[n].rows, t.states[n].grid))
    else []
  }

  /** The CSV rows for the tabs `names`: each tab's block followed by an empty row. */
  function CsvOf(defs: map<string, seq<Def>>, t: Tabs, names: seq<string>): seq<seq<string>>
    requires TabsOk(defs, t)
  {
    if names == [] then []
    else CsvOf(defs, t, names[..|names| - 1]) + BlockOf(defs, t, names[|names| - 1]) + [[]]
  }

  /** One more title, one more block and its blank row. */
  lemma CsvOfNext(defs: map<string, seq<Def>>, t: Tabs, names: seq<string>, i: nat)
    requires TabsOk(defs, t) && i < |names|
    ensures CsvOf(defs, t, names[..i + 1]) == CsvOf(defs, t, names[..i]) + BlockOf(defs, t, names[i]) + [[]]
  {
    assert names[..i + 1][..i] == names[..i];
  }

  /** Tab `n`'s entry of the saved state: its pairs, or its rows. */
  function SavedEntry(defs: map<string, seq<Def>>, t: Tabs, n: string): Saved
    requires TabsOk(defs, t) && (n in t.cells || n in t.states)
  {
    if n in t.cells then ScalarSaved(PairList(Pairs(defs[n], t.cells[n])))
    else TableSaved(Encode(t.states[n].rows, t.states[n].grid))
  }

  /** The state `save_gui_state` writes: every tab's entry, by title. */
  function SavedOf(defs: map<string, seq<Def>>, t: Tabs): (state: map<string, Saved>)
    requires TabsOk(defs, t)
  {
    map n | n in t.cells.Keys + t.states.Keys :: SavedEntry(defs, t, n)
  }

  /** The entries of the tabs `names`, written one after the other. */
  function SavedEach(defs: map<string, seq<Def>>, t: Tabs, names: seq<string>): (state: map<string, Saved>)
    requires TabsOk(defs, t) && forall i :: 0 <= i < |names| ==> names[i] in t.cells || names[i] in t.states
  {
    if names == [] then map[]
    else
      var last := names[|names| - 1];
      SavedEach(defs, t, names[..|names| - 1])[last := SavedEntry(defs, t, last)]
  }

  /** One more title of the list, one more entry. */
  lemma SavedEachNext(defs: map<string, seq<Def>>, t: Tabs, names: seq<string>, i: nat)
    requires TabsOk(defs, t) && forall j :: 0 <= j < |names| ==> names[j] in t.cells || names[j] in t.states
    requires i < |names|
    ensures SavedEach(defs, t, names[..i + 1]) == SavedEach(defs, t, names[..i])[names[i] := SavedEntry(defs, t, names[i])]
  {
    assert names[..i + 1][..i] == names[..i];
  }

  /** Writing the entries of a list of titles gives exactly those titles their own entries. */
  lemma {:induction false} SavedEachEntries(defs: map<string, seq<Def>>, t: Tabs, names: seq<string>)
    requires TabsOk(defs, t) && forall i :: 0 <= i < |names| ==> names[i] in t.cells || names[i] in t.states
    ensures var s := SavedEach(defs, t, names);
      && (forall n :: n in s <==> n in names)
      && (forall n :: n in s ==> s[n] == SavedEntry(defs, t, n))
  {
    if names != [] {
      var init := names[..|names| - 1];
      SavedEachEntries(defs, t, init);
      assert names == init + [names[|names| - 1]];
    }
  }

  /** Writing every tab's entry, in any order, gives the whole saved state. */
  lemma SavedEachAll(defs: map<string, seq<Def>>, t: Tabs, names: seq<string>)
    requires TabsOk(defs, t) && forall i :: 0 <= i < |names| ==> names[i] in t.cells || names[i] in t.states
    requires forall n :: n in t.cells || n in t.states ==> n in names
    ensures SavedEach(defs, t, names) == SavedOf(defs, t)
  {
    SavedEachEntries(defs, t, names);
    Agree(SavedEach(defs, t, names), SavedOf(defs, t));
  }

  // ---------------------------------------------------------------------
  // The dependency sync
  // ---------------------------------------------------------------------

  /** NWB and NBR as `sync_tabs` reads them from the grid tab (0 and 0 without one). */
  function DimsOf(defs: map<string, seq<Def>>, t: Tabs): (int, int)
    requires TabsOk(defs, t)
  {
    if GridTab in t.cells then
      var pairs := Pairs(defs[GridTab], t.cells[GridTab]);
      (DimValue(pairs, "NWB"), DimValue(pairs, "NBR"))
    else (0, 0)
  }

  /** With the catalog's grid fields, NWB and NBR are the values of the first two spin boxes. */
  lemma DimsOfGrid(defs: map<string, seq<Def>>, t: Tabs)
    requires TabsOk(defs, t) && GridTab in t.cells && defs[GridTab] == GridFields
    ensures DimsOf(defs, t) == (t.cells[GridTab][0].value, t.cells[GridTab][1].value)
  {
    GridDims(t.cells[GridTab]);
  }

  /** The row definitions each table was built with, by title. */
  predicate BasesOk(bases: map<string, seq<Def>>, t: Tabs) {
    bases.Keys == t.states.Keys && forall n :: n in bases ==> DefsOk(bases[n])
  }

  /** Table `n`, if there is one, resized to `max(1, m)` columns. */
  function ResizeOne(defs: map<string, seq<Def>>, t: Tabs, n: string, m: int): (r: Tabs)
    requires TabsOk(defs, t)
    ensures TabsOk(defs, r) && r.cells == t.cells && r.states.Keys == t.states.Keys
  {
    if n in t.states then t.(states := t.states[n := Resized(n, t.states[n], m)]) else t
  }

  /** The tables `names` resized one after the other. */
  function ResizeEach(defs: map<string, seq<Def>>, t: Tabs, names: seq<string>, m: int): (r: Tabs)
    requires TabsOk(defs, t)
    ensures TabsOk(defs, r) && r.cells == t.cells && r.states.Keys == t.states.Keys
  {
    if names == [] then t
    else ResizeOne(defs, ResizeEach(defs, t, names[..|names| - 1], m), names[|names| - 1], m)
  }

  /** Resizing a list of distinct titles resizes exactly the tables named in it, each once. */
  lemma {:induction false} ResizeEachStates(defs: map<string, seq<Def>>, t: Tabs, names: seq<string>, m: int)
    requires TabsOk(defs, t)
    requires forall i, j :: 0 <= i < j < |names| ==> names[i] != names[j]
    ensures var r := ResizeEach(defs, t, names, m);
      forall n :: n in t.states ==> r.states[n] == if n in names then Resized(n, t.states[n], m) else t.states[n]
  {
    if names != [] {
      var init, last := names[..|names| - 1], names[|names| - 1];
      ResizeEachStates(defs, t, init, m);
      assert names == init + [last];
      assert last !in init;
      var p := ResizeEach(defs, t, init, m);
      var r := ResizeEach(defs, t, names, m);
      assert r == ResizeOne(defs, p, last, m);
      forall n | n in t.states
        ensures r.states[n] == if n in names then Resized(n, t.states[n], m) else t.states[n]
      {
        if n != last {
          assert r.states[n] == p.states[n];
          assert n in names <==> n in init;
        }
      }
    }
  }

  /** The Structures step: Structures, if there is one, given its STRUCT rows. */
  function RestructureTab(defs: map<string, seq<Def>>, bases: map<string, seq<Def>>, t: Tabs): (r: Tabs)
    requires TabsOk(defs, t) && BasesOk(bases, t)
    ensures TabsOk(defs, r) && r.cells == t.cells && r.states.Keys == t.states.Keys
  {
    if StructuresTab in t.states then
      t.(states := t.states[StructuresTab := Restructured(bases[StructuresTab], t.states[StructuresTab])])
    else t
  }

  /** The Structures step changes Structures alone. */
  lemma RestructureTabStates(defs: map<string, seq<Def>>, bases: map<string, seq<Def>>, t: Tabs)
    requires TabsOk(defs, t) && BasesOk(bases, t)
    ensures var r := RestructureTab(defs, bases, t);
      forall n :: n in t.states ==>
        r.states[n] == if n == StructuresTab then Restructured(bases[n], t.states[n]) else t.states[n]
  {
  }

  /** Every table as `sync_tabs` leaves it; the scalar tabs are not touched. */
  function SyncedTabs(defs: map<string, seq<Def>>, bases: map<string, seq<Def>>, t: Tabs, nwb: int, nbr: int): (r: Tabs)
    requires TabsOk(defs, t) && BasesOk(bases, t)
    ensures TabsOk(defs, r) && r.cells == t.cells && r.states.Keys == t.states.Keys
  {
    Tabs(t.cells, map n | n in t.states :: Synced(n, bases[n], t.states[n], nwb, nbr))
  }

  /** One table through the three steps of `sync_tabs` ends as `Synced` says. */
  lemma SyncedCases(n: string, base: seq<Def>, s: TableState, x: TableState, y: TableState, z: TableState, nwb: int, nbr: int)
    requires DefsOk(base) && StateOk(s)
    requires x == if n in NwbTabs then Resized(n, s, nwb) else s
    requires StateOk(x) && y == if n in NbrTabs then Resized(n, x, nbr) else x
    requires StateOk(y) && z == if n == StructuresTab then Restructured(base, y) else y
    ensures z == Synced(n, base, s, nwb, nbr)
  {
    CategoriesDisjoint();
  }

  /** The NWB sweep, then the NBR sweep, then the Structures step is the sync of every table. */
  lemma SyncSteps(defs: map<string, seq<Def>>, bases: map<string, seq<Def>>, t: Tabs, nwb: int, nbr: int)
    requires TabsOk(defs, t) && BasesOk(bases, t)
    ensures
      var a := ResizeEach(defs, t, NwbTabs, nwb);
      var b := ResizeEach(defs, a, NbrTabs, nbr);
      RestructureTab(defs, bases, b) == SyncedTabs(defs, bases, t, nwb, nbr)
  {
    CategoriesDistinct();
    var a := ResizeEach(defs, t, NwbTabs, nwb);
    var b := ResizeEach(defs, a, NbrTabs, nbr);
    ResizeEachStates(defs, t, NwbTabs, nwb);
    ResizeEachStates(defs, a, NbrTabs, nbr);
    var r := RestructureTab(defs, bases, b);
    RestructureTabStates(defs, bases, b);
    SyncedStates(bases, t.states, a.states, b.states, r.states, nwb, nbr);
  }

  /** The per-table form of the three steps, over the tables' states by title. */
  lemma SyncedStates(bases: map<string, seq<Def>>, t: map<string, TableState>, a: map<string, TableState>,
                     b: map<string, TableState>, r: map<string, TableState>, nwb: int, nbr: int)
    requires a.Keys == t.Keys && b.Keys == t.Keys && r.Keys == t.Keys && bases.Keys == t.Keys
    requires forall n :: n in t ==> DefsOk(bases[n]) && StateOk(t[n]) && StateOk(a[n]) && StateOk(b[n])
    requires forall n :: n in t ==> a[n] == if n in NwbTabs then Resized(n, t[n], nwb) else t[n]
    requires forall n :: n in t ==> b[n] == if n in NbrTabs then Resized(n, a[n], nbr) else a[n]
    requires forall n :: n in t ==> r[n] == if n == StructuresTab then Restructured(bases[n], b[n]) else b[n]
    ensures r == map n | n in t :: Synced(n, bases[n], t[n], nwb, nbr)
  {
    var s := map n | n in t :: Synced(n, bases[n], t[n], nwb, nbr);
    forall n | n in r
      ensures r[n] == s[n]
    {
      SyncedCases(n, bases[n], t[n], a[n], b[n], r[n], nwb, nbr);
    }
    Agree(r, s);
  }

  /**
   * Syncing twice is syncing once: with the same NWB and NBR, a second
   * `sync_tabs` changes no tab, and it reads the same NWB and NBR, since the
   * scalar tabs are untouched.
   */
  lemma SyncedTabsFixpoint(defs: map<string, seq<Def>>, bases: map<string, seq<Def>>, t: Tabs)
    requires TabsOk(defs, t) && BasesOk(bases, t)
    requires forall n :: n in bases ==> AllOptionsDistinct(bases[n]) && AllOptionsDistinct(t.states[n].rows)
    requires StructuresTab in t.states ==> Shaped(bases[StructuresTab], t.states[StructuresTab].rows)
    ensures
      var (nwb, nbr) := DimsOf(defs, t);
      var s := SyncedTabs(defs, bases, t, nwb, nbr);
      DimsOf(defs, s) == (nwb, nbr) && SyncedTabs(defs, bases, s, nwb, nbr) == s
  {
    var (nwb, nbr) := DimsOf(defs, t);
    var s := SyncedTabs(defs, bases, t, nwb, nbr);
    var u := SyncedTabs(defs, bases, s, nwb, nbr);
    forall n | n in s.states
      ensures u.states[n] == s.states[n]
    {
      SyncedFixpoint(n, bases[n], t.states[n], nwb, nbr);
    }
    Agree(u.states, s.states);
  }
}
