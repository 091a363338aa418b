/**
 * The application: a catalog of named tabs, the dependency sync that resizes
 * tables from the grid dimensions, the CSV export rows, and the saved state.
 */
module App {
  import opened Basics
  import opened Numerals
  import opened Cells
  import opened Catalog
  import opened ScalarTab
  import opened TableTab
  import opened Flatten
  import opened Sync
  import opened AppState
  import opened Startup

  /** How the catalog describes a tab: scalar fields, or table rows. */
  datatype Section = Fields(defs: seq<Def>) | Table(defs: seq<Def>)

  /** Distinct titles, well-formed definitions, and a grid tab that is a scalar tab. */
  predicate CatalogOk(catalog: seq<(string, Section)>) {
    && (forall i, j :: 0 <= i < j < |catalog| ==> catalog[i].0 != catalog[j].0)
    && (forall i :: 0 <= i < |catalog| ==> DefsOk(catalog[i].1.defs))
    && (forall i :: 0 <= i < |catalog| && catalog[i].0 == GridTab ==> catalog[i].1.Fields?)
  }

  function StateOf(t: TabularDataTab): TableState
    reads t
  {
    TableState(t.rows, t.columnCount, t.headers, t.grid)
  }

  /**
   * What the tab-building loop of `initUI` has built after `i` catalog
   * entries: their titles in order, and for each one a new tab of its kind
   * holding its definitions, every widget in its initial state.
   */
  ghost predicate Built(catalog: seq<(string, Section)>, i: nat, names: seq<string>,
                        ss: map<string, UserDataTab>, ts: map<string, TabularDataTab>)
    reads ss.Values, ts.Values
  {
    && i <= |catalog| && |names| == i && (forall j :: 0 <= j < i ==> names[j] == catalog[j].0)
    && (forall n :: n in ss ==> n in names && n !in ts && ss[n].Valid() && ss[n].cells == FreshCells(ss[n].defs))
    && (forall n :: n in ts ==> n in names && ts[n].Valid() && ts[n].name == n && ts[n].rows == ts[n].baseRows)
    && (forall n :: n in ts ==> ts[n].columnCount == 0 && ts[n].headers == [] && ts[n].grid == FreshGrid(ts[n].rows, 0))
    && (forall a, b :: a in ss && b in ss && a != b ==> ss[a] != ss[b])
    && (forall a, b :: a in ts && b in ts && a != b ==> ts[a] != ts[b])
    && GridTab !in ts
    && (forall j :: 0 <= j < i && catalog[j].1.Fields? ==> catalog[j].0 in ss && ss[catalog[j].0].defs == catalog[j].1.defs)
    && (forall j :: 0 <= j < i && catalog[j].1.Table? ==> catalog[j].0 in ts && ts[catalog[j].0].baseRows == catalog[j].1.defs)
  }

  /** Once the whole catalog is built, the titles are distinct and each one is a tab. */
  lemma BuiltCovers(catalog: seq<(string, Section)>, names: seq<string>,
                    ss: map<string, UserDataTab>, ts: map<string, TabularDataTab>)
    requires CatalogOk(catalog) && Built(catalog, |catalog|, names, ss, ts)
    ensures forall i, j :: 0 <= i < j < |names| ==> names[i] != names[j]
    ensures forall i :: 0 <= i < |names| ==> names[i] in ss || names[i] in ts
  {
    forall i | 0 <= i < |names|
      ensures names[i] in ss || names[i] in ts
    {
      assert names[i] == catalog[i].0;
    }
  }

  /** One scalar tab of the tab-building loop. */
  method AddScalar(catalog: seq<(string, Section)>, i: nat, names: seq<string>,
                   ss: map<string, UserDataTab>, ts: map<string, TabularDataTab>)
    returns (names': seq<string>, ss': map<string, UserDataTab>)
    requires CatalogOk(catalog) && i < |catalog| && catalog[i].1.Fields? && Built(catalog, i, names, ss, ts)
    ensures Built(catalog, i + 1, names', ss', ts)
  {
    var (title, section) := catalog[i];
    assert title !in names;
    var tab := new UserDataTab(section.defs);
    ss' := ss[title := tab];
    names' := names + [title];
  }

  /** One table of the tab-building loop. */
  method AddTable(catalog: seq<(string, Section)>, i: nat, names: seq<string>,
                  ss: map<string, UserDataTab>, ts: map<string, TabularDataTab>)
    returns (names': seq<string>, ts': map<string, TabularDataTab>)
    requires CatalogOk(catalog) && i < |catalog| && catalog[i].1.Table? && Built(catalog, i, names, ss, ts)
    ensures Built(catalog, i + 1, names', ss, ts')
  {
    var (title, section) := catalog[i];
    assert title !in names;
    var tab := new TabularDataTab(section.defs, title);
    ts' := ts[title := tab];
    names' := names + [title];
  }

  /** The tab-building loop of `initUI`: one new, cleared tab per catalog entry, in catalog order. */
  method BuildTabs(catalog: seq<(string, Section)>)
    returns (names: seq<string>, ss: map<string, UserDataTab>, ts: map<string, TabularDataTab>)
    requires CatalogOk(catalog)
    ensures Built(catalog, |catalog|, names, ss, ts)
  {
    names, ss, ts := [], map[], map[];
    var i := 0;
    while i < |catalog|
      invariant 0 <= i <= |catalog|
      invariant Built(catalog, i, names, ss, ts)
    {
      if catalog[i].1.Fields? {
        names, ss := AddScalar(catalog, i, names, ss, ts);
      } else {
        names, ts := AddTable(catalog, i, names, ss, ts);
      }
      i := i + 1;
    }
  }

  /**
   * The Structures step of `sync_tabs` on the Structures table: the NSTR
   * maximum, and new row definitions when it differs from the number of
   * STRUCT rows.
   */
  method Restructure(st: TabularDataTab)
    requires st.Valid() && st.name == StructuresTab
    modifies st
    ensures st.Valid() && StateOf(st) == Restructured(st.baseRows, old(StateOf(st)))
  {
    var k := st.NstrMax();
    var current := if |st.rows| > |st.baseRows| then |st.rows| - |st.baseRows| else 0;
    if k != current {
      StructuredDefsOk(st.baseRows, k);
      st.SetRowDefinitions(st.baseRows + StructRows(k));
    }
  }

  class CompactApp {
    /** Tab titles in catalog order (the order of the tab list and of the CSV). */
    const order: seq<string>
    const scalars: map<string, UserDataTab>
    const tables: map<string, TabularDataTab>

    /** The tab map's fixed structure. */
    ghost predicate Shape()
      reads this
    {
      && (forall i, j :: 0 <= i < j < |order| ==> order[i] != order[j])
      && (forall i :: 0 <= i < |order| ==> order[i] in scalars || order[i] in tables)
      && (forall n :: n in scalars ==> n in order && n !in tables)
      && (forall n :: n in tables ==> n in order && tables[n].name == n)
      && (forall a, b :: a in scalars && b in scalars && a != b ==> scalars[a] != scalars[b])
      && (forall a, b :: a in tables && b in tables && a != b ==> tables[a] != tables[b])
      && GridTab !in tables
    }

    ghost predicate ScalarsValid()
      reads this, scalars.Values
    {
      forall n :: n in scalars ==> scalars[n].Valid()
    }

    ghost predicate TablesValid()
      reads this, tables.Values
    {
      forall n :: n in tables ==> tables[n].Valid()
    }

    /** Structures holds its base rows followed by STRUCT_1..STRUCT_k. */
    ghost predicate StructuresShaped()
      reads this, if StructuresTab in tables then {tables[StructuresTab]} else {}
    {
      StructuresTab in tables ==> Shaped(tables[StructuresTab].baseRows, tables[StructuresTab].rows)
    }

    ghost predicate Valid()
      reads this, scalars.Values, tables.Values
    {
      Shape() && ScalarsValid() && TablesValid() && StructuresShaped()
    }

    /** The tab-building loop of `initUI`: one newly built tab per catalog entry. */
    constructor (catalog: seq<(string, Section)>)
      requires CatalogOk(catalog)
      ensures Valid() && Built(catalog, |catalog|, order, scalars, tables)
    {
      var names, ss, ts := BuildTabs(catalog);
      BuiltCovers(catalog, names, ss, ts);
      order := names;
      scalars := ss;
      tables := ts;
      new;
      if StructuresTab in tables {
        var st := tables[StructuresTab];
        assert st.baseRows + StructRows(0) == st.baseRows;
      }
    }

    // -------------------------------------------------------------------
    // The dependency sync
    // -------------------------------------------------------------------

    /** The reading loop of `sync_tabs`. */
    method ReadDims() returns (nwb: int, nbr: int)
      requires Valid()
      ensures TabsOk(Defs(), Contents()) && (nwb, nbr) == DimsOf(Defs(), Contents())
      ensures Contents() == old(Contents())
    {
      ContentsOk();
      nwb, nbr := 0, 0;
      if GridTab in scalars {
        var data := scalars[GridTab].GetData();
        var i := 0;
        while i < |data|
          invariant 0 <= i <= |data|
          invariant nwb == DimValue(data[..i], "NWB") && nbr == DimValue(data[..i], "NBR")
        {
          var (fieldName, value) := data[i];
          DimStep(data, i, "NWB");
          DimStep(data, i, "NBR");
          if fieldName == "NWB" && value.Some? && value.value != "" {
            var parsed := ParseInt(value.value);
            if parsed.Some? {
              nwb := parsed.value;
            }
          } else if fieldName == "NBR" && value.Some? && value.value != "" {
            var parsed := ParseInt(value.value);
            if parsed.Some? {
              nbr := parsed.value;
            }
          }
          i := i + 1;
        }
        assert data[..|data|] == data;
      }
    }

    /** Capture, `set_columns(max(1, m))`, restore, on table `name`; every other tab is left as it was. */
    method RefitOne(name: string, m: int)
      requires Valid() && name in tables
      modifies tables[name]
      ensures Valid()
      ensures forall n :: n in tables ==>
        StateOf(tables[n]) == if n == name then Resized(n, old(StateOf(tables[n])), m) else old(StateOf(tables[n]))
      ensures forall n :: n in scalars ==> scalars[n].cells == old(scalars[n].cells)
    {
      tables[name].Refit(m);
    }

    /** One dependent table of `sync_tabs`, if it exists. */
    method RefitTable(name: string, m: int)
      requires Valid()
      modifies if name in tables then {tables[name]} else {}
      ensures Valid()
      ensures TabsOk(Defs(), old(Contents())) && Contents() == ResizeOne(Defs(), old(Contents()), name, m)
    {
      ContentsOk();
      ghost var before := Contents();
      if name in tables {
        RefitOne(name, m);
        Agree(Cells(), before.cells);
        Pointwise(States(), before.states, name, Resized(name, before.states[name], m));
      }
    }

    /** The next table of a resizing sweep over `names`. */
    method RefitNext(names: seq<string>, i: nat, m: int, ghost start: Tabs)
      requires Valid() && i < |names| && TabsOk(Defs(), start)
      requires Contents() == ResizeEach(Defs(), start, names[..i], m)
      modifies if names[i] in tables then {tables[names[i]]} else {}
      ensures Valid() && Contents() == ResizeEach(Defs(), start, names[..i + 1], m)
    {
      assert names[..i + 1][..i] == names[..i];
      RefitTable(names[i], m);
    }

    /** One of the two resizing loops of `sync_tabs`: every listed table that exists, to `max(1, m)` columns. */
    method ResizeAll(names: seq<string>, m: int)
      requires Valid()
      modifies tables.Values
      ensures Valid()
      ensures TabsOk(Defs(), old(Contents())) && Contents() == ResizeEach(Defs(), old(Contents()), names, m)
    {
      ContentsOk();
      ghost var start := Contents();
      var i := 0;
      while i < |names|
        invariant 0 <= i <= |names|
        invariant Valid() && Contents() == ResizeEach(Defs(), start, names[..i], m)
      {
        RefitNext(names, i, m, start);
        i := i + 1;
      }
      assert names[..|names|] == names;
    }

    /** The Structures step on the Structures table itself; every other tab is left as it was. */
    method RestructureOne()
      requires Valid() && StructuresTab in tables
      modifies tables[StructuresTab]
      ensures Valid()
      ensures forall n :: n in tables ==>
        StateOf(tables[n]) == if n == StructuresTab then Restructured(tables[n].baseRows, old(StateOf(tables[n])))
                              else old(StateOf(tables[n]))
      ensures forall n :: n in scalars ==> scalars[n].cells == old(scalars[n].cells)
    {
      Restructure(tables[StructuresTab]);
    }

    /** The Structures step at the end of `sync_tabs`, if there is a Structures table. */
    method SyncStructures()
      requires Valid()
      modifies if StructuresTab in tables then {tables[StructuresTab]} else {}
      ensures Valid()
      ensures TabsOk(Defs(), old(Contents())) && BasesOk(Bases(), old(Contents()))
      ensures Contents() == RestructureTab(Defs(), Bases(), old(Contents()))
    {
      ContentsOk();
      ghost var before := Contents();
      if StructuresTab in tables {
        RestructureOne();
        Agree(Cells(), before.cells);
        Pointwise(States(), before.states, StructuresTab,
                  Restructured(Bases()[StructuresTab], before.states[StructuresTab]));
      }
    }

    /**
     * `sync_tabs`: resize every NWB table to `max(1, NWB)` columns and every
     * NBR table to `max(1, NBR)`, then give Structures one STRUCT row per
     * structure of its widest branch. Scalar tabs are not touched.
     */
    method SyncTabs()
      requires Valid()
      modifies tables.Values
      ensures Valid()
      ensures TabsOk(Defs(), old(Contents())) && BasesOk(Bases(), old(Contents()))
      ensures var (nwb, nbr) := DimsOf(Defs(), old(Contents()));
        Contents() == SyncedTabs(Defs(), Bases(), old(Contents()), nwb, nbr)
    {
      ContentsOk();
      var nwb, nbr := ReadDims();
      ghost var start := Contents();
      ResizeAll(NwbTabs, nwb);
      ResizeAll(NbrTabs, nbr);
      SyncStructures();
      SyncSteps(Defs(), Bases(), start, nwb, nbr);
    }

    // -------------------------------------------------------------------
    // CSV export
    // -------------------------------------------------------------------

    /** The rows `save_all_to_csv` writes, in tab order. */
    method CsvRows() returns (csv: seq<seq<string>>)
      requires Valid()
      ensures TabsOk(Defs(), Contents()) && csv == CsvOf(Defs(), Contents(), order)
      ensures Contents() == old(Contents())
    {
      ContentsOk();
      ContentsKeys();
      csv := [];
      var i := 0;
      while i < |order|
        invariant 0 <= i <= |order|
        invariant Contents() == old(Contents())
        invariant csv == CsvOf(Defs(), Contents(), order[..i])
      {
        var block := TabBlock(order[i]);
        CsvOfNext(Defs(), Contents(), order, i);
        csv := csv + block + [[]];
        i := i + 1;
      }
      assert order[..|order|] == order;
    }

    /** One tab's block of `save_all_to_csv`. */
    method TabBlock(n: string) returns (block: seq<seq<string>>)
      requires Valid() && (n in scalars || n in tables)
      ensures TabsOk(Defs(), Contents()) && block == BlockOf(Defs(), Contents(), n)
      ensures Contents() == old(Contents())
    {
      ContentsOk();
      if n in scalars {
        var data := scalars[n].GetData();
        block := [Labels(data), Values(data)];
      } else {
        var data := tables[n].GetData();
        block := [];
        if data != [] {
          block := [CsvHeaders(n, |Tail(data[0])|)] + Tails(data);
        }
      }
    }

    // -------------------------------------------------------------------
    // Saved state
    // -------------------------------------------------------------------

    /** One tab's entry of `save_gui_state`: its `get_data`. */
    method SavedTab(n: string) returns (entry: Saved)
      requires Valid() && (n in scalars || n in tables)
      ensures TabsOk(Defs(), Contents()) && entry == SavedEntry(Defs(), Contents(), n)
      ensures Contents() == old(Contents())
    {
      ContentsOk();
      if n in scalars {
        var data := scalars[n].GetData();
        entry := ScalarSaved(PairList(data));
      } else {
        var data := tables[n].GetData();
        entry := TableSaved(data);
      }
    }

    /** `save_gui_state`'s payload, built tab by tab in tab order. */
    method SaveGuiState() returns (state: map<string, Saved>)
      requires Valid()
      ensures TabsOk(Defs(), Contents()) && state == SavedOf(Defs(), Contents())
      ensures Contents() == old(Contents())
    {
      ContentsOk();
      ContentsKeys();
      state := map[];
      var i := 0;
      while i < |order|
        invariant 0 <= i <= |order|
        invariant Contents() == old(Contents())
        invariant state == SavedEach(Defs(), Contents(), order[..i])
      {
        var entry := SavedTab(order[i]);
        SavedEachNext(Defs(), Contents(), order, i);
        state := state[order[i] := entry];
        i := i + 1;
      }
      assert order[..|order|] == order;
      SavedEachAll(Defs(), Contents(), order);
    }

    /** The field definitions of the scalar tabs. */
    ghost function Defs(): map<string, seq<Def>>
    {
      map n | n in scalars :: scalars[n].defs
    }

    /** What every scalar tab holds now. */
    ghost function Cells(): map<string, seq<Cell>>
      reads this, scalars.Values
    {
      map n | n in scalars :: scalars[n].cells
    }

    /** What every table holds now. */
    ghost function States(): map<string, TableState>
      reads this, tables.Values
    {
      map n | n in tables :: StateOf(tables[n])
    }

    /** What every tab holds now. */
    ghost function Contents(): Tabs
      reads this, scalars.Values, tables.Values
    {
      Tabs(Cells(), States())
    }

    /** The base rows each table was built with. */
    ghost function Bases(): map<string, seq<Def>>
    {
      map n | n in tables :: tables[n].baseRows
    }

    /** A valid application's contents fit its definitions. */
    lemma ContentsOk()
      requires Valid()
      ensures TabsOk(Defs(), Contents()) && BasesOk(Bases(), Contents())
    {
    }

    /** Every tab is in the tab order, and no title is both a scalar tab and a table. */
    lemma ContentsKeys()
      requires Valid()
      ensures Disjoint(Contents())
      ensures forall n :: n in Contents().cells || n in Contents().states ==> n in order
      ensures forall i :: 0 <= i < |order| ==> order[i] in Contents().cells || order[i] in Contents().states
    {
    }

    /** Scalar tab `n` takes a new value of its cells; nothing else changes. */
    method LoadScalarEntry(n: string, entry: Saved)
      requires Valid() && n in scalars
      modifies scalars[n]
      ensures Valid()
      ensures forall m :: m in scalars ==>
        scalars[m].cells == if m == n then LoadedScalar(scalars[m].defs, old(scalars[m].cells), entry) else old(scalars[m].cells)
      ensures forall m :: m in tables ==> StateOf(tables[m]) == old(StateOf(tables[m]))
    {
      match entry {
        case ScalarSaved(p) => scalars[n].SetData(DataList(p));
        case TableSaved(data) =>
          if |data| == 0 || |data| != |scalars[n].defs| {
            scalars[n].ClearFields();
          } else if AllPairs(data) {
            scalars[n].SetData(RowPairs(data));
          }
      }
    }

    /** Table `n` takes a new state; nothing else changes. */
    method LoadTableEntry(n: string, entry: Saved)
      requires Valid() && n in tables
      modifies tables[n]
      ensures Valid()
      ensures forall m :: m in tables ==>
        StateOf(tables[m]) == if m == n then LoadedState(old(StateOf(tables[m])), entry) else old(StateOf(tables[m]))
      ensures forall m :: m in scalars ==> scalars[m].cells == old(scalars[m].cells)
    {
      match entry {
        case TableSaved(data) => tables[n].SetData(data);
        case ScalarSaved(PairList(items)) => tables[n].SetData(PairRows(items));
        case ScalarSaved(PairObject(entries)) =>
          if entries == [] {
            tables[n].ClearFields();
          }
        case ScalarSaved(NotAContainer(falsy)) =>
          if falsy {
            tables[n].ClearFields();
          }
      }
    }

    /** One entry of `load_gui_state`: the tab of that title, if there is one, takes `set_data` with the entry read the way that tab reads it. */
    method LoadEntry(n: string, entry: Saved)
      requires Valid()
      modifies if n in scalars then {scalars[n]} else {}, if n in tables then {tables[n]} else {}
      ensures Valid()
      ensures TabsOk(Defs(), old(Contents())) && Contents() == LoadOne(Defs(), old(Contents()), n, entry)
    {
      ContentsOk();
      if n in scalars {
        LoadScalarTab(n, entry);
      } else if n in tables {
        LoadTableTab(n, entry);
      }
    }

    /** Scalar tab `n` loads its entry, as a change of the contents. */
    method LoadScalarTab(n: string, entry: Saved)
      requires Valid() && n in scalars
      modifies scalars[n]
      ensures Valid() && TabsOk(Defs(), old(Contents()))
      ensures Contents() == old(Contents()).(cells := old(Contents()).cells[n := LoadedScalar(Defs()[n], old(Contents()).cells[n], entry)])
    {
      ContentsOk();
      ghost var before := Contents();
      LoadScalarEntry(n, entry);
      Pointwise(Cells(), before.cells, n, LoadedScalar(scalars[n].defs, before.cells[n], entry));
      Agree(States(), before.states);
    }

    /** Table `n` loads its entry, as a change of the contents. */
    method LoadTableTab(n: string, entry: Saved)
      requires Valid() && n in tables
      modifies tables[n]
      ensures Valid() && TabsOk(Defs(), old(Contents()))
      ensures Contents() == old(Contents()).(states := old(Contents()).states[n := LoadedState(old(Contents()).states[n], entry)])
    {
      ContentsOk();
      ghost var before := Contents();
      LoadTableEntry(n, entry);
      Agree(Cells(), before.cells);
      Pointwise(States(), before.states, n, LoadedState(before.states[n], entry));
    }

    /** The next entry of a loading sweep over `saved`. */
    method LoadNext(saved: seq<(string, Saved)>, i: nat, ghost start: Tabs)
      requires Valid() && i < |saved| && TabsOk(Defs(), start)
      requires Contents() == LoadAll(Defs(), start, saved[..i])
      modifies if saved[i].0 in scalars then {scalars[saved[i].0]} else {},
               if saved[i].0 in tables then {tables[saved[i].0]} else {}
      ensures Valid() && Contents() == LoadAll(Defs(), start, saved[..i + 1])
    {
      assert saved[..i + 1][..i] == saved[..i];
      LoadEntry(saved[i].0, saved[i].1);
    }

    /**
     * `load_gui_state` on an already-decoded state, its entries in file order:
     * every entry whose title is a tab goes through that tab's `set_data`
     * (an entry of the other kind is ignored); other entries and other tabs
     * are left alone.
     */
    method LoadGuiState(saved: seq<(string, Saved)>)
      requires Valid()
      modifies scalars.Values, tables.Values
      ensures Valid()
      ensures TabsOk(Defs(), old(Contents())) && Contents() == LoadAll(Defs(), old(Contents()), saved)
    {
      ContentsOk();
      ghost var start := Contents();
      var i := 0;
      while i < |saved|
        invariant 0 <= i <= |saved|
        invariant Valid() && Contents() == LoadAll(Defs(), start, saved[..i])
      {
        LoadNext(saved, i, start);
        i := i + 1;
      }
      assert saved[..|saved|] == saved;
    }

    /**
     * `__init__` once `initUI` has built the tabs: the sync that selecting the
     * first tab sets off, the one `display_tab` runs, `load_gui_state` and the
     * last `sync_tabs`.
     */
    method Start(saved: seq<(string, Saved)>)
      requires Valid()
      modifies scalars.Values, tables.Values
      ensures Valid()
      ensures TabsOk(Defs(), old(Contents())) && BasesOk(Bases(), old(Contents()))
      ensures Contents() == StartupAsWritten(Defs(), Bases(), old(Contents()), saved)
    {
      SyncTabs();
      SyncTabs();
      LoadGuiState(saved);
      SyncTabs();
    }

    /** The tabs the constructor builds are the start-up's starting point. */
    lemma BuiltAsBuilt(catalog: seq<(string, Section)>)
      requires Valid() && Built(catalog, |catalog|, order, scalars, tables)
      ensures AsBuilt(Defs(), Bases(), Contents())
    {
      ContentsOk();
      ContentsKeys();
    }

    /** Scalar tab `n`'s `clear_fields`; every other tab is left as it was. */
    method ClearScalarTab(n: string)
      requires Valid() && n in scalars
      modifies scalars[n]
      ensures Valid()
      ensures forall m :: m in scalars ==>
        scalars[m].cells == if m == n then Defaults(scalars[m].defs) else old(scalars[m].cells)
      ensures forall m :: m in tables ==> StateOf(tables[m]) == old(StateOf(tables[m]))
    {
      scalars[n].ClearFields();
    }

    /** Table `n`'s `clear_fields`; every other tab is left as it was. */
    method ClearTableTab(n: string)
      requires Valid() && n in tables
      modifies tables[n]
      ensures Valid()
      ensures forall m :: m in tables ==>
        StateOf(tables[m]) == if m == n then ClearedState(old(StateOf(tables[m]))) else old(StateOf(tables[m]))
      ensures forall m :: m in scalars ==> scalars[m].cells == old(scalars[m].cells)
    {
      tables[n].ClearFields();
    }

    /** One tab's `clear_fields`. */
    method ClearTab(n: string)
      requires Valid()
      modifies if n in scalars then {scalars[n]} else {}, if n in tables then {tables[n]} else {}
      ensures Valid()
      ensures TabsOk(Defs(), old(Contents())) && Contents() == ClearOne(Defs(), old(Contents()), n)
    {
      ContentsOk();
      if n in scalars {
        ClearScalarContents(n);
      } else if n in tables {
        ClearTableContents(n);
      }
    }

    /** Scalar tab `n`'s `clear_fields`, as a change of the contents. */
    method ClearScalarContents(n: string)
      requires Valid() && n in scalars
      modifies scalars[n]
      ensures Valid() && TabsOk(Defs(), old(Contents()))
      ensures Contents() == old(Contents()).(cells := old(Contents()).cells[n := Defaults(Defs()[n])])
    {
      ContentsOk();
      ghost var before := Contents();
      ClearScalarTab(n);
      Pointwise(Cells(), before.cells, n, Defaults(scalars[n].defs));
      Agree(States(), before.states);
    }

    /** Table `n`'s `clear_fields`, as a change of the contents. */
    method ClearTableContents(n: string)
      requires Valid() && n in tables
      modifies tables[n]
      ensures Valid() && TabsOk(Defs(), old(Contents()))
      ensures Contents() == old(Contents()).(states := old(Contents()).states[n := ClearedState(old(Contents()).states[n])])
    {
      ContentsOk();
      ghost var before := Contents();
      ClearTableTab(n);
      Agree(Cells(), before.cells);
      Pointwise(States(), before.states, n, ClearedState(before.states[n]));
    }

    /** The next tab of a sweep over `names`. */
    method ClearNext(names: seq<string>, i: nat, ghost start: Tabs)
      requires Valid() && i < |names| && TabsOk(Defs(), start)
      requires Contents() == ClearEach(Defs(), start, names[..i])
      modifies if names[i] in scalars then {scalars[names[i]]} else {}, if names[i] in tables then {tables[names[i]]} else {}
      ensures Valid() && Contents() == ClearEach(Defs(), start, names[..i + 1])
    {
      assert names[..i + 1][..i] == names[..i];
      ClearTab(names[i]);
    }

    /** `clear_fields` on the tabs `names`, one after the other. */
    method ClearEachTab(names: seq<string>)
      requires Valid()
      modifies scalars.Values, tables.Values
      ensures Valid()
      ensures TabsOk(Defs(), old(Contents())) && Contents() == ClearEach(Defs(), old(Contents()), names)
    {
      ContentsOk();
      ghost var start := Contents();
      var i := 0;
      while i < |names|
        invariant 0 <= i <= |names|
        invariant Valid() && Contents() == ClearEach(Defs(), start, names[..i])
      {
        ClearNext(names, i, start);
        i := i + 1;
      }
      assert names[..|names|] == names;
    }

    /** The sweep after a successful CSV save: every tab's `clear_fields`, in tab order. */
    method ClearAllFields()
      requires Valid()
      modifies scalars.Values, tables.Values
      ensures Valid()
      ensures TabsOk(Defs(), old(Contents())) && Contents() == ClearedTabs(Defs(), old(Contents()))
    {
      ContentsOk();
      ContentsKeys();
      ClearEachTab(order);
      ClearEachAll(Defs(), old(Contents()), order);
    }

    /**
     * `save_all_to_csv` once a file has been chosen and opened: the CSV rows
     * and the saved state are taken from the tabs as they stood, then every
     * tab is cleared.
     */
    method SaveAllToCsv() returns (csv: seq<seq<string>>, state: map<string, Saved>)
      requires Valid()
      modifies scalars.Values, tables.Values
      ensures Valid()
      ensures TabsOk(Defs(), old(Contents()))
      ensures csv == CsvOf(Defs(), old(Contents()), order) && state == SavedOf(Defs(), old(Contents()))
      ensures Contents() == ClearedTabs(Defs(), old(Contents()))
    {
      csv := CsvRows();
      state := SaveGuiState();
      ClearAllFields();
    }
  }
}
