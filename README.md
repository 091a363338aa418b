# Compact data entry app: the tab data logic

This project models the data logic of a desktop form for the configuration file of a
two-dimensional hydrodynamic water-quality model. The form has two kinds of tab:

- A **scalar tab** (`UserDataTab`) is a list of labelled fields. Each field is a checkbox,
  an integer spin box, a combo box or a line edit.
- A **table tab** (`TabularDataTab`) has one row per row definition and one column per
  waterbody or per branch.

The application (`CompactApp`) does four things:

- It keeps the tables' widths in step with the counts NWB and NBR on the grid-dimensions
  tab.
- It grows the "Structures" table by one text row per structure, up to the largest NSTR
  value.
- It exports every tab as CSV rows.
- It saves and restores a JSON snapshot of all tabs.

Widget state is modelled as values:

- a field or cell is a `Cells.Cell` whose `Kind` carries the spin box range or the combo
  box options;
- a scalar tab's widgets are a `seq<Cell>`;
- a table is a `seq<seq<Cell>>` with its row definitions, column count and headers.

The two tab classes and the application are Dafny classes whose methods update these
fields in place. Each method is proved against a function, and lemmas prove what those
functions promise:

- within a session, `get_data` then `set_data` is the identity, for scalar tabs, tables
  and the whole application state;
- across a restart it is not: the saved state is loaded while every table is one column
  wide, so what was saved beyond the first column comes back blank (see Findings); a
  corrected load that gives the saved tabs back is proved;
- resizing keeps every overlapping cell;
- `set_row_definitions` restores by row index;
- the CSV blocks give back what `get_data` reported;
- a second `sync_tabs` changes nothing.

Modules, in dependency order:

- `Basics`: optional values and `max(1, n)`.
- `Numerals`: `str` and `int` on integers.
- `Cells`: per-widget read, write and encode.
- `Catalog`: tab categories, column headers, the fixed rows that the sync reads, and the
  STRUCT rows.
- `ScalarTab`
- `TableTab`
- `Flatten`: CSV blocks and saved-state entries.
- `Sync`: the per-table effect of `sync_tabs`.
- `AppState`: all tabs as one `Tabs` value, with loading, clearing, exporting and syncing
  as functions on it.
- `Startup`: the start-up sequence of `__init__`, as written and corrected.
- `App`: class `CompactApp`.

Four behaviours of the code are worth noting:

- `set_row_definitions` restores the old data by row index, not by row label
  (test.py:227, test.py:261-263). After the Structures rows change, a row takes the values
  of whichever old row sat at its index.
- In a table, a numeric cell always reports `str(value)`, even at its minimum
  (test.py:242). Only the scalar tab turns an integer at its minimum into `None`
  (test.py:91).
- The CSV export writes an empty header row (`[]`) for a table outside both categories
  (test.py:710).
- In the scalar `set_data`, a pair whose label differs from its field's label leaves that
  one field unchanged (test.py:103-104). Only a length mismatch or an empty payload clears
  the tab.

## Model

| member | source | states |
|---|---|---|
| Basics.Max1 | test.py:165-166 | The width of a table is at least 1: a request of at least 1 is kept, and anything less becomes 1. |
| Numerals.ShowInt | test.py:91 | `str` of an integer is never empty. |
| Numerals.ValueOfShowNat | test.py:91 | The digit string of a natural number denotes that number. |
| Numerals.ParseShowInt | test.py:91 | `int(str(i)) == i` for every integer, the negative ones included. |
| Numerals.ShowNatInjective | test.py:172-176 | Different numbers print differently, so numbered labels never coincide. |
| Cells.Default | test.py:126-135 | The cleared state of every kind fits that kind: unchecked, the spin box minimum, index 0 (or -1 for an empty combo box), or "". |
| Cells.Clamp | test.py:115-117 | `setValue` lands inside `[min, max]`. An in-range value is kept. Values below or above go to the nearest bound. |
| Cells.Fresh | test.py:61-63 | A newly built widget fits its kind. It is the cleared state, except for a spin box whose range excludes 0, which starts at `Clamp(0, min, max)`. |
| Cells.FindText | test.py:112 | `findText` gives the first index holding the text, or -1 exactly when no option holds it. |
| Cells.SetCurrentText | test.py:111-112 | Selecting a known text makes it current. An unknown text leaves the selection unchanged. |
| Cells.SetNumber | test.py:115-119 | Parsing and setting a number stays in range. A string that does not parse resets to the minimum. |
| Cells.ScalarValue | test.py:80-94 | A field reports `None` exactly when it is not a checkbox and sits at its cleared state. A checkbox reports "ON"/"OFF". An integer reports text that parses back to its value. |
| Cells.SetScalar | test.py:103-124 | Writing a value keeps the field well-formed. `None` clears the field. A checkbox is checked only by "ON". An unparsable integer resets to its minimum. |
| Cells.ScalarRoundTrip | test.py:76-124 | Writing back what a field reports, into that field or any field of the same kind, gives the field back, when no combo box option repeats. |
| Cells.ScalarValueNotEmpty | test.py:81-86 | A field never reports `Some("")`, so the blank in a CSV values row always stands for `None`. |
| Cells.CellText | test.py:236-251 | A table cell reports "ON"/"OFF" for a checkbox, text parsing back to its value for a number, and "" for an empty combo box. |
| Cells.SetText | test.py:264-291 | Writing a string into a cell keeps it well-formed. A checkbox is checked only by "ON". Text is copied. An unparsable number resets to the minimum. |
| Cells.TextRestores | test.py:229-291 | A cell's encoded string written into any cell of the same kind reproduces the cell, when no option repeats. |
| Cells.TextSurvives | test.py:229-291 | A cell's encoded string written into any cell of the same kind encodes to the same string again, with no condition on the options. |
| ScalarTab.Defaults | test.py:137-140 | Every field of a cleared tab is at its own cleared state. |
| ScalarTab.FreshCells | test.py:15-74 | A newly built tab has one newly built widget per field, each fitting its definition. |
| ScalarTab.Pairs | test.py:76-95 | The payload has one pair per field, in field order: the field's label and what the field reports. |
| ScalarTab.Step | test.py:103-124 | A pair whose label differs from the field's label leaves that field unchanged. |
| ScalarTab.Zipped | test.py:103-124 | Field `i` is updated from pair `i` alone. |
| ScalarTab.Applied | test.py:97-124 | `set_data` always leaves every field well-formed. |
| ScalarTab.PairsRoundTrip | test.py:76-124 | `set_data(get_data())` gives every field back, duplicate labels included, whatever the tab held before, when no option repeats. |
| ScalarTab.MismatchClears | test.py:99-101 | An empty payload, or one of the wrong length, clears the tab. Every non-checkbox field then reports `None`. |
| ScalarTab.UserDataTab.constructor | test.py:15-74 | A new tab holds its definitions, with every widget as built: a spin box at 0 clamped into its range, every other widget cleared. |
| ScalarTab.UserDataTab.GetData | test.py:76-95 | The loop returns exactly `Pairs` of the current fields. |
| ScalarTab.UserDataTab.ClearWidget | test.py:126-135 | Exactly field `i` goes to its cleared state. |
| ScalarTab.UserDataTab.ClearFields | test.py:137-140 | Every field is cleared. |
| ScalarTab.UserDataTab.SetData | test.py:97-124 | An empty or wrong-length payload clears everything. Otherwise each field whose label matches takes its pair's value, and every other field is unchanged. |
| TableTab.Tail | test.py:264 | `row[1:]` drops the label and is empty for an empty row. |
| TableTab.DefaultRow | test.py:293-313 | A cleared row has `n` cells, each at its cleared state. |
| TableTab.DefaultGrid | test.py:293-313 | The grid `clear_fields` leaves has one cleared row of width `n` per row definition. |
| TableTab.FreshRow | test.py:181-205 | A row that `set_columns(n)` builds has `n` newly built cells. |
| TableTab.FreshGrid | test.py:181-205 | The grid `set_columns(n)` builds has one row of `n` newly built cells per row definition. |
| TableTab.Texts | test.py:234-251 | One encoded string per cell, in column order. |
| TableTab.Encode | test.py:229-253 | The payload has one row per definition: the row's label, then one string per column. |
| TableTab.EncodeRows | test.py:233-252 | Payload row `r` is the label followed by the texts of row `r`. |
| TableTab.RestoreRow | test.py:264-291 | Column `c` takes value `c` when the payload reaches it and otherwise keeps its cell. Surplus values are ignored. |
| TableTab.RestoreRows | test.py:261-263 | Row `r` takes payload row `r` when the payload has one, else it stays unchanged. |
| TableTab.Restore | test.py:255-291 | `set_data` keeps the table's shape. |
| TableTab.Refitted | test.py:630-644 | Capture, resize and restore give a table `max(1, m)` wide. |
| TableTab.Rebuilt | test.py:207-227 | Replacing the rows gives a grid `max(1, n)` wide for the new rows. |
| TableTab.TableRoundTrip | test.py:229-291 | `set_data(get_data())` gives the grid back, also into a table of the same rows and width whose cells held anything else. |
| TableTab.RefitKeepsOverlap | test.py:630-644 | After a resize, each column that existed keeps every cell's encoded value, and its state when no option repeats. Every new column holds newly built cells. |
| TableTab.RebuiltByIndex | test.py:207-227 | After new row definitions, cell `(r, c)` is the old row `r`'s string written into a newly built cell of the new kind when both existed, and a newly built cell otherwise. When the table had no rows, every new cell is cleared instead. |
| TableTab.RebuiltKeepsRow | test.py:207-227 | A row kept at its index with the same kind keeps every encoded value. |
| TableTab.RebuiltRowSame | test.py:207-227 | Such a row, with no repeated option, comes back unchanged. |
| TableTab.FirstNamed | test.py:653 | The first row with that label, or `None` exactly when no row has it. |
| TableTab.ColumnMax | test.py:651-661 | Each value in the row is at most the result, and the result is 0 or one of the values. |
| TableTab.TabularDataTab.constructor | test.py:144-161 | A new table holds its rows as current and base rows, with no columns, no headers and an empty row of cells per definition. |
| TableTab.TabularDataTab.SetColumns | test.py:163-205 | The width becomes `max(1, n)`, the headers follow the tab's category, and every cell is replaced by a newly built one. |
| TableTab.TabularDataTab.GetData | test.py:229-253 | The loop returns exactly `Encode` of the current grid. |
| TableTab.TabularDataTab.RowData | test.py:233-251 | One row of the payload: its label, then each column's text. |
| TableTab.TabularDataTab.ClearFields | test.py:293-313 | Every cell is cleared. Shape and headers are unchanged. |
| TableTab.TabularDataTab.SetData | test.py:255-291 | The new grid is `Restore` of the old grid and the payload. Shape and headers are unchanged. |
| TableTab.TabularDataTab.SetRowDefinitions | test.py:207-227 | The rows become the new definitions and the width becomes `max(1, old width)`. The grid is the old data restored by row index. |
| TableTab.TabularDataTab.Refit | test.py:630-644 | The sync step gives a table `max(1, n)` wide, with the old data kept where it fits. |
| TableTab.TabularDataTab.NstrMax | test.py:649-661 | The result is the maximum over columns of the first NSTR row, and 0 without one or when that row is not numeric. |
| Catalog.CategoriesDisjoint | test.py:170-174 | No table follows both NWB and NBR. Structures follows NBR. |
| Catalog.CategoriesDistinct | test.py:628-638 | No title is listed twice in either category. |
| Catalog.Numbered | test.py:172-176 | Header `i` is the prefix followed by `i+1`. |
| Catalog.NumberedDistinct | test.py:172-176 | Numbered headers never repeat. |
| Catalog.HeaderPrefix | test.py:170-176 | "WB" for the NWB tables, "BR" for the NBR tables, "Col" otherwise. |
| Catalog.ColumnHeaders | test.py:169-178 | `n` headers, the prefix numbered from 1. |
| Catalog.CsvHeaders | test.py:704-710 | A categorised table's export header row has one entry per column, WBi or BRi numbered from 1, no two alike. Any other table gets an empty header row. |
| Catalog.StructRows | test.py:668-674 | `k` text rows labelled STRUCT_1 to STRUCT_k. |
| Catalog.StructRowsPrefix | test.py:668-674 | Fewer STRUCT rows are a prefix of more. |
| Flatten.Labels | test.py:697 | The labels row has one label per field. |
| Flatten.Values | test.py:698 | The values row has one value per field, with "" for `None`. |
| Flatten.ScalarBlock | test.py:695-700 | A scalar tab exports a labels row over a values row, one column per field: the field's label above its value, or "" for `None`. |
| Flatten.Tails | test.py:713-714 | Each payload row without its label. |
| Flatten.TableBlock | test.py:701-714 | An empty payload exports nothing. Otherwise the block is a header row for the first row's width, then each row without its label. |
| Flatten.ScalarBlockReadsBack | test.py:694-700 | The two CSV rows give back every (label, value) pair, with "" standing exactly for `None`. |
| Flatten.TableBlockReadsBack | test.py:701-714 | A table's block has one row per table row, plus a header with one entry per column (none for other tabs). Putting the labels back gives `get_data`. |
| Flatten.DataList | test.py:752-757 | A saved entry that is neither a list nor an object gives an empty payload. |
| Flatten.RowPairs | test.py:755 | `tuple(row)` of each two-entry row is the pair of its first and second entry. |
| Flatten.PairRows | test.py:759-760 | A list of pairs read as table rows: one row per pair, the label then the value, "" for `None`. |
| Flatten.LoadedScalar | test.py:752-758 | Loading keeps the tab well-formed. A value that is neither a list nor an object clears it. A table payload clears it when empty or of a row count other than the field count, and leaves it unchanged when some row is not a pair. |
| Flatten.TableRowsLoadAsPairs | test.py:752-758 | A table payload of two-entry rows loads into a scalar tab exactly as the list of the same pairs does. |
| Flatten.LoadedTable | test.py:759-760 | Loading keeps the table's shape. An empty object, or null, false, 0 or "", clears it. A non-empty object or any other non-container leaves it unchanged. |
| Flatten.PairsLandInFirstColumn | test.py:255-265 | A non-empty pair list loaded into a table writes pair `r`'s value into column 0 of row `r` and changes no other cell. |
| Flatten.ScalarSnapshotRoundTrip | test.py:729-758 | Loading a scalar tab's saved pairs gives the saved fields back, whatever the tab held before the load. |
| Flatten.TableSnapshotRoundTrip | test.py:733-760 | Loading a table's saved rows gives the saved grid back, when the table has the rows and width it was saved with. |
| Sync.DimStep | test.py:615-625 | One-step unfolding of the reading loop, used to close `ReadDims`: one more pair sets the counter exactly when the pair has the key and its value parses. |
| Sync.DimAbsent | test.py:611-625 | Without a pair labelled with the key, the count stays 0. |
| Sync.DimLast | test.py:615-625 | Pairs after the last one labelled with the key do not change the count. |
| Sync.DimOfField | test.py:611-625 | Read from a tab whose one field with that label is a spin box, the count is its value, or 0 while it is at its minimum. |
| Sync.GridDims | test.py:611-625 | With the catalog's grid fields, NWB and NBR are the values of the first two spin boxes. |
| Sync.Resized | test.py:630-644 | Resizing keeps the rows and sets the width to `max(1, m)`. |
| Sync.StructuredDefsOk | test.py:668-674 | Adding STRUCT rows keeps the definitions well-formed. |
| Sync.Restructured | test.py:646-675 | Structures becomes its base rows plus one STRUCT row per structure of the largest NSTR, or it is unchanged. It is unchanged exactly when that maximum equals the number of rows beyond the base rows. |
| Sync.Synced | test.py:609-678 | An NWB table takes width `max(1, NWB)` with the same rows. An NBR table takes width `max(1, NBR)`, and its rows change only for Structures. Every other table is untouched. |
| Sync.RefitFixpoint | test.py:630-635 | Resizing to the width a table already has changes nothing. |
| Sync.ResizedNoop | test.py:630-644 | A table already resized to `m` is unchanged by a second resize to `m`. |
| Sync.NstrInBase | test.py:653-674 | STRUCT rows are never labelled NSTR, so the NSTR row is a base row. |
| Sync.StructRowsDistinct | test.py:668-674 | STRUCT rows add no combo box option. |
| Sync.StructKindsAgree | test.py:668-674 | Two STRUCT-extended row lists agree on the kind of every row both have. |
| Sync.RestructuredKeepsRows | test.py:666-675 | Going from `j` to `k` STRUCT rows, every base row and STRUCT_1 to STRUCT_min(j,k) keeps its encoded values. |
| Sync.NstrKept | test.py:649-675 | Rebuilding Structures keeps the NSTR maximum. |
| Sync.RestructuredStable | test.py:646-675 | A second Structures step changes nothing. |
| Sync.SyncedFixpoint | test.py:609-678 | Syncing a table twice with the same counts equals syncing it once. |
| AppState.LoadedState | test.py:759-760 | Loading a table's entry keeps its rows, width and headers. |
| AppState.Entries | test.py:747-749 | Every title of the decoded object is an entry. |
| AppState.EntriesMissing | test.py:749-750 | A title that is not in the object has no entry. |
| AppState.TitledFresh | test.py:749 | No title comes before its own entry. |
| AppState.LoadOne | test.py:750-760 | Loading one entry keeps every tab well-formed and the set of tabs. |
| AppState.LoadAll | test.py:741-760 | Loading the whole snapshot keeps every tab well-formed and the set of tabs. |
| AppState.LoadAllCells | test.py:749-758 | Each scalar tab named in the snapshot is loaded from its own entry. Every other scalar tab is unchanged. |
| AppState.LoadAllStates | test.py:749-760 | Each table named in the snapshot is loaded from its own entry. Every other table is unchanged. |
| AppState.StateSnapshotRoundTrip | test.py:733-760 | A table's saved rows load back to the same table state. |
| AppState.SaveLoadCells | test.py:726-758 | After loading what was saved, every scalar tab is unchanged. |
| AppState.SaveLoadStates | test.py:726-760 | After loading what was saved, every table is unchanged. |
| AppState.SaveLoadRoundTrip | test.py:726-760 | Loading the snapshot `save_gui_state` wrote gives back every tab exactly, when no combo box option repeats. |
| AppState.ClearedState | test.py:293-313 | Clearing a table keeps its rows, width and headers. |
| AppState.ClearOne | test.py:719-721 | Clearing one tab keeps every tab well-formed. |
| AppState.ClearEach | test.py:719-721 | Clearing a list of tabs keeps every tab well-formed. |
| AppState.ClearEachCells | test.py:719-721 | The scalar tabs in the list are cleared. The others are unchanged. |
| AppState.ClearEachStates | test.py:719-721 | The tables in the list are cleared. The others are unchanged. |
| AppState.ClearEachAll | test.py:719-721 | Clearing every tab in any order gives the all-cleared contents. |
| AppState.CsvOfNext | test.py:694-715 | One-step unfolding of the export loop, used to close `CsvRows`: each tab adds its block and then one empty row. |
| AppState.SavedEachNext | test.py:728-733 | One-step unfolding of the saving loop, used to close `SaveGuiState`: each tab adds its own entry to the snapshot. |
| AppState.SavedEachEntries | test.py:728-733 | The snapshot has exactly the listed titles, each with its tab's entry. |
| AppState.SavedEachAll | test.py:726-733 | Writing every tab's entry builds the whole snapshot. |
| AppState.DimsOfGrid | test.py:611-625 | With the catalog's grid tab, the sync reads NWB and NBR as its first two spin boxes. |
| AppState.ResizeOne | test.py:630-635 | Resizing one table touches no scalar tab. |
| AppState.ResizeEach | test.py:627-644 | A sweep of resizes touches no scalar tab. |
| AppState.ResizeEachStates | test.py:627-644 | A sweep over distinct titles resizes exactly the listed tables. |
| AppState.RestructureTab | test.py:646-648 | The Structures step touches no scalar tab. |
| AppState.RestructureTabStates | test.py:646-675 | The Structures step changes the Structures table alone. |
| AppState.SyncedTabs | test.py:609-678 | The sync touches no scalar tab and no title. |
| AppState.SyncedCases | test.py:627-675 | A table passed through the NWB step, the NBR step and the Structures step ends as `Synced` says. |
| AppState.SyncedStates | test.py:627-675 | Every table ends as `Synced` says. |
| AppState.SyncSteps | test.py:627-675 | The NWB sweep, then the NBR sweep, then the Structures step equals the per-table sync. |
| AppState.SyncedTabsFixpoint | test.py:609-681 | A second sync reads the same NWB and NBR and changes no tab. |
| Startup.SyncNow | test.py:609-678 | One sync keeps every tab well-formed, the scalar tabs and the set of tables. |
| Startup.StartupAsWritten | test.py:572-574 | The start-up keeps every tab well-formed and the set of tables. |
| Startup.FreshDims | test.py:611-625 | Newly built grid fields hold NWB = NBR = 0. |
| Startup.SyncAtZero | test.py:627-644 | A sync at NWB = NBR = 0 leaves every WB or BR table other than Structures one column wide, with its rows. |
| Startup.LoadedAtWidthOne | test.py:572-607 | As written, the load runs while every WB or BR table other than Structures is one column wide. |
| Startup.SyncFromWidthOne | test.py:627-644 | Syncing such a one-column table leaves only newly built cells after its first column. |
| Startup.StartupKeepsOneColumn | test.py:572-574 | After the start-up as written, every cell after the first column of a WB or BR table other than Structures is newly built, whatever was saved. |
| Startup.StartupLosesColumns | test.py:572-574 | A state holding anything but a newly built cell after the first column of such a table never comes back from a restart. |
| Startup.LoadedFitted | test.py:741-760 | The corrected table load: the width of the saved first row (at least 1) and its headers, Structures' row count from the entry, every other table's rows kept. |
| Startup.FittedRoundTrip | test.py:733-760 | A synced non-empty table comes back exactly from its own entry through the corrected load, whatever shape it had before. |
| Startup.LoadOneFitted | test.py:750-760 | The corrected load of one entry keeps every tab well-formed and the set of tabs. |
| Startup.LoadAllFitted | test.py:741-760 | The corrected load of the snapshot keeps every tab well-formed and the set of tabs. |
| Startup.LoadAllFittedTabs | test.py:749-760 | Under the corrected load, each tab is loaded from its own entry or left alone. |
| Startup.StartupFitted | test.py:572-574 | The corrected start-up keeps every tab well-formed and the set of tables. |
| Startup.StartupRestores | test.py:572-574 | With the corrected load, a restart from the state saved for a reachable `t` gives `t` back as the next sync shows it: every scalar tab, and every table's rows, width, headers and cells. |
| App.BuiltCovers | test.py:582-590 | After the tab loop, the titles are distinct and each one names a built tab. |
| App.AddScalar | test.py:586-590 | A fields entry adds one newly built scalar tab under its title. |
| App.AddTable | test.py:584-590 | A tabular entry adds one table under its title, with no columns. |
| App.BuildTabs | test.py:582-590 | The loop builds one newly built tab per catalog entry, in catalog order. |
| App.Restructure | test.py:646-675 | Implements the Structures step: the table ends in `Restructured` of its old state. |
| App.CompactApp.constructor | test.py:576-590 | The application starts with one newly built tab per catalog entry, and Structures has its base rows. |
| App.CompactApp.ReadDims | test.py:611-625 | The reading loop returns the NWB and NBR that `AppState.DimsOf` reads and changes nothing. |
| App.CompactApp.RefitOne | test.py:631-635 | One table is resized. Every other tab is unchanged. |
| App.CompactApp.RefitTable | test.py:630-635 | A named table, if present, is resized. |
| App.CompactApp.RefitNext | test.py:630-635 | One more title of the sweep is resized. |
| App.CompactApp.ResizeAll | test.py:627-644 | The sweep loop resizes exactly the listed tables. |
| App.CompactApp.RestructureOne | test.py:646-675 | Only Structures changes. |
| App.CompactApp.SyncStructures | test.py:646-678 | The Structures step of the application. |
| App.CompactApp.SyncTabs | test.py:609-678 | Every table ends as `Synced` says for the NWB and NBR read from the grid tab. Scalar tabs are unchanged. |
| App.CompactApp.CsvRows | test.py:694-715 | The export loop returns each tab's block and an empty row, in tab order, and changes nothing. |
| App.CompactApp.TabBlock | test.py:695-714 | One tab's CSV block. |
| App.CompactApp.SavedTab | test.py:729-733 | One tab's saved entry. |
| App.CompactApp.SaveGuiState | test.py:726-733 | The snapshot holds every tab's entry by title. Nothing changes. |
| App.CompactApp.LoadScalarEntry | test.py:752-758 | One scalar tab loads its entry. Every other tab is unchanged. |
| App.CompactApp.LoadTableEntry | test.py:759-760 | One table loads its entry. Every other tab is unchanged. |
| App.CompactApp.LoadEntry | test.py:750-760 | A title that names no tab is skipped. A known title loads into its tab. |
| App.CompactApp.LoadScalarTab | test.py:752-758 | Implements `LoadOne` for a scalar tab. |
| App.CompactApp.LoadTableTab | test.py:759-760 | Implements `LoadOne` for a table. |
| App.CompactApp.LoadNext | test.py:749-760 | One more entry of the snapshot is loaded. |
| App.CompactApp.LoadGuiState | test.py:741-760 | The loop loads every entry in file order: the contents become `LoadAll` of the snapshot. |
| App.CompactApp.Start | test.py:572-574 | The two syncs of `initUI`, the load and the last sync: the contents become `StartupAsWritten` of the tabs as built. |
| App.CompactApp.BuiltAsBuilt | test.py:576-590 | The tabs the constructor builds are the start-up's starting point: newly built widgets, and tables of their base rows with no column. |
| App.CompactApp.ClearScalarTab | test.py:719-721 | One scalar tab is cleared. Nothing else changes. |
| App.CompactApp.ClearTableTab | test.py:719-721 | One table is cleared. Nothing else changes. |
| App.CompactApp.ClearTab | test.py:719-721 | Implements `ClearOne`. |
| App.CompactApp.ClearScalarContents | test.py:719-721 | The contents after clearing one scalar tab. |
| App.CompactApp.ClearTableContents | test.py:719-721 | The contents after clearing one table. |
| App.CompactApp.ClearNext | test.py:719-721 | One more tab of the list is cleared. |
| App.CompactApp.ClearEachTab | test.py:719-721 | The loop clears exactly the listed tabs. |
| App.CompactApp.ClearAllFields | test.py:719-721 | Every tab is cleared. |
| App.CompactApp.SaveAllToCsv | test.py:686-724 | Returns the CSV rows and the snapshot of the contents before the call, then clears every tab. |

## Left out

- Decimal spin boxes (`QDoubleSpinBox`, the fields and rows with `decimal_places`) are not modelled. Floating point is out of scope, so the catalog's numeric kinds are integer spin boxes only.
- `Numerals.ParseInt` models Python's `int(str)` as an optional '-' followed by ASCII digits. Surrounding whitespace, '+', underscores and non-ASCII digits are not accepted.
- The Qt details without a data effect are left out: layouts, fonts, tooltips, descriptions, vertical header items and the `columns` layout argument.
- A row definition without a "type" defaults to checkbox (test.py:183). The model always has a kind.
- A spin box whose minimum exceeds its maximum is excluded (`KindOk`). Every spin box of the catalog has the range 0 to 999999.
- File I/O, the save-file dialog and the message boxes are left out (test.py:687-692, test.py:717, test.py:723-724, test.py:735-739, test.py:742-747, test.py:762-763). The CSV export returns its rows. `SaveGuiState` returns the snapshot. `LoadGuiState` takes the decoded JSON object as a sequence of (title, entry) pairs in file order. A missing file, an unreadable file and bad JSON are the "nothing loaded" path, which is the same as an empty sequence.
- JSON values are modelled by shape: a pair list, an object, a value that is neither (and whether it is null, false, 0 or ""), or rows of strings. A payload of the other tab kind follows the code, except where the code raises an exception that nothing catches (test.py:762 catches only I/O and JSON errors). There the model leaves the tab unchanged: a table payload of the right row count with a row that is not two entries long (the unpacking at test.py:103), a non-empty object given to a table (the lookup at test.py:263), and a number or `true` given to a table. JSON `null` or numbers inside a row are not modelled.
- Flatten.PairRows: reads a `None` value as "". For checkbox and numeric cells the code behaves the same (test.py:269, test.py:273-279); for line edits and combo boxes this assumes PyQt passes `None` on as an empty string.
- Cells.SetNumber: clamps every parsed integer into the range. PyQt's `setValue` raises OverflowError for an integer outside the 32-bit range (test.py:117, test.py:276), and nothing catches it, so in the application such a value stops the load.
- The `except Exception: pass` of the Structures step (test.py:676-678) guards statements that cannot fail in the model, so it has no counterpart.
- The signal connections, the tab list and the stacked widget are not modelled (test.py:577-604, test.py:682-684). The syncs that `setCurrentRow(0)` and `display_tab` run at start-up are part of `App.CompactApp.Start`. `SyncedTabsFixpoint` shows that the extra `sync_tabs` each later click runs changes nothing.
- `App.CompactApp.constructor` models only the tab-building loop of `initUI`. The rest of `__init__` (test.py:572-574, test.py:605-607) is `App.CompactApp.Start`, which a caller runs next, and `Startup.StartupAsWritten` as a function. As written, the start-up does not restore the saved tables beyond their first column (see Findings).
- Startup.StartupKeepsOneColumn: states the loss only for WB and BR tables other than Structures. Structures also loses its columns after the first and the text of its STRUCT rows, since those rows do not exist while loading. The model computes that too, but no lemma states it.
- The catalog contents (the field and row definitions of each of the 22 tabs) are a parameter of the constructor. `Catalog` fixes only what the data logic reads: the two categories, the grid fields NWB/NBR and the base rows of Structures.
- `CatalogOk` assumes the titles are distinct and that the grid-dimensions tab is a scalar tab. Both hold for the catalog; a Python dict would silently keep only the last of two entries with the same title.

## Findings

| source | as written | input that shows it | evidently intended | confidence | as-written member | corrected member |
|---|---|---|---|---|---|---|
| test.py:572-574 | `__init__` loads the saved state after `initUI` has synced the newly built tabs, so every WB or BR table is one column wide during the load, and `set_data` skips the columns beyond the current width (test.py:264-265). The last sync then adds the columns back blank. | Save with NWB = 2 and JBDN = 3 in column WB2 of "Waterbody Definition", then restart: that cell comes back as 0. | A restart gives back the saved tabs, as the next `sync_tabs` shows them. | medium, not executed | Startup.StartupLosesColumns | Startup.StartupRestores |
