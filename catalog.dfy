/**
 * The parts of the static tab catalog that the data logic depends on: which
 * tables follow the waterbody count (NWB) and which the branch count (NBR),
 * how their column headers are generated, and the rows of the two tabs the
 * dependency sync reads from.
 */
module Catalog {
  import opened Numerals
  import opened Cells

  const GridTab: string := "Grid Dimensions and General Settings"
  const StructuresTab: string := "Structures"

  /** Tables whose column count follows NWB. */
  const NwbTabs: seq<string> := [
    "Timestep Limitations", "Waterbody Definition", "Calculations", "Dead Sea",
    "Heat Exchange", "Ice Cover", "Transport Scheme", "Hydaulic Coefficients",
    "Vertical Eddy Viscosity"]

  /** Tables whose column count follows NBR. */
  const NbrTabs: seq<string> := [
    "Branch Geometry", "Initial Conditions", "Interpolation", "Structures"]

  /** A spin box built without "min"/"max" keys. */
  const DefaultInteger: Kind := Integer(0, 999999)

  /** The fields of the grid-dimensions tab. */
  const GridFields: seq<Def> := [
    Def("NWB", DefaultInteger), Def("NBR", DefaultInteger), Def("IMX", DefaultInteger),
    Def("KMX", DefaultInteger), Def("NPROC", DefaultInteger), Def("CLOSEC", Checkbox)]

  /** The base rows of the "Structures" table. */
  const StructuresRows: seq<Def> := [Def("NSTR", DefaultInteger), Def("DYNSTRUC", Checkbox)]

  lemma CategoriesDisjoint()
    ensures forall n :: n in NwbTabs ==> n !in NbrTabs
    ensures StructuresTab in NbrTabs && StructuresTab !in NwbTabs
  {
  }

  /** No title is listed twice in either category. */
  lemma CategoriesDistinct()
    ensures forall i, j :: 0 <= i < j < |NwbTabs| ==> NwbTabs[i] != NwbTabs[j]
    ensures forall i, j :: 0 <= i < j < |NbrTabs| ==> NbrTabs[i] != NbrTabs[j]
  {
  }

  /** `[f"{prefix}{i+1}" for i in range(n)]`. */
  function Numbered(prefix: string, n: nat): (hs: seq<string>)
    ensures |hs| == n
    ensures forall i :: 0 <= i < n ==> hs[i] == prefix + ShowNat(i + 1)
  {
    if n == 0 then [] else Numbered(prefix, n - 1) + [prefix + ShowNat(n)]
  }

  /** Numbered headers never repeat. */
  lemma NumberedDistinct(prefix: string, n: nat, i: nat, j: nat)
    requires i < j < n
    ensures Numbered(prefix, n)[i] != Numbered(prefix, n)[j]
  {
    var hs := Numbered(prefix, n);
    if hs[i] == hs[j] {
      var a, b := ShowNat(i + 1), ShowNat(j + 1);
      assert (prefix + a)[|prefix|..] == a;
      assert (prefix + b)[|prefix|..] == b;
      ShowNatInjective(i + 1, j + 1);
    }
  }

  /** The prefix `set_columns` gives a tab's column headers. */
  function HeaderPrefix(tab: string): (p: string)
    ensures tab in NwbTabs ==> p == "WB"
    ensures tab in NbrTabs ==> p == "BR"
    ensures tab !in NwbTabs && tab !in NbrTabs ==> p == "Col"
  {
    CategoriesDisjoint();
    if tab in NwbTabs then "WB" else if tab in NbrTabs then "BR" else "Col"
  }

  /** Column headers of a table after `set_columns(n)`: WBi, BRi or Coli. */
  function ColumnHeaders(tab: string, n: nat): (hs: seq<string>)
    ensures |hs| == n
    ensures forall i :: 0 <= i < n ==> hs[i] == HeaderPrefix(tab) + ShowNat(i + 1)
  {
    Numbered(HeaderPrefix(tab), n)
  }

  /**
   * The header row the CSV export writes for a table of `n` columns: one
   * distinct WBi or BRi header per column for a categorised table, an empty
   * row for any other table.
   */
  function CsvHeaders(tab: string, n: nat): (hs: seq<string>)
    ensures |hs| == if tab in NwbTabs || tab in NbrTabs then n else 0
    ensures forall i :: 0 <= i < |hs| ==> hs[i] == HeaderPrefix(tab) + ShowNat(i + 1)
    ensures forall i, j :: 0 <= i < j < |hs| ==> hs[i] != hs[j]
  {
    if tab in NwbTabs || tab in NbrTabs then
      var hs := ColumnHeaders(tab, n);
      assert forall i, j :: 0 <= i < j < n ==> hs[i] != hs[j] by {
        forall i, j | 0 <= i < j < n
          ensures hs[i] != hs[j]
        {
          NumberedDistinct(HeaderPrefix(tab), n, i, j);
        }
      }
      hs
    else []
  }

  /** The synthetic text rows STRUCT_1..STRUCT_k of the "Structures" table. */
  function StructRows(k: nat): (rs: seq<Def>)
    ensures |rs| == k
    ensures forall i :: 0 <= i < k ==> rs[i] == Def("STRUCT_" + ShowNat(i + 1), Text)
  {
    if k == 0 then [] else StructRows(k - 1) + [Def("STRUCT_" + ShowNat(k), Text)]
  }

  /** Two STRUCT lists agree on their common prefix, so a positional restore keeps structures 1..min. */
  lemma StructRowsPrefix(j: nat, k: nat)
    requires j <= k
    ensures StructRows(k)[..j] == StructRows(j)
  {
  }
}
