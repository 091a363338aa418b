/**
 * A scalar tab: an ordered list of labelled, typed fields. Its data payload is
 * one (label, value-or-None) pair per field, in field order.
 */
module ScalarTab {
  import opened Basics
  import opened Cells

  /** `(label, value)`; value `None` for an empty field. */
  type Pair = (string, Option<string>)

  /** `cells` holds one well-formed state per definition. */
  predicate Fitted(defs: seq<Def>, cells: seq<Cell>) {
    && |cells| == |defs|
    && forall i :: 0 <= i < |defs| ==> Fits(defs[i].kind, cells[i])
  }

  /** Every field cleared. */
  function Defaults(defs: seq<Def>): (cells: seq<Cell>)
    requires DefsOk(defs)
    ensures Fitted(defs, cells)
    ensures forall i :: 0 <= i < |defs| ==> cells[i] == Default(defs[i].kind)
  {
    if defs == [] then [] else [Default(defs[0].kind)] + Defaults(defs[1..])
  }

  /** Every field as built: a spin box at 0 clamped into its range, every other field cleared. */
  function FreshCells(defs: seq<Def>): (cells: seq<Cell>)
    requires DefsOk(defs)
    ensures Fitted(defs, cells)
    ensures forall i :: 0 <= i < |defs| ==> cells[i] == Fresh(defs[i].kind)
  {
    if defs == [] then [] else [Fresh(defs[0].kind)] + FreshCells(defs[1..])
  }

  /** What `get_data` reports: for each field, its label and `ScalarValue`. */
  function Pairs(defs: seq<Def>, cells: seq<Cell>): (data: seq<Pair>)
    requires DefsOk(defs) && Fitted(defs, cells)
    ensures |data| == |defs|
    ensures forall i :: 0 <= i < |defs| ==>
      data[i].0 == defs[i].name && data[i].1 == ScalarValue(defs[i].kind, cells[i])
  {
    if defs == [] then []
    else [(defs[0].name, ScalarValue(defs[0].kind, cells[0]))] + Pairs(defs[1..], cells[1..])
  }

  /** One field of `set_data`: a label mismatch leaves the field alone. */
  function Step(d: Def, c: Cell, p: Pair): (r: Cell)
    requires KindOk(d.kind) && Fits(d.kind, c)
    ensures Fits(d.kind, r)
    ensures d.name != p.0 ==> r == c
  {
    if d.name == p.0 then SetScalar(d.kind, c, p.1) else c
  }

  /** The positional, label-checked apply of `set_data` when the lengths agree. */
  function Zipped(defs: seq<Def>, cells: seq<Cell>, data: seq<Pair>): (r: seq<Cell>)
    requires DefsOk(defs) && Fitted(defs, cells) && |data| == |defs|
    ensures Fitted(defs, r)
    ensures forall i :: 0 <= i < |defs| ==> r[i] == Step(defs[i], cells[i], data[i])
  {
    if defs == [] then []
    else [Step(defs[0], cells[0], data[0])] + Zipped(defs[1..], cells[1..], data[1..])
  }

  /** The fields after `set_data(data)`: all-or-nothing on the length, then field by field. */
  function Applied(defs: seq<Def>, cells: seq<Cell>, data: seq<Pair>): (r: seq<Cell>)
    requires DefsOk(defs) && Fitted(defs, cells)
    ensures Fitted(defs, r)
  {
    if |data| == 0 || |data| != |defs| then Defaults(defs) else Zipped(defs, cells, data)
  }

  /**
   * `set_data(get_data())` changes nothing, duplicated labels included: the
   * i-th pair carries the i-th field's own label. The payload brings the
   * fields back whatever state the tab it is loaded into was in.
   */
  lemma {:induction false} PairsRoundTrip(defs: seq<Def>, cells: seq<Cell>, start: seq<Cell>)
    requires DefsOk(defs) && Fitted(defs, cells) && Fitted(defs, start)
    requires forall i :: 0 <= i < |defs| ==> OptionsDistinct(defs[i].kind)
    ensures Applied(defs, start, Pairs(defs, cells)) == cells
  {
    var data := Pairs(defs, cells);
    if |defs| > 0 {
      var r := Zipped(defs, start, data);
      forall i | 0 <= i < |defs|
        ensures r[i] == cells[i]
      {
        ScalarRoundTrip(defs[i].kind, cells[i], start[i]);
      }
    }
  }

  /** Payload with the wrong length, or an empty one, clears every field. */
  lemma MismatchClears(defs: seq<Def>, cells: seq<Cell>, data: seq<Pair>)
    requires DefsOk(defs) && Fitted(defs, cells)
    requires |data| != |defs| || data == []
    ensures Applied(defs, cells, data) == Defaults(defs)
    ensures forall i :: 0 <= i < |defs| ==> ScalarValue(defs[i].kind, Applied(defs, cells, data)[i]).None? || defs[i].kind.Checkbox?
  {
  }

  /** The widget list of a scalar tab. */
  class UserDataTab {
    const defs: seq<Def>
    var cells: seq<Cell>

    ghost predicate Valid()
      reads this
    {
      DefsOk(defs) && Fitted(defs, cells)
    }

    /** The tab as built: every widget in its initial state. */
    constructor (defs: seq<Def>)
      requires DefsOk(defs)
      ensures Valid() && this.defs == defs && cells == FreshCells(defs)
    {
      this.defs := defs;
      cells := FreshCells(defs);
    }

    /** `get_data`: one pair per field, in field order. */
    method GetData() returns (data: seq<Pair>)
      requires Valid()
      ensures data == Pairs(defs, cells)
    {
      data := [];
      var i := 0;
      while i < |defs|
        invariant 0 <= i <= |defs|
        invariant |data| == i
        invariant forall j :: 0 <= j < i ==>
          data[j] == (defs[j].name, ScalarValue(defs[j].kind, cells[j]))
      {
        var d, c := defs[i], cells[i];
        var value := ScalarValue(d.kind, c);
        data := data + [(d.name, value)];
        i := i + 1;
      }
    }

    /** `clear_widget`: reset field `i` to its cleared state. */
    method ClearWidget(i: nat)
      requires Valid() && i < |defs|
      modifies this
      ensures Valid()
      ensures cells == old(cells)[i := Default(defs[i].kind)]
    {
      cells := cells[i := Default(defs[i].kind)];
    }

    /** `clear_fields`: every field cleared. */
    method ClearFields()
      requires Valid()
      modifies this
      ensures Valid()
      ensures cells == Defaults(defs)
    {
      var i := 0;
      while i < |defs|
        invariant 0 <= i <= |defs|
        invariant Valid()
        invariant forall j :: 0 <= j < i ==> cells[j] == Default(defs[j].kind)
      {
        ClearWidget(i);
        i := i + 1;
      }
    }

    /**
     * `set_data`: an empty payload, or one whose length differs from the field
     * count, clears the whole tab; otherwise each field whose label equals the
     * pair's label takes the pair's value and every other field is unchanged.
     */
    method SetData(data: seq<Pair>)
      requires Valid()
      modifies this
      ensures Valid()
      ensures cells == Applied(defs, old(cells), data)
      ensures |data| == 0 || |data| != |defs| ==> cells == Defaults(defs)
      ensures |data| == |defs| > 0 ==> forall i :: 0 <= i < |defs| ==>
        cells[i] == if defs[i].name == data[i].0 then SetScalar(defs[i].kind, old(cells)[i], data[i].1)
                    else old(cells)[i]
    {
      if |data| == 0 || |defs| != |data| {
        ClearFields();
        return;
      }
      var i := 0;
      while i < |defs|
        invariant 0 <= i <= |defs|
        invariant Valid()
        invariant forall j :: 0 <= j < i ==> cells[j] == Step(defs[j], old(cells)[j], data[j])
        invariant forall j :: i <= j < |defs| ==> cells[j] == old(cells)[j]
      {
        var (dataLabel, value) := data[i];
        if defs[i].name == dataLabel {
          if value.None? {
            ClearWidget(i);
          } else {
            cells := cells[i := SetScalar(defs[i].kind, cells[i], value)];
          }
        }
        i := i + 1;
      }
    }
  }
}
