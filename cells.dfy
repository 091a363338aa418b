/**
 * Typed cell state. Every input widget of the application (a checkbox, an
 * integer spin box, a combo box, a line edit, or a checkable table item)
 * is modelled as a tagged value; its kind carries the constraints the
 * widget was built with (spin box range, combo box options).
 */
module Cells {
  import opened Basics
  import opened Numerals

  /** What a field or table row holds, with the widget's configuration. */
  datatype Kind =
    | Checkbox
    | Integer(min: int, max: int)
    | Dropdown(options: seq<string>)
    | Text

  /** A field definition (scalar tab) or a row definition (table tab). */
  datatype Def = Def(name: string, kind: Kind)

  /** The state of one widget. `Choice.index` is Qt's currentIndex (-1 when the combo box is empty). */
  datatype Cell =
    | Check(on: bool)
    | Num(value: int)
    | Choice(index: int)
    | Line(text: string)

  /** A spin box whose range is non-empty; the catalog's defaults are 0 and 999999. */
  predicate KindOk(k: Kind) {
    k.Integer? ==> k.min <= k.max
  }

  predicate DefsOk(defs: seq<Def>) {
    forall i :: 0 <= i < |defs| ==> KindOk(defs[i].kind)
  }

  /** The states a widget of kind `k` can be in. */
  predicate Fits(k: Kind, c: Cell) {
    match k
    case Checkbox => c.Check?
    case Integer(lo, hi) => c.Num? && lo <= c.value <= hi
    case Dropdown(opts) => c.Choice? && (if |opts| == 0 then c.index == -1 else 0 <= c.index < |opts|)
    case Text => c.Line?
  }

  /** No option of a combo box appears twice (true of every combo box in the catalog). */
  predicate OptionsDistinct(k: Kind) {
    k.Dropdown? ==> forall i, j :: 0 <= i < j < |k.options| ==> k.options[i] != k.options[j]
  }

  /** No option of a combo box is the empty string (true of every combo box in the catalog). */
  predicate OptionsNonEmpty(k: Kind) {
    k.Dropdown? ==> forall i :: 0 <= i < |k.options| ==> k.options[i] != ""
  }

  /**
   * The cleared state: unchecked, the spin box minimum, the first option
   * (no option at all for an empty combo box) and the empty string.
   */
  function Default(k: Kind): (c: Cell)
    requires KindOk(k)
    ensures Fits(k, c)
  {
    match k
    case Checkbox => Check(false)
    case Integer(lo, _) => Num(lo)
    case Dropdown(opts) => Choice(if |opts| == 0 then -1 else 0)
    case Text => Line("")
  }

  /** QSpinBox.setValue keeps the value inside [lo, hi]. */
  function Clamp(n: int, lo: int, hi: int): (r: int)
    requires lo <= hi
    ensures lo <= r <= hi
    ensures lo <= n <= hi ==> r == n
    ensures n < lo ==> r == lo
    ensures n > hi ==> r == hi
  {
    if n < lo then lo else if n > hi then hi else n
  }

  /**
   * A newly built widget. It is the cleared state except for a spin box: Qt
   * starts one at 0, and setting its minimum and then its maximum clamps that
   * 0 into the range.
   */
  function Fresh(k: Kind): (c: Cell)
    requires KindOk(k)
    ensures Fits(k, c)
    ensures k.Integer? ==> c == Num(Clamp(0, k.min, k.max))
    ensures c == Default(k) <==> !k.Integer? || 0 <= k.min || k.min == k.max
  {
    match k
    case Integer(lo, hi) => Num(Clamp(0, lo, hi))
    case _ => Default(k)
  }

  /** QComboBox.findText: the first index holding `s`, or -1. */
  function FindText(opts: seq<string>, s: string): (r: int)
    ensures -1 <= r < |opts|
    ensures r >= 0 <==> s in opts
    ensures r >= 0 ==> opts[r] == s && forall j :: 0 <= j < r ==> opts[j] != s
  {
    if opts == [] then -1
    else if opts[0] == s then 0
    else
      var r := FindText(opts[1..], s);
      if r < 0 then -1 else r + 1
  }

  /** QComboBox.setCurrentText on a non-editable combo box: select the first match, else no change. */
  function SetCurrentText(opts: seq<string>, index: int, s: string): (r: int)
    ensures s in opts ==> 0 <= r < |opts| && opts[r] == s
    ensures s !in opts ==> r == index
  {
    var i := FindText(opts, s);
    if i >= 0 then i else index
  }

  /** `int(s)` followed by `setValue`; an unparseable string resets to the minimum. */
  function SetNumber(lo: int, hi: int, s: string): (r: int)
    requires lo <= hi
    ensures lo <= r <= hi
    ensures ParseInt(s).None? ==> r == lo
  {
    match ParseInt(s)
    case Some(n) => Clamp(n, lo, hi)
    case None => lo
  }

  // ---------------------------------------------------------------------
  // Scalar tab encoding: `None` for a field that is still empty.
  // ---------------------------------------------------------------------

  /**
   * The value a scalar tab reports for one field: "ON"/"OFF" for a checkbox,
   * otherwise the field's text, or `None` exactly when the field is at its
   * cleared state.
   */
  function ScalarValue(k: Kind, c: Cell): (v: Option<string>)
    requires KindOk(k) && Fits(k, c)
    ensures v.None? <==> !k.Checkbox? && c == Default(k)
    ensures k.Checkbox? ==> v == Some(if c.on then "ON" else "OFF")
    ensures k.Integer? && v.Some? ==> ParseInt(v.value) == Some(c.value)
  {
    match k
    case Checkbox => Some(if c.on then "ON" else "OFF")
    case Integer(lo, _) =>
      ParseShowInt(c.value);
      if c.value != lo then Some(ShowInt(c.value)) else None
    case Dropdown(opts) => if c.index > 0 then Some(opts[c.index]) else None
    case Text => if c.text != "" then Some(c.text) else None
  }

  /**
   * Writing one value into a scalar field whose label matched: `None` clears
   * the field, a checkbox is checked only by "ON", an integer field takes the
   * clamped number or its minimum when the text does not parse.
   */
  function SetScalar(k: Kind, c: Cell, v: Option<string>): (r: Cell)
    requires KindOk(k) && Fits(k, c)
    ensures Fits(k, r)
    ensures v.None? ==> r == Default(k)
    ensures k.Checkbox? && v.Some? ==> r == Check(v.value == "ON")
    ensures k.Integer? && v.Some? && ParseInt(v.value).None? ==> r == Default(k)
  {
    match v
    case None => Default(k)
    case Some(s) =>
      match k
      case Checkbox => Check(s == "ON")
      case Integer(lo, hi) => Num(SetNumber(lo, hi, s))
      case Dropdown(opts) => Choice(SetCurrentText(opts, c.index, s))
      case Text => Line(s)
  }

  /**
   * What a scalar field reports, written back into that field or into any
   * other field of the same kind, reproduces the field.
   */
  lemma ScalarRoundTrip(k: Kind, c: Cell, d: Cell)
    requires KindOk(k) && Fits(k, c) && Fits(k, d) && OptionsDistinct(k)
    ensures SetScalar(k, d, ScalarValue(k, c)) == c
  {
    match k
    case Checkbox =>
    case Integer(lo, hi) =>
    case Text =>
    case Dropdown(opts) =>
      if c.index > 0 {
        var i := FindText(opts, opts[c.index]);
        assert i == c.index;
      }
  }

  /** A reported value is never the empty string (so a CSV "" always reads back as `None`). */
  lemma ScalarValueNotEmpty(k: Kind, c: Cell)
    requires KindOk(k) && Fits(k, c) && OptionsNonEmpty(k)
    ensures ScalarValue(k, c) != Some("")
  {
  }

  // ---------------------------------------------------------------------
  // Table encoding: every cell as a string, numbers even at their minimum.
  // ---------------------------------------------------------------------

  /** The string a table reports for one cell. */
  function CellText(k: Kind, c: Cell): (s: string)
    requires Fits(k, c)
    ensures k.Checkbox? ==> s == if c.on then "ON" else "OFF"
    ensures k.Integer? ==> ParseInt(s) == Some(c.value)
    ensures k.Dropdown? && |k.options| == 0 ==> s == ""
  {
    match k
    case Checkbox => if c.on then "ON" else "OFF"
    case Integer(_, _) => ParseShowInt(c.value); ShowInt(c.value)
    case Dropdown(opts) => if c.index >= 0 then opts[c.index] else ""
    case Text => c.text
  }

  /** Writing one string into a table cell. */
  function SetText(k: Kind, c: Cell, s: string): (r: Cell)
    requires KindOk(k) && Fits(k, c)
    ensures Fits(k, r)
    ensures k.Checkbox? ==> r == Check(s == "ON")
    ensures k.Integer? && ParseInt(s).None? ==> r == Default(k)
    ensures k.Text? ==> r == Line(s)
  {
    match k
    case Checkbox => Check(s == "ON")
    case Integer(lo, hi) => Num(SetNumber(lo, hi, s))
    case Dropdown(opts) => Choice(SetCurrentText(opts, c.index, s))
    case Text => Line(s)
  }

  /**
   * A cell's encoded string, written into any cell of the same kind (itself,
   * or a freshly built one), reproduces the cell.
   */
  lemma TextRestores(k: Kind, c: Cell, d: Cell)
    requires KindOk(k) && Fits(k, c) && Fits(k, d) && OptionsDistinct(k)
    ensures SetText(k, d, CellText(k, c)) == c
  {
    match k
    case Checkbox =>
    case Integer(lo, hi) =>
    case Text =>
    case Dropdown(opts) =>
      if c.index >= 0 {
        var i := FindText(opts, opts[c.index]);
        assert i == c.index;
      }
  }

  /**
   * A cell's encoded string written into any other cell of the same kind
   * (a freshly built one, say) encodes to the same string again.
   */
  lemma TextSurvives(k: Kind, c: Cell, d: Cell)
    requires KindOk(k) && Fits(k, c) && Fits(k, d)
    ensures CellText(k, SetText(k, d, CellText(k, c))) == CellText(k, c)
  {
    match k
    case Checkbox =>
    case Integer(lo, hi) =>
    case Text =>
    case Dropdown(opts) =>
  }
}
