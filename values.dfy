// The values a photo cell holds, the Qt variants they travel in, and the
// coercion a table edit applies before storing a variant in a cell
// (`AlbumModel._getSetValue`).

module Values {
  import opened Outcomes
  import Text
  import Dates

  /** The editor kinds of a field (FieldObject's editor enumeration). */
  const LineEditEditor := 0
  const ComboBoxEditor := 1
  const CheckBoxEditor := 2
  const DateEditEditor := 3

  /** A Python object held in a photo cell. */
  datatype Value = Str(s: string) | Bool(b: bool) | Int(i: int) | NoneValue

  /** A QVariant: the cell kinds plus a QDate (from a date editor) and the invalid variant. */
  datatype Variant = VStr(s: string) | VBool(b: bool) | VInt(i: int) | VDate(d: Dates.Date) | VInvalid

  // ------------------------------------------------------------ numbers

  function NatToString(n: nat): (r: string)
    ensures |r| > 0
    ensures forall k | 0 <= k < |r| :: Dates.IsDigit(r[k])
  {
    if n < 10 then [Dates.DigitChar(n)] else NatToString(n / 10) + [Dates.DigitChar(n % 10)]
  }

  /** Decimal notation, as both Python's `str` and Qt's `toString` write an integer. */
  function IntToString(i: int): string {
    if i < 0 then "-" + NatToString(-i) else NatToString(i)
  }

  // ------------------------------------------------------- conversions

  /** Python truth value, `bool(v)`. */
  predicate Truthy(v: Value) {
    match v
    case Str(s) => |s| > 0
    case Bool(b) => b
    case Int(i) => i != 0
    case NoneValue => false
  }

  /** `str(v)`. */
  function PyStr(v: Value): string {
    match v
    case Str(s) => s
    case Bool(b) => if b then "True" else "False"
    case Int(i) => IntToString(i)
    case NoneValue => "None"
  }

  /** `QVariant(v)`; None gives the invalid variant. */
  function ToVariant(v: Value): Variant {
    match v
    case Str(s) => VStr(s)
    case Bool(b) => VBool(b)
    case Int(i) => VInt(i)
    case NoneValue => VInvalid
  }

  /** `QVariant.toString()`: a date in ISO form, the invalid variant as "". */
  function VariantToString(v: Variant): string {
    match v
    case VStr(s) => s
    case VBool(b) => if b then "true" else "false"
    case VInt(i) => IntToString(i)
    case VDate(d) => if Dates.Valid(d) then Dates.FormatDate(d) else ""
    case VInvalid => ""
  }

  /** `QVariant.toBool()`: a string is false iff it is empty, "0" or "false" in any case. */
  predicate VariantToBool(v: Variant) {
    match v
    case VStr(s) => var l := Text.Lower(s); !(l == "" || l == "0" || l == "false")
    case VBool(b) => b
    case VInt(i) => i != 0
    case VDate(_) => false
    case VInvalid => false
  }

  // ---------------------------------------------------------- coercion

  /** The cell values a field with this editor can hold after an edit. */
  predicate Fits(editor: Option<int>, v: Value) {
    if editor == Some(CheckBoxEditor) then v.Bool?
    else if editor == Some(DateEditEditor) then v.Str? && (v.s == "" || Dates.ParseDate(v.s).Some?)
    else v.Str?
  }

  /**
   * The value stored for an edit: a check box keeps `toBool()`; a date
   * editor keeps a QDate as `yyyy-MM-dd` and any other text only when
   * strptime('%Y-%m-%d') accepts it (else ""); every other editor keeps the
   * string form.
   */
  function Coerce(editor: Option<int>, v: Variant): (r: Value)
    ensures Fits(editor, r)
  {
    if editor == Some(CheckBoxEditor) then Bool(VariantToBool(v))
    else if editor == Some(DateEditEditor) then
      if v.VDate? && Dates.Valid(v.d) then
        Dates.FormatParse(v.d);
        Str(Dates.FormatDate(v.d))
      else
        var s := VariantToString(v);
        if Dates.ParseDate(s).Some? then Str(s) else Str("")
    else Str(VariantToString(v))
  }

  /**
   * Writing a cell's value back through the same editor restores it exactly
   * when the value is one the editor could have stored. This is what an undo
   * relies on.
   */
  lemma CoerceRestores(editor: Option<int>, v: Value)
    ensures Coerce(editor, ToVariant(v)) == v <==> Fits(editor, v)
  {
  }

  /** Coercion is idempotent: a stored value survives being written again. */
  lemma CoerceIdempotent(editor: Option<int>, v: Variant)
    ensures Coerce(editor, ToVariant(Coerce(editor, v))) == Coerce(editor, v)
  {
    CoerceRestores(editor, Coerce(editor, v));
  }

  /** A date written through a date editor is stored as `yyyy-MM-dd`. */
  lemma DateEditorStoresIso()
    ensures Coerce(Some(DateEditEditor), VDate(Dates.Date(2017, 3, 9))) == Str("2017-03-09")
  {
    FormatMarchNinth();
  }

  lemma FormatMarchNinth()
    ensures Dates.FormatDate(Dates.Date(2017, 3, 9)) == "2017-03-09"
  {
    assert Dates.Pad(2017, 4) == "2017" by {
      assert Dates.Pad(2, 1) == "2";
      assert Dates.Pad(20, 2) == "20";
      assert Dates.Pad(201, 3) == "201";
    }
    assert Dates.Pad(3, 2) == "03" && Dates.Pad(9, 2) == "09" by {
      assert Dates.Pad(0, 1) == "0";
    }
  }

  /** Text that strptime refuses is thrown away by a date editor. */
  lemma DateEditorDropsText()
    ensures Coerce(Some(DateEditEditor), VStr("March 9")) == Str("")
  {
  }

  /** A check box reads "False", "0" and "" as unchecked and other text as checked. */
  lemma CheckBoxReadsText()
    ensures Coerce(Some(CheckBoxEditor), VStr("False")) == Bool(false)
    ensures Coerce(Some(CheckBoxEditor), VStr("0")) == Bool(false)
    ensures Coerce(Some(CheckBoxEditor), VStr("")) == Bool(false)
    ensures Coerce(Some(CheckBoxEditor), VStr("yes")) == Bool(true)
  {
  }
}
