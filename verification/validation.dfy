/**
 The controller's input checks: the digit-only validator attached to the
 numeric entry fields, and the completeness check of the materials form.
 */
module Validation {
  import opened Store

  /** What the validator may be handed: an int, nothing, or a piece of text. */
  datatype FieldValue = IntValue(n: int) | NoValue | Text(t: string)

  predicate IsDigit(c: char) {
    '0' <= c <= '9'
  }

  predicate AllDigits(t: string) {
    forall i :: 0 <= i < |t| ==> IsDigit(t[i])
  }

  /** Where the longest run of digits starting at `i` ends: what a greedy `[0-9]+` consumes. */
  function DigitRunEnd(t: string, i: nat): (j: nat)
    requires i <= |t|
    ensures i <= j <= |t|
    ensures forall k :: i <= k < j ==> IsDigit(t[k])
    ensures j == |t| || !IsDigit(t[j])
    decreases |t| - i
  {
    if i == |t| || !IsDigit(t[i]) then i else DigitRunEnd(t, i + 1)
  }

  /** Python's `$` outside MULTILINE mode: the end of the text, or just before a final newline. */
  predicate PythonEndAt(t: string, j: nat) {
    j == |t| || (j == |t| - 1 && t[j] == '\n')
  }

  /** At least one digit, then either the end or a single final newline. */
  predicate DigitsThenOptionalNewline(t: string) {
    || (|t| > 0 && AllDigits(t))
    || (|t| > 1 && AllDigits(t[..|t| - 1]) && t[|t| - 1] == '\n')
  }

  /** `es_numero_entero` as written, with the pattern `^[0-9]+$` applied by `match`. */
  function IsIntegerAsWritten(v: FieldValue): (ok: bool)
    ensures v.IntValue? ==> ok
    ensures v.NoValue? ==> !ok
    ensures v.Text? ==> (ok <==> DigitsThenOptionalNewline(v.t))
  {
    match v
    case IntValue(_) => true
    case NoValue => false
    case Text(t) =>
      var j := DigitRunEnd(t, 0);
      assert AllDigits(t[..j]);
      0 < j && PythonEndAt(t, j)
  }

  /** The validator as its own comment describes it: the text holds digits and nothing else. */
  function IsInteger(v: FieldValue): (ok: bool)
    ensures v.IntValue? ==> ok
    ensures v.NoValue? ==> !ok
    ensures v.Text? ==> (ok <==> |v.t| > 0 && AllDigits(v.t))
  {
    match v
    case IntValue(_) => true
    case NoValue => false
    case Text(t) => var j := DigitRunEnd(t, 0); 0 < j && j == |t|
  }

  /** The text "7" followed by a newline gets past the pattern as written but is not a number. */
  lemma TrailingNewlineSlipsThrough()
    ensures IsIntegerAsWritten(Text("7\n"))
    ensures !IsInteger(Text("7\n"))
  {
    assert "7\n"[..1] == "7";
  }

  /** The two validators differ on exactly one shape of input: digits plus one final newline. */
  lemma AsWrittenDiffersOnlyByFinalNewline(v: FieldValue)
    ensures IsInteger(v) ==> IsIntegerAsWritten(v)
    ensures IsIntegerAsWritten(v) && !IsInteger(v) <==>
      v.Text? && |v.t| > 1 && AllDigits(v.t[..|v.t| - 1]) && v.t[|v.t| - 1] == '\n'
  {
  }

  /* ---------------------------------------------------------------------- */
  /* Decimal numerals                                                        */
  /* ---------------------------------------------------------------------- */

  function DigitChar(d: nat): (c: char)
    requires d < 10
    ensures IsDigit(c)
  {
    ('0' as int + d) as char
  }

  /** The decimal text of `n`: what a user types for a non-negative whole number. */
  function DecimalText(n: nat): (t: string)
    ensures |t| > 0 && AllDigits(t)
    decreases n
  {
    (if n < 10 then "" else DecimalText(n / 10)) + [DigitChar(n % 10)]
  }

  /** Every natural number written in decimal passes the validator. */
  lemma DecimalTextPasses(n: nat)
    ensures IsInteger(Text(DecimalText(n)))
    ensures IsIntegerAsWritten(Text(DecimalText(n)))
  {
  }

  /* ---------------------------------------------------------------------- */
  /* The materials form                                                      */
  /* ---------------------------------------------------------------------- */

  /** The materials form; a numeric field whose text is not a number cannot be read (None). */
  datatype MaterialForm = MaterialForm(
    description: string,
    stock: Option<int>,
    reorderLevel: Option<int>,
    leadTime: Option<int>)

  predicate Readable(f: MaterialForm) {
    f.stock.Some? && f.reorderLevel.Some? && f.leadTime.Some?
  }

  /** `formulario_de_materiales_correcto`: every field readable, a description,
      and no numeric field equal to zero (negative values are not rejected). */
  function CheckMaterialForm(f: MaterialForm): (r: Outcome)
    ensures r == Done <==>
      Readable(f) && |f.description| > 0
      && f.stock.value != 0 && f.reorderLevel.value != 0 && f.leadTime.value != 0
    ensures r == Refused(MissingField) <==> !Readable(f)
    ensures r == Refused(EmptyDescription) <==> Readable(f) && f.description == ""
    ensures r.Refused? ==> r.why == MissingField || r.why == EmptyDescription || r.why == ZeroValue
  {
    if !Readable(f) then Refused(MissingField)
    else if |f.description| == 0 then Refused(EmptyDescription)
    else if f.stock.value == 0 || f.reorderLevel.value == 0 || f.leadTime.value == 0 then Refused(ZeroValue)
    else Done
  }
}
