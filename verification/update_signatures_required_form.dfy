/** The form changing a vault's threshold
    (forms/UpdateSignaturesRequiredForm.tsx): the coerced schema, the
    choices offered, and when the submit button is disabled. */
module UpdateSignaturesRequiredForm {
  import opened Base

  /** The field's value: the number it starts with, or the string a
      `Select` writes through `field.onChange`. */
  datatype FieldValue = Num(n: int) | Str(s: string)

  const SignaturesTooFew := "Signatures required must be greater than 0"
  const NotANumber := "Expected number, received nan"

  /** `Number(value)` as `z.coerce.number()` applies it; `None` is NaN.
      Only the empty string and digit strings are read. */
  function Coerce(v: FieldValue): (r: Option<int>)
    ensures v.Num? ==> r == Some(v.n)
    ensures v.Str? && IsDigits(v.s) ==> r == Some(DecimalValue(v.s))
    ensures v.Str? && !IsDigits(v.s) ==> r.None?
  {
    match v
    case Num(n) => Some(n)
    case Str(s) => if IsDigits(s) then Some(DecimalValue(s)) else None
  }

  /** `formSchema.safeParse`: the coerced threshold, or the issue messages. */
  function Parse(v: FieldValue): (r: Result<int, seq<string>>)
    ensures r.Ok? <==> Coerce(v).Some? && Coerce(v).value >= 1
    ensures r.Ok? ==> r.value == Coerce(v).value
    ensures Coerce(v).None? ==> r == Err([NotANumber])
    ensures Coerce(v).Some? && Coerce(v).value < 1 ==> r == Err([SignaturesTooFew])
  {
    match Coerce(v)
    case None => Err([NotANumber])
    case Some(n) => if n < 1 then Err([SignaturesTooFew]) else Ok(n)
  }

  /** The form starts at the vault's current threshold. */
  function Initial(currentSignaturesRequired: int): FieldValue {
    Num(currentSignaturesRequired)
  }

  /** The choices "1" up to the owner count. */
  function Options(ownersCount: nat): (r: seq<string>)
    ensures |r| == ownersCount
    ensures forall i :: 0 <= i < |r| ==> Parse(Str(r[i])) == Ok(i + 1)
  {
    NumberOptionsValues(ownersCount);
    NumberOptions(ownersCount)
  }

  /** `disabled={form.watch('signaturesRequired') === currentSignaturesRequired}`:
      a strict comparison, so a string from the select never equals the
      current number. */
  function SubmitDisabledAsWritten(v: FieldValue, currentSignaturesRequired: int): (r: bool)
    ensures r <==> v.Num? && v.n == currentSignaturesRequired
  {
    v == Num(currentSignaturesRequired)
  }

  /** The button as evidently meant: disabled while the chosen threshold is
      the current one, whichever way the field holds it. */
  function SubmitDisabled(v: FieldValue, currentSignaturesRequired: int): (r: bool)
    ensures r <==> Coerce(v) == Some(currentSignaturesRequired)
  {
    Coerce(v) == Some(currentSignaturesRequired)
  }

  /** Untouched, the button is disabled under both definitions. */
  lemma InitiallyDisabled(current: int)
    ensures SubmitDisabledAsWritten(Initial(current), current)
    ensures SubmitDisabled(Initial(current), current)
  {
  }

  /** As written, choosing any option enables the button, including the
      current threshold, whose submission proposes no change. */
  lemma ReselectingCurrentEnablesSubmit(ownersCount: nat, current: int)
    requires 1 <= current <= ownersCount
    ensures var chosen := Str(Options(ownersCount)[current - 1]);
            !SubmitDisabledAsWritten(chosen, current) && Parse(chosen) == Ok(current)
  {
  }

  /** With the corrected rule, a choice disables the button exactly when it
      is the current threshold. */
  lemma CorrectedDisablesOnlyCurrent(ownersCount: nat, current: int, i: nat)
    requires i < ownersCount
    ensures SubmitDisabled(Str(Options(ownersCount)[i]), current) <==> i + 1 == current
  {
  }

  /** With the corrected rule, every submission the button allows proposes
      a threshold different from the current one. */
  lemma CorrectedSubmitChanges(v: FieldValue, current: int)
    requires !SubmitDisabled(v, current) && Parse(v).Ok?
    ensures Parse(v).value != current
  {
  }
}
