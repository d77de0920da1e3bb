/** The address book entry form (forms/AddressBookEntryForm.tsx): the field
    schema and the submit handler that turns the address field into an
    account address, directly or through an ANS name lookup. */
module AddressBookEntryForm {
  import opened Base

  datatype Values = Values(address: string, name: string)

  datatype FieldName = AddressField | NameField

  datatype Issue = Issue(path: FieldName, message: string)

  const AddressRequired := "Address is required"
  const NameRequired := "Name is required"
  const NameTooLong := "Name must be 50 characters or less"
  const NameCharacters := "Name can only contain letters, numbers, spaces, hyphens, and underscores"
  const MaxNameLength := 50

  const UnresolvedName := "Unable to resolve ANS name"
  const InvalidAddressOrName := "Invalid address or ANS name"

  /** `\s` of a JavaScript regular expression. */
  predicate IsJsWhitespace(c: char) {
    var n := c as int;
    n == 0x09 || n == 0x0A || n == 0x0B || n == 0x0C || n == 0x0D || n == 0x20
    || n == 0xA0 || n == 0x1680 || (0x2000 <= n <= 0x200A) || n == 0x2028 || n == 0x2029
    || n == 0x202F || n == 0x205F || n == 0x3000 || n == 0xFEFF
  }

  /** One character of the class `[a-zA-Z0-9\s\-_]`. */
  predicate IsNameChar(c: char) {
    ('a' <= c <= 'z') || ('A' <= c <= 'Z') || IsDigit(c) || IsJsWhitespace(c) || c == '-' || c == '_'
  }

  /** The regular expression `^[a-zA-Z0-9\s\-_]+$`. */
  predicate MatchesNamePattern(name: string) {
    |name| >= 1 && forall i :: 0 <= i < |name| ==> IsNameChar(name[i])
  }

  /** `formSchema`: every failed check of both fields, in schema order. */
  function Issues(v: Values): (r: seq<Issue>)
    ensures |r| == 0 <==>
      |v.address| >= 1 && 1 <= |v.name| <= MaxNameLength && forall i :: 0 <= i < |v.name| ==> IsNameChar(v.name[i])
    ensures Issue(AddressField, AddressRequired) in r <==> |v.address| == 0
    ensures Issue(NameField, NameTooLong) in r <==> |v.name| > MaxNameLength
    ensures Issue(NameField, NameCharacters) in r <==> !MatchesNamePattern(v.name)
  {
    (if |v.address| < 1 then [Issue(AddressField, AddressRequired)] else [])
    + (if |v.name| < 1 then [Issue(NameField, NameRequired)] else [])
    + (if |v.name| > MaxNameLength then [Issue(NameField, NameTooLong)] else [])
    + (if !MatchesNamePattern(v.name) then [Issue(NameField, NameCharacters)] else [])
  }

  /** The outcome of `fetchAddressFromName`. */
  datatype Lookup = Found(address: Address) | NotFound | Threw

  datatype Outcome =
    | Invalid(issues: seq<Issue>)
    | AddressError(message: string)
    | Submitted(values: Values, resolvedAddress: Address)

  /** The form after a submit attempt. */
  datatype SubmitState = SubmitState(outcome: Outcome, isValidating: bool)

  /** `handleSubmit`: a syntactic address is parsed as is; anything else is
      looked up as an ANS name, and a failed lookup sets an address error
      instead of calling `onSubmit`. */
  function HandleSubmit(v: Values, lib: AddressLib, lookupName: string -> Lookup): (r: SubmitState)
    ensures !r.isValidating
    ensures !r.outcome.Invalid?
    ensures lib.isAddress(v.address) ==> r.outcome == Submitted(v, lib.from(v.address))
    ensures !lib.isAddress(v.address) ==>
      match lookupName(v.address)
      case Found(a) => r.outcome == Submitted(v, a)
      case NotFound => r.outcome == AddressError(UnresolvedName)
      case Threw => r.outcome == AddressError(InvalidAddressOrName)
    ensures r.outcome.Submitted? ==> r.outcome.values == v
  {
    var outcome :=
      if lib.isAddress(v.address) then Submitted(v, lib.from(v.address))
      else match lookupName(v.address)
           case Found(a) => Submitted(v, a)
           case NotFound => AddressError(UnresolvedName)
           case Threw => AddressError(InvalidAddressOrName);
    SubmitState(outcome, false)
  }

  /** A submit through react-hook-form: the schema runs first and the
      handler only sees values it accepted. */
  function Submit(v: Values, lib: AddressLib, lookupName: string -> Lookup): (r: SubmitState)
    ensures !r.isValidating
    ensures r.outcome.Invalid? <==> |Issues(v)| > 0
    ensures r.outcome.Invalid? ==> r.outcome.issues == Issues(v)
    ensures |Issues(v)| == 0 ==> r == HandleSubmit(v, lib, lookupName)
    ensures r.outcome.Submitted? ==> |r.outcome.values.name| <= MaxNameLength && MatchesNamePattern(r.outcome.values.name)
  {
    var issues := Issues(v);
    if |issues| > 0 then SubmitState(Invalid(issues), false)
    else HandleSubmit(v, lib, lookupName)
  }

  /** A syntactic address never triggers a name lookup: the outcome is the
      same whatever the lookup would have answered. */
  lemma AddressNeedsNoLookup(v: Values, lib: AddressLib, l1: string -> Lookup, l2: string -> Lookup)
    requires lib.isAddress(v.address)
    ensures HandleSubmit(v, lib, l1) == HandleSubmit(v, lib, l2)
  {
  }
}
