/** The form proposing a new owner (forms/AddOwnerProposalForm.tsx): the
    schema with its owner check, the mutation that resolves an ANS name and
    validates again, and the threshold choices offered. */
module AddOwnerProposalForm {
  import opened Base

  /** The values after `z.coerce.number()`: the threshold select only offers
      digit strings, so the coerced value is their number. */
  datatype Values = Values(address: string, name: string, signaturesRequired: int)

  datatype FieldName = AddressField | NameField | SignaturesRequiredField

  datatype Issue = Issue(path: FieldName, message: string)

  const AddressRequired := "Address is required"
  const InvalidAddress := "Invalid Aptos address"
  const NameRequired := "Name is required"
  const SignaturesTooFew := "Signatures required must be greater than 0"
  const AlreadyAnOwner := "Address is already an owner"
  const UnresolvedName := "Unable to resolve Aptos name"
  const FallbackError := "There was an error that occurred."
  const NameSuffix := ".apt"

  /** The address union: an address (non-empty and well formed) or an ANS
      name. When both alternatives fail, the issues are those of the first. */
  function AddressIssues(address: string, lib: AddressLib): (r: seq<Issue>)
    ensures |r| == 0 <==> (|address| >= 1 && lib.isAddress(address)) || EndsWith(address, NameSuffix)
    ensures |r| > 0 ==> (Issue(AddressField, AddressRequired) in r <==> |address| == 0)
    ensures |r| > 0 ==> (Issue(AddressField, InvalidAddress) in r <==> !lib.isAddress(address))
    ensures forall i :: 0 <= i < |r| ==> r[i].path == AddressField
  {
    var first := (if |address| < 1 then [Issue(AddressField, AddressRequired)] else [])
                 + (if !lib.isAddress(address) then [Issue(AddressField, InvalidAddress)] else []);
    if |first| == 0 || EndsWith(address, NameSuffix) then [] else first
  }

  /** `[...owners, vaultAddress].includes(address)`: a comparison of the
      text, not of the accounts. */
  function IsListedOwner(address: string, owners: seq<string>, vaultAddress: string): (r: bool)
    ensures r <==> address == vaultAddress || exists i :: 0 <= i < |owners| && owners[i] == address
  {
    address in owners + [vaultAddress]
  }

  /** `formSchemaWithOwners`: the field issues in schema order, then the
      owner check. */
  function Issues(v: Values, owners: seq<string>, vaultAddress: string, lib: AddressLib): (r: seq<Issue>)
    ensures |r| == 0 <==>
      ((|v.address| >= 1 && lib.isAddress(v.address)) || EndsWith(v.address, NameSuffix))
      && |v.name| >= 1 && v.signaturesRequired >= 1 && !IsListedOwner(v.address, owners, vaultAddress)
    ensures Issue(NameField, NameRequired) in r <==> |v.name| == 0
    ensures Issue(SignaturesRequiredField, SignaturesTooFew) in r <==> v.signaturesRequired < 1
    ensures Issue(AddressField, AlreadyAnOwner) in r <==> IsListedOwner(v.address, owners, vaultAddress)
    ensures |AddressIssues(v.address, lib)| > 0 ==> r[0] == AddressIssues(v.address, lib)[0]
  {
    AddressIssues(v.address, lib)
    + (if |v.name| < 1 then [Issue(NameField, NameRequired)] else [])
    + (if v.signaturesRequired < 1 then [Issue(SignaturesRequiredField, SignaturesTooFew)] else [])
    + (if IsListedOwner(v.address, owners, vaultAddress) then [Issue(AddressField, AlreadyAnOwner)] else [])
  }

  /** The outcome of `fetchAddressFromName`: an address, nothing, or a
      thrown error with its message. */
  datatype NameLookup = Found(address: Address) | NotFound | Failed(message: string)

  /** The address the mutation validates: an ANS name is replaced by the
      text of the address it resolves to. */
  function ResolveAddress(address: string, lib: AddressLib, lookupName: string -> NameLookup): (r: Result<string, string>)
    ensures !EndsWith(address, NameSuffix) ==> r == Ok(address)
    ensures EndsWith(address, NameSuffix) ==>
      match lookupName(address)
      case Found(a) => r == Ok(lib.show(a))
      case NotFound => r == Err(UnresolvedName)
      case Failed(m) => r == Err(m)
  {
    if !EndsWith(address, NameSuffix) then Ok(address)
    else match lookupName(address)
      case Found(a) => Ok(lib.show(a))
      case NotFound => Err(UnresolvedName)
      case Failed(m) => Err(m)
  }

  /** `mutationFn`: resolve, validate the resolved values again, and hand
      them to `onSubmit` (`Ok`) or throw the first issue's message (`Err`). */
  function Mutate(v: Values, owners: seq<string>, vaultAddress: string, lib: AddressLib,
                  lookupName: string -> NameLookup): (r: Result<Values, string>)
    ensures ResolveAddress(v.address, lib, lookupName).Err? ==> r == Err(ResolveAddress(v.address, lib, lookupName).error)
    ensures r.Ok? ==> r.value == v.(address := ResolveAddress(v.address, lib, lookupName).value)
    ensures r.Ok? ==> Issues(r.value, owners, vaultAddress, lib) == []
    ensures ResolveAddress(v.address, lib, lookupName).Ok? ==>
      var resolved := v.(address := ResolveAddress(v.address, lib, lookupName).value);
      var issues := Issues(resolved, owners, vaultAddress, lib);
      (r.Ok? <==> |issues| == 0) && (r.Err? ==> r.error == issues[0].message)
  {
    match ResolveAddress(v.address, lib, lookupName)
    case Err(m) => Err(m)
    case Ok(address) =>
      var resolved := v.(address := address);
      var issues := Issues(resolved, owners, vaultAddress, lib);
      if |issues| == 0 then Ok(resolved)
      else Err(if |issues| > 0 then issues[0].message else FallbackError)
  }

  /** What a submit attempt ends in. */
  datatype Outcome = Invalid(issues: seq<Issue>) | Rejected(message: string) | Submitted(values: Values)

  /** `form.handleSubmit(mutate)`: the schema runs on the typed values
      first; only values it accepts reach the mutation. */
  function Submit(v: Values, owners: seq<string>, vaultAddress: string, lib: AddressLib,
                  lookupName: string -> NameLookup): (r: Outcome)
    ensures r.Invalid? <==> |Issues(v, owners, vaultAddress, lib)| > 0
    ensures r.Invalid? ==> r.issues == Issues(v, owners, vaultAddress, lib)
    ensures |Issues(v, owners, vaultAddress, lib)| == 0 ==>
      match Mutate(v, owners, vaultAddress, lib, lookupName)
      case Ok(values) => r == Submitted(values)
      case Err(m) => r == Rejected(m)
    ensures r.Submitted? ==>
      (!IsListedOwner(r.values.address, owners, vaultAddress)
       && |r.values.name| >= 1 && r.values.signaturesRequired >= 1)
  {
    var issues := Issues(v, owners, vaultAddress, lib);
    if |issues| > 0 then Invalid(issues)
    else match Mutate(v, owners, vaultAddress, lib, lookupName)
      case Ok(values) => Submitted(values)
      case Err(m) => Rejected(m)
  }

  /** The fallback message is never thrown: a failed parse always carries
      at least one issue. */
  lemma FallbackNeverThrown(v: Values, owners: seq<string>, vaultAddress: string, lib: AddressLib,
                            lookupName: string -> NameLookup)
    requires forall x :: lookupName(x).Failed? ==> lookupName(x).message != FallbackError
    ensures Mutate(v, owners, vaultAddress, lib, lookupName) != Err(FallbackError)
  {
    match ResolveAddress(v.address, lib, lookupName)
    case Err(m) =>
    case Ok(address) =>
      var issues := Issues(v.(address := address), owners, vaultAddress, lib);
      if |issues| > 0 {
        assert issues[0].message in {AddressRequired, InvalidAddress, NameRequired, SignaturesTooFew, AlreadyAnOwner};
      }
  }

  /** An account address that passes the form is handed on unchanged. */
  lemma AddressPassesThrough(v: Values, owners: seq<string>, vaultAddress: string, lib: AddressLib,
                             lookupName: string -> NameLookup)
    requires !EndsWith(v.address, NameSuffix)
    requires Issues(v, owners, vaultAddress, lib) == []
    ensures Submit(v, owners, vaultAddress, lib, lookupName) == Submitted(v)
  {
    assert v.(address := v.address) == v;
  }

  /** An ANS name that resolves to a listed owner is refused after the
      lookup, with the owner message, when the rest of the form is valid. */
  lemma ResolvedOwnerIsRefused(v: Values, owners: seq<string>, vaultAddress: string, lib: AddressLib,
                               lookupName: string -> NameLookup, a: Address)
    requires EndsWith(v.address, NameSuffix) && !IsListedOwner(v.address, owners, vaultAddress)
    requires |v.name| >= 1 && v.signaturesRequired >= 1
    requires lookupName(v.address) == Found(a)
    requires |lib.show(a)| >= 1 && lib.isAddress(lib.show(a))
    requires IsListedOwner(lib.show(a), owners, vaultAddress)
    ensures Submit(v, owners, vaultAddress, lib, lookupName) == Rejected(AlreadyAnOwner)
  {
    var resolved := v.(address := lib.show(a));
    var issues := Issues(resolved, owners, vaultAddress, lib);
    assert issues == [Issue(AddressField, AlreadyAnOwner)];
  }

  /** The owner check compares text: another spelling of an owner's
      account is not recognised. */
  lemma OwnerCheckIsTextual(v: Values, owners: seq<string>, vaultAddress: string, lib: AddressLib, i: nat)
    requires i < |owners| && lib.from(owners[i]) == lib.from(v.address)
    requires v.address !in owners && v.address != vaultAddress
    ensures Issue(AddressField, AlreadyAnOwner) !in Issues(v, owners, vaultAddress, lib)
  {
  }

  /** The threshold choices: "1" up to one more than the current owners,
      the owner count once the new owner joins. */
  function SignatureOptions(ownerCount: nat): (r: seq<string>)
    ensures |r| == ownerCount + 1
    ensures forall i :: 0 <= i < |r| ==> IsDigits(r[i]) && DecimalValue(r[i]) == i + 1
  {
    NumberOptionsValues(ownerCount + 1);
    NumberOptions(ownerCount + 1)
  }

  /** `defaultValues`: the threshold starts at the vault's current one. */
  function DefaultValues(signaturesRequired: int): (r: Values)
    ensures r.address == "" && r.name == "" && r.signaturesRequired == signaturesRequired
  {
    Values("", "", signaturesRequired)
  }

  /** Submitting the defaults is refused at the address field. */
  lemma DefaultsAreRefused(signaturesRequired: int, owners: seq<string>, vaultAddress: string, lib: AddressLib,
                           lookupName: string -> NameLookup)
    ensures var r := Submit(DefaultValues(signaturesRequired), owners, vaultAddress, lib, lookupName);
            r.Invalid? && Issue(AddressField, AddressRequired) in r.issues
  {
    assert !EndsWith("", NameSuffix);
  }
}
