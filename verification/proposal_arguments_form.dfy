/** The argument step of a new proposal
    (forms/CreateProposalArgumentsForm.tsx): the tuple schema built from an
    entry function's ABI, the default values, the nesting depth offered to
    vector inputs, and the switch that sets an argument to `Option::none`. */
module ProposalArgumentsForm {
  import opened Base

  /** A Move type tag, as far as the form looks into it. */
  datatype TypeTag = Vector(elem: TypeTag) | Scalar(name: string)

  /** An `EntryFunctionABI`: the parameter types and the number of type
      parameters. */
  datatype Abi = Abi(parameters: seq<TypeTag>, typeParameterCount: nat)

  /** A function argument's value: the text of a plain input, or the items
      of an array input. */
  datatype ArgValue = Text(s: string) | Items(items: seq<ArgValue>)

  datatype Values = Values(functionArguments: seq<ArgValue>, typeArguments: seq<string>)

  datatype Field = FunctionArguments | TypeArguments

  /** The issues a tuple schema raises. */
  datatype Issue =
    | TooSmall(field: Field)
    | TooBig(field: Field)
    | BadArgument(index: nat)
    | EmptyTypeArgument(index: nat)

  // ---------------------------------------------------------------------
  // Vector depth
  // ---------------------------------------------------------------------

  /** How many `vector<…>` wrap the innermost element type. */
  function Nesting(t: TypeTag): nat {
    match t
    case Vector(e) => 1 + Nesting(e)
    case Scalar(_) => 0
  }

  /** `getTypeTagVectorMaximumDepth`: one more than `acc` for each vector
      directly inside `t`. */
  function VectorMaximumDepth(t: TypeTag, acc: nat): nat
    requires t.Vector?
  {
    if t.elem.Vector? then VectorMaximumDepth(t.elem, acc + 1) else acc
  }

  /** The depth is the number of vectors nested inside the outer one. */
  lemma {:induction false} VectorMaximumDepthIsNesting(t: TypeTag, acc: nat)
    requires t.Vector?
    ensures VectorMaximumDepth(t, acc) == acc + Nesting(t) - 1
  {
    if t.elem.Vector? {
      VectorMaximumDepthIsNesting(t.elem, acc + 1);
    }
  }

  /** As the form calls it: `vector<u8>` allows depth 0, `vector<vector<u8>>`
      depth 1. */
  lemma VectorDepthExamples()
    ensures VectorMaximumDepth(Vector(Scalar("u8")), 0) == 0
    ensures VectorMaximumDepth(Vector(Vector(Scalar("u8"))), 0) == 1
  {
  }

  /** The input rendered for a parameter: an array input with a maximum
      depth for a vector, a text input otherwise. */
  datatype Input = ArrayInput(maximumDepth: nat) | TextInput(disabled: bool)

  /** The `disabled` flag of a plain input. */
  function InputDisabled(v: ArgValue): (r: bool)
    ensures r <==> v.Text? && v.s == "Option::none"
  {
    v == Text("Option::none")
  }

  /** The input of a function argument. `formDisabled` is the component's
      `disabled` prop, which react-hook-form hands to every field; the
      array input is not given the field's props, and the plain input's own
      `disabled` attribute comes after the field's and replaces it. */
  function InputFor(t: TypeTag, v: ArgValue, formDisabled: bool): (r: Input)
    ensures t.Vector? <==> r.ArrayInput?
    ensures r.ArrayInput? ==> r.maximumDepth == Nesting(t) - 1
    ensures r.TextInput? ==> (r.disabled <==> InputDisabled(v))
  {
    if t.Vector? then
      VectorMaximumDepthIsNesting(t, 0);
      ArrayInput(VectorMaximumDepth(t, 0))
    else TextInput(InputDisabled(v))
  }

  /** The input of a type argument: it takes the field's props, so the
      form's flag disables it. */
  function TypeArgumentInput(formDisabled: bool): (r: Input)
    ensures r.TextInput? && (r.disabled <==> formDisabled)
  {
    TextInput(formDisabled)
  }

  /** A disabled form disables its type arguments but leaves every function
      argument input as an enabled form would render it. */
  lemma DisabledFormKeepsArgumentsEditable(t: TypeTag, v: ArgValue)
    ensures TypeArgumentInput(true).disabled
    ensures InputFor(t, v, true) == InputFor(t, v, false)
    ensures !t.Vector? && !InputDisabled(v) ==> !InputFor(t, v, true).disabled
  {
  }

  // ---------------------------------------------------------------------
  // Schema
  // ---------------------------------------------------------------------

  /** The item checks of the argument tuple from position `from` on;
      `accepts` stands for each parameter's schema (`transformTypeTagToZod`). */
  function ItemIssuesArgs(abi: Abi, values: seq<ArgValue>, accepts: (TypeTag, ArgValue) -> bool, from: nat): (r: seq<Issue>)
    requires from <= |abi.parameters| <= |values|
    ensures forall k :: 0 <= k < |r| ==> r[k].BadArgument? && from <= r[k].index < |abi.parameters|
    ensures forall i :: from <= i < |abi.parameters| ==>
      (BadArgument(i) in r <==> !accepts(abi.parameters[i], values[i]))
    decreases |abi.parameters| - from
  {
    if from == |abi.parameters| then []
    else
      (if accepts(abi.parameters[from], values[from]) then [] else [BadArgument(from)])
      + ItemIssuesArgs(abi, values, accepts, from + 1)
  }

  /** The `z.tuple` over the parameters: a list that is too short aborts
      with one issue; one that is too long is reported and its first items
      are still checked. */
  function FunctionArgumentIssues(abi: Abi, values: seq<ArgValue>, accepts: (TypeTag, ArgValue) -> bool): (r: seq<Issue>)
    ensures |values| < |abi.parameters| ==> r == [TooSmall(FunctionArguments)]
    ensures |values| >= |abi.parameters| ==> (TooBig(FunctionArguments) in r <==> |values| > |abi.parameters|)
    ensures |values| >= |abi.parameters| ==> forall i :: 0 <= i < |abi.parameters| ==>
      (BadArgument(i) in r <==> !accepts(abi.parameters[i], values[i]))
    ensures |r| == 0 <==>
      |values| == |abi.parameters| && forall i :: 0 <= i < |values| ==> accepts(abi.parameters[i], values[i])
  {
    if |values| < |abi.parameters| then [TooSmall(FunctionArguments)]
    else
      var items := ItemIssuesArgs(abi, values, accepts, 0);
      assert |items| == 0 <==> forall i :: 0 <= i < |abi.parameters| ==> accepts(abi.parameters[i], values[i]) by {
        if |items| > 0 {
          assert BadArgument(items[0].index) in items;
        }
      }
      (if |values| > |abi.parameters| then [TooBig(FunctionArguments)] else []) + items
  }

  function ItemIssuesTypes(n: nat, values: seq<string>, from: nat): (r: seq<Issue>)
    requires from <= n <= |values|
    ensures forall k :: 0 <= k < |r| ==> r[k].EmptyTypeArgument? && from <= r[k].index < n
    ensures forall i :: from <= i < n ==> (EmptyTypeArgument(i) in r <==> values[i] == "")
    decreases n - from
  {
    if from == n then []
    else (if values[from] == "" then [EmptyTypeArgument(from)] else []) + ItemIssuesTypes(n, values, from + 1)
  }

  /** The type arguments: one non-empty string per type parameter. */
  function TypeArgumentIssues(n: nat, values: seq<string>): (r: seq<Issue>)
    ensures |values| < n ==> r == [TooSmall(TypeArguments)]
    ensures |values| >= n ==> (TooBig(TypeArguments) in r <==> |values| > n)
    ensures |values| >= n ==> forall i :: 0 <= i < n ==> (EmptyTypeArgument(i) in r <==> values[i] == "")
    ensures |r| == 0 <==> |values| == n && forall i :: 0 <= i < n ==> values[i] != ""
  {
    if |values| < n then [TooSmall(TypeArguments)]
    else
      var items := ItemIssuesTypes(n, values, 0);
      assert |items| == 0 <==> forall i :: 0 <= i < n ==> values[i] != "" by {
        if |items| > 0 {
          assert EmptyTypeArgument(items[0].index) in items;
        }
      }
      (if |values| > n then [TooBig(TypeArguments)] else []) + items
  }

  /** `formSchema`: both tuples are checked, function arguments first. An
      ABI without parameters gets the empty tuple, which is the same rule
      with no items. */
  function Issues(abi: Abi, v: Values, accepts: (TypeTag, ArgValue) -> bool): (r: seq<Issue>)
    ensures |r| == 0 <==>
      |v.functionArguments| == |abi.parameters| && |v.typeArguments| == abi.typeParameterCount
      && (forall i :: 0 <= i < |abi.parameters| ==> accepts(abi.parameters[i], v.functionArguments[i]))
      && (forall i :: 0 <= i < abi.typeParameterCount ==> v.typeArguments[i] != "")
  {
    FunctionArgumentIssues(abi, v.functionArguments, accepts) + TypeArgumentIssues(abi.typeParameterCount, v.typeArguments)
  }

  /** `formState.isValid`. */
  function IsValid(abi: Abi, v: Values, accepts: (TypeTag, ArgValue) -> bool): bool {
    |Issues(abi, v, accepts)| == 0
  }

  // ---------------------------------------------------------------------
  // Defaults and edits
  // ---------------------------------------------------------------------

  /** `defaultValues`: the caller's lists when given, otherwise one
      generated default per parameter (`defaultFor` is
      `getTypeTagDefaultZodValue`) and an empty string per type parameter. */
  function DefaultValues(abi: Abi, callerArguments: Option<seq<ArgValue>>, callerTypeArguments: Option<seq<string>>,
                         defaultFor: TypeTag -> ArgValue): (r: Values)
    ensures callerArguments.Some? ==> r.functionArguments == callerArguments.value
    ensures callerTypeArguments.Some? ==> r.typeArguments == callerTypeArguments.value
    ensures callerArguments.None? ==>
      (|r.functionArguments| == |abi.parameters|
       && forall i :: 0 <= i < |abi.parameters| ==> r.functionArguments[i] == defaultFor(abi.parameters[i]))
    ensures callerTypeArguments.None? ==>
      (|r.typeArguments| == abi.typeParameterCount
       && forall i :: 0 <= i < abi.typeParameterCount ==> r.typeArguments[i] == "")
  {
    Values(
      if callerArguments.Some? then callerArguments.value else MapSeq(abi.parameters, defaultFor),
      if callerTypeArguments.Some? then callerTypeArguments.value else seq(abi.typeParameterCount, _ => ""))
  }

  /** The generated defaults always have the tuple shapes, so the only
      issues they can raise are about single items; with type parameters
      the form starts invalid. */
  lemma GeneratedDefaultsHaveShape(abi: Abi, defaultFor: TypeTag -> ArgValue, accepts: (TypeTag, ArgValue) -> bool)
    ensures var r := Issues(abi, DefaultValues(abi, None, None, defaultFor), accepts);
            forall k :: 0 <= k < |r| ==> r[k].BadArgument? || r[k].EmptyTypeArgument?
    ensures abi.typeParameterCount > 0 ==> !IsValid(abi, DefaultValues(abi, None, None, defaultFor), accepts)
  {
    var v := DefaultValues(abi, None, None, defaultFor);
    var fa := FunctionArgumentIssues(abi, v.functionArguments, accepts);
    var ta := TypeArgumentIssues(abi.typeParameterCount, v.typeArguments);
    assert fa == ItemIssuesArgs(abi, v.functionArguments, accepts, 0);
    assert ta == ItemIssuesTypes(abi.typeParameterCount, v.typeArguments, 0);
  }

  /** `updateArg(i, { value })`: replaces one argument. */
  function UpdateArgument(v: Values, i: nat, value: ArgValue): (r: Values)
    requires i < |v.functionArguments|
    ensures |r.functionArguments| == |v.functionArguments| && r.typeArguments == v.typeArguments
    ensures r.functionArguments[i] == value
    ensures forall j :: 0 <= j < |v.functionArguments| && j != i ==> r.functionArguments[j] == v.functionArguments[j]
  {
    v.(functionArguments := v.functionArguments[i := value])
  }

  /** `updateType(i, { value })`: replaces one type argument. */
  function UpdateTypeArgument(v: Values, i: nat, value: string): (r: Values)
    requires i < |v.typeArguments|
    ensures |r.typeArguments| == |v.typeArguments| && r.functionArguments == v.functionArguments
    ensures r.typeArguments[i] == value
    ensures forall j :: 0 <= j < |v.typeArguments| && j != i ==> r.typeArguments[j] == v.typeArguments[j]
  {
    v.(typeArguments := v.typeArguments[i := value])
  }

  /** Editing one argument to a value its type accepts keeps a valid form
      valid. */
  lemma AcceptedEditKeepsValid(abi: Abi, v: Values, accepts: (TypeTag, ArgValue) -> bool, i: nat, value: ArgValue)
    requires IsValid(abi, v, accepts) && i < |v.functionArguments|
    requires accepts(abi.parameters[i], value)
    ensures IsValid(abi, UpdateArgument(v, i, value), accepts)
  {
  }

  /** Filling every type argument with a non-empty name makes the type
      part of generated defaults valid. */
  lemma NamedTypeArgumentsValid(n: nat, names: seq<string>)
    requires |names| == n && forall i :: 0 <= i < n ==> names[i] != ""
    ensures TypeArgumentIssues(n, names) == []
  {
  }

  /** The Option switch: `optionNone` (the app's `MOVE_OPTION_NONE`) when
      checked, the empty string when not. */
  function Toggle(checked: bool, optionNone: string): (r: ArgValue)
    ensures checked ==> r == Text(optionNone)
    ensures !checked ==> r == Text("")
  {
    Text(if checked then optionNone else "")
  }

  /** Switching off always re-enables the input; switching on disables it
      exactly when the constant is the literal the input compares with. */
  lemma ToggleControlsInput(checked: bool, optionNone: string)
    ensures !checked ==> !InputDisabled(Toggle(checked, optionNone))
    ensures checked ==> (InputDisabled(Toggle(checked, optionNone)) <==> optionNone == "Option::none")
  {
  }
}
