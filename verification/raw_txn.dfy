/** The tagged envelope for raw transactions (serialization/rawTxn.ts).

    A raw transaction is one of three shapes; serializing it classifies the
    shape by which fields it has (fee payer first, then multi-agent, then
    simple) and pairs the tag with the BCS encoding of the whole value.
    Deserializing switches on the tag to pick a BCS decoder. The BCS layout
    itself belongs to the SDK and enters the model as the `Bcs` parameter. */
module RawTxn {
  import opened Base

  /** The body every variant carries (the SDK's `RawTransaction`). */
  datatype RawTransaction = RawTransaction(
    sender: Address,
    sequenceNumber: nat,
    payload: seq<bv8>,
    maxGasAmount: nat,
    gasUnitPrice: nat,
    expirationTimestampSecs: nat,
    chainId: nat)

  /** `SerializableRawTransaction`: a bare raw transaction, or one of the two
      `RawTransactionWithData` variants wrapping it. */
  datatype SerializableRawTransaction =
    | Simple(rawTxn: RawTransaction)
    | MultiAgent(rawTxn: RawTransaction, secondarySigners: seq<Address>)
    | FeePayer(rawTxn: RawTransaction, secondarySigners: seq<Address>, feePayer: Address)

  /** The own properties of the SDK objects, which the `in` tests look at. */
  datatype Field =
    | SenderField | SequenceNumberField | PayloadField | MaxGasAmountField
    | GasUnitPriceField | ExpirationTimestampSecsField | ChainIdField
    | RawTxnField | SecondarySignerAddressesField | FeePayerAddressField

  function FieldsOf(v: SerializableRawTransaction): set<Field> {
    match v
    case Simple(_) =>
      {SenderField, SequenceNumberField, PayloadField, MaxGasAmountField,
       GasUnitPriceField, ExpirationTimestampSecsField, ChainIdField}
    case MultiAgent(_, _) => {RawTxnField, SecondarySignerAddressesField}
    case FeePayer(_, _, _) => {RawTxnField, SecondarySignerAddressesField, FeePayerAddressField}
  }

  const RawTxnTag := "raw_txn"
  const FeePayerTag := "fee_payer_raw_txn"
  const MultiAgentTag := "multi_agent_raw_txn"

  const InvalidTypeMessage := "Invalid raw transaction type"

  /** `UnexpectedValueError`, or the exception a BCS decoder throws on bytes
      it cannot consume. */
  datatype TxnError = UnexpectedValue(message: string) | Malformed

  /** `SerializedRawTransaction`. `tag` is the object's `type` field; it is a
      plain string because a stored envelope may carry any text there. */
  datatype Envelope = Envelope(tag: string, value: string)

  /** The SDK's BCS entry points: `bcsSerialize`, and `bcsDeserialize` with
      the `RawTransaction` or `RawTransactionWithData` class; a decoder that
      throws answers `None`. */
  datatype Bcs = Bcs(
    serialize: SerializableRawTransaction -> string,
    deserializeRaw: string -> Option<RawTransaction>,
    deserializeWithData: string -> Option<SerializableRawTransaction>)

  /** What the model assumes of BCS: each decoder is a left inverse of the
      encoder on the shapes it reads, and `RawTransactionWithData` only ever
      yields one of its two variants. */
  ghost predicate Lawful(bcs: Bcs) {
    && (forall t :: bcs.deserializeRaw(bcs.serialize(Simple(t))) == Some(t))
    && (forall t, signers :: bcs.deserializeWithData(bcs.serialize(MultiAgent(t, signers))) == Some(MultiAgent(t, signers)))
    && (forall t, signers, payer ::
          bcs.deserializeWithData(bcs.serialize(FeePayer(t, signers, payer))) == Some(FeePayer(t, signers, payer)))
    && WithDataNeverSimple(bcs)
  }

  ghost predicate WithDataNeverSimple(bcs: Bcs) {
    forall text :: bcs.deserializeWithData(text).Some? ==> !bcs.deserializeWithData(text).value.Simple?
  }

  /** The tag each shape is meant to carry, by constructor. */
  function TagOf(v: SerializableRawTransaction): string {
    match v
    case Simple(_) => RawTxnTag
    case MultiAgent(_, _) => MultiAgentTag
    case FeePayer(_, _, _) => FeePayerTag
  }

  /** The ordered `in` tests of `serializeRawTransaction`. */
  function ClassifyFields(fields: set<Field>): (r: Result<string, TxnError>)
    ensures r.Err? <==> FeePayerAddressField !in fields && SecondarySignerAddressesField !in fields && ChainIdField !in fields
    ensures r.Err? ==> r.error == UnexpectedValue(InvalidTypeMessage)
    ensures r.Ok? ==> r.value in {RawTxnTag, FeePayerTag, MultiAgentTag}
    ensures r == Ok(FeePayerTag) <==> FeePayerAddressField in fields
    ensures r == Ok(MultiAgentTag) <==> FeePayerAddressField !in fields && SecondarySignerAddressesField in fields
  {
    if FeePayerAddressField in fields then Ok(FeePayerTag)
    else if SecondarySignerAddressesField in fields then Ok(MultiAgentTag)
    else if ChainIdField in fields then Ok(RawTxnTag)
    else Err(UnexpectedValue(InvalidTypeMessage))
  }

  /** `serializeRawTransaction`. The value is encoded before the shape is
      examined, so the text never depends on the tag. */
  function SerializeRawTransaction(bcs: Bcs, v: SerializableRawTransaction): (r: Result<Envelope, TxnError>)
    ensures r.Ok?
    ensures r.value.tag == TagOf(v)
    ensures r.value.value == bcs.serialize(v)
  {
    var value := bcs.serialize(v);
    match ClassifyFields(FieldsOf(v))
    case Ok(tag) => Ok(Envelope(tag, value))
    case Err(e) => Err(e)
  }

  /** `deserializeRawTransaction`. */
  function DeserializeRawTransaction(bcs: Bcs, e: Envelope): (r: Result<SerializableRawTransaction, TxnError>)
    ensures e.tag !in {RawTxnTag, FeePayerTag, MultiAgentTag} ==> r == Err(UnexpectedValue(InvalidTypeMessage))
    ensures e.tag == RawTxnTag ==>
      (r.Ok? <==> bcs.deserializeRaw(e.value).Some?) && (r.Ok? ==> r == Ok(Simple(bcs.deserializeRaw(e.value).value)))
    ensures e.tag in {FeePayerTag, MultiAgentTag} ==>
      (r.Ok? <==> bcs.deserializeWithData(e.value).Some?) && (r.Ok? ==> r.value == bcs.deserializeWithData(e.value).value)
    ensures r.Err? && e.tag in {RawTxnTag, FeePayerTag, MultiAgentTag} ==> r.error == Malformed
  {
    if e.tag == RawTxnTag then
      match bcs.deserializeRaw(e.value)
      case Some(t) => Ok(Simple(t))
      case None => Err(Malformed)
    else if e.tag == FeePayerTag || e.tag == MultiAgentTag then
      match bcs.deserializeWithData(e.value)
      case Some(v) => Ok(v)
      case None => Err(Malformed)
    else
      Err(UnexpectedValue(InvalidTypeMessage))
  }

  /** The classification of the SDK objects agrees with their constructors:
      a fee-payer transaction is tagged fee-payer although it also has
      secondary signers, and no shape reaches the error branch. */
  lemma ClassificationMatchesShape(v: SerializableRawTransaction)
    ensures ClassifyFields(FieldsOf(v)) == Ok(TagOf(v))
    ensures v.FeePayer? ==> SecondarySignerAddressesField in FieldsOf(v)
  {
  }

  /** Round trip: every shape, with its signer list in order (empty or not),
      comes back unchanged from its envelope. */
  lemma RoundTrip(bcs: Bcs, v: SerializableRawTransaction)
    requires Lawful(bcs)
    ensures DeserializeRawTransaction(bcs, SerializeRawTransaction(bcs, v).value) == Ok(v)
  {
    var e := SerializeRawTransaction(bcs, v).value;
    match v
    case Simple(t) =>
      assert bcs.deserializeRaw(bcs.serialize(Simple(t))) == Some(t);
    case MultiAgent(t, signers) =>
      assert bcs.deserializeWithData(bcs.serialize(MultiAgent(t, signers))) == Some(MultiAgent(t, signers));
    case FeePayer(t, signers, payer) =>
      assert bcs.deserializeWithData(bcs.serialize(FeePayer(t, signers, payer))) == Some(FeePayer(t, signers, payer));
  }

  /** The result follows the paired overloads: `raw_txn` yields a bare
      transaction and the two other tags yield a transaction with data. */
  lemma ResultShapeFollowsTag(bcs: Bcs, e: Envelope)
    requires WithDataNeverSimple(bcs)
    requires DeserializeRawTransaction(bcs, e).Ok?
    ensures DeserializeRawTransaction(bcs, e).value.Simple? <==> e.tag == RawTxnTag
  {
    if e.tag != RawTxnTag {
      assert bcs.deserializeWithData(e.value).Some?;
    }
  }

  /** The two with-data tags decode alike: the variant comes from the bytes
      and the tag is never checked against it, so a multi-agent encoding
      under the fee-payer tag comes back multi-agent. */
  lemma WithDataTagIsOnlyCast(bcs: Bcs, text: string, t: RawTransaction, signers: seq<Address>)
    requires Lawful(bcs)
    ensures DeserializeRawTransaction(bcs, Envelope(FeePayerTag, text))
         == DeserializeRawTransaction(bcs, Envelope(MultiAgentTag, text))
    ensures DeserializeRawTransaction(bcs, Envelope(FeePayerTag, bcs.serialize(MultiAgent(t, signers))))
         == Ok(MultiAgent(t, signers))
  {
    assert bcs.deserializeWithData(bcs.serialize(MultiAgent(t, signers))) == Some(MultiAgent(t, signers));
  }
}
