/** Who signs a message, body by body: whose signatures an envelope carries, in which order and in how many bytes. */
module CarbonSigners {
  import opened Words
  import opened CarbonWire
  import opened CarbonMessage
  import opened CarbonEnvelope

  /** A gas-payer message of its type, whose tokens `owner` holds. */
  predicate OwnedBy(m: TxMsg, owner: Bytes32) {
    match m.msg
    case Native(TransferFungibleGasPayer(_, from, _, _)) => m.txType == TxTransferFungibleGasPayer && owner == from
    case Native(TransferNonFungibleSingleGasPayer(_, from, _, _)) => m.txType == TxTransferNonFungibleSingleGasPayer && owner == from
    case Native(TransferNonFungibleMultiGasPayer(_, from, _, _)) => m.txType == TxTransferNonFungibleMultiGasPayer && owner == from
    case Native(BurnFungibleGasPayer(_, from, _)) => m.txType == TxBurnFungibleGasPayer && owner == from
    case Native(BurnNonFungibleGasPayer(_, from, _)) => m.txType == TxBurnNonFungibleGasPayer && owner == from
    case _ => false
  }

  /** A native message of its type that moves its sender's own tokens or mints. */
  predicate OwnTokens(m: TxMsg) {
    match m.msg
    case Native(TransferFungible(_, _, _)) => m.txType == TxTransferFungible
    case Native(TransferNonFungibleSingle(_, _, _)) => m.txType == TxTransferNonFungibleSingle
    case Native(TransferNonFungibleMulti(_, _, _)) => m.txType == TxTransferNonFungibleMulti
    case Native(MintFungible(_, _, _)) => m.txType == TxMintFungible
    case Native(BurnFungible(_, _)) => m.txType == TxBurnFungible
    case Native(MintNonFungible(_, _, _, _, _)) => m.txType == TxMintNonFungible
    case Native(BurnNonFungible(_, _)) => m.txType == TxBurnNonFungible
    case _ => false
  }

  /** A message of its type whose witnesses the caller lists. */
  predicate CallerLists(m: TxMsg) {
    match m.msg
    case Call(_) => m.txType == TxCall
    case CallMulti(_) => m.txType == TxCallMulti
    case Trade(_) => m.txType == TxTrade
    case Native(Phantasma(_, _, _)) => m.txType == TxPhantasma
    case _ => false
  }

  predicate SignedElsewhere(m: TxMsg) {
    m.msg.Native? && m.msg.body.PhantasmaRaw? && m.txType == TxPhantasmaRaw
  }

  /** Every message whose type fits its payload is of one of these kinds. */
  lemma FourKinds(m: TxMsg)
    requires Matches(m.txType, m.msg)
    ensures OwnTokens(m) || CallerLists(m) || SignedElsewhere(m) || exists owner: Bytes32 :: OwnedBy(m, owner)
  {
    if m.msg.Native? {
      match m.msg.body {
        case TransferFungibleGasPayer(_, from, _, _) => assert OwnedBy(m, from);
        case TransferNonFungibleSingleGasPayer(_, from, _, _) => assert OwnedBy(m, from);
        case TransferNonFungibleMultiGasPayer(_, from, _, _) => assert OwnedBy(m, from);
        case BurnFungibleGasPayer(_, from, _) => assert OwnedBy(m, from);
        case BurnNonFungibleGasPayer(_, from, _) => assert OwnedBy(m, from);
        case _ =>
      }
    }
  }

  ghost function Signers(keys: seq<Key>): set<Bytes32> {
    set k <- keys :: k.address
  }

  /** Signing needs an admissible message that can be written, and these signers. */
  predicate Ready(m: TxMsg) {
    Signable(m) && EncodeTxMsg(m).Some?
  }

  lemma SignsExactlyWhen(m: TxMsg, keys: seq<Key>)
    ensures Sign(m, keys).Some? <==> Ready(m) && RightSigners(m, keys)
    ensures Sign(m, keys).Some? ==>
              var ws := Sign(m, keys).value.witnesses;
              (forall w <- ws :: SignedBy(w, keys, EncodeTxMsg(m).value))
              && (RequiredWitnesses(m).Some? ==> Addresses(ws) == RequiredWitnesses(m).value)
  {
    SignersMatch(m, keys);
    if Sign(m, keys).Some? {
      SlotsSigned(m, keys, EncodeTxMsg(m).value);
    }
  }

  /** The signature in an envelope slot: made by a key of that address over the message. */
  ghost predicate SignatureOf(signature: Bytes, address: Bytes32, keys: seq<Key>, message: Bytes) {
    exists k <- keys :: k.address == address && k.sign(message) == signature
  }

  /**
    A gas-payer message is signed by its gas payer and the owner of the tokens and by nobody else, and the
    envelope is the message, the payer's signature and the owner's.
   */
  lemma PayerAndOwnerSign(m: TxMsg, owner: Bytes32, keys: seq<Key>)
    requires OwnedBy(m, owner)
    ensures Sign(m, keys).Some? <==> Ready(m) && Signers(keys) == {m.gasFrom, owner}
    ensures Sign(m, keys).Some? ==>
              var signed, message := Sign(m, keys).value, EncodeTxMsg(m).value;
              Addresses(signed.witnesses) == [m.gasFrom, owner] && EncodeSigned(signed).Some?
              && var bytes := EncodeSigned(signed).value;
                 |bytes| == |message| + 128 && bytes[..|message|] == message
                 && SignatureOf(bytes[|message|..|message| + 64], m.gasFrom, keys, message)
                 && SignatureOf(bytes[|message| + 64..], owner, keys, message)
  {
    SignsExactlyWhen(m, keys);
    assert RequiredWitnesses(m) == Some([m.gasFrom, owner]);
    assert (set a <- [m.gasFrom, owner]) == {m.gasFrom, owner};
    if Sign(m, keys).Some? {
      var signed, message := Sign(m, keys).value, EncodeTxMsg(m).value;
      var ws := signed.witnesses;
      assert |ws| == 2 && ws[0].address == Addresses(ws)[0] && ws[1].address == Addresses(ws)[1];
      assert SignedBy(ws[0], keys, message) && SignedBy(ws[1], keys, message);
      TwoSignatures(message, ws[0].signature, ws[1].signature);
    }
  }

  lemma TwoSignatures(message: Bytes, a: Bytes64, b: Bytes64)
    ensures var bytes := message + (a + b);
            |bytes| == |message| + 128 && bytes[..|message|] == message
            && bytes[|message|..|message| + 64] == a && bytes[|message| + 64..] == b
  {
  }

  /** Every other native message is signed by its gas payer alone, in 64 bytes. */
  lemma PayerSigns(m: TxMsg, keys: seq<Key>)
    requires OwnTokens(m)
    ensures Sign(m, keys).Some? <==> Ready(m) && Signers(keys) == {m.gasFrom}
    ensures Sign(m, keys).Some? ==>
              var signed, message := Sign(m, keys).value, EncodeTxMsg(m).value;
              Addresses(signed.witnesses) == [m.gasFrom] && EncodeSigned(signed).Some?
              && var bytes := EncodeSigned(signed).value;
                 |bytes| == |message| + 64 && bytes[..|message|] == message
                 && SignatureOf(bytes[|message|..], m.gasFrom, keys, message)
  {
    SignsExactlyWhen(m, keys);
    assert RequiredWitnesses(m) == Some([m.gasFrom]);
    assert (set a <- [m.gasFrom]) == {m.gasFrom};
    if Sign(m, keys).Some? {
      var signed, message := Sign(m, keys).value, EncodeTxMsg(m).value;
      var ws := signed.witnesses;
      assert |ws| == 1 && ws[0].address == Addresses(ws)[0];
      assert SignedBy(ws[0], keys, message);
      assert (message + ws[0].signature)[|message|..] == ws[0].signature;
    }
  }

  /** A raw script message takes no key and carries no witness. */
  lemma NobodySigns(m: TxMsg, keys: seq<Key>)
    requires SignedElsewhere(m)
    ensures Sign(m, keys).Some? <==> Ready(m) && keys == []
    ensures Sign(m, keys).Some? ==> EncodeSigned(Sign(m, keys).value) == EncodeTxMsg(m)
  {
    SignsExactlyWhen(m, keys);
    assert RequiredWitnesses(m) == Some([]);
    assert keys != [] ==> keys[0].address in Signers(keys);
    assert keys == [] ==> Signers(keys) == {};
    if Sign(m, keys).Some? {
      assert EncodeTxMsg(m).value + [] == EncodeTxMsg(m).value;
    }
  }

  /** Where the caller lists witnesses, every key signs, in the order given, and the gas payer must be among them. */
  lemma ListSigns(m: TxMsg, keys: seq<Key>)
    requires CallerLists(m)
    ensures Sign(m, keys).Some? <==> Ready(m) && m.gasFrom in Signers(keys)
    ensures Sign(m, keys).Some? ==>
              var signed, message := Sign(m, keys).value, EncodeTxMsg(m).value;
              |signed.witnesses| == |keys|
              && (forall i :: 0 <= i < |keys| ==> signed.witnesses[i] == Witness(keys[i].address, keys[i].sign(message)))
              && (|keys| < 0x1_0000_0000 ==>
                    EncodeSigned(signed).Some? && |EncodeSigned(signed).value| == |message| + 4 + 96 * |keys|)
  {
    SignsExactlyWhen(m, keys);
    assert RequiredWitnesses(m) == None;
    if Sign(m, keys).Some? && |keys| < 0x1_0000_0000 {
      SignedIsWritten(m, keys);
      SignedSize(Sign(m, keys).value);
    }
  }

  // ----- the planned size -----

  lemma PlannedFrom(m: TxMsg, count: Option<U32>, rule: Rule)
    requires EncodeTxMsg(m).Some? && rule == RuleOf(m.txType)
    ensures var signers := SignerAddresses(m, count);
            EnvelopeBytes(m, count)
            == if signers.None? then None else Sized(|EncodeTxMsg(m).value| + WitnessBytes(rule, |signers.value|), true)
  {
    var signers := SignerAddresses(m, count);
    if signers.Some? {
      PlaceholdersFit(m, count);
      SignedSize(SignedTxMsg(m, Placeholders(signers.value)));
    }
  }

  /** The envelope of a gas-payer message is planned at 128 bytes over the message; any other count than two is refused. */
  lemma PlannedOwned(m: TxMsg, owner: Bytes32, count: Option<U32>)
    requires OwnedBy(m, owner) && EncodeTxMsg(m).Some?
    ensures EnvelopeBytes(m, count) == Sized(|EncodeTxMsg(m).value| + 128, count == None || count == Some(2))
  {
    PlannedFrom(m, count, TwoSlots);
  }

  lemma PlannedOwn(m: TxMsg, count: Option<U32>)
    requires OwnTokens(m) && EncodeTxMsg(m).Some?
    ensures EnvelopeBytes(m, count) == Sized(|EncodeTxMsg(m).value| + 64, count == None || count == Some(1))
  {
    PlannedFrom(m, count, OneSlot);
  }

  lemma PlannedRaw(m: TxMsg, count: Option<U32>)
    requires SignedElsewhere(m) && EncodeTxMsg(m).Some?
    ensures EnvelopeBytes(m, count) == Sized(|EncodeTxMsg(m).value|, count == None || count == Some(0))
  {
    PlannedFrom(m, count, NoSlots);
  }

  /** Listed witnesses take a count and 96 bytes each; one is planned where no number is stated, none is refused. */
  lemma PlannedList(m: TxMsg, count: Option<U32>)
    requires CallerLists(m) && EncodeTxMsg(m).Some?
    ensures EnvelopeBytes(m, count) == Sized(|EncodeTxMsg(m).value| + 4 + 96 * Stated(count), count != Some(0))
  {
    PlannedFrom(m, count, Listed);
  }

  function Stated(count: Option<U32>): nat {
    if count.None? then 1 else count.value
  }

  /** A size, when the witnesses are as the message needs them and 32 bits hold it. */
  function Sized(n: nat, fits: bool): Option<nat> {
    if fits && n < 0x1_0000_0000 then Some(n) else None
  }

  lemma PlaceholdersFit(m: TxMsg, count: Option<U32>)
    requires SignerAddresses(m, count).Some? && EncodeTxMsg(m).Some?
    ensures EncodeSigned(SignedTxMsg(m, Placeholders(SignerAddresses(m, count).value))).Some?
  {
    var ws := Placeholders(SignerAddresses(m, count).value);
    if RuleOf(m.txType).Listed? {
      assert Addresses(ws)[0] == m.gasFrom;
      AllWitnesses(ws);
    }
  }
}
