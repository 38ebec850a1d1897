/** Signed envelopes: the three witness layouts, who must sign, signing, and the size a block carries. */
module CarbonEnvelope {
  import opened Words
  import opened CarbonWire
  import opened CarbonRecords
  import opened CarbonMessage
  import CarbonPrefix

  datatype Witness = Witness(address: Bytes32, signature: Bytes64)
  datatype SignedTxMsg = SignedTxMsg(msg: TxMsg, witnesses: seq<Witness>)

  /** A bare signature, two bare signatures, a list the caller composes, or none. */
  datatype Rule = OneSlot | TwoSlots | Listed | NoSlots

  function RuleOf(t: TxType): Rule {
    match t
    case TxCall => Listed
    case TxCallMulti => Listed
    case TxTrade => Listed
    case TxPhantasma => Listed
    case TxPhantasmaRaw => NoSlots
    case TxTransferFungibleGasPayer => TwoSlots
    case TxTransferNonFungibleSingleGasPayer => TwoSlots
    case TxTransferNonFungibleMultiGasPayer => TwoSlots
    case TxBurnFungibleGasPayer => TwoSlots
    case TxBurnNonFungibleGasPayer => TwoSlots
    case _ => OneSlot
  }

  const EMPTY32: Bytes32 := Fill(32, 0)
  const EMPTY64: Bytes64 := Fill(64, 0)

  function FromAddress(p: Payload): Bytes32 {
    if !p.Native? then EMPTY32 else
      match p.body
      case TransferFungibleGasPayer(_, from, _, _) => from
      case TransferNonFungibleSingleGasPayer(_, from, _, _) => from
      case TransferNonFungibleMultiGasPayer(_, from, _, _) => from
      case BurnFungibleGasPayer(_, from, _) => from
      case BurnNonFungibleGasPayer(_, from, _) => from
      case _ => EMPTY32
  }

  function RequiredWitnesses(m: TxMsg): Option<seq<Bytes32>> {
    match RuleOf(m.txType)
    case OneSlot => Some([m.gasFrom])
    case TwoSlots => Some([m.gasFrom, FromAddress(m.msg)])
    case NoSlots => Some([])
    case Listed => None
  }

  // ----- the codec -----

  function EncodeWitness(w: Witness): Option<Bytes> {
    Some(w.address + w.signature)
  }

  function DecodeWitness(s: Bytes): Read<Witness> {
    var (a, rest) :- Decode32(s);
    var (g, rest') :- Decode64(rest);
    Got(Witness(a, g), rest')
  }

  function Addresses(ws: seq<Witness>): (r: seq<Bytes32>)
    ensures |r| == |ws| && forall i :: 0 <= i < |ws| ==> r[i] == ws[i].address
  {
    seq(|ws|, i requires 0 <= i < |ws| => ws[i].address)
  }

  /** The checks of the envelope writer. */
  predicate WitnessesFit(m: SignedTxMsg) {
    match RuleOf(m.msg.txType)
    case OneSlot => |m.witnesses| == 1 && m.witnesses[0].address == m.msg.gasFrom
    case TwoSlots =>
      && |m.witnesses| == 2
      && m.witnesses[0].address == m.msg.gasFrom
      && m.witnesses[1].address == FromAddress(m.msg.msg)
    case NoSlots => m.witnesses == []
    case Listed => m.msg.gasFrom in Addresses(m.witnesses)
  }

  function EncodeWitnesses(rule: Rule, ws: seq<Witness>): Option<Bytes> {
    match rule
    case OneSlot => if |ws| == 1 then Some(ws[0].signature) else None
    case TwoSlots => if |ws| == 2 then Some(ws[0].signature + ws[1].signature) else None
    case NoSlots => Some([])
    case Listed => EncodeArray(ws, EncodeWitness)
  }

  function EncodeSigned(m: SignedTxMsg): Option<Bytes> {
    var body :- EncodeTxMsg(m.msg);
    var tail :- if WitnessesFit(m) then EncodeWitnesses(RuleOf(m.msg.txType), m.witnesses) else None;
    Some(body + tail)
  }

  function DecodeWitnesses(m: TxMsg, s: Bytes): Read<seq<Witness>> {
    match RuleOf(m.txType)
    case OneSlot =>
      var (g, rest) :- Decode64(s);
      Got([Witness(m.gasFrom, g)], rest)
    case TwoSlots =>
      var (g, rest) :- Decode64(s);
      var (h, rest') :- Decode64(rest);
      Got([Witness(m.gasFrom, g), Witness(FromAddress(m.msg), h)], rest')
    case NoSlots => Got([], s)
    case Listed => DecodeArray(1, DecodeWitness, s)
  }

  function DecodeSigned(s: Bytes): Read<SignedTxMsg> {
    var (m, rest) :- DecodeTxMsg(s);
    var (ws, rest') :- DecodeWitnesses(m, rest);
    Got(SignedTxMsg(m, ws), rest')
  }

  lemma WitnessBack(w: Witness, r: Bytes)
    ensures DecodeWitness(w.address + w.signature + r) == Got(w, r)
  {
    assert w.address + w.signature + r == w.address + (w.signature + r);
    TakeBack(w.address, w.signature + r);
    TakeBack(w.signature, r);
  }

  lemma ListedBack(ws: seq<Witness>, r: Bytes)
    requires EncodeArray(ws, EncodeWitness).Some? && |ws| < MAX_LEN
    ensures DecodeArray(1, DecodeWitness, EncodeArray(ws, EncodeWitness).value + r) == Got(ws, r)
  {
    var id := (w: Witness) => w;
    forall w | w in ws ensures Inverts(EncodeWitness, DecodeWitness, id, w) {
      forall r: Bytes { WitnessBack(w, r); }
    }
    ArrayBack(ws, 1, EncodeWitness, DecodeWitness, id, r);
    assert Map(id, ws) == ws;
  }

  lemma WitnessesBack(m: SignedTxMsg, r: Bytes)
    requires WitnessesFit(m) && |m.witnesses| < MAX_LEN && EncodeWitnesses(RuleOf(m.msg.txType), m.witnesses).Some?
    ensures DecodeWitnesses(m.msg, EncodeWitnesses(RuleOf(m.msg.txType), m.witnesses).value + r) == Got(m.witnesses, r)
  {
    var ws := m.witnesses;
    match RuleOf(m.msg.txType)
    case OneSlot =>
      TakeBack(ws[0].signature, r);
      assert ws == [Witness(m.msg.gasFrom, ws[0].signature)];
    case TwoSlots =>
      var a: Bytes, b: Bytes := ws[0].signature, ws[1].signature;
      assert a + b + r == a + (b + r);
      TakeBack(a, b + r);
      TakeBack(b, r);
      assert ws == [Witness(m.msg.gasFrom, a), Witness(FromAddress(m.msg.msg), b)];
    case NoSlots => assert [] + r == r;
    case Listed => ListedBack(ws, r);
  }

  lemma CanonKeepsWitnesses(m: TxMsg)
    requires Matches(m.txType, m.msg)
    ensures FromAddress(CanonTxMsg(m).msg) == FromAddress(m.msg)
    ensures forall s: Bytes :: DecodeWitnesses(CanonTxMsg(m), s) == DecodeWitnesses(m, s)
  {
  }

  /** Signed envelopes of all seventeen types are read back, witnesses included. */
  lemma SignedBack(m: SignedTxMsg, r: Bytes)
    requires EncodeSigned(m).Some? && |m.witnesses| < MAX_LEN
    requires Matches(m.msg.txType, m.msg.msg) && ReadablePayload(m.msg.msg)
    ensures DecodeSigned(EncodeSigned(m).value + r) == Got(SignedTxMsg(CanonTxMsg(m.msg), m.witnesses), r)
  {
    var body, tail := EncodeTxMsg(m.msg).value, EncodeWitnesses(RuleOf(m.msg.txType), m.witnesses).value;
    assert body + tail + r == body + (tail + r);
    TxMsgBack(m.msg, tail + r);
    WitnessesBack(m, r);
    CanonKeepsWitnesses(m.msg);
  }

  lemma WitnessStable()
    ensures Stable(DecodeWitness)
  {
    forall s: Bytes, t: Bytes | DecodeWitness(s).Got? { WitnessMore(s, t); }
  }

  lemma WitnessMore(s: Bytes, t: Bytes)
    requires DecodeWitness(s).Got?
    ensures DecodeWitness(s + t) == Got(DecodeWitness(s).value, DecodeWitness(s).rest + t)
  {
    TakeMore(32, s, t);
    TakeMore(64, s[32..], t);
  }

  lemma WitnessesMore(m: TxMsg, s: Bytes, t: Bytes)
    requires DecodeWitnesses(m, s).Got?
    ensures DecodeWitnesses(m, s + t) == Got(DecodeWitnesses(m, s).value, DecodeWitnesses(m, s).rest + t)
  {
    match RuleOf(m.txType)
    case OneSlot => TakeMore(64, s, t);
    case TwoSlots => TakeMore(64, s, t); TakeMore(64, s[64..], t);
    case NoSlots =>
    case Listed => WitnessStable(); ArrayMore(1, DecodeWitness, s, t);
  }

  lemma SignedMore(s: Bytes, t: Bytes)
    requires DecodeSigned(s).Got?
    ensures DecodeSigned(s + t) == Got(DecodeSigned(s).value, DecodeSigned(s).rest + t)
  {
    TxMsgMore(s, t);
    WitnessesMore(DecodeTxMsg(s).value, DecodeTxMsg(s).rest, t);
  }

  /** Messages and envelopes: an accepted buffer has no accepted strict prefix. */
  lemma MessagePrefixRefused(s: Bytes, k: nat)
    requires k < |s|
    ensures CarbonPrefix.Deserialize(DecodeTxMsg, s).Some? ==> CarbonPrefix.Deserialize(DecodeTxMsg, s[..k]).None?
    ensures CarbonPrefix.Deserialize(DecodeSigned, s).Some? ==> CarbonPrefix.Deserialize(DecodeSigned, s[..k]).None?
  {
    assert s[..k] + s[k..] == s;
    if DecodeTxMsg(s[..k]).Got? {
      TxMsgMore(s[..k], s[k..]);
    }
    if DecodeSigned(s[..k]).Got? {
      SignedMore(s[..k], s[k..]);
    }
  }

  // ----- signing -----

  /** A key: its address, and its signature of a message, 64 bytes whatever the message. */
  datatype Key = Key(address: Bytes32, sign: Bytes -> Bytes64)

  predicate Signable(m: TxMsg) {
    && m.maxGas != 0
    && (m.msg.Native? && m.msg.body.TransferFungible? && m.txType.TxTransferFungible? ==>
          0 < m.msg.body.amount < 0x8000_0000_0000_0000)
    && (m.msg.Native? && m.msg.body.TransferFungibleGasPayer? && m.txType.TxTransferFungibleGasPayer? ==>
          0 < m.msg.body.amount < 0x8000_0000_0000_0000)
  }

  function Position(addresses: seq<Bytes32>, a: Bytes32): (r: Option<nat>)
    ensures r.Some? <==> a in addresses
    ensures r.Some? ==> r.value < |addresses| && addresses[r.value] == a && a !in addresses[..r.value]
  {
    if addresses == [] then None
    else if addresses[0] == a then Some(0)
    else
      var p := Position(addresses[1..], a);
      if p.None? then None else
        assert addresses[..p.value + 1] == [addresses[0]] + addresses[1..][..p.value];
        Some(p.value + 1)
  }

  /** Each envelope slot with the index of the signer that fills it. */
  method WitnessSlots(m: TxMsg, addresses: seq<Bytes32>) returns (r: Option<seq<(Bytes32, nat)>>)
    ensures r == SlotsOf(m, addresses)
  {
    var required := RequiredWitnesses(m);
    if required.None? {
      if addresses == [] || m.gasFrom !in addresses {
        return None;
      }
      return Some(seq(|addresses|, i requires 0 <= i < |addresses| => (addresses[i], i)));
    }
    if required.value == [] {
      assert addresses != [] ==> addresses[0] in addresses;
      return if addresses == [] then Some([]) else None;
    }
    var slots: seq<(Bytes32, nat)> := [];
    for i := 0 to |required.value|
      invariant forall j :: 0 <= j < i ==> required.value[j] in addresses
      invariant slots == Slots(addresses, required.value[..i])
    {
      var index := Position(addresses, required.value[i]);
      if index.None? {
        assert required.value[i] in required.value;
        return None;
      }
      slots := slots + [(required.value[i], index.value)];
    }
    assert required.value[..|required.value|] == required.value;
    for i := 0 to |addresses|
      invariant forall j :: 0 <= j < i ==> addresses[j] in required.value
    {
      if addresses[i] !in required.value {
        assert addresses[i] in addresses;
        return None;
      }
    }
    return Some(slots);
  }

  function Slots(addresses: seq<Bytes32>, required: seq<Bytes32>): (r: seq<(Bytes32, nat)>)
    requires forall a :: a in required ==> a in addresses
    ensures |r| == |required|
  {
    seq(|required|, i requires 0 <= i < |required| =>
      assert required[i] in required; (required[i], Position(addresses, required[i]).value))
  }

  /** Signers and required addresses are the same set. */
  predicate SameAddresses(required: seq<Bytes32>, addresses: seq<Bytes32>) {
    (forall a :: a in required ==> a in addresses) && (forall a :: a in addresses ==> a in required)
  }

  function SlotsOf(m: TxMsg, addresses: seq<Bytes32>): (r: Option<seq<(Bytes32, nat)>>)
    ensures r.Some? ==> forall i :: 0 <= i < |r.value| ==> r.value[i].1 < |addresses| && addresses[r.value[i].1] == r.value[i].0
  {
    var required := RequiredWitnesses(m);
    if required.None? then
      if m.gasFrom in addresses then Some(seq(|addresses|, i requires 0 <= i < |addresses| => (addresses[i], i))) else None
    else if SameAddresses(required.value, addresses) then
      assert forall a :: a in required.value ==> Position(addresses, a).Some?;
      Some(Slots(addresses, required.value))
    else None
  }

  function KeyAddresses(keys: seq<Key>): (r: seq<Bytes32>)
    ensures |r| == |keys| && forall i :: 0 <= i < |keys| ==> r[i] == keys[i].address
  {
    seq(|keys|, i requires 0 <= i < |keys| => keys[i].address)
  }

  function Witnesses(slots: seq<(Bytes32, nat)>, keys: seq<Key>, message: Bytes): (r: seq<Witness>)
    requires forall i :: 0 <= i < |slots| ==> slots[i].1 < |keys|
    ensures |r| == |slots|
    ensures forall i :: 0 <= i < |r| ==> r[i] == Witness(slots[i].0, keys[slots[i].1].sign(message))
  {
    seq(|slots|, i requires 0 <= i < |slots| => Witness(slots[i].0, keys[slots[i].1].sign(message)))
  }

  function Sign(m: TxMsg, keys: seq<Key>): Option<SignedTxMsg> {
    if !Signable(m) then None else
      var slots :- SlotsOf(m, KeyAddresses(keys));
      var message :- EncodeTxMsg(m);
      Some(SignedTxMsg(m, Witnesses(slots, keys, message)))
  }

  /** The admission check before anything is signed. */
  method AssertSignable(m: TxMsg) returns (ok: bool)
    ensures ok == Signable(m)
  {
    if m.maxGas == 0 {
      return false;
    }
    var amount: Option<U64> := None;
    if m.txType.TxTransferFungible? && m.msg.Native? && m.msg.body.TransferFungible? {
      amount := Some(m.msg.body.amount);
    } else if m.txType.TxTransferFungibleGasPayer? && m.msg.Native? && m.msg.body.TransferFungibleGasPayer? {
      amount := Some(m.msg.body.amount);
    }
    if amount.Some? && (amount.value == 0 || amount.value > 0x7FFF_FFFF_FFFF_FFFF) {
      return false;
    }
    return true;
  }

  /** The addresses that must sign, as a set, and those that do. */
  ghost predicate RightSigners(m: TxMsg, keys: seq<Key>) {
    var signers := set k <- keys :: k.address;
    match RequiredWitnesses(m)
    case Some(required) => (set a <- required) == signers
    case None => m.gasFrom in signers
  }

  /**
    Signing with keys: the admission check, a slot per witness, one signature per key over the one
    serialised message. It succeeds exactly when the message is admissible and can be serialised and the
    set of signers is the required set (for listed types, contains the gas payer); then every witness
    is a key's own signature of that message, and a type that fixes its witnesses has them in its order.
   */
  method SignTxMsg(m: TxMsg, keys: seq<Key>) returns (r: Option<SignedTxMsg>)
    ensures r == Sign(m, keys)
    ensures r.Some? <==> Signable(m) && EncodeTxMsg(m).Some? && RightSigners(m, keys)
    ensures r.Some? ==> r.value.msg == m && forall w <- r.value.witnesses :: SignedBy(w, keys, EncodeTxMsg(m).value)
    ensures r.Some? && RequiredWitnesses(m).Some? ==> Addresses(r.value.witnesses) == RequiredWitnesses(m).value
  {
    SignersMatch(m, keys);
    var signable := AssertSignable(m);
    if !signable {
      return None;
    }
    var addresses: seq<Bytes32> := [];
    for i := 0 to |keys|
      invariant |addresses| == i && forall j :: 0 <= j < i ==> addresses[j] == keys[j].address
    {
      addresses := addresses + [keys[i].address];
    }
    assert addresses == KeyAddresses(keys);
    var slots := WitnessSlots(m, addresses);
    if slots.None? {
      return None;
    }
    var message := EncodeTxMsg(m);
    if message.None? {
      return None;
    }
    var signatures: seq<Bytes64> := [];
    for i := 0 to |keys|
      invariant |signatures| == i && forall j :: 0 <= j < i ==> signatures[j] == keys[j].sign(message.value)
    {
      signatures := signatures + [keys[i].sign(message.value)];
    }
    var witnesses: seq<Witness> := [];
    for i := 0 to |slots.value|
      invariant |witnesses| == i
      invariant forall j :: 0 <= j < i ==> witnesses[j] == Witness(slots.value[j].0, keys[slots.value[j].1].sign(message.value))
    {
      witnesses := witnesses + [Witness(slots.value[i].0, signatures[slots.value[i].1])];
    }
    assert witnesses == Witnesses(slots.value, keys, message.value);
    SlotsSigned(m, keys, message.value);
    return Some(SignedTxMsg(m, witnesses));
  }

  ghost predicate SignedBy(w: Witness, keys: seq<Key>, message: Bytes) {
    exists k <- keys :: w == Witness(k.address, k.sign(message))
  }

  lemma SlotsSigned(m: TxMsg, keys: seq<Key>, message: Bytes)
    requires SlotsOf(m, KeyAddresses(keys)).Some?
    ensures var ws := Witnesses(SlotsOf(m, KeyAddresses(keys)).value, keys, message);
            (forall w <- ws :: SignedBy(w, keys, message))
            && (RequiredWitnesses(m).Some? ==> Addresses(ws) == RequiredWitnesses(m).value)
  {
    var slots := SlotsOf(m, KeyAddresses(keys)).value;
    var ws := Witnesses(slots, keys, message);
    forall w | w in ws ensures SignedBy(w, keys, message) {
      var i :| 0 <= i < |ws| && ws[i] == w;
      assert keys[slots[i].1] in keys && KeyAddresses(keys)[slots[i].1] == slots[i].0;
    }
  }

  lemma SignersMatch(m: TxMsg, keys: seq<Key>)
    ensures RightSigners(m, keys) <==> SlotsOf(m, KeyAddresses(keys)).Some?
  {
    var signers, addresses := set k <- keys :: k.address, KeyAddresses(keys);
    forall a ensures a in addresses <==> a in signers {
      if a in addresses {
        var i :| 0 <= i < |addresses| && addresses[i] == a;
        assert keys[i] in keys;
      }
      if a in signers {
        var k :| k in keys && k.address == a;
        var i :| 0 <= i < |keys| && keys[i] == k;
        assert addresses[i] == a;
      }
    }
    var required := RequiredWitnesses(m);
    if required.Some? {
      var owed := set a <- required.value;
      assert owed == signers <==> SameAddresses(required.value, addresses);
    }
  }

  /** What signing produces never fails a check of the envelope writer. */
  lemma SignedIsWritten(m: TxMsg, keys: seq<Key>)
    requires Sign(m, keys).Some? && |keys| < 0x1_0000_0000
    ensures WitnessesFit(Sign(m, keys).value) && EncodeSigned(Sign(m, keys).value).Some?
  {
    var signed := Sign(m, keys).value;
    if RuleOf(m.txType).Listed? {
      var i :| 0 <= i < |keys| && KeyAddresses(keys)[i] == m.gasFrom;
      assert Addresses(signed.witnesses)[i] == m.gasFrom;
      AllWitnesses(signed.witnesses);
    }
  }

  lemma {:induction false} AllWitnesses(ws: seq<Witness>)
    ensures EncodeAll(ws, EncodeWitness).Some? && |EncodeAll(ws, EncodeWitness).value| == 96 * |ws|
  {
    if ws != [] {
      AllWitnesses(ws[1..]);
    }
  }

  /** One key per address, as a public key determines its key pair. */
  ghost predicate Consistent(keys: seq<Key>, others: seq<Key>) {
    forall i, j :: 0 <= i < |keys| && 0 <= j < |others| && keys[i].address == others[j].address ==> keys[i] == others[j]
  }

  /**
    For a type that fixes its witnesses, the envelope does not depend on the order in which the keys
    were passed, nor on passing one twice.
   */
  lemma SignOrder(m: TxMsg, keys: seq<Key>, others: seq<Key>)
    requires RequiredWitnesses(m).Some? && Consistent(keys, others)
    requires SameAddresses(KeyAddresses(keys), KeyAddresses(others))
    ensures Sign(m, keys) == Sign(m, others)
  {
    if Sign(m, keys).Some? {
      var message := EncodeTxMsg(m).value;
      var a := Witnesses(SlotsOf(m, KeyAddresses(keys)).value, keys, message);
      var b := Witnesses(SlotsOf(m, KeyAddresses(others)).value, others, message);
      assert a == b;
    }
  }

  // ----- the size the block carries -----

  /** `envelope_bytes`: the size with placeholder witnesses, None when the stated count contradicts the type. */
  function EnvelopeBytes(m: TxMsg, count: Option<U32>): (r: Option<nat>)
    ensures r.Some? ==> r.value < 0x1_0000_0000
  {
    var addresses :- SignerAddresses(m, count);
    var bytes :- EncodeSigned(SignedTxMsg(m, Placeholders(addresses)));
    if |bytes| < 0x1_0000_0000 then Some(|bytes|) else None
  }

  function Placeholders(addresses: seq<Bytes32>): (r: seq<Witness>)
    ensures |r| == |addresses| && forall i :: 0 <= i < |r| ==> r[i] == Witness(addresses[i], EMPTY64)
  {
    seq(|addresses|, i requires 0 <= i < |addresses| => Witness(addresses[i], EMPTY64))
  }

  function SignerAddresses(m: TxMsg, count: Option<U32>): Option<seq<Bytes32>> {
    var required := RequiredWitnesses(m);
    if required.Some? then
      if count.Some? && count.value != |required.value| then None else required
    else
      var n := if count.Some? then count.value else 1;
      if n == 0 then None else Some([m.gasFrom] + seq(n - 1, i => EMPTY32))
  }

  /** The size depends on the length of the message only, given its type and its payers. */
  lemma EnvelopeFromSize(m: TxMsg, n: TxMsg, count: Option<U32>)
    requires m.txType == n.txType && m.gasFrom == n.gasFrom && FromAddress(m.msg) == FromAddress(n.msg)
    requires EncodeTxMsg(m).Some? == EncodeTxMsg(n).Some?
    requires EncodeTxMsg(m).Some? ==> |EncodeTxMsg(m).value| == |EncodeTxMsg(n).value|
    ensures EnvelopeBytes(m, count) == EnvelopeBytes(n, count)
  {
    var addresses := SignerAddresses(m, count);
    assert SignerAddresses(n, count) == addresses;
    if addresses.Some? {
      var ws := Placeholders(addresses.value);
      assert WitnessesFit(SignedTxMsg(m, ws)) == WitnessesFit(SignedTxMsg(n, ws));
    }
  }

  function WitnessBytes(rule: Rule, n: nat): nat {
    match rule
    case OneSlot => 64
    case TwoSlots => 128
    case NoSlots => 0
    case Listed => 4 + 96 * n
  }

  /** An envelope is its message plus a part that depends on the layout and the number of witnesses only. */
  lemma SignedSize(m: SignedTxMsg)
    requires EncodeSigned(m).Some?
    ensures |EncodeSigned(m).value| == |EncodeTxMsg(m.msg).value| + WitnessBytes(RuleOf(m.msg.txType), |m.witnesses|)
  {
    if RuleOf(m.msg.txType).Listed? {
      AllWitnesses(m.witnesses);
    }
  }

  /** `FeePlan::apply`. */
  function Apply(m: TxMsg, maxGas: U64, maxData: U64): TxMsg {
    m.(maxGas := maxGas, maxData := maxData)
  }

  lemma ApplyKeepsSize(m: TxMsg, maxGas: U64, maxData: U64)
    ensures EncodeTxMsg(Apply(m, maxGas, maxData)).Some? == EncodeTxMsg(m).Some?
    ensures EncodeTxMsg(m).Some? ==> |EncodeTxMsg(Apply(m, maxGas, maxData)).value| == |EncodeTxMsg(m).value|
  {
    HeaderSize(m);
    HeaderSize(Apply(m, maxGas, maxData));
  }

  lemma HeaderSize(m: TxMsg)
    ensures EncodeVals(Header(m)).Some? == EncodeSmall(m.payload).Some?
    ensures EncodeVals(Header(m)).Some? ==> |EncodeVals(Header(m)).value| == 8 + 8 + 8 + 32 + |EncodeSmall(m.payload).value|
  {
    var tail := [Small(m.payload)];
    ConsSize(Small(m.payload), []);
    ConsSize(B32(m.gasFrom), tail);
    ConsSize(N64(m.maxData), [B32(m.gasFrom)] + tail);
    ConsSize(N64(m.maxGas), [N64(m.maxData)] + ([B32(m.gasFrom)] + tail));
    ConsSize(S64(m.expiry), [N64(m.maxGas)] + ([N64(m.maxData)] + ([B32(m.gasFrom)] + tail)));
    assert [Small(m.payload)] + [] == tail;
    assert Header(m) == [S64(m.expiry)] + ([N64(m.maxGas)] + ([N64(m.maxData)] + ([B32(m.gasFrom)] + tail)));
  }

  lemma ConsSize(v: Val, vs: seq<Val>)
    ensures EncodeVals([v] + vs).Some? == (EncodeVal(v).Some? && EncodeVals(vs).Some?)
    ensures EncodeVals([v] + vs).Some? ==> |EncodeVals([v] + vs).value| == |EncodeVal(v).value| + |EncodeVals(vs).value|
  {
    assert ([v] + vs)[1..] == vs;
  }

  /**
    The size a plan is priced for is the size of the envelope that is finally signed, whatever offer
    and ceiling the plan writes, whoever signs and whatever the signatures are. Only a list of
    witnesses needs its stated count to agree with the keys.
   */
  lemma PricedSizeIsSignedSize(m: TxMsg, count: Option<U32>, maxGas: U64, maxData: U64, keys: seq<Key>)
    requires EnvelopeBytes(m, count).Some? && Sign(Apply(m, maxGas, maxData), keys).Some?
    requires |keys| < 0x1_0000_0000
    requires RequiredWitnesses(m).None? ==> |keys| == if count.Some? then count.value else 1
    ensures EncodeSigned(Sign(Apply(m, maxGas, maxData), keys).value).Some?
    ensures |EncodeSigned(Sign(Apply(m, maxGas, maxData), keys).value).value| == EnvelopeBytes(m, count).value
  {
    var planned := Apply(m, maxGas, maxData);
    SignedIsWritten(planned, keys);
    SignedSize(Sign(planned, keys).value);
    ApplyKeepsSize(m, maxGas, maxData);
    PlaceholderSize(m, count);
  }

  lemma PlaceholderSize(m: TxMsg, count: Option<U32>)
    requires EnvelopeBytes(m, count).Some?
    ensures EncodeTxMsg(m).Some?
    ensures EnvelopeBytes(m, count).value
         == |EncodeTxMsg(m).value| + WitnessBytes(RuleOf(m.txType), if count.Some? then count.value else 1)
  {
    SignedSize(SignedTxMsg(m, Placeholders(SignerAddresses(m, count).value)));
  }
}
