/** Carbon transaction messages: the seventeen payloads, call argument sections, and the message header. */
module CarbonMessage {
  import opened Words
  import opened CarbonWire
  import opened CarbonRecords

  datatype TxType =
    | TxCall | TxCallMulti | TxTrade
    | TxTransferFungible | TxTransferFungibleGasPayer
    | TxTransferNonFungibleSingle | TxTransferNonFungibleSingleGasPayer
    | TxTransferNonFungibleMulti | TxTransferNonFungibleMultiGasPayer
    | TxMintFungible | TxBurnFungible | TxBurnFungibleGasPayer
    | TxMintNonFungible | TxBurnNonFungible | TxBurnNonFungibleGasPayer
    | TxPhantasma | TxPhantasmaRaw

  const TX_TYPES := [
    TxCall, TxCallMulti, TxTrade,
    TxTransferFungible, TxTransferFungibleGasPayer,
    TxTransferNonFungibleSingle, TxTransferNonFungibleSingleGasPayer,
    TxTransferNonFungibleMulti, TxTransferNonFungibleMultiGasPayer,
    TxMintFungible, TxBurnFungible, TxBurnFungibleGasPayer,
    TxMintNonFungible, TxBurnNonFungible, TxBurnNonFungibleGasPayer,
    TxPhantasma, TxPhantasmaRaw]

  function TxCode(t: TxType): (b: Byte)
    ensures b < |TX_TYPES| && TX_TYPES[b] == t
  {
    match t
    case TxCall => 0
    case TxCallMulti => 1
    case TxTrade => 2
    case TxTransferFungible => 3
    case TxTransferFungibleGasPayer => 4
    case TxTransferNonFungibleSingle => 5
    case TxTransferNonFungibleSingleGasPayer => 6
    case TxTransferNonFungibleMulti => 7
    case TxTransferNonFungibleMultiGasPayer => 8
    case TxMintFungible => 9
    case TxBurnFungible => 10
    case TxBurnFungibleGasPayer => 11
    case TxMintNonFungible => 12
    case TxBurnNonFungible => 13
    case TxBurnNonFungibleGasPayer => 14
    case TxPhantasma => 15
    case TxPhantasmaRaw => 16
  }

  // ----- bodies with a fixed shape -----

  datatype Body =
    | TransferFungible(to: Bytes32, tokenId: U64, amount: U64)
    | TransferFungibleGasPayer(to: Bytes32, from: Bytes32, tokenId: U64, amount: U64)
    | TransferNonFungibleSingle(to: Bytes32, tokenId: U64, instanceId: U64)
    | TransferNonFungibleSingleGasPayer(to: Bytes32, from: Bytes32, tokenId: U64, instanceId: U64)
    | TransferNonFungibleMulti(to: Bytes32, tokenId: U64, instanceIds: seq<U64>)
    | TransferNonFungibleMultiGasPayer(to: Bytes32, from: Bytes32, tokenId: U64, instanceIds: seq<U64>)
    | MintFungible(tokenId: U64, to: Bytes32, quantity: int)
    | BurnFungible(tokenId: U64, quantity: int)
    | BurnFungibleGasPayer(tokenId: U64, from: Bytes32, quantity: int)
    | MintNonFungible(tokenId: U64, to: Bytes32, seriesId: U32, rom: Bytes, ram: Bytes)
    | BurnNonFungible(tokenId: U64, instanceId: U64)
    | BurnNonFungibleGasPayer(tokenId: U64, from: Bytes32, instanceId: U64)
    | Phantasma(nexus: Text, chain: Text, script: Bytes)
    | PhantasmaRaw(transaction: Bytes)

  function BodyType(b: Body): TxType {
    match b
    case TransferFungible(_, _, _) => TxTransferFungible
    case TransferFungibleGasPayer(_, _, _, _) => TxTransferFungibleGasPayer
    case TransferNonFungibleSingle(_, _, _) => TxTransferNonFungibleSingle
    case TransferNonFungibleSingleGasPayer(_, _, _, _) => TxTransferNonFungibleSingleGasPayer
    case TransferNonFungibleMulti(_, _, _) => TxTransferNonFungibleMulti
    case TransferNonFungibleMultiGasPayer(_, _, _, _) => TxTransferNonFungibleMultiGasPayer
    case MintFungible(_, _, _) => TxMintFungible
    case BurnFungible(_, _) => TxBurnFungible
    case BurnFungibleGasPayer(_, _, _) => TxBurnFungibleGasPayer
    case MintNonFungible(_, _, _, _, _) => TxMintNonFungible
    case BurnNonFungible(_, _) => TxBurnNonFungible
    case BurnNonFungibleGasPayer(_, _, _) => TxBurnNonFungibleGasPayer
    case Phantasma(_, _, _) => TxPhantasma
    case PhantasmaRaw(_) => TxPhantasmaRaw
  }

  /** The fields of a body in wire order. */
  function Layout(b: Body): seq<Val> {
    match b
    case TransferFungible(to, token, amount) => [B32(to), N64(token), N64(amount)]
    case TransferFungibleGasPayer(to, from, token, amount) => [B32(to), B32(from), N64(token), N64(amount)]
    case TransferNonFungibleSingle(to, token, instance) => [B32(to), N64(token), N64(instance)]
    case TransferNonFungibleSingleGasPayer(to, from, token, instance) => [B32(to), B32(from), N64(token), N64(instance)]
    case TransferNonFungibleMulti(to, token, instances) => [B32(to), N64(token), N64s(instances)]
    case TransferNonFungibleMultiGasPayer(to, from, token, instances) => [B32(to), B32(from), N64(token), N64s(instances)]
    case MintFungible(token, to, quantity) => [N64(token), B32(to), X(quantity)]
    case BurnFungible(token, quantity) => [N64(token), X(quantity)]
    case BurnFungibleGasPayer(token, from, quantity) => [N64(token), B32(from), X(quantity)]
    case MintNonFungible(token, to, series, rom, ram) => [N64(token), B32(to), N32(series), Blob(rom), Blob(ram)]
    case BurnNonFungible(token, instance) => [N64(token), N64(instance)]
    case BurnNonFungibleGasPayer(token, from, instance) => [N64(token), B32(from), N64(instance)]
    case Phantasma(nexus, chain, script) => [Small(nexus), Small(chain), Blob(script)]
    case PhantasmaRaw(transaction) => [Blob(transaction)]
  }

  predicate HasBody(t: TxType) { !t.TxCall? && !t.TxCallMulti? && !t.TxTrade? }

  /** The kinds of the fields the reader expects for a type. */
  function Shape(t: TxType): seq<Kind>
    requires HasBody(t)
  {
    match t
    case TxTransferFungible => [KBytes32, KU64, KU64]
    case TxTransferFungibleGasPayer => [KBytes32, KBytes32, KU64, KU64]
    case TxTransferNonFungibleSingle => [KBytes32, KU64, KU64]
    case TxTransferNonFungibleSingleGasPayer => [KBytes32, KBytes32, KU64, KU64]
    case TxTransferNonFungibleMulti => [KBytes32, KU64, KU64s]
    case TxTransferNonFungibleMultiGasPayer => [KBytes32, KBytes32, KU64, KU64s]
    case TxMintFungible => [KU64, KBytes32, KIntX]
    case TxBurnFungible => [KU64, KIntX]
    case TxBurnFungibleGasPayer => [KU64, KBytes32, KIntX]
    case TxMintNonFungible => [KU64, KBytes32, KU32, KBlob, KBlob]
    case TxBurnNonFungible => [KU64, KU64]
    case TxBurnNonFungibleGasPayer => [KU64, KBytes32, KU64]
    case TxPhantasma => [KSmall, KSmall, KBlob]
    case TxPhantasmaRaw => [KBlob]
  }

  predicate Shaped(t: TxType, vs: seq<Val>)
    requires HasBody(t)
  {
    |vs| == |Shape(t)| && forall i :: 0 <= i < |vs| ==> KindOf(vs[i]) == Shape(t)[i]
  }

  function Build(t: TxType, vs: seq<Val>): (b: Body)
    requires HasBody(t) && Shaped(t, vs)
    ensures BodyType(b) == t
  {
    match t
    case TxTransferFungible => TransferFungible(vs[0].bytes32, vs[1].u64, vs[2].u64)
    case TxTransferFungibleGasPayer => TransferFungibleGasPayer(vs[0].bytes32, vs[1].bytes32, vs[2].u64, vs[3].u64)
    case TxTransferNonFungibleSingle => TransferNonFungibleSingle(vs[0].bytes32, vs[1].u64, vs[2].u64)
    case TxTransferNonFungibleSingleGasPayer => TransferNonFungibleSingleGasPayer(vs[0].bytes32, vs[1].bytes32, vs[2].u64, vs[3].u64)
    case TxTransferNonFungibleMulti => TransferNonFungibleMulti(vs[0].bytes32, vs[1].u64, vs[2].list)
    case TxTransferNonFungibleMultiGasPayer => TransferNonFungibleMultiGasPayer(vs[0].bytes32, vs[1].bytes32, vs[2].u64, vs[3].list)
    case TxMintFungible => MintFungible(vs[0].u64, vs[1].bytes32, vs[2].number)
    case TxBurnFungible => BurnFungible(vs[0].u64, vs[1].number)
    case TxBurnFungibleGasPayer => BurnFungibleGasPayer(vs[0].u64, vs[1].bytes32, vs[2].number)
    case TxMintNonFungible => MintNonFungible(vs[0].u64, vs[1].bytes32, vs[2].u32, vs[3].blob, vs[4].blob)
    case TxBurnNonFungible => BurnNonFungible(vs[0].u64, vs[1].u64)
    case TxBurnNonFungibleGasPayer => BurnNonFungibleGasPayer(vs[0].u64, vs[1].bytes32, vs[2].u64)
    case TxPhantasma => Phantasma(vs[0].text, vs[1].text, vs[2].blob)
    case TxPhantasmaRaw => PhantasmaRaw(vs[0].blob)
  }

  lemma LayoutShape(b: Body)
    ensures HasBody(BodyType(b)) && Kinds(Layout(b)) == Shape(BodyType(b))
  {
  }

  function CanonBody(b: Body): Body {
    match b
    case MintFungible(token, to, quantity) => MintFungible(token, to, Reduce(quantity))
    case BurnFungible(token, quantity) => BurnFungible(token, Reduce(quantity))
    case BurnFungibleGasPayer(token, from, quantity) => BurnFungibleGasPayer(token, from, Reduce(quantity))
    case _ => b
  }

  lemma BuildLayout(b: Body)
    ensures HasBody(BodyType(b)) && Shaped(BodyType(b), Layout(b)) && Build(BodyType(b), Layout(b)) == b
  {
  }

  lemma LayoutCanon(b: Body)
    ensures BodyType(CanonBody(b)) == BodyType(b)
    ensures CanonVals(Layout(b)) == Layout(CanonBody(b))
  {
    var vs, ws := Layout(b), Layout(CanonBody(b));
    assert |vs| == |ws|;
    assert forall i :: 0 <= i < |vs| ==> CanonVal(vs[i]) == ws[i];
  }

  function EncodeBody(b: Body): Option<Bytes> {
    EncodeVals(Layout(b))
  }

  function DecodeBodyAt(t: TxType, s: Bytes): Read<Body>
    requires HasBody(t)
  {
    var (vs, rest) :- DecodeVals(Shape(t), s);
    Got(Build(t, vs), rest)
  }

  predicate ReadableBody(b: Body) {
    ReadableVals(Layout(b))
  }

  lemma BodyBack(b: Body, r: Bytes)
    requires EncodeBody(b).Some? && ReadableBody(b)
    ensures HasBody(BodyType(b)) && DecodeBodyAt(BodyType(b), EncodeBody(b).value + r) == Got(CanonBody(b), r)
  {
    LayoutShape(b);
    ValsBack(Layout(b), r);
    LayoutCanon(b);
    BuildLayout(CanonBody(b));
  }

  // ----- calls -----

  type I32 = n: int | -0x8000_0000 <= n < 0x8000_0000

  datatype Section = Section(registerOffset: I32, args: Bytes)
  datatype MsgCall = MsgCall(moduleId: U32, methodId: U32, args: Bytes, sections: Option<seq<Section>>)

  predicate HasSections(c: MsgCall) { c.sections.Some? && c.sections.value != [] }

  function EncodeSection(x: Section): Option<Bytes> {
    if x.registerOffset < 0 then Some(LE(4, x.registerOffset)) else EncodeBlob(x.args)
  }

  function DecodeSection(s: Bytes): Read<Section> {
    var (raw, rest) :- Take(4, s);
    I32Range(raw);
    var n := Signed(raw);
    if n < 0 then Got(Section(n, []), rest) else
      var (args, rest') :- Take(n, rest);
      Got(Section(0, args), rest')
  }

  lemma I32Range(raw: Bytes)
    requires |raw| == 4
    ensures -0x8000_0000 <= Signed(raw) < 0x8000_0000
  {
    assert Pow256(4) == 0x1_0000_0000;
    SignedFits(raw);
  }

  /** A negative count announces sections; any other number is the length of plain arguments. */
  function EncodeCall(c: MsgCall): Option<Bytes> {
    var tail :- if HasSections(c) then EncodeSections(c.sections.value) else EncodeBlob(c.args);
    Some(LE(4, c.moduleId) + LE(4, c.methodId) + tail)
  }

  function EncodeSections(xs: seq<Section>): Option<Bytes> {
    var body :- EncodeAll(xs, EncodeSection);
    Some(LE(4, -|xs|) + body)
  }

  function DecodeCall(s: Bytes): Read<MsgCall> {
    assert Pow256(4) == 0x1_0000_0000;
    var (m, rest) :- DecodeUIntAt(4, s);
    var (f, rest') :- DecodeUIntAt(4, rest);
    var (tail, rest'') :- DecodeTail(rest');
    Got(MsgCall(m, f, tail.0, tail.1), rest'')
  }

  /** Arguments or sections. The count `i32::MIN` has no negation and stops the reader. */
  function DecodeTail(s: Bytes): Read<(Bytes, Option<seq<Section>>)> {
    var (n, rest) :- DecodeI32(s);
    if n >= 0 then
      var (args, rest') :- Take(n, rest);
      Got((args, None), rest')
    else if n == -0x8000_0000 then Refused
    else
      var (xs, rest') :- DecodeAll(-n, DecodeSection, rest);
      Got(([], Some(xs)), rest')
  }

  function CanonSection(x: Section): Section {
    if x.registerOffset < 0 then Section(x.registerOffset, []) else Section(0, x.args)
  }

  function CanonCall(c: MsgCall): MsgCall {
    if HasSections(c) then MsgCall(c.moduleId, c.methodId, [], Some(Map(CanonSection, c.sections.value)))
    else MsgCall(c.moduleId, c.methodId, c.args, None)
  }

  predicate ReadableCall(c: MsgCall) {
    && |c.args| < MAX_LEN
    && (HasSections(c) ==> |c.sections.value| < MAX_LEN && forall x :: x in c.sections.value ==> |x.args| < MAX_LEN)
  }

  lemma SectionBack(x: Section, r: Bytes)
    requires |x.args| < MAX_LEN && EncodeSection(x).Some?
    ensures DecodeSection(EncodeSection(x).value + r) == Got(CanonSection(x), r)
  {
    assert Pow256(4) == 0x1_0000_0000;
    if x.registerOffset < 0 {
      SignedLE(4, x.registerOffset);
      TakeBack(LE(4, x.registerOffset), r);
    } else {
      SignedLE(4, |x.args|);
      assert EncodeSection(x).value + r == LE(4, |x.args|) + (x.args + r);
      TakeBack(LE(4, |x.args|), x.args + r);
      TakeBack(x.args, r);
    }
  }

  lemma SectionsBack(xs: seq<Section>, r: Bytes)
    requires EncodeSections(xs).Some? && 0 < |xs| < MAX_LEN
    requires forall x :: x in xs ==> |x.args| < MAX_LEN
    ensures DecodeTail(EncodeSections(xs).value + r) == Got(([], Some(Map(CanonSection, xs))), r)
  {
    forall x | x in xs ensures Inverts(EncodeSection, DecodeSection, CanonSection, x) {
      SectionInverts(x);
    }
    AllBack(xs, EncodeSection, DecodeSection, CanonSection, r);
    TailSections(|xs|, EncodeAll(xs, EncodeSection).value, r);
  }

  lemma SectionInverts(x: Section)
    requires |x.args| < MAX_LEN
    ensures Inverts(EncodeSection, DecodeSection, CanonSection, x)
  {
    if EncodeSection(x).Some? {
      forall r: Bytes {
        SectionBack(x, r);
      }
    }
  }

  lemma TailSections(n: nat, body: Bytes, r: Bytes)
    requires 0 < n < MAX_LEN && DecodeAll(n, DecodeSection, body + r).Got?
    ensures DecodeTail(LE(4, 0 - n) + body + r)
         == Got(([], Some(DecodeAll(n, DecodeSection, body + r).value)), DecodeAll(n, DecodeSection, body + r).rest)
  {
    assert Pow256(4) == 0x1_0000_0000;
    SignedLE(4, 0 - n);
    assert LE(4, 0 - n) + body + r == LE(4, 0 - n) + (body + r);
    TakeBack(LE(4, 0 - n), body + r);
    CountedTail(LE(4, 0 - n) + body + r, 0 - n, n, body + r);
  }

  lemma CountedTail(s: Bytes, m: int, n: nat, rest: Bytes)
    requires 0 < n < MAX_LEN && m == 0 - n && DecodeI32(s) == Got(m, rest) && DecodeAll(n, DecodeSection, rest).Got?
    ensures DecodeTail(s) == Got(([], Some(DecodeAll(n, DecodeSection, rest).value)), DecodeAll(n, DecodeSection, rest).rest)
  {
    assert -m == n;
  }

  lemma ArgsBack(args: Bytes, r: Bytes)
    requires |args| < MAX_LEN
    ensures EncodeBlob(args).Some? && DecodeTail(EncodeBlob(args).value + r) == Got((args, None), r)
  {
    assert Pow256(4) == 0x1_0000_0000;
    SignedLE(4, |args|);
    assert EncodeBlob(args).value + r == LE(4, |args|) + (args + r);
    TakeBack(LE(4, |args|), args + r);
    TakeBack(args, r);
  }

  lemma CallBack(c: MsgCall, r: Bytes)
    requires EncodeCall(c).Some? && ReadableCall(c)
    ensures DecodeCall(EncodeCall(c).value + r) == Got(CanonCall(c), r)
  {
    var m, f := LE(4, c.moduleId), LE(4, c.methodId);
    var tail := if HasSections(c) then EncodeSections(c.sections.value).value else EncodeBlob(c.args).value;
    Regroup(m, f, tail, r);
    assert Pow256(4) == 0x1_0000_0000;
    UIntBack(4, c.moduleId, f + (tail + r));
    UIntBack(4, c.methodId, tail + r);
    if HasSections(c) {
      SectionsBack(c.sections.value, r);
    } else {
      ArgsBack(c.args, r);
    }
  }

  // ----- payloads -----

  /** `Trade` holds six lists of bodies, one per body type; `Native` is one of the fourteen fixed shapes. */
  datatype Payload =
    | Call(call: MsgCall)
    | CallMulti(calls: seq<MsgCall>)
    | Trade(lists: seq<seq<Body>>)
    | Native(body: Body)

  const TRADE_TYPES := [
    TxTransferFungibleGasPayer, TxTransferNonFungibleSingleGasPayer, TxMintFungible,
    TxBurnFungibleGasPayer, TxMintNonFungible, TxBurnNonFungibleGasPayer]

  /** The Rust type of each list of a trade. */
  predicate TypedLists(types: seq<TxType>, lists: seq<seq<Body>>) {
    |lists| == |types| && forall i, b :: 0 <= i < |lists| && b in lists[i] ==> BodyType(b) == types[i]
  }

  function DecodeBody(t: TxType): Bytes -> Read<Body>
    requires HasBody(t)
  {
    s => DecodeBodyAt(t, s)
  }

  function EncodeLists(lists: seq<seq<Body>>): Option<Bytes> {
    if lists == [] then Some([]) else
      var head :- EncodeArray(lists[0], EncodeBody);
      var tail :- EncodeLists(lists[1..]);
      Some(head + tail)
  }

  function DecodeLists(types: seq<TxType>, s: Bytes): (r: Read<seq<seq<Body>>>)
    requires forall t :: t in types ==> HasBody(t)
    ensures r.Got? ==> |r.value| == |types|
  {
    if types == [] then Got([], s) else
      assert types[0] in types;
      var (head, rest) :- DecodeArray(1, DecodeBody(types[0]), s);
      var (tail, rest') :- DecodeLists(types[1..], rest);
      Got([head] + tail, rest')
  }

  function EncodePayload(p: Payload): Option<Bytes> {
    match p
    case Call(c) => EncodeCall(c)
    case CallMulti(cs) => EncodeArray(cs, EncodeCall)
    case Trade(lists) => EncodeLists(lists)
    case Native(b) => EncodeBody(b)
  }

  /** `TxPayload::from_type`. */
  function DecodePayload(t: TxType, s: Bytes): Read<Payload> {
    if t.TxCall? then
      var (c, rest) :- DecodeCall(s);
      Got(Call(c), rest)
    else if t.TxCallMulti? then
      var (cs, rest) :- DecodeArray(1, DecodeCall, s);
      Got(CallMulti(cs), rest)
    else if t.TxTrade? then
      var (lists, rest) :- DecodeLists(TRADE_TYPES, s);
      Got(Trade(lists), rest)
    else
      var (b, rest) :- DecodeBodyAt(t, s);
      Got(Native(b), rest)
  }

  predicate Matches(t: TxType, p: Payload) {
    match p
    case Call(_) => t.TxCall?
    case CallMulti(_) => t.TxCallMulti?
    case Trade(lists) => t.TxTrade? && TypedLists(TRADE_TYPES, lists)
    case Native(b) => t == BodyType(b)
  }

  function CanonBodies(bs: seq<Body>): seq<Body> {
    Map(CanonBody, bs)
  }

  function CanonPayload(p: Payload): Payload {
    match p
    case Call(c) => Call(CanonCall(c))
    case CallMulti(cs) => CallMulti(Map(CanonCall, cs))
    case Trade(lists) => Trade(Map(CanonBodies, lists))
    case Native(b) => Native(CanonBody(b))
  }

  predicate ReadablePayload(p: Payload) {
    match p
    case Call(c) => ReadableCall(c)
    case CallMulti(cs) => |cs| < MAX_LEN && forall c :: c in cs ==> ReadableCall(c)
    case Trade(lists) => forall bs :: bs in lists ==> |bs| < MAX_LEN && forall b :: b in bs ==> ReadableBody(b)
    case Native(b) => ReadableBody(b)
  }

  lemma BodyWide(b: Body)
    requires EncodeBody(b).Some?
    ensures |EncodeBody(b).value| >= 1
  {
    var v := Layout(b)[0];
    assert EncodeVal(v).Some? && |EncodeVal(v).value| >= 1;
  }

  lemma BodiesBack(t: TxType, bs: seq<Body>, r: Bytes)
    requires HasBody(t) && EncodeArray(bs, EncodeBody).Some? && |bs| < MAX_LEN
    requires forall b :: b in bs ==> BodyType(b) == t && ReadableBody(b)
    ensures DecodeArray(1, DecodeBody(t), EncodeArray(bs, EncodeBody).value + r) == Got(CanonBodies(bs), r)
  {
    forall b | b in bs
      ensures Inverts(EncodeBody, DecodeBody(t), CanonBody, b)
      ensures EncodeBody(b).Some? ==> |EncodeBody(b).value| >= 1
    {
      if EncodeBody(b).Some? {
        forall r: Bytes { BodyBack(b, r); }
        BodyWide(b);
      }
    }
    ArrayBack(bs, 1, EncodeBody, DecodeBody(t), CanonBody, r);
  }

  lemma {:induction false} ListsBack(types: seq<TxType>, lists: seq<seq<Body>>, r: Bytes)
    requires forall t :: t in types ==> HasBody(t)
    requires TypedLists(types, lists) && EncodeLists(lists).Some?
    requires forall bs :: bs in lists ==> |bs| < MAX_LEN && forall b :: b in bs ==> ReadableBody(b)
    ensures DecodeLists(types, EncodeLists(lists).value + r) == Got(Map(CanonBodies, lists), r)
  {
    if lists == [] {
      assert [] + r == r;
    } else {
      var head, tail := EncodeArray(lists[0], EncodeBody).value, EncodeLists(lists[1..]).value;
      assert head + tail + r == head + (tail + r);
      assert lists[0] in lists && types[0] in types;
      BodiesBack(types[0], lists[0], tail + r);
      ListsBack(types[1..], lists[1..], r);
    }
  }

  lemma CallsBack(cs: seq<MsgCall>, r: Bytes)
    requires EncodeArray(cs, EncodeCall).Some? && |cs| < MAX_LEN
    requires forall c :: c in cs ==> ReadableCall(c)
    ensures DecodeArray(1, DecodeCall, EncodeArray(cs, EncodeCall).value + r) == Got(Map(CanonCall, cs), r)
  {
    forall c | c in cs ensures Inverts(EncodeCall, DecodeCall, CanonCall, c) {
      if EncodeCall(c).Some? {
        forall r: Bytes { CallBack(c, r); }
      }
    }
    ArrayBack(cs, 1, EncodeCall, DecodeCall, CanonCall, r);
  }

  lemma PayloadBack(t: TxType, p: Payload, r: Bytes)
    requires Matches(t, p) && EncodePayload(p).Some? && ReadablePayload(p)
    ensures DecodePayload(t, EncodePayload(p).value + r) == Got(CanonPayload(p), r)
  {
    match p
    case Call(c) => CallBack(c, r);
    case CallMulti(cs) => CallsBack(cs, r);
    case Trade(lists) => ListsBack(TRADE_TYPES, lists, r);
    case Native(b) => BodyBack(b, r);
  }

  // ----- messages -----

  datatype TxMsg = TxMsg(
    txType: TxType, expiry: I64, maxGas: U64, maxData: U64, gasFrom: Bytes32, payload: Text, msg: Payload)

  const HEADER := [KI64, KU64, KU64, KBytes32, KSmall]

  function Header(m: TxMsg): seq<Val> {
    [S64(m.expiry), N64(m.maxGas), N64(m.maxData), B32(m.gasFrom), Small(m.payload)]
  }

  function EncodeTxMsg(m: TxMsg): Option<Bytes> {
    var head :- EncodeVals(Header(m));
    var body :- EncodePayload(m.msg);
    Some([TxCode(m.txType)] + head + body)
  }

  function DecodeTxMsg(s: Bytes): Read<TxMsg> {
    var (code, rest) :- Take(1, s);
    if code[0] >= |TX_TYPES| then Refused else
      var t := TX_TYPES[code[0]];
      var (h, rest') :- DecodeHeader(rest);
      var (p, rest'') :- DecodePayload(t, rest');
      Got(FromHeader(t, h, p), rest'')
  }

  predicate IsHeader(h: seq<Val>) {
    |h| == 5 && h[0].S64? && h[1].N64? && h[2].N64? && h[3].B32? && h[4].Small?
  }

  function DecodeHeader(s: Bytes): (r: Read<seq<Val>>)
    ensures r.Got? ==> IsHeader(r.value)
  {
    var (h, rest) :- DecodeVals(HEADER, s);
    assert KindOf(h[0]) == KI64 && KindOf(h[1]) == KU64 && KindOf(h[2]) == KU64 && KindOf(h[3]) == KBytes32 && KindOf(h[4]) == KSmall;
    Got(h, rest)
  }

  function FromHeader(t: TxType, h: seq<Val>, p: Payload): (m: TxMsg)
    requires IsHeader(h)
    ensures Header(m) == h
  {
    TxMsg(t, h[0].i64, h[1].u64, h[2].u64, h[3].bytes32, h[4].text, p)
  }

  function CanonTxMsg(m: TxMsg): TxMsg {
    m.(msg := CanonPayload(m.msg))
  }

  /** All seventeen types: a message whose type fits its payload is read back, in canonical form. */
  lemma TxMsgBack(m: TxMsg, r: Bytes)
    requires EncodeTxMsg(m).Some? && Matches(m.txType, m.msg) && ReadablePayload(m.msg)
    ensures DecodeTxMsg(EncodeTxMsg(m).value + r) == Got(CanonTxMsg(m), r)
  {
    var code, head, body := [TxCode(m.txType)], EncodeVals(Header(m)).value, EncodePayload(m.msg).value;
    Regroup(code, head, body, r);
    TakeBack(code, head + (body + r));
    HeaderBack(m, body + r);
    PayloadBack(m.txType, m.msg, r);
  }

  lemma HeaderBack(m: TxMsg, r: Bytes)
    requires EncodeVals(Header(m)).Some?
    ensures DecodeHeader(EncodeVals(Header(m)).value + r) == Got(Header(m), r)
  {
    var h := Header(m);
    assert Kinds(h) == HEADER;
    ValsBack(h, r);
    assert CanonVals(h) == h;
  }

  /** What is read always carries the payload its type announces, so no other message survives the wire. */
  lemma ReadMatches(s: Bytes)
    requires DecodeTxMsg(s).Got?
    ensures Matches(DecodeTxMsg(s).value.txType, DecodeTxMsg(s).value.msg)
  {
    var t := TX_TYPES[s[0]];
    var rest := DecodeVals(HEADER, s[1..]).rest;
    if t.TxTrade? {
      ListsTyped(TRADE_TYPES, rest);
    }
  }

  lemma {:induction false} ListsTyped(types: seq<TxType>, s: Bytes)
    requires forall t :: t in types ==> HasBody(t)
    ensures DecodeLists(types, s).Got? ==> TypedLists(types, DecodeLists(types, s).value)
  {
    if types != [] && DecodeLists(types, s).Got? {
      assert types[0] in types;
      var len := DecodeLenFor(1, s);
      BodiesTyped(len.value, types[0], len.rest);
      ListsTyped(types[1..], DecodeArray(1, DecodeBody(types[0]), s).rest);
    }
  }

  lemma {:induction false} BodiesTyped(n: nat, t: TxType, s: Bytes)
    requires HasBody(t)
    ensures DecodeAll(n, DecodeBody(t), s).Got? ==> forall b :: b in DecodeAll(n, DecodeBody(t), s).value ==> BodyType(b) == t
  {
    if n > 0 && DecodeBody(t)(s).Got? && DecodeAll(n, DecodeBody(t), s).Got? {
      var k := n - 1;
      BodiesTyped(k, t, DecodeBody(t)(s).rest);
      FirstTyped(n, k, t, s);
    }
  }

  lemma FirstTyped(n: nat, k: nat, t: TxType, s: Bytes)
    requires HasBody(t) && n == k + 1 && DecodeBody(t)(s).Got? && DecodeAll(n, DecodeBody(t), s).Got?
    ensures var tail := DecodeAll(k, DecodeBody(t), DecodeBody(t)(s).rest);
            tail.Got? && DecodeAll(n, DecodeBody(t), s).value == [DecodeBody(t)(s).value] + tail.value
            && BodyType(DecodeBody(t)(s).value) == t
  {
    assert n - 1 == k;
  }

  // ----- normal form -----

  /** A register offset carries no bytes, and section bytes no offset. */
  predicate NormalSection(x: Section) {
    if x.registerOffset < 0 then x.args == [] else x.registerOffset == 0
  }

  /** No arguments beside sections, and no empty section list. */
  predicate NormalCall(c: MsgCall) {
    c.sections.Some? ==> c.sections.value != [] && c.args == [] && forall x <- c.sections.value :: NormalSection(x)
  }

  /** Amounts in signed 256-bit range. */
  predicate NormalBody(b: Body) {
    match b
    case MintFungible(_, _, quantity) => FitsSigned(WORD_BYTES, quantity)
    case BurnFungible(_, quantity) => FitsSigned(WORD_BYTES, quantity)
    case BurnFungibleGasPayer(_, _, quantity) => FitsSigned(WORD_BYTES, quantity)
    case _ => true
  }

  predicate NormalPayload(p: Payload) {
    match p
    case Call(c) => NormalCall(c)
    case CallMulti(cs) => forall c <- cs :: NormalCall(c)
    case Trade(lists) => forall bs <- lists :: forall b <- bs :: NormalBody(b)
    case Native(b) => NormalBody(b)
  }

  lemma SignedRange(v: int)
    ensures Reduce(v) == v <==> FitsSigned(WORD_BYTES, v)
  {
    SignedFits(LE(WORD_BYTES, v));
    if FitsSigned(WORD_BYTES, v) {
      SignedLE(WORD_BYTES, v);
    }
  }

  lemma MapFixed<T>(c: T -> T, xs: seq<T>)
    ensures Map(c, xs) == xs <==> forall x :: x in xs ==> c(x) == x
  {
    if Map(c, xs) == xs {
      forall x | x in xs ensures c(x) == x {
        var i :| 0 <= i < |xs| && xs[i] == x;
        assert Map(c, xs)[i] == c(xs[i]);
      }
    } else {
      var i :| 0 <= i < |xs| && Map(c, xs)[i] != xs[i];
      assert xs[i] in xs;
    }
  }

  lemma NormalCallIff(c: MsgCall)
    ensures CanonCall(c) == c <==> NormalCall(c)
  {
    if HasSections(c) {
      MapFixed(CanonSection, c.sections.value);
      assert forall x: Section :: CanonSection(x) == x <==> NormalSection(x);
    }
  }

  lemma NormalBodyIff(b: Body)
    ensures CanonBody(b) == b <==> NormalBody(b)
  {
    match b {
      case MintFungible(_, _, quantity) => SignedRange(quantity);
      case BurnFungible(_, quantity) => SignedRange(quantity);
      case BurnFungibleGasPayer(_, _, quantity) => SignedRange(quantity);
      case _ =>
    }
  }

  lemma NormalListIff(bs: seq<Body>)
    ensures CanonBodies(bs) == bs <==> forall b <- bs :: NormalBody(b)
  {
    MapFixed(CanonBody, bs);
    forall b | b in bs ensures CanonBody(b) == b <==> NormalBody(b) {
      NormalBodyIff(b);
    }
  }

  /** The reader's canonical payload is the payload itself exactly in normal form. */
  lemma NormalPayloadIff(p: Payload)
    ensures CanonPayload(p) == p <==> NormalPayload(p)
  {
    match p {
      case Call(c) => NormalCallIff(c);
      case CallMulti(cs) =>
        MapFixed(CanonCall, cs);
        forall c | c in cs ensures CanonCall(c) == c <==> NormalCall(c) {
          NormalCallIff(c);
        }
      case Trade(lists) =>
        MapFixed(CanonBodies, lists);
        forall bs | bs in lists ensures CanonBodies(bs) == bs <==> forall b <- bs :: NormalBody(b) {
          NormalListIff(bs);
        }
      case Native(b) => NormalBodyIff(b);
    }
  }

  /** A message is read back unchanged exactly when its type fits its payload and the payload is in normal form. */
  lemma TxMsgUnchanged(m: TxMsg, r: Bytes)
    requires EncodeTxMsg(m).Some? && ReadablePayload(m.msg)
    ensures DecodeTxMsg(EncodeTxMsg(m).value + r) == Got(m, r) <==> Matches(m.txType, m.msg) && NormalPayload(m.msg)
  {
    NormalPayloadIff(m.msg);
    if DecodeTxMsg(EncodeTxMsg(m).value + r) == Got(m, r) {
      ReadMatches(EncodeTxMsg(m).value + r);
    }
    if Matches(m.txType, m.msg) {
      TxMsgBack(m, r);
    }
  }

  // ----- prefixes -----

  lemma SectionMore(s: Bytes, t: Bytes)
    requires DecodeSection(s).Got?
    ensures DecodeSection(s + t) == Got(DecodeSection(s).value, DecodeSection(s).rest + t)
  {
    TakeMore(4, s, t);
    var n := Signed(Take(4, s).value);
    if n >= 0 {
      TakeMore(n, s[4..], t);
    }
  }

  lemma TailMore(s: Bytes, t: Bytes)
    requires DecodeTail(s).Got?
    ensures DecodeTail(s + t) == Got(DecodeTail(s).value, DecodeTail(s).rest + t)
  {
    TakeMore(4, s, t);
    var n := DecodeI32(s).value;
    if n >= 0 {
      TakeMore(n, s[4..], t);
    } else {
      SectionStable();
      AllMore(-n, DecodeSection, s[4..], t);
    }
  }

  lemma SectionStable()
    ensures Stable(DecodeSection)
  {
    forall s: Bytes, t: Bytes | DecodeSection(s).Got? { SectionMore(s, t); }
  }

  lemma CallMore(s: Bytes, t: Bytes)
    requires DecodeCall(s).Got?
    ensures DecodeCall(s + t) == Got(DecodeCall(s).value, DecodeCall(s).rest + t)
  {
    TakeMore(4, s, t);
    TakeMore(4, s[4..], t);
    TailMore(s[4..][4..], t);
  }

  lemma CallStable()
    ensures Stable(DecodeCall)
  {
    forall s: Bytes, t: Bytes | DecodeCall(s).Got? { CallMore(s, t); }
  }

  lemma BodyStable(t: TxType)
    requires HasBody(t)
    ensures Stable(DecodeBody(t))
  {
    forall s: Bytes, u: Bytes | DecodeVals(Shape(t), s).Got? { ValsMore(Shape(t), s, u); }
  }

  lemma {:induction false} ListsMore(types: seq<TxType>, s: Bytes, u: Bytes)
    requires forall t :: t in types ==> HasBody(t)
    requires DecodeLists(types, s).Got?
    ensures DecodeLists(types, s + u) == Got(DecodeLists(types, s).value, DecodeLists(types, s).rest + u)
  {
    if types != [] {
      assert types[0] in types;
      BodyStable(types[0]);
      ArrayMore(1, DecodeBody(types[0]), s, u);
      ListsMore(types[1..], DecodeArray(1, DecodeBody(types[0]), s).rest, u);
    }
  }

  lemma PayloadMore(t: TxType, s: Bytes, u: Bytes)
    requires DecodePayload(t, s).Got?
    ensures DecodePayload(t, s + u) == Got(DecodePayload(t, s).value, DecodePayload(t, s).rest + u)
  {
    if t.TxCall? {
      CallMore(s, u);
    } else if t.TxCallMulti? {
      CallStable();
      ArrayMore(1, DecodeCall, s, u);
    } else if t.TxTrade? {
      ListsMore(TRADE_TYPES, s, u);
    } else {
      ValsMore(Shape(t), s, u);
    }
  }

  lemma TxMsgMore(s: Bytes, u: Bytes)
    requires DecodeTxMsg(s).Got?
    ensures DecodeTxMsg(s + u) == Got(DecodeTxMsg(s).value, DecodeTxMsg(s).rest + u)
  {
    TakeMore(1, s, u);
    ValsMore(HEADER, s[1..], u);
    PayloadMore(TX_TYPES[s[0]], DecodeVals(HEADER, s[1..]).rest, u);
  }
}
