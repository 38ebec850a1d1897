/** Reading a message for its fee: which operations it performs, what it burns, and the plan that follows. */
module FeeMessages {
  import opened Words
  import opened FeeArithmetic
  import opened FeeModel
  import opened FeeSettlement
  import opened FeeBounds
  import opened FeePlanning
  import Wire = CarbonWire
  import R = CarbonRecords
  import Values = CarbonValues
  import M = CarbonMessage
  import E = CarbonEnvelope

  // ----- recognising an operation from the message alone -----

  /** Fifteen zeros, a marker, a token id and an instance id, neither of them zero. */
  predicate IsNftAddress(a: Wire.Bytes32) {
    a[15] == 1 && (forall i :: 0 <= i < 15 ==> a[i] == 0) && Unsigned(a[16..24]) != 0 && Unsigned(a[24..32]) != 0
  }

  function LengthU32(n: nat): Option<U32> {
    if n <= U32_MAX then Some(n) else None
  }

  function InstanceCount(n: nat): Option<U32> {
    if n == 0 then None else LengthU32(n)
  }

  const SCRIPT := Part(Script, DEFAULT)

  function Movement(kind: Kind, token: U64, to: Wire.Bytes32): Part {
    Part(kind, DEFAULT.(tokenId := Some(token), toIsNftAddress := IsNftAddress(to)))
  }

  function Counted(p: Part, n: nat): Option<Part> {
    var count :- InstanceCount(n);
    Some(Part(p.kind, p.params.(count := Some(count))))
  }

  function Burning(kind: Kind, token: U64): Part {
    Part(kind, DEFAULT.(tokenId := Some(token)))
  }

  function RecogniseBody(b: M.Body): Option<Part> {
    match b
    case TransferFungible(to, token, _) => Some(Movement(TransferFungible, token, to))
    case TransferFungibleGasPayer(to, _, token, _) => Some(Movement(TransferFungible, token, to))
    case TransferNonFungibleSingle(to, token, _) => Counted(Movement(TransferNonFungible, token, to), 1)
    case TransferNonFungibleSingleGasPayer(to, _, token, _) => Counted(Movement(TransferNonFungible, token, to), 1)
    case TransferNonFungibleMulti(to, token, ids) => Counted(Movement(TransferNonFungible, token, to), |ids|)
    case TransferNonFungibleMultiGasPayer(to, _, token, ids) => Counted(Movement(TransferNonFungible, token, to), |ids|)
    case MintFungible(token, to, _) => Some(Movement(MintFungible, token, to))
    case BurnFungible(token, _) => Some(Burning(BurnFungible, token))
    case BurnFungibleGasPayer(token, _, _) => Some(Burning(BurnFungible, token))
    case MintNonFungible(token, to, _, rom, ram) =>
      var romLength :- LengthU32(|rom|);
      var ramLength :- LengthU32(|ram|);
      var p := Movement(MintNonFungible, token, to);
      Some(Part(p.kind, p.params.(romBytes := [romLength], ramBytes := [ramLength])))
    case BurnNonFungible(token, _) => Counted(Burning(BurnNonFungible, token), 1)
    case BurnNonFungibleGasPayer(token, _, _) => Counted(Burning(BurnNonFungible, token), 1)
    case Phantasma(_, _, _) => Some(SCRIPT)
    case PhantasmaRaw(_) => None
  }

  const GOVERNANCE: U32 := 0
  const TOKEN: U32 := 1
  const REGISTER_NAME: U32 := 1
  const TRANSFER_FUNGIBLE: U32 := 0
  const TRANSFER_NON_FUNGIBLE: U32 := 1
  const CREATE_TOKEN: U32 := 2
  const MINT_FUNGIBLE: U32 := 3
  const BURN_FUNGIBLE: U32 := 4
  const CREATE_TOKEN_SERIES: U32 := 6
  const BURN_NON_FUNGIBLE: U32 := 9
  const MINT_PHANTASMA: U32 := 27

  /** Arguments of a fixed shape, read to the last byte. */
  function Args(kinds: seq<R.Kind>, s: Bytes): (r: Option<seq<R.Val>>)
    ensures r.Some? ==> |r.value| == |kinds| && forall i :: 0 <= i < |kinds| ==> R.KindOf(r.value[i]) == kinds[i]
  {
    var d := R.DecodeVals(kinds, s);
    if d.Got? && d.rest == [] then Some(d.value) else None
  }

  function BurnArgs(s: Bytes): Option<(U64, seq<U64>)> {
    var v :- Args([R.KU64, R.KBytes32, R.KU64s], s);
    Some((v[0].u64, v[2].list))
  }

  datatype TokenInfo = TokenInfo(nonFungible: bool, symbol: Text, metadata: Bytes)

  function ReadTokenInfo(s: Bytes): Option<TokenInfo> {
    var kinds := [R.KIntX, R.KU8, R.KU8, R.KBytes32, R.KSmall, R.KBlob];
    var d := R.DecodeVals(kinds, s);
    if d.Refused? then None else
      assert R.KindOf(d.value[1]) == kinds[1] && R.KindOf(d.value[4]) == kinds[4] && R.KindOf(d.value[5]) == kinds[5];
      var nonFungible := d.value[1].byte / 2 % 2 == 1;
      var schemas := if nonFungible then Wire.DecodeBlob(d.rest) else Got([], d.rest);
      if schemas.Got? && schemas.rest == [] then Some(TokenInfo(nonFungible, d.value[4].text, d.value[5].blob)) else None
  }

  function Metadata(s: Bytes): Option<seq<Values.Field>> {
    if s == [] then Some([]) else
      var d := Values.DecodeStruct(s);
      if d.Got? && d.rest == [] then Some(d.value.fields) else None
  }

  const PRE_BURN: Bytes := [0x5F, 0x62, 0x72, 0x6E]
  const INFLATION_PERIOD: Bytes := [0x5F, 0x69, 0x70]
  const STAKING_ORG_ID: Bytes := [0x5F, 0x73, 0x6F, 0x69]
  const STAKING_REWARD_TOKEN: Bytes := [0x5F, 0x73, 0x72, 0x74]

  function RecogniseCreate(args: Bytes): (r: Option<Part>)
    ensures r.Some? ==> r.value.kind.CreateToken?
  {
    var info :- ReadTokenInfo(args);
    var fields :- Metadata(info.metadata);
    var size :- LengthU32(|args|);
    var symbol :- LengthU32(|info.symbol|);
    Some(Part(CreateToken, DEFAULT.(
      symbolLength := symbol, tokenInfoBytes := size, nonFungible := info.nonFungible,
      hasPreBurn := Values.Get(fields, PRE_BURN).Some?,
      hasInflationSchedule := Values.Get(fields, INFLATION_PERIOD).Some?,
      hasStakingOrganisation := Values.Get(fields, STAKING_ORG_ID).Some?,
      hasStakingRewardToken := Values.Get(fields, STAKING_REWARD_TOKEN).Some?)))
  }

  datatype MintInfo = MintInfo(series: int, rom: Bytes, ram: Bytes)

  function ReadMintInfo(s: Bytes): Read<MintInfo> {
    var (v, rest) :- R.DecodeVals([R.KIntX, R.KBlob, R.KBlob], s);
    assert R.KindOf(v[0]) == R.KIntX && R.KindOf(v[1]) == R.KBlob && R.KindOf(v[2]) == R.KBlob;
    Got(MintInfo(v[0].number, v[1].blob, v[2].blob), rest)
  }

  function Lengths(xs: seq<Bytes>): Option<seq<U32>> {
    if xs == [] then Some([]) else
      var head :- LengthU32(|xs[0]|);
      var tail :- Lengths(xs[1..]);
      Some([head] + tail)
  }

  datatype MintArgs = MintArgs(token: U64, address: Wire.Bytes32, tokens: seq<MintInfo>)

  function ReadMintArgs(s: Bytes): Option<MintArgs> {
    var d := R.DecodeVals([R.KU64, R.KBytes32], s);
    if d.Refused? then None else
      assert R.KindOf(d.value[0]) == R.KU64 && R.KindOf(d.value[1]) == R.KBytes32;
      var tokens := Wire.DecodeArray(1, ReadMintInfo, d.rest);
      if tokens.Got? && tokens.rest == [] then Some(MintArgs(d.value[0].u64, d.value[1].bytes32, tokens.value)) else None
  }

  function Roms(tokens: seq<MintInfo>): Option<seq<U32>> {
    Lengths(seq(|tokens|, i requires 0 <= i < |tokens| => tokens[i].rom))
  }

  function Rams(tokens: seq<MintInfo>): Option<seq<U32>> {
    Lengths(seq(|tokens|, i requires 0 <= i < |tokens| => tokens[i].ram))
  }

  function RecogniseMint(s: Bytes): (r: Option<Part>)
    ensures r.Some? ==> r.value.kind.MintPhantasmaNonFungible?
  {
    var args :- ReadMintArgs(s);
    var p :- Counted(Movement(MintPhantasmaNonFungible, args.token, args.address), |args.tokens|);
    var roms :- Roms(args.tokens);
    var rams :- Rams(args.tokens);
    var series :- LengthU32(|set t | t in args.tokens :: t.series|);
    Some(Part(p.kind, p.params.(romBytes := roms, ramBytes := rams, distinctSeriesCount := Some(series))))
  }

  function RecogniseToken(methodId: U32, args: Bytes): (r: Option<Part>)
    ensures r.Some? ==> (r.value.kind.BurnNonFungible? <==> methodId == BURN_NON_FUNGIBLE)
  {
    if methodId == TRANSFER_FUNGIBLE then
      var v :- Args([R.KBytes32, R.KBytes32, R.KU64, R.KIntX], args);
      Some(Movement(TransferFungible, v[2].u64, v[0].bytes32))
    else if methodId == TRANSFER_NON_FUNGIBLE then
      var v :- Args([R.KBytes32, R.KBytes32, R.KU64, R.KU64s], args);
      Counted(Movement(TransferNonFungible, v[2].u64, v[0].bytes32), |v[3].list|)
    else if methodId == MINT_FUNGIBLE then
      var v :- Args([R.KU64, R.KBytes32, R.KIntX], args);
      Some(Movement(MintFungible, v[0].u64, v[1].bytes32))
    else if methodId == BURN_FUNGIBLE then
      var v :- Args([R.KU64, R.KBytes32, R.KIntX], args);
      Some(Burning(BurnFungible, v[0].u64))
    else if methodId == BURN_NON_FUNGIBLE then
      var v :- BurnArgs(args);
      Counted(Burning(BurnNonFungible, v.0), |v.1|)
    else if methodId == CREATE_TOKEN then RecogniseCreate(args)
    else if methodId == CREATE_TOKEN_SERIES then
      var size :- LengthU32(SatSub(|args|, 8));
      Some(Part(CreateTokenSeries, DEFAULT.(seriesInfoBytes := size)))
    else if methodId == MINT_PHANTASMA then RecogniseMint(args)
    else Some(SCRIPT)
  }

  function RecogniseCall(c: M.MsgCall): Option<Part> {
    if M.HasSections(c) then Some(SCRIPT)
    else if c.moduleId == TOKEN then RecogniseToken(c.methodId, c.args)
    else if c.moduleId == GOVERNANCE && c.methodId == REGISTER_NAME then
      var v :- Args([R.KBytes32, R.KSmall], c.args);
      var length :- LengthU32(|v[1].text|);
      Some(Part(RegisterName, DEFAULT.(nameLength := length)))
    else Some(SCRIPT)
  }

  function RecogniseCalls(cs: seq<M.MsgCall>): Option<seq<Part>> {
    if cs == [] then Some([]) else
      var head :- RecogniseCall(cs[0]);
      var tail :- RecogniseCalls(cs[1..]);
      Some([head] + tail)
  }

  function Recognise(m: M.TxMsg): Option<seq<Part>> {
    match m.msg
    case Native(b) => var p :- RecogniseBody(b); Some([p])
    case Call(c) => var p :- RecogniseCall(c); Some([p])
    case CallMulti(cs) => RecogniseCalls(cs)
    case Trade(_) => Some([SCRIPT])
  }

  // ----- token movements cost what they cost as native transactions -----

  /** A call of the token module with these argument fields. */
  function TokenCall(methodId: U32, fields: seq<R.Val>): M.MsgCall
    requires R.EncodeVals(fields).Some?
  {
    M.MsgCall(TOKEN, methodId, R.EncodeVals(fields).value, None)
  }

  lemma ArgsBack(kinds: seq<R.Kind>, fields: seq<R.Val>)
    requires kinds == R.Kinds(fields) && R.EncodeVals(fields).Some? && R.ReadableVals(fields)
    ensures Args(kinds, R.EncodeVals(fields).value) == Some(R.CanonVals(fields))
  {
    assert R.EncodeVals(fields).value + [] == R.EncodeVals(fields).value;
    R.ValsBack(fields, []);
  }

  lemma TransferCallAsNative(to: Wire.Bytes32, from: Wire.Bytes32, token: U64, amount: int, native: U64)
    requires R.EncodeVals([R.B32(to), R.B32(from), R.N64(token), R.X(amount)]).Some? && Wire.IntXReadable(amount)
    ensures RecogniseCall(TokenCall(TRANSFER_FUNGIBLE, [R.B32(to), R.B32(from), R.N64(token), R.X(amount)]))
         == RecogniseBody(M.TransferFungible(to, token, native))
  {
    ArgsBack([R.KBytes32, R.KBytes32, R.KU64, R.KIntX], [R.B32(to), R.B32(from), R.N64(token), R.X(amount)]);
  }

  lemma NftTransferCallAsNative(to: Wire.Bytes32, from: Wire.Bytes32, token: U64, ids: seq<U64>)
    requires R.EncodeVals([R.B32(to), R.B32(from), R.N64(token), R.N64s(ids)]).Some? && |ids| < Wire.MAX_LEN
    ensures RecogniseCall(TokenCall(TRANSFER_NON_FUNGIBLE, [R.B32(to), R.B32(from), R.N64(token), R.N64s(ids)]))
         == RecogniseBody(M.TransferNonFungibleMulti(to, token, ids))
  {
    ArgsBack([R.KBytes32, R.KBytes32, R.KU64, R.KU64s], [R.B32(to), R.B32(from), R.N64(token), R.N64s(ids)]);
  }

  lemma MintCallAsNative(token: U64, to: Wire.Bytes32, amount: int)
    requires R.EncodeVals([R.N64(token), R.B32(to), R.X(amount)]).Some? && Wire.IntXReadable(amount)
    ensures RecogniseCall(TokenCall(MINT_FUNGIBLE, [R.N64(token), R.B32(to), R.X(amount)]))
         == RecogniseBody(M.MintFungible(token, to, amount))
  {
    ArgsBack([R.KU64, R.KBytes32, R.KIntX], [R.N64(token), R.B32(to), R.X(amount)]);
  }

  lemma BurnCallAsNative(token: U64, from: Wire.Bytes32, amount: int)
    requires R.EncodeVals([R.N64(token), R.B32(from), R.X(amount)]).Some? && Wire.IntXReadable(amount)
    ensures RecogniseCall(TokenCall(BURN_FUNGIBLE, [R.N64(token), R.B32(from), R.X(amount)]))
         == RecogniseBody(M.BurnFungible(token, amount))
  {
    ArgsBack([R.KU64, R.KBytes32, R.KIntX], [R.N64(token), R.B32(from), R.X(amount)]);
  }

  lemma NftBurnCallAsNative(token: U64, from: Wire.Bytes32, ids: seq<U64>)
    requires |ids| == 1 && R.EncodeVals([R.N64(token), R.B32(from), R.N64s(ids)]).Some?
    ensures RecogniseCall(TokenCall(BURN_NON_FUNGIBLE, [R.N64(token), R.B32(from), R.N64s(ids)]))
         == RecogniseBody(M.BurnNonFungible(token, ids[0]))
  {
    BurnArgsBack(token, from, ids);
  }

  lemma BurnArgsBack(token: U64, from: Wire.Bytes32, ids: seq<U64>)
    requires |ids| < Wire.MAX_LEN && R.EncodeVals([R.N64(token), R.B32(from), R.N64s(ids)]).Some?
    ensures BurnArgs(R.EncodeVals([R.N64(token), R.B32(from), R.N64s(ids)]).value) == Some((token, ids))
  {
    ArgsBack([R.KU64, R.KBytes32, R.KU64s], [R.N64(token), R.B32(from), R.N64s(ids)]);
  }

  function Describe(m: M.TxMsg, o: Options): Option<seq<Part>> {
    var ps :- Recognise(m);
    Priced(ps, o)
  }

  /** The loop over the calls of a batch, threading the list of returns. */
  method DescribeBatch(cs: seq<M.MsgCall>, o: Options) returns (r: Option<seq<Part>>)
    ensures r == Batch(cs, o, o.infusions)
  {
    var parts := [];
    var due := o.infusions;
    assert cs[0..] == cs;
    OwingStart(Batch(cs, o, due));
    for i := 0 to |cs|
      invariant Batch(cs, o, o.infusions) == Owing(parts, Batch(cs[i..], o, due))
    {
      assert cs[i..][1..] == cs[i + 1..] && cs[i..][0] == cs[i];
      BatchStep(cs[i..], o, due);
      var p := RecogniseCall(cs[i]);
      if p.None? {
        return None;
      }
      var part := Dress(p.value, o, due);
      if part.None? {
        return None;
      }
      OwingStep(parts, [part.value], Batch(cs[i + 1..], o, After(p.value, due)));
      if part.value.kind.BurnNonFungible? {
        due := Some([]);
      }
      parts := parts + [part.value];
    }
    assert cs[|cs|..] == [] && parts + [] == parts;
    return Some(parts);
  }

  function Batch(cs: seq<M.MsgCall>, o: Options, due: Option<seq<InfusedAsset>>): Option<seq<Part>> {
    var ps := RecogniseCalls(cs);
    if ps.None? then None else DressAll(ps.value, o, due)
  }

  lemma BatchStep(cs: seq<M.MsgCall>, o: Options, due: Option<seq<InfusedAsset>>)
    requires cs != []
    ensures var p := RecogniseCall(cs[0]);
            Batch(cs, o, due) ==
            if p.None? || Dress(p.value, o, due).None? then None
            else Owing([Dress(p.value, o, due).value], Batch(cs[1..], o, After(p.value, due)))
  {
    var p, tail := RecogniseCall(cs[0]), RecogniseCalls(cs[1..]);
    if p.Some? && tail.Some? {
      assert ([p.value] + tail.value)[1..] == tail.value;
    }
  }

  // ----- the plan -----

  predicate WitnessesKnown(m: M.TxMsg, o: Options) {
    E.RequiredWitnesses(m).Some? || o.witnessCount.Some?
  }

  function PlanFees(m: M.TxMsg, config: GasConfig, o: Options): Option<Plan> {
    if !WitnessesKnown(m, o) then None else
      var ps :- Recognise(m);
      var size :- E.EnvelopeBytes(m, o.witnessCount);
      PlanParts(ps, size, config, o)
  }

  // ----- plan and sign -----

  function SignAndSerialize(m: M.TxMsg, keys: seq<E.Key>): Option<Bytes> {
    var signed :- E.Sign(m, keys);
    E.EncodeSigned(signed)
  }

  /** The keys are the witness count of a listed type whose caller stated none. */
  function SigningOptions(m: M.TxMsg, keys: seq<E.Key>, o: Options): Option<Options> {
    if E.RequiredWitnesses(m).None? && o.witnessCount.None? then
      var n :- LengthU32(|keys|);
      Some(o.(witnessCount := Some(n)))
    else Some(o)
  }

  function PlanAndSign(m: M.TxMsg, keys: seq<E.Key>, config: Option<GasConfig>, o: Options): Option<Bytes> {
    if m.maxGas != 0 then SignAndSerialize(m, keys)
    else
      var chain :- config;
      var options :- SigningOptions(m, keys, o);
      var plan :- PlanFees(m, chain, options);
      SignAndSerialize(E.Apply(m, plan.estimate.maxGas, plan.estimate.maxData), keys)
  }

  /** A message that already carries an offer is signed as it is, and no config is asked for. */
  lemma FixedOfferIsSigned(m: M.TxMsg, keys: seq<E.Key>, config: Option<GasConfig>, o: Options)
    requires m.maxGas != 0
    ensures PlanAndSign(m, keys, config, o) == SignAndSerialize(m, keys)
  {
  }

  /** Calls, batches, trades and scripts: the caller says who signs. */
  predicate Lists(m: M.TxMsg) {
    m.msg.Call? || m.msg.CallMulti? || m.msg.Trade? || (m.msg.Native? && m.msg.body.Phantasma?)
  }

  lemma ListsExactlyWhen(m: M.TxMsg)
    requires M.Matches(m.txType, m.msg)
    ensures E.RequiredWitnesses(m).None? <==> Lists(m)
  {
  }

  lemma PlannedWith(m: M.TxMsg, keys: seq<E.Key>, config: GasConfig, o: Options, options: Options, plan: Option<Plan>)
    requires m.maxGas == 0 && SigningOptions(m, keys, o) == Some(options) && plan == PlanFees(m, config, options)
    ensures PlanAndSign(m, keys, None, o).None?
    ensures PlanAndSign(m, keys, Some(config), o)
         == if plan.None? then None
            else SignAndSerialize(m.(maxGas := plan.value.estimate.maxGas, maxData := plan.value.estimate.maxData), keys)
  {
  }

  /**
    Any other is planned and signed with the plan's offer and ceiling; the keys are the witness count only
    where the message fixes none and the caller states none.
   */
  lemma PlannedOfferIsSigned(m: M.TxMsg, keys: seq<E.Key>, config: GasConfig, o: Options, options: Options, plan: Option<Plan>)
    requires m.maxGas == 0 && |keys| <= U32_MAX && M.Matches(m.txType, m.msg)
    requires options == if Lists(m) && o.witnessCount.None? then o.(witnessCount := Some(|keys|)) else o
    requires plan == PlanFees(m, config, options)
    ensures PlanAndSign(m, keys, None, o).None?
    ensures PlanAndSign(m, keys, Some(config), o)
         == if plan.None? then None
            else SignAndSerialize(m.(maxGas := plan.value.estimate.maxGas, maxData := plan.value.estimate.maxData), keys)
  {
    ListsExactlyWhen(m);
    PlannedWith(m, keys, config, o, options, plan);
  }

  /** What a planned transaction was billed for is the size of what was signed. */
  lemma PlannedSizeIsSigned(m: M.TxMsg, keys: seq<E.Key>, config: GasConfig, o: Options)
    requires m.maxGas == 0 && PlanAndSign(m, keys, Some(config), o).Some? && |keys| <= U32_MAX
    requires E.RequiredWitnesses(m).None? && o.witnessCount.Some? ==> o.witnessCount.value == |keys|
    ensures var plan := PlanFees(m, config, SigningOptions(m, keys, o).value);
            plan.Some? && |PlanAndSign(m, keys, Some(config), o).value| == plan.value.envelope
  {
    var options := SigningOptions(m, keys, o).value;
    var plan := PlanFees(m, config, options).value;
    PlannedEnvelope(m, config, options);
    E.PricedSizeIsSignedSize(m, options.witnessCount, plan.estimate.maxGas, plan.estimate.maxData, keys);
  }

  lemma PlannedEnvelope(m: M.TxMsg, config: GasConfig, o: Options)
    requires PlanFees(m, config, o).Some?
    ensures E.EnvelopeBytes(m, o.witnessCount) == Some(PlanFees(m, config, o).value.envelope)
  {
  }

  // ----- what a message burns -----

  datatype BurnedInstance = BurnedInstance(tokenId: U64, instanceId: U64)

  function Instances(token: U64, ids: seq<U64>): (r: seq<BurnedInstance>)
    ensures |r| == |ids|
  {
    seq(|ids|, i requires 0 <= i < |ids| => BurnedInstance(token, ids[i]))
  }

  function BurnedByCall(c: M.MsgCall): seq<BurnedInstance> {
    if M.HasSections(c) || c.moduleId != TOKEN || c.methodId != BURN_NON_FUNGIBLE then [] else
      var args := BurnArgs(c.args);
      if args.None? then [] else Instances(args.value.0, args.value.1)
  }

  function BurnedByCalls(cs: seq<M.MsgCall>): seq<BurnedInstance> {
    if cs == [] then [] else BurnedByCall(cs[0]) + BurnedByCalls(cs[1..])
  }

  function BurnedInstances(m: M.TxMsg): seq<BurnedInstance> {
    match m.msg
    case Native(BurnNonFungible(token, instance)) => [BurnedInstance(token, instance)]
    case Native(BurnNonFungibleGasPayer(token, _, instance)) => [BurnedInstance(token, instance)]
    case Call(c) => BurnedByCall(c)
    case CallMulti(cs) => BurnedByCalls(cs)
    case _ => []
  }

  /** Instances an operation burns, as it is priced. */
  function Burns(p: Part): nat {
    if p.kind.BurnNonFungible? then Count(p) else 0
  }

  function AllBurns(ps: seq<Part>): nat {
    if ps == [] then 0 else Burns(ps[0]) + AllBurns(ps[1..])
  }

  predicate HasBurn(ps: seq<Part>) {
    exists p <- ps :: p.kind.BurnNonFungible?
  }

  lemma CallBurns(c: M.MsgCall)
    requires RecogniseCall(c).Some?
    ensures Burns(RecogniseCall(c).value) == |BurnedByCall(c)|
    ensures RecogniseCall(c).value.kind.BurnNonFungible? ==> Burns(RecogniseCall(c).value) > 0
  {
    if !M.HasSections(c) && c.moduleId == TOKEN && c.methodId == BURN_NON_FUNGIBLE {
      TokenBurns(c.args);
    }
  }

  lemma TokenBurns(args: Bytes)
    requires RecogniseToken(BURN_NON_FUNGIBLE, args).Some?
    ensures BurnArgs(args).Some?
    ensures Count(RecogniseToken(BURN_NON_FUNGIBLE, args).value) == |BurnArgs(args).value.1| > 0
  {
  }

  lemma {:induction false} CallsBurn(cs: seq<M.MsgCall>)
    requires RecogniseCalls(cs).Some?
    ensures AllBurns(RecogniseCalls(cs).value) == |BurnedByCalls(cs)|
    ensures HasBurn(RecogniseCalls(cs).value) ==> BurnedByCalls(cs) != []
  {
    if cs != [] {
      CallBurns(cs[0]);
      CallsBurn(cs[1..]);
      var head, tail := RecogniseCall(cs[0]).value, RecogniseCalls(cs[1..]).value;
      assert ([head] + tail)[1..] == tail;
    }
  }

  /** The instance counts of the burns a message is priced for add up to the instances it burns. */
  lemma BurnsConserved(m: M.TxMsg)
    requires Recognise(m).Some?
    ensures AllBurns(Recognise(m).value) == |BurnedInstances(m)|
    ensures HasBurn(Recognise(m).value) <==> BurnedInstances(m) != []
  {
    var ps := Recognise(m).value;
    match m.msg {
      case Call(c) => CallBurns(c); assert ps[1..] == [];
      case CallMulti(cs) => CallsBurn(cs);
      case Native(b) => assert ps[1..] == [];
      case Trade(_) => assert ps[1..] == [];
    }
    BurnsNeedBurn(ps);
  }

  lemma {:induction false} BurnsNeedBurn(ps: seq<Part>)
    ensures AllBurns(ps) > 0 ==> HasBurn(ps)
  {
    if ps != [] {
      BurnsNeedBurn(ps[1..]);
    }
  }

  lemma {:induction false} DressedExactlyWhen(ps: seq<Part>, o: Options, due: Option<seq<InfusedAsset>>)
    ensures DressAll(ps, o, due).Some? <==> due.Some? || !HasBurn(ps)
  {
    if ps != [] {
      DressedExactlyWhen(ps[1..], o, After(ps[0], due));
    }
  }

  lemma {:induction false} DressedBurns(ps: seq<Part>, o: Options, due: Option<seq<InfusedAsset>>)
    requires DressAll(ps, o, due).Some?
    ensures AllBurns(DressAll(ps, o, due).value) == AllBurns(ps)
  {
    if ps != [] {
      DressedBurns(ps[1..], o, After(ps[0], due));
    }
  }

  /**
    Whenever a message can be described, its burn parts count exactly the instances it burns; and it
    can be described without an infusion list exactly when it burns nothing.
   */
  lemma InfusionsDemandedExactlyWhen(m: M.TxMsg, o: Options)
    requires Describe(m, o).Some?
    ensures AllBurns(Describe(m, o).value) == |BurnedInstances(m)|
    ensures Describe(m, o.(infusions := None)).Some? <==> BurnedInstances(m) == []
  {
    var ps := Recognise(m).value;
    BurnsConserved(m);
    DressedBurns(ps, o, o.infusions);
    DressedExactlyWhen(ps, o.(infusions := None), None);
  }
}
