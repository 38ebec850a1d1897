/**
  The work, result bytes and storage rows of each native operation. Counts and sizes inside one
  operation are unbounded here: the claims are about inputs whose 32-bit sums do not overflow.
 */
module FeeModel {
  import opened Words
  import opened FeeArithmetic

  datatype Kind =
    | TransferFungible | TransferNonFungible | MintFungible | MintNonFungible | MintPhantasmaNonFungible
    | BurnFungible | BurnNonFungible | CreateToken | CreateTokenSeries | RegisterName | Script

  /** The fields of the chain's gas configuration that a bill depends on. */
  datatype GasConfig = GasConfig(
    version: Byte, maxNameLength: Byte, maxTokenSymbolLength: Byte, feeShift: Byte, feeMultiplier: U64,
    gasTokenId: U64, dataTokenId: U64, minimumGasOffer: U64, dataEscrowPerRow: U64,
    gasFeeTransfer: U64, gasFeeQuery: U64, gasFeeCreateTokenBase: U64, gasFeeCreateTokenSymbol: U64,
    gasFeeCreateTokenSeries: U64, gasFeePerByte: U64, gasFeeRegisterName: U64, minimumGasBill: U64,
    policyFeeCreateTokenBase: U64, policyFeeCreateTokenSymbol: U64, policyFeeCreateTokenSeries: U64,
    policyFeeRegisterName: U64)

  predicate V2(config: GasConfig) { config.version >= 1 }

  /** Facts of chain state. Unstated ones are read as the case that costs more. */
  datatype Facts = Facts(
    recipientHoldsToken: bool, bigFungible: Option<bool>, tokenBurnedBefore: bool, supplyRowExists: bool,
    seriesHasMetaId: Option<bool>, romHasMetaId: Option<bool>, duplicatedSeries: Option<bool>)

  const UNSTATED := Facts(false, None, false, false, None, None, None)

  datatype InfusedAsset = InfusedAsset(
    tokenId: Option<U64>, nonFungible: bool, instanceCount: Option<U32>, burnerHoldsToken: bool)

  /** What an operation is priced from: facts of chain state, and facts the message carries. */
  datatype Params = Params(
    facts: Facts, count: Option<U32>, tokenId: Option<U64>, toIsNftAddress: bool,
    infusions: Option<seq<InfusedAsset>>, symbolLength: U32, tokenInfoBytes: U32, nonFungible: bool,
    hasPreBurn: bool, hasInflationSchedule: bool, hasStakingOrganisation: bool, hasStakingRewardToken: bool,
    seriesInfoBytes: U32, nameLength: U32, romBytes: seq<U32>, ramBytes: seq<U32>,
    distinctSeriesCount: Option<U32>, scriptUnitsAllowance: Option<U64>, scriptEventBytes: Option<U32>,
    scriptStorageQuanta: Option<U32>)

  const DEFAULT := Params(
    UNSTATED, None, None, false, None, 0, 0, false, false, false, false, false, 0, 0, [], [], None, None, None, None)

  datatype Part = Part(kind: Kind, params: Params)
  datatype Model = Model(work: nat, policy: nat, result: nat, created: nat, deleted: nat)

  const NOTHING := Model(0, 0, 0, 0, 0)

  function Or<T>(x: Option<T>, otherwise: T): T {
    if x.Some? then x.value else otherwise
  }

  function Quantum(b: bool): (n: nat)
    ensures n <= 1
  {
    if b then 1 else 0
  }

  /** Storage quanta of one row: the bytes of key and value, in units of 1024, rounded up. */
  function Quanta(rowBytes: nat): nat {
    (rowBytes + 1023) / 1024
  }

  predicate FreeRows(id: Option<U64>, config: GasConfig) {
    id.Some? && (id.value == config.gasTokenId || id.value == config.dataTokenId)
  }

  // ----- rows that depend on a fact -----

  function RecipientRow(p: Params, config: GasConfig): nat {
    Quantum(!p.facts.recipientHoldsToken && !FreeRows(p.tokenId, config))
  }

  function BurntRow(p: Params, config: GasConfig): nat {
    Quantum(!p.facts.tokenBurnedBefore && !FreeRows(p.tokenId, config))
  }

  function SupplyRow(p: Params, config: GasConfig): nat {
    Quantum(!p.facts.supplyRowExists && !FreeRows(p.tokenId, config))
  }

  function BalanceResult(p: Params): nat {
    if Or(p.facts.bigFungible, true) then 33 else 9
  }

  function InfusionQuery(p: Params, config: GasConfig): nat {
    if p.toIsNftAddress then config.gasFeeQuery else 0
  }

  // ----- NFT instances -----

  function PerInstance(values: seq<U32>, count: nat): (r: Option<seq<U32>>)
    ensures r.Some? ==> |r.value| == count
  {
    if values == [] then Some(seq(count, i => 0))
    else if |values| == 1 then Some(seq(count, i => values[0]))
    else if |values| == count then Some(values)
    else None
  }

  /** Rows of one instance: its ROM row, `fixed` small rows, and a RAM row when there is RAM. */
  function InstanceRows(rom: nat, ram: nat, fixed: nat): nat {
    Quanta(62 + rom) + fixed + (if ram > 0 then Quanta(17 + ram) else 0)
  }

  /** A deterministic mint stores the public ROM, an id and the public ROM again. */
  function StoredRom(rom: nat, canonical: bool): nat {
    if canonical then 2 * rom + 36 else rom
  }

  function AllRows(roms: seq<U32>, rams: seq<U32>, canonical: bool, fixed: nat): nat
    requires |roms| == |rams|
  {
    if roms == [] then 0 else
      InstanceRows(StoredRom(roms[0], canonical), rams[0], fixed)
      + AllRows(roms[1..], rams[1..], canonical, fixed)
  }

  // ----- what a burn returns -----

  /** An instance query, the owner lookup and one transfer per returned instance. */
  function NftReturnWork(config: GasConfig, instances: nat): U64 {
    Sat64(Sat64(config.gasFeeQuery * 2) + Sat64(config.gasFeeTransfer * instances))
  }

  function AssetModel(a: InfusedAsset, config: GasConfig): Option<Model> {
    var free := FreeRows(a.tokenId, config);
    var balanceRow := Quantum(!a.burnerHoldsToken && !free);
    if a.nonFungible then
      var n: nat := Or(a.instanceCount, 1);
      if n == 0 then None else
        Some(Model(NftReturnWork(config, n), 0, 0, balanceRow + n, 1 + n))
    else
      Some(Model(Sat64(config.gasFeeTransfer + config.gasFeeQuery), 0, 0, balanceRow, Quantum(!free)))
  }

  /** The running total after one more returned asset. */
  function Added(m: Model, asset: Model): Model {
    Model(Sat64(m.work + asset.work), 0, 0, m.created + asset.created, m.deleted + asset.deleted)
  }

  function Returned(assets: seq<InfusedAsset>, config: GasConfig): Option<Model> {
    if assets == [] then Some(NOTHING) else
      var head :- AssetModel(assets[0], config);
      var tail :- Returned(assets[1..], config);
      Some(Added(head, tail))
  }

  // ----- prices halved per character -----

  function SymbolShift(length: nat, maxLength: nat): (r: Option<nat>)
    ensures r.Some? <==> length == 0 || (length <= 64 && (maxLength == 0 || length <= maxLength))
    ensures r.Some? && length > 0 ==> r.value == length - 1 < 64
  {
    if length == 0 then Some(0)
    else if maxLength != 0 && length - 1 >= maxLength then None
    else if length > 64 then None
    else Some(length - 1)
  }

  function Shifted(price: U64, shift: nat): nat {
    DivMod(price, Pow2(shift));
    price / Pow2(shift)
  }

  // ----- the operations -----

  function TransferNonFungibleModel(p: Params, config: GasConfig, count: nat): Model {
    Model(Sat64(Sat64(config.gasFeeTransfer * count) + InfusionQuery(p, config)), 0, 0,
          count + RecipientRow(p, config), count)
  }

  function MintNonFungibleModel(p: Params, config: GasConfig, count: nat): Option<Model> {
    var roms :- PerInstance(p.romBytes, count);
    var rams :- PerInstance(p.ramBytes, count);
    var fixed := 2 + Quantum(Or(p.facts.romHasMetaId, true));
    Some(Model(Sat64(Sat64(config.gasFeeTransfer * count) + InfusionQuery(p, config)), 0, 4 + 8 * count,
               RecipientRow(p, config) + SupplyRow(p, config) + AllRows(roms, rams, false, fixed), 0))
  }

  function DistinctSeries(p: Params, count: nat): Option<nat> {
    var n := Or(p.distinctSeriesCount, 1);
    if n < 1 || n > count then None else Some(n)
  }

  /** Three queries an instance and one per distinct series for a duplicated series, two an instance otherwise. */
  function PhantasmaWork(p: Params, config: GasConfig, count: nat, duplicated: bool, series: nat): nat {
    Sat64(Sat64(Sat64(Sat64(config.gasFeeTransfer + Sat64(config.gasFeeQuery * (if duplicated then 3 else 2))) * count)
                + Sat64(config.gasFeeQuery * series))
          + InfusionQuery(p, config))
  }

  function MintPhantasmaModel(p: Params, config: GasConfig, count: nat): Option<Model> {
    var roms :- PerInstance(p.romBytes, count);
    var rams :- PerInstance(p.ramBytes, count);
    var duplicated := Or(p.facts.duplicatedSeries, true);
    var series :- if duplicated then DistinctSeries(p, count) else Some(0);
    Some(Model(PhantasmaWork(p, config, count, duplicated, series), 0, 4 + 40 * count,
               RecipientRow(p, config) + SupplyRow(p, config) + AllRows(roms, rams, true, 3), 0))
  }

  function BurnNonFungibleModel(p: Params, config: GasConfig, count: nat): Option<Model> {
    var roms :- PerInstance(p.romBytes, count);
    var rams :- PerInstance(p.ramBytes, count);
    var fixed := 2 + Quantum(Or(p.facts.romHasMetaId, true));
    var returned :- Returned(Or(p.infusions, []), config);
    Some(Model(Sat64(Sat64(Sat64(config.gasFeeTransfer + Sat64(config.gasFeeQuery * 2)) * count) + returned.work), 0, 0,
               BurntRow(p, config) + SupplyRow(p, config) + returned.created,
               AllRows(roms, rams, false, fixed) + returned.deleted))
  }

  function CreateTokenModel(p: Params, config: GasConfig): Option<Model> {
    var shift :- SymbolShift(p.symbolLength, config.maxTokenSymbolLength);
    var base := if V2(config) then config.policyFeeCreateTokenBase else config.gasFeeCreateTokenBase;
    var price := if V2(config) then config.policyFeeCreateTokenSymbol else config.gasFeeCreateTokenSymbol;
    var symbol := if p.symbolLength > 0 then Shifted(price, shift) else 0;
    var queries := Sat64(config.gasFeeQuery * (Quantum(p.hasStakingOrganisation) + Quantum(p.hasStakingRewardToken)));
    Some(Model(if V2(config) then queries else Sat64(Sat64(base + symbol) + queries),
               if V2(config) then Sat64(base + symbol) else 0,
               8,
               Quantum(p.symbolLength > 0) + Quanta(9 + p.tokenInfoBytes) + 1 + Quantum(p.nonFungible)
               + Quantum(p.hasPreBurn) + Quantum(p.hasInflationSchedule),
               0))
  }

  function CreateSeriesModel(p: Params, config: GasConfig): Model {
    Model(if V2(config) then 0 else config.gasFeeCreateTokenSeries,
          if V2(config) then config.policyFeeCreateTokenSeries else 0,
          4,
          Quanta(13 + p.seriesInfoBytes) + 1 + Quantum(Or(p.facts.seriesHasMetaId, true)),
          0)
  }

  function RegisterNameModel(p: Params, config: GasConfig): Option<Model> {
    if p.nameLength == 0 then None else
      var shift :- SymbolShift(p.nameLength, config.maxNameLength);
      Some(Model(if V2(config) then 0 else Shifted(config.gasFeeRegisterName, shift),
                 if V2(config) then Shifted(config.policyFeeRegisterName, shift) else 0, 0, 0, 0))
  }

  function ScriptModel(p: Params): Model {
    Model(Or(p.scriptUnitsAllowance, 5000), 0, Or(p.scriptEventBytes, 512), Or(p.scriptStorageQuanta, 4), 0)
  }

  function OperationModel(kind: Kind, p: Params, config: GasConfig, count: nat): Option<Model> {
    match kind
    case TransferFungible =>
      Some(Model(Sat64(config.gasFeeTransfer + InfusionQuery(p, config)), 0, 0, RecipientRow(p, config), 0))
    case TransferNonFungible => Some(TransferNonFungibleModel(p, config, count))
    case MintFungible =>
      Some(Model(Sat64(config.gasFeeTransfer + InfusionQuery(p, config)), 0, BalanceResult(p),
                 RecipientRow(p, config) + SupplyRow(p, config), 0))
    case BurnFungible =>
      Some(Model(config.gasFeeTransfer, 0, BalanceResult(p), BurntRow(p, config) + SupplyRow(p, config), 0))
    case MintNonFungible => MintNonFungibleModel(p, config, count)
    case MintPhantasmaNonFungible => MintPhantasmaModel(p, config, count)
    case BurnNonFungible => BurnNonFungibleModel(p, config, count)
    case CreateToken => CreateTokenModel(p, config)
    case CreateTokenSeries => Some(CreateSeriesModel(p, config))
    case RegisterName => RegisterNameModel(p, config)
    case Script => Some(ScriptModel(p))
  }

  function PartModel(part: Part, config: GasConfig): Option<Model> {
    var count := Or(part.params.count, 1);
    if count == 0 then None else OperationModel(part.kind, part.params, config, count)
  }

  // ----- the loops of the source -----

  /** One pass of the return sweep: the running total with this asset's return added to it, rows in 32 bits. */
  method AddReturned(model: Model, asset: InfusedAsset, config: GasConfig) returns (r: Option<Model>)
    requires model.policy == model.result == 0
    ensures var m := AssetModel(asset, config);
            r == if m.None? then None else Some(Wrap(Added(model, m.value)))
  {
    var free := FreeRows(asset.tokenId, config);
    var balanceRow := Quantum(!asset.burnerHoldsToken && !free);
    var m := model;
    if asset.nonFungible {
      var instances: nat := Or(asset.instanceCount, 1);
      if instances == 0 {
        return None;
      }
      m := m.(work := Sat64(m.work + NftReturnWork(config, instances)));
      WrapSum(m.created, balanceRow + instances);
      WrapSum(m.deleted, 1 + instances);
      m := m.(created := Wrap32(m.created + Wrap32(balanceRow + instances)));
      m := m.(deleted := Wrap32(m.deleted + Wrap32(1 + instances)));
    } else {
      m := m.(work := Sat64(m.work + Sat64(config.gasFeeTransfer + config.gasFeeQuery)));
      m := m.(created := Wrap32(m.created + balanceRow));
      m := m.(deleted := Wrap32(m.deleted + Quantum(!free)));
    }
    return Some(m);
  }

  /** The burn's return sweep: exact sums, kept in wrapping 32-bit counters. */
  method ReturnedAssets(assets: seq<InfusedAsset>, config: GasConfig) returns (r: Option<Model>)
    ensures r == WrapAll(Returned(assets, config))
    ensures r.Some? && Returned(assets, config).value.created <= U32_MAX && Returned(assets, config).value.deleted <= U32_MAX ==>
              r == Returned(assets, config)
  {
    var model := NOTHING;
    ghost var total := Returned(assets, config);
    assert assets[0..] == assets;
    OntoNothing(total);
    for i := 0 to |assets|
      invariant model.work <= U64_MAX && model.policy == model.result == 0 && Wrap(model) == model
      invariant WrapAll(total) == WrapAll(Onto(model, Returned(assets[i..], config)))
    {
      assert assets[i..][1..] == assets[i + 1..];
      OntoStep(model, assets[i..], config);
      var next := AddReturned(model, assets[i], config);
      if next.None? {
        return None;
      }
      WrapOnto(Added(model, AssetModel(assets[i], config).value), Returned(assets[i + 1..], config));
      model := next.value;
    }
    assert assets[|assets|..] == [];
    AddedToNothing(model);
    return Some(model);
  }

  function Wrap32(n: nat): (r: nat)
    ensures r <= U32_MAX && (n <= U32_MAX ==> r == n)
  {
    n % 0x1_0000_0000
  }

  lemma WrapSum(a: nat, b: nat)
    ensures Wrap32(a + Wrap32(b)) == Wrap32(a + b) && Wrap32(Wrap32(a) + b) == Wrap32(a + b)
  {
    WrapTurns(a + Wrap32(b), b / 0x1_0000_0000, a + b);
    WrapTurns(Wrap32(a) + b, a / 0x1_0000_0000, a + b);
  }

  lemma WrapTurns(x: nat, turns: nat, y: nat)
    requires y == x + 0x1_0000_0000 * turns
    ensures Wrap32(x) == Wrap32(y)
  {
  }

  /** The row counters as a release build keeps them. */
  function Wrap(m: Model): Model {
    m.(created := Wrap32(m.created), deleted := Wrap32(m.deleted))
  }

  function WrapAll(m: Option<Model>): Option<Model> {
    if m.None? then None else Some(Wrap(m.value))
  }

  lemma WrapOnto(m: Model, rest: Option<Model>)
    ensures WrapAll(Onto(Wrap(m), rest)) == WrapAll(Onto(m, rest))
  {
    if rest.Some? {
      WrapSum(m.created, rest.value.created);
      WrapSum(m.deleted, rest.value.deleted);
    }
  }

  lemma OntoNothing(rest: Option<Model>)
    ensures rest.Some? && rest.value.work <= U64_MAX && rest.value.policy == rest.value.result == 0 ==>
              Onto(NOTHING, rest) == rest
    ensures rest.None? ==> Onto(NOTHING, rest) == rest
  {
  }

  lemma AddedToNothing(m: Model)
    requires m.work <= U64_MAX && m.policy == m.result == 0
    ensures Added(m, NOTHING) == m
  {
  }

  ghost function Onto(m: Model, rest: Option<Model>): Option<Model> {
    if rest.None? then None else Some(Added(m, rest.value))
  }

  lemma OntoStep(m: Model, assets: seq<InfusedAsset>, config: GasConfig)
    requires assets != []
    ensures var head := AssetModel(assets[0], config);
            Onto(m, Returned(assets, config)) ==
            if head.None? then None else Onto(Added(m, head.value), Returned(assets[1..], config))
  {
    var head, tail := AssetModel(assets[0], config), Returned(assets[1..], config);
    if head.Some? && tail.Some? {
      AddedTwice(m, head.value, tail.value);
    }
  }

  lemma AddedTwice(m: Model, a: Model, b: Model)
    ensures Added(m, Added(a, b)) == Added(Added(m, a), b)
  {
  }

  /** The row loop of the mint and burn branches in wrapping 32-bit arithmetic, and when that is exact. */
  method CountRows(roms: seq<U32>, rams: seq<U32>, canonical: bool, fixed: nat, start: nat) returns (quanta: nat)
    requires |roms| == |rams|
    ensures quanta == Wrap32(start + WrappedRows(roms, rams, canonical, fixed))
    ensures RowsFit(roms, rams, canonical) && start + AllRows(roms, rams, canonical, fixed) <= U32_MAX ==>
              quanta == start + AllRows(roms, rams, canonical, fixed)
  {
    quanta := Wrap32(start);
    ghost var total := WrappedRows(roms, rams, canonical, fixed);
    WrapSum(start, total);
    assert roms[0..] == roms && rams[0..] == rams;
    for i := 0 to |roms|
      invariant quanta <= U32_MAX
      invariant Wrap32(quanta + WrappedRows(roms[i..], rams[i..], canonical, fixed)) == Wrap32(start + total)
    {
      assert roms[i..][1..] == roms[i + 1..] && rams[i..][1..] == rams[i + 1..];
      ghost var rest := WrappedRows(roms[i + 1..], rams[i + 1..], canonical, fixed);
      WrapSum(quanta + WrappedInstance(roms[i], rams[i], canonical, fixed), rest);
      quanta := CountInstance(quanta, roms[i], rams[i], canonical, fixed);
    }
    assert roms[|roms|..] == [] && quanta == Wrap32(start + total);
    RowsExact(roms, rams, canonical, fixed);
  }

  method CountInstance(quanta: nat, rom: U32, ram: U32, canonical: bool, fixed: nat) returns (r: nat)
    ensures r == Wrap32(quanta + WrappedInstance(rom, ram, canonical, fixed))
  {
    var stored := StoredRom(rom, canonical);
    WrapSum(62, stored);
    var row := Quanta(Wrap32(62 + Wrap32(stored))) + fixed;
    r := Wrap32(quanta + row);
    if ram > 0 {
      WrapSum(quanta + row, Quanta(Wrap32(17 + (ram as nat))));
      r := Wrap32(r + Quanta(Wrap32(17 + (ram as nat))));
    }
  }

  /** Rows of one instance when row sizes are added up in 32 bits. */
  function WrappedInstance(rom: nat, ram: nat, canonical: bool, fixed: nat): nat {
    Quanta(Wrap32(62 + StoredRom(rom, canonical))) + fixed + (if ram > 0 then Quanta(Wrap32(17 + ram)) else 0)
  }

  function WrappedRows(roms: seq<U32>, rams: seq<U32>, canonical: bool, fixed: nat): nat
    requires |roms| == |rams|
  {
    if roms == [] then 0 else WrappedInstance(roms[0], rams[0], canonical, fixed) + WrappedRows(roms[1..], rams[1..], canonical, fixed)
  }

  // ----- when 32 bits suffice -----

  /** Overhead plus ROM and overhead plus RAM of every instance fit 32 bits. */
  predicate RowsFit(roms: seq<U32>, rams: seq<U32>, canonical: bool)
    requires |roms| == |rams|
  {
    forall i :: 0 <= i < |roms| ==> RowFits(roms[i], rams[i], canonical)
  }

  predicate RowFits(rom: nat, ram: nat, canonical: bool) {
    62 + StoredRom(rom, canonical) <= U32_MAX && 17 + ram <= U32_MAX
  }

  lemma {:induction false} RowsExact(roms: seq<U32>, rams: seq<U32>, canonical: bool, fixed: nat)
    requires |roms| == |rams|
    ensures RowsFit(roms, rams, canonical) ==> WrappedRows(roms, rams, canonical, fixed) == AllRows(roms, rams, canonical, fixed)
  {
    if roms != [] && RowsFit(roms, rams, canonical) {
      assert RowFits(roms[0], rams[0], canonical);
      forall i | 0 <= i < |roms[1..]| ensures RowFits(roms[1..][i], rams[1..][i], canonical) {
        assert RowFits(roms[i + 1], rams[i + 1], canonical);
      }
      RowsExact(roms[1..], rams[1..], canonical, fixed);
    }
  }

  /** The sizes an operation adds up before it counts rows. */
  predicate SizesFit(p: Part) {
    var count: nat := Or(p.params.count, 1);
    var roms, rams := PerInstance(p.params.romBytes, count), PerInstance(p.params.ramBytes, count);
    match p.kind
    case MintNonFungible => roms.Some? && rams.Some? ==> RowsFit(roms.value, rams.value, false)
    case BurnNonFungible => roms.Some? && rams.Some? ==> RowsFit(roms.value, rams.value, false)
    case MintPhantasmaNonFungible => roms.Some? && rams.Some? ==> RowsFit(roms.value, rams.value, true)
    case CreateToken => 9 + (p.params.tokenInfoBytes as nat) <= U32_MAX
    case CreateTokenSeries => 13 + (p.params.seriesInfoBytes as nat) <= U32_MAX
    case _ => true
  }

  /**
    No unchecked 32-bit sum of the source overflows while this operation is priced: its row sizes, its
    result bytes and its created and deleted rows, whose partial sums never exceed the totals.
   */
  predicate PartFits(p: Part, config: GasConfig) {
    var m := PartModel(p, config);
    m.Some? ==> SizesFit(p) && m.value.result <= U32_MAX && m.value.created <= U32_MAX && m.value.deleted <= U32_MAX
  }

  // ----- what operations have to do with each other -----

  lemma HalvedAgain(price: U64, k: nat)
    ensures Shifted(price, k + 1) == Shifted(price, k) / 2
  {
    var d := Pow2(k);
    DivMod(price, d);
    HalfOf(price, d, price / d, price % d);
  }

  lemma HalfOf(x: nat, d: nat, q: nat, r: nat)
    requires d > 0 && x == d * q + r && r < d
    ensures x / (2 * d) == q / 2
  {
    var h := q / 2;
    assert q == 2 * h || q == 2 * h + 1;
    assert d * (2 * h) == 2 * d * h && d * (2 * h + 1) == 2 * d * h + d;
    DivUnique(x, 2 * d, h);
  }

  /** One character more, where still admitted, halves the fee of a name. */
  lemma LongerNameCostsHalf(p: Params, q: Params, config: GasConfig)
    requires p.nameLength >= 1 && q.nameLength == (p.nameLength as int) + 1 && RegisterNameModel(q, config).Some?
    ensures RegisterNameModel(p, config).Some?
    ensures var m, n := RegisterNameModel(p, config).value, RegisterNameModel(q, config).value;
            n.work == m.work / 2 && n.policy == m.policy / 2
  {
    HalvedAgain(config.gasFeeRegisterName, p.nameLength - 1);
    HalvedAgain(config.policyFeeRegisterName, p.nameLength - 1);
  }

  /** A duplicated series costs one more query an instance and one per distinct series, as long as nothing saturates. */
  lemma DuplicatedCostsQueries(p: Params, config: GasConfig, count: nat, series: nat)
    requires PhantasmaWork(p, config, count, true, series) < U64_MAX
    ensures PhantasmaWork(p, config, count, true, series)
         == PhantasmaWork(p, config, count, false, 0) + config.gasFeeQuery * (count + series)
  {
    var g, q := config.gasFeeTransfer, config.gasFeeQuery;
    QueryProducts(g, q, count, series);
  }

  lemma QueryProducts(g: nat, q: nat, count: nat, series: nat)
    ensures (g + q * 3) * count == (g + q * 2) * count + q * count && q * (count + series) == q * count + q * series
    ensures (g + q * 2) * count >= 0 && q * count >= 0 && q * series >= 0
    ensures count > 0 ==> (g + q * 3) * count >= g + q * 3
    ensures q * 0 == 0 && (count == 0 ==> (g + q * 3) * count == 0)
  {
    Product(g + q * 2, count);
    Product(q, count);
    Product(q, series);
    if g + q * 3 > 0 {
      AtLeast(count, g + q * 3);
      assert (g + q * 3) * count == count * (g + q * 3);
    }
    assert (g + q * 3) * count == (g + q * 2) * count + q * count;
  }
}
