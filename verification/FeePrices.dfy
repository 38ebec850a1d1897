/** The price list: what each operation costs in the chain's own prices, and how the operations compare. */
module FeePrices {
  import opened Words
  import opened FeeArithmetic
  import opened FeeModel

  /** The number of instances an operation is priced for; one when none is given. */
  predicate Counts(p: Params, n: nat) {
    match p.count
    case None => n == 1
    case Some(count) => n == count && n > 0
  }

  /** Rows of the gas token and of the data token are free. */
  predicate PaysRows(p: Params, config: GasConfig) {
    p.tokenId != Some(config.gasTokenId) && p.tokenId != Some(config.dataTokenId)
  }

  predicate Capped(r: nat, x: nat) {
    r == if x <= U64_MAX then x else U64_MAX
  }

  /** One row when the token's rows are paid and the fact does not hold. */
  function PaidRow(known: bool, p: Params, config: GasConfig): nat {
    if !known && PaysRows(p, config) then 1 else 0
  }

  function Query(p: Params, config: GasConfig): nat {
    if p.toIsNftAddress then config.gasFeeQuery else 0
  }

  predicate Holds(fact: Option<bool>) {
    fact != Some(false)
  }

  predicate RowsOnly(m: Model) {
    m.policy == 0 && m.result == 0
  }

  // ----- fungible tokens -----

  lemma TransferPrice(p: Params, config: GasConfig)
    requires p.count != Some(0)
    ensures var m := PartModel(Part(TransferFungible, p), config);
            m.Some? && RowsOnly(m.value) && Capped(m.value.work, config.gasFeeTransfer + Query(p, config))
            && m.value.created == PaidRow(p.facts.recipientHoldsToken, p, config) && m.value.deleted == 0
  {
  }

  lemma MintPrice(p: Params, config: GasConfig)
    requires p.count != Some(0)
    ensures var m := PartModel(Part(MintFungible, p), config);
            m.Some? && m.value.policy == 0 && Capped(m.value.work, config.gasFeeTransfer + Query(p, config))
            && m.value.result == (if Holds(p.facts.bigFungible) then 33 else 9)
            && m.value.created == PaidRow(p.facts.recipientHoldsToken, p, config) + PaidRow(p.facts.supplyRowExists, p, config)
            && m.value.deleted == 0
  {
  }

  lemma BurnPrice(p: Params, config: GasConfig)
    requires p.count != Some(0)
    ensures var m := PartModel(Part(BurnFungible, p), config);
            m.Some? && m.value.policy == 0 && m.value.work == config.gasFeeTransfer
            && m.value.result == (if Holds(p.facts.bigFungible) then 33 else 9)
            && m.value.created == PaidRow(p.facts.tokenBurnedBefore, p, config) + PaidRow(p.facts.supplyRowExists, p, config)
            && m.value.deleted == 0
  {
  }

  // ----- NFTs -----

  /** Every instance moves its lookup row, which is deleted with one owner and created with the next. */
  lemma NftTransferPrice(p: Params, config: GasConfig, n: nat)
    requires Counts(p, n)
    ensures var m := PartModel(Part(TransferNonFungible, p), config);
            m.Some? && RowsOnly(m.value) && Capped(m.value.work, n * config.gasFeeTransfer + Query(p, config))
            && m.value.created == n + PaidRow(p.facts.recipientHoldsToken, p, config) && m.value.deleted == n
  {
    assert n * config.gasFeeTransfer == config.gasFeeTransfer * n;
    Product(config.gasFeeTransfer, n);
    assert PartModel(Part(TransferNonFungible, p), config) == Some(TransferNonFungibleModel(p, config, n));
  }

  /** The smallest number of 1024-byte quanta that holds the row. */
  lemma QuantaIs(bytes: nat)
    ensures 1024 * Quanta(bytes) >= bytes && (bytes > 0 ==> 1024 * (Quanta(bytes) - 1) < bytes) && Quanta(0) == 0
  {
  }

  /** The rows of one instance: its ROM row, the small ones, and a RAM row if it has RAM. */
  lemma InstanceRowsIs(rom: U32, ram: U32, canonical: bool, fixed: nat)
    ensures var stored := if canonical then 2 * (rom as nat) + 36 else rom;
            AllRows([rom], [ram], canonical, fixed)
            == Quanta(62 + stored) + fixed + (if ram == 0 then 0 else Quanta(17 + ram))
  {
    assert [rom][1..] == [];
    assert AllRows([rom][1..], [ram][1..], canonical, fixed) == 0;
  }

  /** The rows of instances add up. */
  lemma {:induction false} AllRowsConcat(a: seq<U32>, b: seq<U32>, c: seq<U32>, d: seq<U32>, canonical: bool, fixed: nat)
    requires |a| == |b| && |c| == |d|
    ensures AllRows(a + c, b + d, canonical, fixed) == AllRows(a, b, canonical, fixed) + AllRows(c, d, canonical, fixed)
  {
    if a == [] {
      assert a + c == c && b + d == d;
    } else {
      assert (a + c)[1..] == a[1..] + c && (b + d)[1..] == b[1..] + d;
      AllRowsConcat(a[1..], b[1..], c, d, canonical, fixed);
    }
  }

  /** One size for each of `n` instances: the list itself, or one entry, or none for zero bytes, repeated. */
  predicate Spread(given: seq<U32>, n: nat, sizes: seq<U32>) {
    |sizes| == n
    && (if |given| == n then sizes == given
        else |given| <= 1 && forall i :: 0 <= i < n ==> sizes[i] == if |given| == 0 then 0 else given[0])
  }

  lemma SpreadIs(given: seq<U32>, n: nat)
    requires n > 0
    ensures PerInstance(given, n).Some? <==> |given| <= 1 || |given| == n
    ensures PerInstance(given, n).Some? ==> Spread(given, n, PerInstance(given, n).value)
  {
  }

  lemma SpreadOne(given: seq<U32>, n: nat, a: seq<U32>, b: seq<U32>)
    requires Spread(given, n, a) && Spread(given, n, b)
    ensures a == b
  {
    forall i | 0 <= i < n ensures a[i] == b[i] {
    }
  }

  ghost predicate Sized(p: Params, n: nat, roms: seq<U32>, rams: seq<U32>) {
    Counts(p, n) && Spread(p.romBytes, n, roms) && Spread(p.ramBytes, n, rams)
  }

  lemma SizedIs(p: Params, n: nat, roms: seq<U32>, rams: seq<U32>)
    requires Sized(p, n, roms, rams)
    ensures PerInstance(p.romBytes, n) == Some(roms) && PerInstance(p.ramBytes, n) == Some(rams)
  {
    SpreadIs(p.romBytes, n);
    SpreadIs(p.ramBytes, n);
    SpreadOne(p.romBytes, n, roms, PerInstance(p.romBytes, n).value);
    SpreadOne(p.ramBytes, n, rams, PerInstance(p.ramBytes, n).value);
  }

  /** Four bytes of count and an id of eight for each instance come back from a mint. */
  lemma NftMintPrice(p: Params, config: GasConfig, n: nat, roms: seq<U32>, rams: seq<U32>)
    requires Sized(p, n, roms, rams)
    ensures var m := PartModel(Part(MintNonFungible, p), config);
            m.Some? && m.value.policy == 0 && Capped(m.value.work, n * config.gasFeeTransfer + Query(p, config))
            && m.value.result == 4 + 8 * n && m.value.deleted == 0
            && m.value.created == PaidRow(p.facts.recipientHoldsToken, p, config) + PaidRow(p.facts.supplyRowExists, p, config)
                                  + AllRows(roms, rams, false, if Holds(p.facts.romHasMetaId) then 3 else 2)
  {
    SizedIs(p, n, roms, rams);
    assert n * config.gasFeeTransfer == config.gasFeeTransfer * n;
    Product(config.gasFeeTransfer, n);
    assert PartModel(Part(MintNonFungible, p), config) == MintNonFungibleModel(p, config, n);
  }

  /** The deterministic mint: two queries an instance, or three and one a series where the series is duplicated. */
  lemma PhantasmaMintPrice(p: Params, config: GasConfig, n: nat, roms: seq<U32>, rams: seq<U32>, series: nat)
    requires Sized(p, n, roms, rams)
    requires series == match p.distinctSeriesCount case None => 1 case Some(s) => s
    ensures var m := PartModel(Part(MintPhantasmaNonFungible, p), config);
            (m.Some? <==> p.facts.duplicatedSeries == Some(false) || 1 <= series <= n)
            && (m.Some? ==>
                  m.value.policy == 0 && m.value.result == 4 + 40 * n && m.value.deleted == 0
                  && m.value.created == PaidRow(p.facts.recipientHoldsToken, p, config) + PaidRow(p.facts.supplyRowExists, p, config)
                                        + AllRows(roms, rams, true, 3))
  {
    SizedIs(p, n, roms, rams);
    assert PartModel(Part(MintPhantasmaNonFungible, p), config) == MintPhantasmaModel(p, config, n);
  }

  lemma PhantasmaMintWork(p: Params, config: GasConfig, n: nat, roms: seq<U32>, rams: seq<U32>, series: nat)
    requires Sized(p, n, roms, rams) && PartModel(Part(MintPhantasmaNonFungible, p), config).Some?
    requires series == match p.distinctSeriesCount case None => 1 case Some(s) => s
    requires PartModel(Part(MintPhantasmaNonFungible, p), config).value.work < U64_MAX
    ensures PartModel(Part(MintPhantasmaNonFungible, p), config).value.work
         == n * config.gasFeeTransfer + Query(p, config)
            + (if p.facts.duplicatedSeries == Some(false) then 2 * n * config.gasFeeQuery else (3 * n + series) * config.gasFeeQuery)
  {
    SizedIs(p, n, roms, rams);
    assert PartModel(Part(MintPhantasmaNonFungible, p), config) == MintPhantasmaModel(p, config, n);
    if p.facts.duplicatedSeries == Some(false) {
      PhantasmaSum(config.gasFeeTransfer, config.gasFeeQuery, 2, n, 0, Query(p, config));
    } else {
      PhantasmaSum(config.gasFeeTransfer, config.gasFeeQuery, 3, n, series, Query(p, config));
    }
  }

  lemma PhantasmaSum(transfer: nat, query: nat, each: nat, n: nat, series: nat, more: nat)
    requires n > 0
    requires query * each >= 0 && Sat64(transfer + Sat64(query * each)) * n >= 0 && query * series >= 0
    requires Sat64(Sat64(Sat64(Sat64(transfer + Sat64(query * each)) * n) + Sat64(query * series)) + more) < U64_MAX
    ensures Sat64(Sat64(Sat64(Sat64(transfer + Sat64(query * each)) * n) + Sat64(query * series)) + more)
         == n * transfer + more + (each * n + series) * query
  {
    var one := Sat64(transfer + Sat64(query * each));
    OneOf(one, n);
    assert one == transfer + query * each;
    assert one * n == n * transfer + each * n * query && (each * n + series) * query == each * n * query + query * series;
  }

  lemma OneOf(x: nat, n: nat)
    requires n > 0
    ensures x * n >= x
  {
    MulMonotone(1, n, x);
    assert x * n == n * x;
  }

  /** A burn: two queries and a transfer an instance, what it returns, and the rows of its instances given back. */
  lemma NftBurnPrice(p: Params, config: GasConfig, n: nat, roms: seq<U32>, rams: seq<U32>, back: Model)
    requires Sized(p, n, roms, rams)
    requires Returned(match p.infusions case None => [] case Some(assets) => assets, config) == Some(back)
    ensures var m := PartModel(Part(BurnNonFungible, p), config);
            m.Some? && RowsOnly(m.value)
            && m.value.created == PaidRow(p.facts.tokenBurnedBefore, p, config) + PaidRow(p.facts.supplyRowExists, p, config) + back.created
            && m.value.deleted == AllRows(roms, rams, false, if Holds(p.facts.romHasMetaId) then 3 else 2) + back.deleted
            && (m.value.work < U64_MAX ==>
                  m.value.work == n * config.gasFeeTransfer + 2 * n * config.gasFeeQuery + back.work)
  {
    SizedIs(p, n, roms, rams);
    assert PartModel(Part(BurnNonFungible, p), config) == BurnNonFungibleModel(p, config, n);
    BurnSum(config.gasFeeTransfer, config.gasFeeQuery, n, back.work);
  }

  lemma BurnSum(transfer: nat, query: nat, n: nat, back: nat)
    requires n > 0
    ensures var one := Sat64(transfer + Sat64(query * 2));
            one * n >= 0
            && (Sat64(Sat64(one * n) + back) < U64_MAX ==> Sat64(Sat64(one * n) + back) == n * transfer + 2 * n * query + back)
  {
    var one := Sat64(transfer + Sat64(query * 2));
    Product(one, n);
    OneOf(one, n);
    if Sat64(Sat64(one * n) + back) < U64_MAX {
      assert one == transfer + query * 2;
      assert one * n == n * transfer + 2 * n * query;
    }
  }

  /** A returned fungible token: a transfer and a query; its row here for its row there. */
  lemma FungibleReturn(id: Option<U64>, held: bool, config: GasConfig)
    ensures var paid := id != Some(config.gasTokenId) && id != Some(config.dataTokenId);
            var m := AssetModel(InfusedAsset(id, false, None, held), config);
            m.Some? && RowsOnly(m.value) && Capped(m.value.work, config.gasFeeTransfer + config.gasFeeQuery)
            && m.value.created == (if paid && !held then 1 else 0) && m.value.deleted == (if paid then 1 else 0)
  {
  }

  /** A returned NFT token: two queries, and a transfer and a moved row for each of its instances. */
  lemma NftReturn(id: Option<U64>, held: bool, n: U32, config: GasConfig)
    ensures var paid := id != Some(config.gasTokenId) && id != Some(config.dataTokenId);
            var m := AssetModel(InfusedAsset(id, true, Some(n), held), config);
            (m.Some? <==> n > 0)
            && (n > 0 ==>
                  RowsOnly(m.value) && Capped(m.value.work, 2 * config.gasFeeQuery + n * config.gasFeeTransfer)
                  && m.value.created == n + (if paid && !held then 1 else 0) && m.value.deleted == n + 1)
    ensures AssetModel(InfusedAsset(id, true, None, held), config) == AssetModel(InfusedAsset(id, true, Some(1), held), config)
  {
    Product(config.gasFeeTransfer, n);
    assert n * config.gasFeeTransfer == config.gasFeeTransfer * n;
  }

  /** What several assets take adds up. */
  lemma {:induction false} ReturnedAdds(xs: seq<InfusedAsset>, config: GasConfig)
    requires xs != [] && Returned(xs, config).Some?
    ensures AssetModel(xs[0], config).Some? && Returned(xs[1..], config).Some?
    ensures var m, a, b := Returned(xs, config).value, AssetModel(xs[0], config).value, Returned(xs[1..], config).value;
            Capped(m.work, a.work + b.work) && m.created == a.created + b.created && m.deleted == a.deleted + b.deleted
    ensures Returned([], config) == Some(NOTHING)
  {
  }

  // ----- creations, names, scripts -----

  /** `n` is the price halved once for every character after the first. */
  ghost predicate Halved(n: nat, price: nat, length: nat)
    requires length > 0
  {
    n * Pow2(length - 1) <= price < n * Pow2(length - 1) + Pow2(length - 1)
  }

  lemma ShiftedIs(price: U64, length: nat)
    requires length > 0
    ensures Halved(Shifted(price, length - 1), price, length)
  {
    var d := Pow2(length - 1);
    DivMod(price, d);
    assert Shifted(price, length - 1) * d == d * Shifted(price, length - 1);
  }

  /** The price of a symbol of that length, none for no symbol. */
  ghost predicate SymbolPriced(n: nat, price: nat, length: nat) {
    if length == 0 then n == 0 else Halved(n, price, length)
  }

  function StakingQueries(p: Params, config: GasConfig): nat {
    (if p.hasStakingOrganisation then config.gasFeeQuery else 0) + (if p.hasStakingRewardToken then config.gasFeeQuery else 0)
  }

  lemma QueriesIs(p: Params, config: GasConfig)
    ensures config.gasFeeQuery * (Quantum(p.hasStakingOrganisation) + Quantum(p.hasStakingRewardToken)) == StakingQueries(p, config)
  {
  }

  /** Under the second model the base and the symbol's price are a policy fee, and only the queries are work. */
  lemma TokenPrice(p: Params, config: GasConfig) returns (symbol: nat)
    requires config.version >= 1 && p.count != Some(0) && PartModel(Part(CreateToken, p), config).Some?
    ensures SymbolPriced(symbol, config.policyFeeCreateTokenSymbol, p.symbolLength)
    ensures var m := PartModel(Part(CreateToken, p), config).value;
            Capped(m.policy, config.policyFeeCreateTokenBase + symbol) && Capped(m.work, StakingQueries(p, config))
  {
    symbol := SymbolPrice(config.policyFeeCreateTokenSymbol, p.symbolLength);
    QueriesIs(p, config);
    assert PartModel(Part(CreateToken, p), config) == CreateTokenModel(p, config);
  }

  /** Under the first model all of it is work. */
  lemma TokenPriceOne(p: Params, config: GasConfig) returns (symbol: nat)
    requires config.version == 0 && p.count != Some(0) && PartModel(Part(CreateToken, p), config).Some?
    ensures SymbolPriced(symbol, config.gasFeeCreateTokenSymbol, p.symbolLength)
    ensures var m := PartModel(Part(CreateToken, p), config).value;
            m.policy == 0 && Capped(m.work, config.gasFeeCreateTokenBase + symbol + StakingQueries(p, config))
  {
    symbol := SymbolPrice(config.gasFeeCreateTokenSymbol, p.symbolLength);
    QueriesIs(p, config);
    assert PartModel(Part(CreateToken, p), config) == CreateTokenModel(p, config);
  }

  lemma SymbolPrice(price: U64, length: nat) returns (symbol: nat)
    ensures SymbolPriced(symbol, price, length)
    ensures symbol == if length == 0 then 0 else Shifted(price, length - 1)
  {
    symbol := 0;
    if length > 0 {
      symbol := Shifted(price, length - 1);
      ShiftedIs(price, length);
    }
  }

  /** A symbol has a price when it is within the chain's length and within 64 characters; none is needed. */
  lemma TokenPricedExactlyWhen(p: Params, config: GasConfig)
    requires p.count != Some(0)
    ensures PartModel(Part(CreateToken, p), config).Some? <==>
              p.symbolLength == 0 || (p.symbolLength <= 64 && (config.maxTokenSymbolLength == 0 || p.symbolLength <= config.maxTokenSymbolLength as int))
  {
    assert PartModel(Part(CreateToken, p), config) == CreateTokenModel(p, config);
  }

  lemma TokenRows(p: Params, config: GasConfig)
    requires p.count != Some(0) && PartModel(Part(CreateToken, p), config).Some?
    ensures var m := PartModel(Part(CreateToken, p), config).value;
            m.result == 8 && m.deleted == 0
            && m.created == Quanta(9 + p.tokenInfoBytes) + 1 + (if p.symbolLength > 0 then 1 else 0) + (if p.nonFungible then 1 else 0)
                            + (if p.hasPreBurn then 1 else 0) + (if p.hasInflationSchedule then 1 else 0)
  {
    assert PartModel(Part(CreateToken, p), config) == CreateTokenModel(p, config);
  }

  lemma SeriesPrice(p: Params, config: GasConfig)
    requires p.count != Some(0)
    ensures var m := PartModel(Part(CreateTokenSeries, p), config);
            m.Some? && m.value.result == 4 && m.value.deleted == 0
            && m.value.created == Quanta(13 + p.seriesInfoBytes) + (if Holds(p.facts.seriesHasMetaId) then 2 else 1)
            && (if config.version >= 1 then m.value.work == 0 && m.value.policy == config.policyFeeCreateTokenSeries
                else m.value.work == config.gasFeeCreateTokenSeries && m.value.policy == 0)
  {
  }

  /** A name has a price when it is not empty, within the chain's length and within 64 characters. */
  lemma NamePrice(p: Params, config: GasConfig)
    requires p.count != Some(0)
    ensures var m := PartModel(Part(RegisterName, p), config);
            (m.Some? <==> 1 <= p.nameLength <= 64 && (config.maxNameLength == 0 || p.nameLength <= config.maxNameLength as int))
            && (m.Some? ==>
                  m.value.result == m.value.created == m.value.deleted == 0
                  && (if config.version >= 1 then m.value.work == 0 && Halved(m.value.policy, config.policyFeeRegisterName, p.nameLength)
                      else m.value.policy == 0 && Halved(m.value.work, config.gasFeeRegisterName, p.nameLength)))
  {
    if 1 <= p.nameLength <= 64 {
      ShiftedIs(config.policyFeeRegisterName, p.nameLength);
      ShiftedIs(config.gasFeeRegisterName, p.nameLength);
    }
    assert PartModel(Part(RegisterName, p), config) == RegisterNameModel(p, config);
  }

  /** A script is priced at what it may spend: 5000 units, 512 event bytes and 4 rows where nothing is stated. */
  lemma ScriptPrice(p: Params, config: GasConfig)
    requires p.count != Some(0)
    ensures var m := PartModel(Part(Script, p), config);
            m.Some? && m.value.policy == 0 && m.value.deleted == 0
            && m.value.work == (match p.scriptUnitsAllowance case None => 5000 case Some(n) => n as nat)
            && m.value.result == (match p.scriptEventBytes case None => 512 case Some(n) => n as nat)
            && m.value.created == (match p.scriptStorageQuanta case None => 4 case Some(n) => n as nat)
  {
  }

  /** A count of zero is refused whatever the operation. */
  lemma ZeroRefused(part: Part, config: GasConfig)
    requires part.params.count == Some(0)
    ensures PartModel(part, config).None?
  {
  }

  // ----- how operations compare -----

  /** To the same recipient, a transfer, a mint and the transfer of one NFT are the same work. */
  lemma SameWork(p: Params, config: GasConfig)
    requires Counts(p, 1)
    ensures var a, b, c := PartModel(Part(TransferFungible, p), config), PartModel(Part(MintFungible, p), config), PartModel(Part(TransferNonFungible, p), config);
            a.Some? && b.Some? && c.Some? && a.value.work == b.value.work == c.value.work
  {
    TransferPrice(p, config);
    MintPrice(p, config);
    NftTransferPrice(p, config, 1);
  }

  /** An NFT as recipient costs one query more. */
  lemma InfusionCostsQuery(p: Params, config: GasConfig)
    requires p.count != Some(0) && !p.toIsNftAddress && config.gasFeeTransfer + config.gasFeeQuery <= U64_MAX
    ensures var a, b := PartModel(Part(TransferFungible, p), config), PartModel(Part(TransferFungible, p.(toIsNftAddress := true)), config);
            a.Some? && b.Some? && b.value == a.value.(work := a.value.work + config.gasFeeQuery)
  {
    TransferPrice(p, config);
    TransferPrice(p.(toIsNftAddress := true), config);
  }

  /** While nothing saturates, moving n NFTs to an ordinary address is n times the work of moving one. */
  lemma InstancesScale(p: Params, config: GasConfig, n: U32)
    requires n > 0 && !p.toIsNftAddress && n * config.gasFeeTransfer <= U64_MAX
    ensures var one, many := PartModel(Part(TransferNonFungible, p.(count := Some(1))), config), PartModel(Part(TransferNonFungible, p.(count := Some(n))), config);
            one.Some? && many.Some? && many.value.work == n * one.value.work
  {
    NftTransferPrice(p.(count := Some(1)), config, 1);
    NftTransferPrice(p.(count := Some(n)), config, n);
  }
}
