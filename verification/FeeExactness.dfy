/**
  What the `exact` mark of a plan does not see: readings of a mixed message that lie between the two it
  prices, and what the burner holds of the assets a burn returns.
 */
module FeeExactness {
  import opened Words
  import opened FeeArithmetic
  import opened FeeModel
  import opened FeeSettlement
  import opened FeeBounds
  import opened FeeHoldings
  import opened FeePlanning

  // ----- two readings that cancel out -----

  /** The burn of 24 gas-token NFTs, a token with 200 KiB of metadata and a mint of gas tokens. */
  function Trade(): seq<Part> {
    [Part(BurnNonFungible, DEFAULT.(tokenId := Some(1), count := Some(24))),
     Part(CreateToken, DEFAULT.(tokenInfoBytes := 204800)),
     Part(MintFungible, DEFAULT.(tokenId := Some(1)))]
  }

  const TRADE_OPTIONS := Options(None, UNSTATED, Some([]), None, None, None)

  function TradeBurn(f: Facts): Part {
    Part(BurnNonFungible, DEFAULT.(tokenId := Some(1), count := Some(24), infusions := Some([]), facts := f))
  }

  function TradeToken(): Part {
    Part(CreateToken, DEFAULT.(tokenInfoBytes := 204800))
  }

  function TradeMint(f: Facts): Part {
    Part(MintFungible, DEFAULT.(tokenId := Some(1), facts := f))
  }

  /** The trade with the facts of its burn and of its mint. */
  function Traded(burn: Facts, mint: Facts): seq<Part> {
    [TradeBurn(burn), TradeToken(), TradeMint(mint)]
  }

  lemma {:induction false} EqualRows(roms: seq<U32>, rams: seq<U32>, fixed: nat)
    requires |roms| == |rams| && forall i :: 0 <= i < |roms| ==> roms[i] == rams[i] == 0
    ensures AllRows(roms, rams, false, fixed) == |roms| * (1 + fixed)
  {
    if roms != [] {
      EqualRows(roms[1..], rams[1..], fixed);
      assert InstanceRows(0, 0, fixed) == 1 + fixed;
      assert (|roms| - 1) * (1 + fixed) + (1 + fixed) == |roms| * (1 + fixed);
    }
  }

  lemma TradeBurnModel(f: Facts)
    ensures PartModel(TradeBurn(f), PLAIN)
         == Some(Model(28800, 0, 0, 0, if Or(f.romHasMetaId, true) then 96 else 72))
  {
    var p := TradeBurn(f).params;
    var zeros := PerInstance(p.romBytes, 24).value;
    assert zeros == PerInstance(p.ramBytes, 24).value;
    var fixed := 2 + Quantum(Or(p.facts.romHasMetaId, true));
    EqualRows(zeros, zeros, fixed);
    assert Assets(p) == [] && Returned([], PLAIN) == Some(NOTHING);
    assert FreeRows(p.tokenId, PLAIN);
    assert PartModel(TradeBurn(f), PLAIN) == BurnNonFungibleModel(p, PLAIN, 24);
  }

  lemma TradeTokenModel()
    ensures PartModel(TradeToken(), PLAIN) == Some(Model(0, 0, 8, 202, 0))
  {
    var p := TradeToken().params;
    assert Quanta(9 + p.tokenInfoBytes) == 201;
    assert SymbolShift(p.symbolLength, PLAIN.maxTokenSymbolLength) == Some(0);
    assert PartModel(TradeToken(), PLAIN) == CreateTokenModel(p, PLAIN);
  }

  lemma TradeMintModel(f: Facts)
    ensures PartModel(TradeMint(f), PLAIN) == Some(Model(1000, 0, if Or(f.bigFungible, true) then 33 else 9, 0, 0))
  {
    assert FreeRows(TradeMint(f).params.tokenId, PLAIN);
  }

  lemma TradedTotal(burn: Facts, mint: Facts)
    ensures Models(Traded(burn, mint), PLAIN).Some?
    ensures TotalOf(Traded(burn, mint), PLAIN)
         == Model(29800, 0, if Or(mint.bigFungible, true) then 41 else 17, 202, if Or(burn.romHasMetaId, true) then 96 else 72)
  {
    TradeBurnModel(burn);
    TradeTokenModel();
    TradeMintModel(mint);
    ThreeParts(Traded(burn, mint), PLAIN);
  }

  lemma TradeBurnFits(f: Facts)
    ensures PartFits(TradeBurn(f), PLAIN)
  {
    TradeBurnModel(f);
  }

  lemma TradeTokenFits()
    ensures PartFits(TradeToken(), PLAIN)
  {
    TradeTokenModel();
  }

  lemma TradeMintFits(f: Facts)
    ensures PartFits(TradeMint(f), PLAIN)
  {
    TradeMintModel(f);
  }

  lemma TradedFits(burn: Facts, mint: Facts)
    ensures AllFit(Traded(burn, mint), PLAIN)
  {
    TradeBurnFits(burn);
    TradeTokenFits();
    TradeMintFits(mint);
  }

  lemma PlainQuote(t: Model)
    requires t.work <= 100000 && t.policy == 0 && t.result <= 100 && t.created <= 1000 && t.deleted <= 1000
    ensures var bill := t.work + 25 * (200 + Net(t.created, t.deleted) + t.result);
            Bill(t, PLAIN, Carrier(200, 0)) == bill && Offer(t, PLAIN, Carrier(200, 0)) == bill
    ensures Ceiling(t, PLAIN) == t.created
  {
    PlainScale(t.work + 25 * (200 + Net(t.created, t.deleted) + t.result));
  }

  /** The bill of the trade: its meta ids and its balance record each move it, in opposite directions. */
  lemma TradedQuote(burn: Facts, mint: Facts)
    ensures var e := EstimateBatch(Traded(burn, mint), PLAIN, Carrier(200, 0));
            var bytes := 200 + (if Or(burn.romHasMetaId, true) then 106 else 130) + (if Or(mint.bigFungible, true) then 41 else 17);
            e.Some? && e.value.bill == e.value.maxGas == 29800 + 25 * bytes && e.value.maxData == 202
  {
    TradedTotal(burn, mint);
    PlainQuote(TotalOf(Traded(burn, mint), PLAIN));
  }

  lemma TradePriced(o: Options)
    requires o.infusions == Some([])
    ensures Priced(Trade(), o) == Some(Traded(FactsFor(BurnNonFungible, o), FactsFor(MintFungible, o)))
  {
    var ps, due := Trade(), o.infusions;
    var f, g := FactsFor(BurnNonFungible, o), FactsFor(MintFungible, o);
    assert Dress(ps[0], o, due) == Some(TradeBurn(f));
    assert Dress(ps[1], o, due) == Some(TradeToken());
    assert Dress(ps[2], o, due) == Some(TradeMint(g));
    DressThree(ps, o, due, TradeBurn(f), TradeToken(), TradeMint(g));
  }

  lemma DressThree(ps: seq<Part>, o: Options, due: Option<seq<InfusedAsset>>, a: Part, b: Part, c: Part)
    requires |ps| == 3 && due == Some([])
    requires Dress(ps[0], o, due) == Some(a) && Dress(ps[1], o, due) == Some(b) && Dress(ps[2], o, due) == Some(c)
    ensures DressAll(ps, o, due) == Some([a, b, c])
  {
    var two := ps[1..];
    var one := two[1..];
    assert one[1..] == [] && DressAll(one[1..], o, due) == Some([]);
    assert one[0] == ps[2] && After(one[0], due) == due && [c] + [] == [c];
    assert DressAll(one, o, due) == Some([c]);
    assert two[0] == ps[1] && After(two[0], due) == due && [b] + [c] == [b, c];
    assert DressAll(two, o, due) == Some([b, c]);
    assert After(ps[0], due) == due && [a] + [b, c] == [a, b, c];
  }

  /** Two equal quotes make a plan exact. */
  lemma EqualQuotes(ps: seq<Part>, size: U32, config: GasConfig, o: Options, high: seq<Part>, low: seq<Part>, e: Estimate, f: Estimate)
    requires Priced(ps, o) == Some(high) && Priced(ps, Cheapest(o)) == Some(low) && !Budgeted(high)
    requires EstimateBatch(high, config, Carrier(size, 0)) == Some(e) && EstimateBatch(low, config, Carrier(size, 0)) == Some(f)
    requires SameQuote(f, e)
    ensures PlanParts(ps, size, config, o) == Some(Plan(KindsOf(high), true, size, e))
  {
  }

  lemma TradedDearest(f: Facts, g: Facts, f': Facts, g': Facts)
    ensures Dearest(Traded(f', g'), Traded(f, g)) == Traded(f.(romHasMetaId := f'.romHasMetaId), g)
  {
    var low, high := Traded(f', g'), Traded(f, g);
    forall i | 0 <= i < 3 ensures Dearest(low, high)[i] == Traded(f.(romHasMetaId := f'.romHasMetaId), g)[i] {
      assert high[i] == if i == 0 then TradeBurn(f) else if i == 1 then TradeToken() else TradeMint(g);
    }
  }

  /**
    Of a mixed message `exact` can be wrong: absent meta ids raise this bill by what the small balance
    record takes off it, the two readings that are priced agree, and one in between is billed 600 more.
   */
  lemma ExactUnsoundMixed()
    ensures var plan := PlanParts(Trade(), 200, PLAIN, TRADE_OPTIONS);
            var high, low := Priced(Trade(), TRADE_OPTIONS), Priced(Trade(), Cheapest(TRADE_OPTIONS));
            plan.Some? && plan.value.exact && high.Some? && low.Some? && AllFit(high.value, PLAIN) && UnderAll(low.value, high.value)
            && var qs := Dearest(low.value, high.value);
               UnderAll(low.value, qs) && UnderAll(qs, high.value)
               && EstimateBatch(qs, PLAIN, Carrier(200, 0)).Some?
               && EstimateBatch(qs, PLAIN, Carrier(200, 0)).value.bill == plan.value.estimate.bill + 600
  {
    var o, c := TRADE_OPTIONS, Cheapest(TRADE_OPTIONS);
    var f, g, f', g' := FactsFor(BurnNonFungible, o), FactsFor(MintFungible, o), FactsFor(BurnNonFungible, c), FactsFor(MintFungible, c);
    TradePriced(o);
    TradePriced(c);
    PricedCheaper(Trade(), o);
    TradePlan(o, f, g, f', g');
    TradedFits(f, g);
    ExtremesWithin(Traded(f', g'), Traded(f, g));
    TradedDearest(f, g, f', g');
    TradedQuote(f.(romHasMetaId := f'.romHasMetaId), g);
  }

  lemma TradePlan(o: Options, f: Facts, g: Facts, f': Facts, g': Facts)
    requires Priced(Trade(), o) == Some(Traded(f, g)) && Priced(Trade(), Cheapest(o)) == Some(Traded(f', g'))
    requires Or(f.romHasMetaId, true) && Or(g.bigFungible, true) && !Or(f'.romHasMetaId, true) && !Or(g'.bigFungible, true)
    ensures var plan := PlanParts(Trade(), 200, PLAIN, o);
            plan.Some? && plan.value.exact && plan.value.estimate.bill == 29800 + 25 * 347
  {
    TradedQuote(f, g);
    TradedQuote(f', g');
    EqualQuotes(Trade(), 200, PLAIN, o, Traded(f, g), Traded(f', g'), EstimateBatch(Traded(f, g), PLAIN, Carrier(200, 0)).value,
                EstimateBatch(Traded(f', g'), PLAIN, Carrier(200, 0)).value);
  }

  // ----- the fact that `exact` does not ask about -----

  /** The same options, the burner's holdings read anew. */
  predicate OnlyHoldings(p: Options, o: Options) {
    p == o.(infusions := p.infusions) && SameDue(p.infusions, o.infusions)
  }

  predicate SameDue(xs: Option<seq<InfusedAsset>>, ys: Option<seq<InfusedAsset>>) {
    xs.Some? == ys.Some? && SameAssets(Or(xs, []), Or(ys, []))
  }

  function ReadDue(due: Option<seq<InfusedAsset>>, held: bool): Option<seq<InfusedAsset>> {
    if due.None? then None else Some(ReadAssets(due.value, held))
  }

  function ReadOptions(o: Options, held: bool): Options {
    o.(infusions := ReadDue(o.infusions, held))
  }

  lemma ReadOptionsSame(o: Options, held: bool)
    ensures OnlyHoldings(ReadOptions(o, held), o)
  {
  }

  lemma DressHoldings(part: Part, p: Options, o: Options, xs: Option<seq<InfusedAsset>>, ys: Option<seq<InfusedAsset>>)
    requires p == o.(infusions := p.infusions) && SameDue(xs, ys)
    ensures Dress(part, p, xs).Some? == Dress(part, o, ys).Some?
    ensures Dress(part, o, ys).Some? ==> SameHere(Dress(part, p, xs).value, Dress(part, o, ys).value)
  {
    assert FactsFor(part.kind, p) == FactsFor(part.kind, o);
    if !part.kind.BurnNonFungible? && Dress(part, o, ys).Some? {
      assert Dress(part, p, xs) == Dress(part, o, ys);
      SameSelf(Dress(part, o, ys).value);
    }
  }

  /** Reading the holdings anew changes the assets of the operations that are priced, and nothing else. */
  lemma {:induction false} DressAllHoldings(ps: seq<Part>, p: Options, o: Options, xs: Option<seq<InfusedAsset>>, ys: Option<seq<InfusedAsset>>)
    requires p == o.(infusions := p.infusions) && SameDue(xs, ys)
    ensures DressAll(ps, p, xs).Some? == DressAll(ps, o, ys).Some?
    ensures DressAll(ps, o, ys).Some? ==> OnlyHoldingsDiffer(DressAll(ps, p, xs).value, DressAll(ps, o, ys).value)
  {
    if ps != [] {
      DressHoldings(ps[0], p, o, xs, ys);
      DressAllHoldings(ps[1..], p, o, After(ps[0], xs), After(ps[0], ys));
      if DressAll(ps, o, ys).Some? {
        HoldingCons(Dress(ps[0], p, xs).value, DressAll(ps[1..], p, After(ps[0], xs)).value,
                    Dress(ps[0], o, ys).value, DressAll(ps[1..], o, After(ps[0], ys)).value);
      }
    }
  }

  lemma HoldingCons(q: Part, qs: seq<Part>, p: Part, ps: seq<Part>)
    requires SameHere(q, p) && OnlyHoldingsDiffer(qs, ps)
    ensures OnlyHoldingsDiffer([q] + qs, [p] + ps)
  {
    var cs, bs := [q] + qs, [p] + ps;
    forall i | 0 <= i < |bs| ensures SameHere(cs[i], bs[i]) {
      assert i > 0 ==> SameHere(qs[i - 1], ps[i - 1]);
    }
  }

  lemma DressRead(part: Part, o: Options, due: Option<seq<InfusedAsset>>, held: bool)
    ensures Dress(part, ReadOptions(o, held), ReadDue(due, held)) ==
            if Dress(part, o, due).None? then None else Some(ReadPart(Dress(part, o, due).value, held))
  {
    assert FactsFor(part.kind, ReadOptions(o, held)) == FactsFor(part.kind, o);
  }

  lemma {:induction false} DressAllRead(ps: seq<Part>, o: Options, due: Option<seq<InfusedAsset>>, held: bool)
    ensures DressAll(ps, ReadOptions(o, held), ReadDue(due, held)) ==
            if DressAll(ps, o, due).None? then None else Some(ReadAll(DressAll(ps, o, due).value, held))
  {
    if ps != [] {
      DressRead(ps[0], o, due, held);
      DressAllRead(ps[1..], o, After(ps[0], due), held);
      assert ReadAssets([], held) == [] && After(ps[0], ReadDue(due, held)) == ReadDue(After(ps[0], due), held);
    }
  }

  /** Every reading of what the burner holds gives a plan with this quote. */
  ghost predicate AllHoldingsQuote(ps: seq<Part>, size: U32, config: GasConfig, o: Options, quote: Estimate) {
    forall p | OnlyHoldings(p, o) :: PlanParts(ps, size, config, p).Some? && SameQuote(PlanParts(ps, size, config, p).value.estimate, quote)
  }

  /** A plan's quote ignores the holdings exactly when all held and all missing are quoted alike, under any setting. */
  lemma PlanIgnoresHoldings(ps: seq<Part>, size: U32, config: GasConfig, o: Options, parts: seq<Part>)
    requires PlanParts(ps, size, config, o).Some? && Priced(ps, o) == Some(parts) && AllFit(ReadAll(parts, false), config)
    ensures EstimateBatch(ReadAll(parts, true), config, Carrier(size, 0)).Some?
    ensures EstimateBatch(ReadAll(parts, false), config, Carrier(size, 0)).Some?
    ensures AllHoldingsQuote(ps, size, config, o, PlanParts(ps, size, config, o).value.estimate)
       <==> SameQuote(EstimateBatch(ReadAll(parts, true), config, Carrier(size, 0)).value,
                      EstimateBatch(ReadAll(parts, false), config, Carrier(size, 0)).value)
  {
    var carrier, quote := Carrier(size, 0), PlanParts(ps, size, config, o).value.estimate;
    PlanEstimate(ps, size, config, o);
    SamesSelf(parts);
    HoldingBetween(parts, parts, config, carrier);
    if AllHoldingsQuote(ps, size, config, o, quote) {
      ExtremePlan(ps, size, config, o, true);
      ExtremePlan(ps, size, config, o, false);
    }
    if SameQuote(EstimateBatch(ReadAll(parts, true), config, carrier).value, EstimateBatch(ReadAll(parts, false), config, carrier).value) {
      forall p | OnlyHoldings(p, o)
        ensures PlanParts(ps, size, config, p).Some? && SameQuote(PlanParts(ps, size, config, p).value.estimate, quote)
      {
        ReadPlan(ps, size, config, p, o);
        HoldingBetween(Priced(ps, p).value, parts, config, carrier);
      }
    }
  }

  lemma PlanEstimate(ps: seq<Part>, size: U32, config: GasConfig, o: Options)
    requires PlanParts(ps, size, config, o).Some?
    ensures Priced(ps, o).Some?
    ensures EstimateBatch(Priced(ps, o).value, config, Carrier(size, 0)) == Some(PlanParts(ps, size, config, o).value.estimate)
  {
  }

  lemma ExtremePlan(ps: seq<Part>, size: U32, config: GasConfig, o: Options, held: bool)
    requires PlanParts(ps, size, config, o).Some?
    ensures var p := ReadOptions(o, held);
            OnlyHoldings(p, o) && PlanParts(ps, size, config, p).Some?
            && EstimateBatch(ReadAll(Priced(ps, o).value, held), config, Carrier(size, 0)) == Some(PlanParts(ps, size, config, p).value.estimate)
  {
    ReadOptionsSame(o, held);
    ReadPlan(ps, size, config, ReadOptions(o, held), o);
    DressAllRead(ps, o, o.infusions, held);
  }

  lemma ReadPlan(ps: seq<Part>, size: U32, config: GasConfig, p: Options, o: Options)
    requires PlanParts(ps, size, config, o).Some? && OnlyHoldings(p, o)
    ensures Priced(ps, p).Some? && OnlyHoldingsDiffer(Priced(ps, p).value, Priced(ps, o).value)
    ensures PlanParts(ps, size, config, p).Some?
    ensures EstimateBatch(Priced(ps, p).value, config, Carrier(size, 0)) == Some(PlanParts(ps, size, config, p).value.estimate)
  {
    DressAllHoldings(ps, p, o, p.infusions, o.infusions);
    PlanEstimate(ps, size, config, o);
    HoldingModels(Priced(ps, p).value, Priced(ps, o).value, config);
    PlansExactlyWhen(ps, size, config, p);
    PlanEstimate(ps, size, config, p);
  }

  /**
    A plan that does not mix NFT burns with other operations, or frees at least all it could create, is
    free of the holdings exactly when rows cost no escrow or every returned asset is the gas or data token.
   */
  lemma PlanFreeOfHoldingsExactlyWhen(ps: seq<Part>, size: U32, config: GasConfig, o: Options)
    requires PlanParts(ps, size, config, o).Some? && AllFit(ReadAll(Priced(ps, o).value, false), config)
    requires Unmixed(Priced(ps, o).value) || HoldingsHidden(Priced(ps, o).value, config)
    requires ReadTotal(Priced(ps, o).value, false, config).created <= U32_MAX
    requires Ceiling(ReadTotal(Priced(ps, o).value, false, config), config) < U64_MAX
    ensures AllHoldingsQuote(ps, size, config, o, PlanParts(ps, size, config, o).value.estimate)
       <==> config.dataEscrowPerRow == 0 || AllHoldingRows(Priced(ps, o).value, config) == 0
  {
    var parts := Priced(ps, o).value;
    if Unmixed(parts) {
      UnmixedHides(parts, config);
    }
    PlanIgnoresHoldings(ps, size, config, o, parts);
    ExtremesAgreeExactlyWhen(parts, config, Carrier(size, 0));
  }

  /** The burn of one NFT of the gas token that returns one fungible token, held by the burner or not. */
  function GasTokenBurn(config: GasConfig): seq<Part> {
    [Part(BurnNonFungible, DEFAULT.(tokenId := Some(config.gasTokenId), count := Some(1)))]
  }

  function Returning(held: bool): Options {
    Options(None, UNSTATED, Some([InfusedAsset(None, false, None, held)]), None, None, None)
  }

  function GasTokenPart(held: bool, facts: Facts, config: GasConfig): Part {
    Part(BurnNonFungible, DEFAULT.(tokenId := Some(config.gasTokenId), count := Some(1),
                                   infusions := Some([InfusedAsset(None, false, None, held)]), facts := facts))
  }

  function GasTokenWork(config: GasConfig): nat {
    Sat64(OneBurnWork(config) + Sat64(config.gasFeeTransfer + config.gasFeeQuery))
  }

  /** The gas token's own rows are free, so the returned token's balance row is all that is created. */
  lemma GasTokenModel(held: bool, facts: Facts, config: GasConfig)
    ensures var m := PartModel(GasTokenPart(held, facts, config), config);
            m.Some? && m.value.deleted >= 1
            && m.value == Model(GasTokenWork(config), 0, 0, if held then 0 else 1, m.value.deleted)
  {
    var p := GasTokenPart(held, facts, config).params;
    ReturnedOne(held, config);
    assert Or(p.infusions, []) == [InfusedAsset(None, false, None, held)] && Or(p.count, 1) == 1;
    assert PartModel(GasTokenPart(held, facts, config), config) == BurnNonFungibleModel(p, config, 1);
  }

  lemma GasTokenSettles(held: bool, facts: Facts, size: U32, config: GasConfig)
    requires size > 0
    ensures var e := EstimateBatch([GasTokenPart(held, facts, config)], config, Carrier(size, 0));
            var t := Model(GasTokenWork(config), 0, 0, 0, 0);
            e.Some? && e.value.maxData == (if held then 0 else config.dataEscrowPerRow)
            && e.value.bill == Bill(t, config, Carrier(size, 0)) && e.value.maxGas == Offer(t, config, Carrier(size, 0))
  {
    var ps := [GasTokenPart(held, facts, config)];
    GasTokenModel(held, facts, config);
    OnePart(ps, config);
    NoGrowth(TotalOf(ps, config), config, Carrier(size, 0));
  }

  lemma OnePart(ps: seq<Part>, config: GasConfig)
    requires |ps| == 1 && PartModel(ps[0], config).Some?
    ensures Models(ps, config).Some? && TotalOf(ps, config) == PartModel(ps[0], config).value
  {
    ModelsTail(ps, config);
    assert ps[1..] == [];
  }

  lemma GasTokenPriced(held: bool, o: Options, config: GasConfig)
    requires o.infusions == Some([InfusedAsset(None, false, None, held)])
    ensures Priced(GasTokenBurn(config), o) == Some([GasTokenPart(held, FactsFor(BurnNonFungible, o), config)])
  {
    var ps := GasTokenBurn(config);
    assert ps[1..] == [] && DressAll(ps[1..], o, Some([])) == Some([]);
    var part := GasTokenPart(held, FactsFor(BurnNonFungible, o), config);
    assert Dress(ps[0], o, o.infusions) == Some(part);
    assert [part] + [] == [part];
  }

  /**
    A plan can be exact and its ceiling still rest on what the burner holds: the second pricing does not
    flip that fact. Bill and offer are the same either way.
   */
  lemma ExactMissesHoldings(size: U32, config: GasConfig)
    requires size > 0 && config.dataEscrowPerRow > 0
    ensures var ps := GasTokenBurn(config);
            var missing, held := PlanParts(ps, size, config, Returning(false)), PlanParts(ps, size, config, Returning(true));
            missing.Some? && held.Some? && missing.value.exact && held.value.exact
            && held.value.estimate.maxData < missing.value.estimate.maxData
            && held.value.estimate.bill == missing.value.estimate.bill
            && held.value.estimate.maxGas == missing.value.estimate.maxGas
  {
    GasTokenPlan(false, size, config);
    GasTokenPlan(true, size, config);
  }

  lemma GasTokenPlan(held: bool, size: U32, config: GasConfig)
    requires size > 0
    ensures var plan := PlanParts(GasTokenBurn(config), size, config, Returning(held));
            var t := Model(GasTokenWork(config), 0, 0, 0, 0);
            plan.Some? && plan.value.exact
            && plan.value.estimate.maxData == (if held then 0 else config.dataEscrowPerRow)
            && plan.value.estimate.bill == Bill(t, config, Carrier(size, 0))
            && plan.value.estimate.maxGas == Offer(t, config, Carrier(size, 0))
  {
    var o := Returning(held);
    GasTokenPriced(held, o, config);
    GasTokenPriced(held, Cheapest(o), config);
    GasTokenSettles(held, FactsFor(BurnNonFungible, o), size, config);
    GasTokenSettles(held, FactsFor(BurnNonFungible, Cheapest(o)), size, config);
  }
}
