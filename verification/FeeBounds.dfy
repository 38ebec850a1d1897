/**
  What the costlier defaults promise: pricing a batch with facts left unstated never quotes less than
  any facts would, and exactly when NFT burns in a mixed batch break that.
 */
module FeeBounds {
  import opened Words
  import opened FeeArithmetic
  import opened FeeModel
  import opened FeeSettlement

  /** Every fact of `f` reads as in `g`, or as the case that costs less. */
  predicate Cheaper(f: Facts, g: Facts) {
    (g.recipientHoldsToken ==> f.recipientHoldsToken) && (g.tokenBurnedBefore ==> f.tokenBurnedBefore)
    && (g.supplyRowExists ==> f.supplyRowExists) && (Or(f.bigFungible, true) ==> Or(g.bigFungible, true))
    && (Or(f.seriesHasMetaId, true) ==> Or(g.seriesHasMetaId, true))
    && (Or(f.romHasMetaId, true) ==> Or(g.romHasMetaId, true))
    && (Or(f.duplicatedSeries, true) ==> Or(g.duplicatedSeries, true))
  }

  lemma UnstatedIsDearest(f: Facts)
    ensures Cheaper(f, UNSTATED)
  {
  }

  // ----- the fact an infused asset carries -----

  /** The same asset, the burner's holding read anew. */
  predicate SameAsset(a: InfusedAsset, b: InfusedAsset) {
    a == b.(burnerHoldsToken := a.burnerHoldsToken)
  }

  predicate SameAssets(xs: seq<InfusedAsset>, ys: seq<InfusedAsset>) {
    |xs| == |ys| && forall i :: 0 <= i < |ys| ==> SameAsset(xs[i], ys[i])
  }

  /** Nothing the burner is read as holding on the right is read as missing on the left. */
  predicate HeldUnder(xs: seq<InfusedAsset>, ys: seq<InfusedAsset>) {
    |xs| == |ys| && forall i :: 0 <= i < |ys| ==> ys[i].burnerHoldsToken ==> xs[i].burnerHoldsToken
  }

  function Assets(p: Params): seq<InfusedAsset> { Or(p.infusions, []) }

  /** The same operation, its facts of chain state and of infused assets read anew. */
  predicate SameOperation(q: Params, p: Params) {
    q == p.(facts := q.facts, infusions := q.infusions)
    && q.infusions.Some? == p.infusions.Some? && SameAssets(Assets(q), Assets(p))
  }

  predicate ParamsUnder(q: Params, p: Params) {
    SameOperation(q, p) && Cheaper(q.facts, p.facts) && HeldUnder(Assets(q), Assets(p))
  }

  predicate Under(q: Part, p: Part) {
    q.kind == p.kind && ParamsUnder(q.params, p.params)
  }

  /** The same operations with facts chosen anew, none of them costlier, independently for each part and asset. */
  predicate UnderAll(qs: seq<Part>, ps: seq<Part>) {
    |qs| == |ps| && forall i :: 0 <= i < |ps| ==> Under(qs[i], ps[i])
  }

  function Count(p: Part): U32 { Or(p.params.count, 1) }

  /** The meta-id rows an NFT burn is taken to delete. */
  function MetaRows(p: Part): nat {
    if p.kind.BurnNonFungible? && Or(p.params.facts.romHasMetaId, true) then Count(p) else 0
  }

  function AllMetaRows(ps: seq<Part>): nat {
    if ps == [] then 0 else MetaRows(ps[0]) + AllMetaRows(ps[1..])
  }

  // ----- one operation -----

  lemma {:induction false} AllRowsFixed(roms: seq<U32>, rams: seq<U32>, canonical: bool, fixed: nat)
    requires |roms| == |rams|
    ensures AllRows(roms, rams, canonical, fixed + 1) == AllRows(roms, rams, canonical, fixed) + |roms|
  {
    if roms != [] {
      AllRowsFixed(roms[1..], rams[1..], canonical, fixed);
    }
  }

  lemma AllRowsLeast(roms: seq<U32>, rams: seq<U32>, canonical: bool, fixed: nat)
    requires |roms| == |rams| && roms != []
    ensures AllRows(roms, rams, canonical, fixed) >= fixed
  {
  }

  lemma PhantasmaWorkCheaper(q: Params, p: Params, config: GasConfig, count: nat, series: nat)
    requires SameOperation(q, p)
    ensures PhantasmaWork(q, config, count, false, 0) <= PhantasmaWork(p, config, count, true, series)
  {
    var a := Sat64(config.gasFeeTransfer + Sat64(config.gasFeeQuery * 2));
    var b := Sat64(config.gasFeeTransfer + Sat64(config.gasFeeQuery * 3));
    MulMonotone(a, b, count);
    Product(config.gasFeeQuery, series);
  }

  lemma MintCheaper(q: Params, p: Params, config: GasConfig, count: nat)
    requires ParamsUnder(q, p)
    requires MintNonFungibleModel(p, config, count).Some?
    ensures MintNonFungibleModel(q, config, count).Some?
    ensures NoDearer(MintNonFungibleModel(q, config, count).value, MintNonFungibleModel(p, config, count).value)
  {
    AllRowsFixed(PerInstance(p.romBytes, count).value, PerInstance(p.ramBytes, count).value, false, 2);
  }

  lemma PhantasmaCheaper(q: Params, p: Params, config: GasConfig, count: nat)
    requires ParamsUnder(q, p)
    requires MintPhantasmaModel(p, config, count).Some?
    ensures MintPhantasmaModel(q, config, count).Some?
    ensures NoDearer(MintPhantasmaModel(q, config, count).value, MintPhantasmaModel(p, config, count).value)
  {
    if Or(p.facts.duplicatedSeries, true) && !Or(q.facts.duplicatedSeries, true) {
      PhantasmaWorkCheaper(q, p, config, count, DistinctSeries(p, count).value);
    }
  }

  lemma {:induction false} ReturnedCheaper(xs: seq<InfusedAsset>, ys: seq<InfusedAsset>, config: GasConfig)
    requires SameAssets(xs, ys) && Returned(ys, config).Some?
    ensures Returned(xs, config).Some?
    ensures var m, n := Returned(xs, config).value, Returned(ys, config).value;
            m.work == n.work && m.deleted == n.deleted && (HeldUnder(xs, ys) ==> m.created <= n.created)
  {
    if ys != [] {
      AssetCheaper(xs[0], ys[0], config);
      ReturnedCheaper(xs[1..], ys[1..], config);
    }
  }

  lemma AssetCheaper(a: InfusedAsset, b: InfusedAsset, config: GasConfig)
    requires SameAsset(a, b) && AssetModel(b, config).Some?
    ensures AssetModel(a, config).Some?
    ensures var m, n := AssetModel(a, config).value, AssetModel(b, config).value;
            m.work == n.work && m.deleted == n.deleted
            && ((b.burnerHoldsToken ==> a.burnerHoldsToken) ==> m.created <= n.created)
  {
  }

  lemma BurnCheaper(q: Params, p: Params, config: GasConfig, count: nat)
    requires ParamsUnder(q, p)
    requires BurnNonFungibleModel(p, config, count).Some?
    ensures BurnNonFungibleModel(q, config, count).Some?
    ensures var m, n := BurnNonFungibleModel(q, config, count).value, BurnNonFungibleModel(p, config, count).value;
            NoDearer(m, n)
            && m.deleted + (if Or(p.facts.romHasMetaId, true) then count else 0)
            == n.deleted + (if Or(q.facts.romHasMetaId, true) then count else 0)
  {
    ReturnedCheaper(Assets(q), Assets(p), config);
    AllRowsFixed(PerInstance(p.romBytes, count).value, PerInstance(p.ramBytes, count).value, false, 2);
  }

  lemma CreateTokenSame(q: Params, p: Params, config: GasConfig)
    requires SameOperation(q, p)
    ensures CreateTokenModel(q, config) == CreateTokenModel(p, config)
  {
  }

  lemma RegisterNameSame(q: Params, p: Params, config: GasConfig)
    requires SameOperation(q, p)
    ensures RegisterNameModel(q, config) == RegisterNameModel(p, config)
  {
  }

  lemma TransferCheaper(q: Params, p: Params, config: GasConfig, count: nat)
    requires ParamsUnder(q, p)
    ensures NoDearer(TransferNonFungibleModel(q, config, count), TransferNonFungibleModel(p, config, count))
    ensures TransferNonFungibleModel(q, config, count).deleted == TransferNonFungibleModel(p, config, count).deleted
  {
  }

  lemma FungibleCheaper(kind: Kind, q: Params, p: Params, config: GasConfig, count: nat)
    requires ParamsUnder(q, p)
    requires kind.TransferFungible? || kind.MintFungible? || kind.BurnFungible? || kind.Script?
    ensures var m, n := OperationModel(kind, q, config, count).value, OperationModel(kind, p, config, count).value;
            NoDearer(m, n) && m.deleted == n.deleted
  {
  }

  lemma SeriesCheaper(q: Params, p: Params, config: GasConfig)
    requires ParamsUnder(q, p)
    ensures NoDearer(CreateSeriesModel(q, config), CreateSeriesModel(p, config))
  {
  }

  /**
    Cheaper facts never cost more, never fail where costlier ones succeed, delete the same rows bar meta
    ids, and overflow no 32-bit sum that the costlier ones do not.
   */
  lemma PartCheaper(q: Part, p: Part, config: GasConfig)
    requires Under(q, p) && PartModel(p, config).Some?
    ensures PartModel(q, config).Some? && NoDearer(PartModel(q, config).value, PartModel(p, config).value)
    ensures PartModel(q, config).value.deleted + MetaRows(p) == PartModel(p, config).value.deleted + MetaRows(q)
    ensures PartFits(p, config) ==> PartFits(q, config)
  {
    match p.kind {
      case MintNonFungible => MintCheaper(q.params, p.params, config, Count(p));
      case MintPhantasmaNonFungible => PhantasmaCheaper(q.params, p.params, config, Count(p));
      case BurnNonFungible => BurnCheaper(q.params, p.params, config, Count(p));
      case TransferNonFungible => TransferCheaper(q.params, p.params, config, Count(p));
      case CreateToken => CreateTokenSame(q.params, p.params, config);
      case CreateTokenSeries => SeriesCheaper(q.params, p.params, config);
      case RegisterName => RegisterNameSame(q.params, p.params, config);
      case _ => FungibleCheaper(p.kind, q.params, p.params, config, Count(p));
    }
  }

  // ----- NFT burns -----

  lemma {:induction false} ReturnedNet(assets: seq<InfusedAsset>, config: GasConfig)
    requires Returned(assets, config).Some?
    ensures Returned(assets, config).value.created <= Returned(assets, config).value.deleted
  {
    if assets != [] {
      ReturnedNet(assets[1..], config);
    }
  }

  /**
    Any count, any infused assets: a burn deletes at least what it creates, meta-id rows aside; and the
    source's 32-bit counters say so too while they do not overflow.
   */
  lemma BurnFreesMore(p: Part, config: GasConfig)
    requires p.kind.BurnNonFungible? && PartModel(p, config).Some?
    ensures PartModel(p, config).value.created + MetaRows(p) <= PartModel(p, config).value.deleted
    ensures PartFits(p, config) ==> Wrap(PartModel(p, config).value) == PartModel(p, config).value
  {
    var roms, rams := PerInstance(p.params.romBytes, Count(p)).value, PerInstance(p.params.ramBytes, Count(p)).value;
    AllRowsFixed(roms, rams, false, 2);
    AllRowsLeast(roms, rams, false, 2);
    ReturnedNet(Or(p.params.infusions, []), config);
  }

  // ----- batches -----

  function TotalOf(ps: seq<Part>, config: GasConfig): Model
    requires Models(ps, config).Some?
  {
    Total(Models(ps, config).value)
  }

  lemma ModelsTail(ps: seq<Part>, config: GasConfig)
    requires ps != [] && Models(ps, config).Some?
    ensures PartModel(ps[0], config).Some? && Models(ps[1..], config).Some?
    ensures TotalOf(ps, config) == Plus(PartModel(ps[0], config).value, TotalOf(ps[1..], config))
  {
    var models := Models(ps, config).value;
    assert models == [PartModel(ps[0], config).value] + Models(ps[1..], config).value;
    assert models[1..] == Models(ps[1..], config).value;
  }

  lemma {:induction false} BatchCheaper(qs: seq<Part>, ps: seq<Part>, config: GasConfig)
    requires UnderAll(qs, ps) && Models(ps, config).Some?
    ensures Models(qs, config).Some? && NoDearer(TotalOf(qs, config), TotalOf(ps, config))
    ensures TotalOf(qs, config).deleted + AllMetaRows(ps) == TotalOf(ps, config).deleted + AllMetaRows(qs)
    ensures AllMetaRows(qs) <= AllMetaRows(ps)
  {
    if ps != [] {
      ModelsTail(ps, config);
      PartCheaper(qs[0], ps[0], config);
      BatchCheaper(qs[1..], ps[1..], config);
      ModelsHead(qs, config);
      ModelsTail(qs, config);
    }
  }

  lemma ModelsHead(ps: seq<Part>, config: GasConfig)
    requires ps != [] && PartModel(ps[0], config).Some? && Models(ps[1..], config).Some?
    ensures Models(ps, config).Some?
  {
  }

  /** No 32-bit sum of any part overflows. */
  predicate AllFit(ps: seq<Part>, config: GasConfig) {
    forall i :: 0 <= i < |ps| ==> PartFits(ps[i], config)
  }

  lemma CheaperFit(qs: seq<Part>, ps: seq<Part>, config: GasConfig)
    requires UnderAll(qs, ps) && Models(ps, config).Some? && AllFit(ps, config)
    ensures AllFit(qs, config)
  {
    forall i | 0 <= i < |qs| ensures PartFits(qs[i], config) {
      assert Under(qs[i], ps[i]) && PartFits(ps[i], config);
      PartCheaper(qs[i], ps[i], config);
    }
  }

  /** The storage a batch frees besides meta-id rows already outweighs what it creates, or there are no such rows. */
  predicate Covered(ps: seq<Part>, config: GasConfig)
    requires Models(ps, config).Some?
  {
    AllMetaRows(ps) == 0 || TotalOf(ps, config).created + AllMetaRows(ps) <= TotalOf(ps, config).deleted
  }

  predicate Unmixed(ps: seq<Part>) {
    (forall p <- ps :: p.kind.BurnNonFungible?) || (forall p <- ps :: !p.kind.BurnNonFungible?)
  }

  lemma {:induction false} BurnsCovered(ps: seq<Part>, config: GasConfig)
    requires Models(ps, config).Some? && forall p <- ps :: p.kind.BurnNonFungible?
    ensures TotalOf(ps, config).created + AllMetaRows(ps) <= TotalOf(ps, config).deleted
  {
    if ps != [] {
      ModelsTail(ps, config);
      BurnFreesMore(ps[0], config);
      BurnsCovered(ps[1..], config);
    }
  }

  lemma {:induction false} NoBurnsNoMeta(ps: seq<Part>)
    requires forall p <- ps :: !p.kind.BurnNonFungible?
    ensures AllMetaRows(ps) == 0
  {
    if ps != [] {
      NoBurnsNoMeta(ps[1..]);
    }
  }

  /** Batches that do not mix NFT burns with other operations are covered. */
  lemma UnmixedCovered(ps: seq<Part>, config: GasConfig)
    requires Models(ps, config).Some? && Unmixed(ps)
    ensures Covered(ps, config)
  {
    if forall p <- ps :: p.kind.BurnNonFungible? {
      BurnsCovered(ps, config);
    } else {
      NoBurnsNoMeta(ps);
    }
  }

  lemma NetCovered(cq: nat, dq: nat, mq: nat, cp: nat, dp: nat, mp: nat)
    requires cq <= cp && dq + mp == dp + mq && mq <= mp
    requires mp == 0 || cp + mp <= dp || mq == mp
    ensures Net(cq, dq) <= Net(cp, dp)
  {
  }

  /**
    The quote under any facts, chosen part by part and asset by asset, is bounded by the costlier one
    wherever its 32-bit sums fit: the ceiling always, the bill and the offer when the batch is covered or
    no meta-id reading changes. The sums of the cheaper quote fit too.
   */
  lemma QuoteDominates(qs: seq<Part>, ps: seq<Part>, config: GasConfig, carrier: Carrier)
    requires UnderAll(qs, ps) && EstimateBatch(ps, config, carrier).Some? && AllFit(ps, config)
    ensures EstimateBatch(qs, config, carrier).Some? && AllFit(qs, config)
    ensures var e, f := EstimateBatch(qs, config, carrier).value, EstimateBatch(ps, config, carrier).value;
            e.maxData <= f.maxData && e.newQuanta <= f.newQuanta
            && (Covered(ps, config) || AllMetaRows(qs) == AllMetaRows(ps) ==> e.bill <= f.bill && e.maxGas <= f.maxGas)
  {
    CheaperFit(qs, ps, config);
    BatchCheaper(qs, ps, config);
    var q, p := TotalOf(qs, config), TotalOf(ps, config);
    CeilingMonotone(q, p, config);
    if Covered(ps, config) || AllMetaRows(qs) == AllMetaRows(ps) {
      NetCovered(q.created, q.deleted, AllMetaRows(qs), p.created, p.deleted, AllMetaRows(ps));
      SettleMonotone(q, p, config, carrier);
    }
  }

  predicate SameIds(qs: seq<Part>, ps: seq<Part>) {
    |qs| == |ps| && forall i :: 0 <= i < |ps| ==> Or(qs[i].params.facts.romHasMetaId, true) == Or(ps[i].params.facts.romHasMetaId, true)
  }

  lemma {:induction false} FixedIds(qs: seq<Part>, ps: seq<Part>)
    requires UnderAll(qs, ps) && SameIds(qs, ps)
    ensures AllMetaRows(qs) == AllMetaRows(ps)
  {
    if ps != [] {
      assert Under(qs[0], ps[0]);
      FixedIds(qs[1..], ps[1..]);
    }
  }

  /** Every fact of chain state unstated and nothing returned by a burn read as held by the burner. */
  predicate Unstated(p: Part) {
    p.params.facts == UNSTATED && forall a <- Assets(p.params) :: !a.burnerHoldsToken
  }

  /** The same operations, each fact read in any way. */
  predicate Restated(qs: seq<Part>, ps: seq<Part>) {
    |qs| == |ps| && forall i :: 0 <= i < |ps| ==> qs[i].kind == ps[i].kind && SameOperation(qs[i].params, ps[i].params)
  }

  /** The defaults over-cover: leaving every fact unstated bounds every other reading of an unmixed batch. */
  lemma DefaultsOverCover(qs: seq<Part>, ps: seq<Part>, config: GasConfig, carrier: Carrier)
    requires Restated(qs, ps) && (forall i :: 0 <= i < |ps| ==> Unstated(ps[i]))
    requires EstimateBatch(ps, config, carrier).Some? && AllFit(ps, config)
    ensures EstimateBatch(qs, config, carrier).Some? && AllFit(qs, config)
    ensures var e, f := EstimateBatch(qs, config, carrier).value, EstimateBatch(ps, config, carrier).value;
            e.maxData <= f.maxData
            && (Unmixed(ps) || SameIds(qs, ps) ==> e.bill <= f.bill && e.maxGas <= f.maxGas)
  {
    forall i | 0 <= i < |ps| ensures Under(qs[i], ps[i]) {
      UnstatedIsDearest(qs[i].params.facts);
      NothingHeld(qs[i].params, ps[i]);
    }
    QuoteDominates(qs, ps, config, carrier);
    if Unmixed(ps) {
      UnmixedCovered(ps, config);
    } else if SameIds(qs, ps) {
      FixedIds(qs, ps);
    }
  }

  lemma NothingHeld(q: Params, p: Part)
    requires SameOperation(q, p.params) && Unstated(p)
    ensures HeldUnder(Assets(q), Assets(p.params))
  {
    forall i | 0 <= i < |Assets(p.params)| ensures !Assets(p.params)[i].burnerHoldsToken {
      assert Assets(p.params)[i] in Assets(p.params);
    }
  }

  /** Where 32 bits do not suffice, a cheaper fact can raise the ceiling: the costlier row count wraps to zero. */
  lemma CeilingCanWrap(config: GasConfig)
    requires config.dataEscrowPerRow > 0
    ensures var p := Part(TransferNonFungible, DEFAULT.(count := Some(U32_MAX)));
            var q := Part(TransferNonFungible, p.params.(facts := UNSTATED.(recipientHoldsToken := true)));
            Under(q, p) && PartModel(p, config).Some? && PartModel(q, config).Some?
            && !PartFits(p, config) && PartFits(q, config)
            && Ceiling(Wrap(PartModel(p, config).value), config) == 0 < Ceiling(Wrap(PartModel(q, config).value), config)
  {
    var p := Part(TransferNonFungible, DEFAULT.(count := Some(U32_MAX)));
    var q := Part(TransferNonFungible, p.params.(facts := UNSTATED.(recipientHoldsToken := true)));
    assert PartModel(p, config).value.created == 0x1_0000_0000 && PartModel(q, config).value.created == U32_MAX;
    MulMonotone(1, config.dataEscrowPerRow, U32_MAX);
    assert U32_MAX * config.dataEscrowPerRow == config.dataEscrowPerRow * U32_MAX;
  }

  ghost predicate CeilingBounds(p: Part, config: GasConfig) {
    PartModel(p, config).Some?
    && forall q | Under(q, p) ::
         PartModel(q, config).Some? && Ceiling(Wrap(PartModel(q, config).value), config) <= Ceiling(Wrap(PartModel(p, config).value), config)
  }

  /** Of an NFT transfer, as a release build counts, the ceiling is a bound exactly when rows are free of escrow or the counters fit. */
  lemma TransferCeilingExactlyWhen(p: Part, config: GasConfig)
    requires p.kind.TransferNonFungible? && PartModel(p, config).Some?
    ensures CeilingBounds(p, config) <==> config.dataEscrowPerRow == 0 || PartFits(p, config)
  {
    if PartFits(p, config) || config.dataEscrowPerRow == 0 {
      forall q | Under(q, p)
        ensures PartModel(q, config).Some? && Ceiling(Wrap(PartModel(q, config).value), config) <= Ceiling(Wrap(PartModel(p, config).value), config)
      {
        PartCheaper(q, p, config);
        WrappedCeiling(PartModel(q, config).value, PartModel(p, config).value, config);
      }
    } else {
      var q := Reread(p, p.params.facts.(recipientHoldsToken := true));
      SameButFacts(p.params, p.params.facts);
      UnderFacts(p, p, p.params.facts.(recipientHoldsToken := true), p.params.facts);
      KnownHolder(q, p, config);
    }
  }

  lemma WrappedCeiling(q: Model, p: Model, config: GasConfig)
    requires q.created <= p.created && (p.created <= U32_MAX || config.dataEscrowPerRow == 0)
    ensures Ceiling(Wrap(q), config) <= Ceiling(Wrap(p), config)
  {
    if p.created <= U32_MAX {
      CeilingMonotone(q, p, config);
    }
  }

  lemma KnownHolder(q: Part, p: Part, config: GasConfig)
    requires p.kind.TransferNonFungible? && PartModel(p, config).Some? && !PartFits(p, config) && config.dataEscrowPerRow > 0
    requires q == Reread(p, p.params.facts.(recipientHoldsToken := true))
    ensures PartModel(q, config).Some?
    ensures Ceiling(Wrap(PartModel(p, config).value), config) < Ceiling(Wrap(PartModel(q, config).value), config)
  {
    assert PartModel(p, config).value.created == 0x1_0000_0000 && PartModel(q, config).value.created == U32_MAX;
    MulMonotone(1, config.dataEscrowPerRow, U32_MAX);
    assert U32_MAX * config.dataEscrowPerRow == config.dataEscrowPerRow * U32_MAX;
  }

  // ----- readings between the quoted one and the cheapest -----

  lemma CoveredBelow(qs: seq<Part>, ps: seq<Part>, config: GasConfig)
    requires UnderAll(qs, ps) && Models(ps, config).Some? && Covered(ps, config)
    ensures Models(qs, config).Some? && Covered(qs, config)
  {
    BatchCheaper(qs, ps, config);
  }

  predicate SameQuote(e: Estimate, f: Estimate) {
    e.bill == f.bill && e.maxGas == f.maxGas && e.maxData == f.maxData
  }

  /** When the cheapest reading quotes the same, so does every reading in between: in covered batches, or with meta ids held. */
  lemma Sandwich(low: seq<Part>, mid: seq<Part>, high: seq<Part>, config: GasConfig, carrier: Carrier)
    requires UnderAll(low, mid) && UnderAll(mid, high)
    requires EstimateBatch(high, config, carrier).Some? && AllFit(high, config)
    requires Covered(high, config) || AllMetaRows(low) == AllMetaRows(high)
    ensures EstimateBatch(mid, config, carrier).Some? && EstimateBatch(low, config, carrier).Some?
    ensures SameQuote(EstimateBatch(low, config, carrier).value, EstimateBatch(high, config, carrier).value)
        ==> SameQuote(EstimateBatch(mid, config, carrier).value, EstimateBatch(high, config, carrier).value)
  {
    BatchCheaper(mid, high, config);
    BatchCheaper(low, mid, config);
    QuoteDominates(mid, high, config, carrier);
    if Covered(high, config) {
      CoveredBelow(mid, high, config);
    }
    QuoteDominates(low, mid, config, carrier);
  }

  // ----- exactly when the bound holds -----

  /** A burn with its ROM's meta id read as stated; other operations as they are. */
  function WithId(p: Part, id: Option<bool>): Part {
    if p.kind.BurnNonFungible? then Part(p.kind, p.params.(facts := p.params.facts.(romHasMetaId := id))) else p
  }

  /** The batch with every burn's meta-id reading taken from another batch. */
  function WithIds(ps: seq<Part>, from: seq<Part>): (qs: seq<Part>)
    requires |from| == |ps|
    ensures |qs| == |ps| && forall i :: 0 <= i < |ps| ==> qs[i] == WithId(ps[i], from[i].params.facts.romHasMetaId)
  {
    if ps == [] then [] else [WithId(ps[0], from[0].params.facts.romHasMetaId)] + WithIds(ps[1..], from[1..])
  }

  function WithoutId(p: Part): Part {
    WithId(p, Some(false))
  }

  /** The batch with every burnt ROM read as carrying no meta id. */
  function WithoutIds(ps: seq<Part>): (qs: seq<Part>)
    ensures |qs| == |ps| && forall i :: 0 <= i < |ps| ==> qs[i] == WithoutId(ps[i])
  {
    if ps == [] then [] else [WithoutId(ps[0])] + WithoutIds(ps[1..])
  }

  /** A meta-id reading moves the deleted rows of a burn and nothing else. */
  lemma WithIdModel(p: Part, id: Option<bool>, config: GasConfig)
    requires PartModel(p, config).Some?
    ensures PartModel(WithId(p, id), config).Some?
    ensures var m, q := PartModel(p, config).value, WithId(p, id);
            m.deleted >= MetaRows(p) && PartModel(q, config).value == m.(deleted := m.deleted - MetaRows(p) + MetaRows(q))
  {
    if p.kind.BurnNonFungible? {
      BurnFreesMore(p, config);
      BurnIdModel(p.params, WithId(p, id).params, config, Count(p));
    }
  }

  lemma BurnIdModel(p: Params, q: Params, config: GasConfig, count: nat)
    requires q == p.(facts := p.facts.(romHasMetaId := q.facts.romHasMetaId)) && BurnNonFungibleModel(p, config, count).Some?
    ensures BurnNonFungibleModel(q, config, count).Some?
    ensures var m, n := BurnNonFungibleModel(p, config, count).value, BurnNonFungibleModel(q, config, count).value;
            n == m.(deleted := n.deleted)
            && n.deleted + (if Or(p.facts.romHasMetaId, true) then count else 0) == m.deleted + (if Or(q.facts.romHasMetaId, true) then count else 0)
  {
    AllRowsFixed(PerInstance(p.romBytes, count).value, PerInstance(p.ramBytes, count).value, false, 2);
  }

  lemma {:induction false} WithIdsTotal(ps: seq<Part>, from: seq<Part>, config: GasConfig)
    requires |from| == |ps| && Models(ps, config).Some?
    ensures Models(WithIds(ps, from), config).Some? && TotalOf(ps, config).deleted >= AllMetaRows(ps)
    ensures var t := TotalOf(ps, config);
            TotalOf(WithIds(ps, from), config) == t.(deleted := t.deleted - AllMetaRows(ps) + AllMetaRows(WithIds(ps, from)))
  {
    if ps != [] {
      var qs := WithIds(ps, from);
      ModelsTail(ps, config);
      WithIdModel(ps[0], from[0].params.facts.romHasMetaId, config);
      WithIdsTotal(ps[1..], from[1..], config);
      assert qs[1..] == WithIds(ps[1..], from[1..]);
      ModelsHead(qs, config);
      ModelsTail(qs, config);
    }
  }

  lemma {:induction false} WithoutIdsTotal(ps: seq<Part>, config: GasConfig)
    requires Models(ps, config).Some?
    ensures Models(WithoutIds(ps), config).Some?
    ensures TotalOf(ps, config).deleted >= AllMetaRows(ps)
    ensures TotalOf(WithoutIds(ps), config)
         == TotalOf(ps, config).(deleted := TotalOf(ps, config).deleted - AllMetaRows(ps))
  {
    if ps != [] {
      var qs := WithoutIds(ps);
      ModelsTail(ps, config);
      WithIdModel(ps[0], Some(false), config);
      WithoutIdsTotal(ps[1..], config);
      assert qs[1..] == WithoutIds(ps[1..]);
      ModelsHead(qs, config);
      ModelsTail(qs, config);
    }
  }

  lemma WithoutIdsUnder(ps: seq<Part>)
    ensures UnderAll(WithoutIds(ps), ps)
  {
    forall i | 0 <= i < |ps| ensures Under(WithoutIds(ps)[i], ps[i]) {
      WithIdUnder(ps[i], Some(false));
    }
  }

  lemma WithIdUnder(p: Part, id: Option<bool>)
    requires Or(id, true) ==> Or(p.params.facts.romHasMetaId, true)
    ensures Under(WithId(p, id), p)
  {
    SameButFacts(p.params, WithId(p, id).params.facts);
    SameButFacts(p.params, p.params.facts);
  }

  lemma SameButFacts(p: Params, facts: Facts)
    ensures SameOperation(p.(facts := facts), p) && HeldUnder(Assets(p.(facts := facts)), Assets(p))
    ensures p.(facts := facts).facts == facts && (facts == p.facts ==> p.(facts := facts) == p)
  {
    assert Assets(p.(facts := facts)) == Assets(p);
  }

  /** Of all cheaper readings the one without meta ids is billed and offered the most. */
  lemma WithoutIdsIsWorst(qs: seq<Part>, ps: seq<Part>, config: GasConfig, carrier: Carrier)
    requires UnderAll(qs, ps) && Models(ps, config).Some?
    ensures Models(qs, config).Some? && Models(WithoutIds(ps), config).Some?
    ensures Bill(TotalOf(qs, config), config, carrier) <= Bill(TotalOf(WithoutIds(ps), config), config, carrier)
    ensures Offer(TotalOf(qs, config), config, carrier) <= Offer(TotalOf(WithoutIds(ps), config), config, carrier)
  {
    BatchCheaper(qs, ps, config);
    WithoutIdsTotal(ps, config);
    var q, w := TotalOf(qs, config), TotalOf(WithoutIds(ps), config);
    LessNet(q.created, q.deleted, w.created, w.deleted);
    SettleMonotone(q, w, config, carrier);
  }

  lemma LessNet(c: nat, d: nat, c': nat, d': nat)
    requires c <= c' && d' <= d
    ensures Net(c, d) <= Net(c', d')
  {
  }

  predicate BillBounded(qs: seq<Part>, ps: seq<Part>, config: GasConfig, carrier: Carrier) {
    EstimateBatch(qs, config, carrier).Some? && EstimateBatch(ps, config, carrier).Some?
    && EstimateBatch(qs, config, carrier).value.bill <= EstimateBatch(ps, config, carrier).value.bill
  }

  /** Under every setting: the bill is a bound exactly when the reading without meta ids does not raise it. */
  lemma BoundExactlyWhenWorstIsNoWorse(ps: seq<Part>, config: GasConfig, carrier: Carrier)
    requires EstimateBatch(ps, config, carrier).Some?
    ensures (forall qs | UnderAll(qs, ps) :: BillBounded(qs, ps, config, carrier))
       <==> BillBounded(WithoutIds(ps), ps, config, carrier)
  {
    WithoutIdsUnder(ps);
    if BillBounded(WithoutIds(ps), ps, config, carrier) {
      forall qs | UnderAll(qs, ps) ensures BillBounded(qs, ps, config, carrier) {
        WithoutIdsIsWorst(qs, ps, config, carrier);
      }
    }
  }

  /** The offer made for one reading pays the bill of another. */
  predicate OfferPays(qs: seq<Part>, ps: seq<Part>, config: GasConfig, carrier: Carrier) {
    EstimateBatch(qs, config, carrier).Some? && EstimateBatch(ps, config, carrier).Some?
    && EstimateBatch(qs, config, carrier).value.bill <= EstimateBatch(ps, config, carrier).value.maxGas
  }

  /** Under every setting: the offer pays whatever reading is settled exactly when it pays the one without meta ids. */
  lemma OfferPaysExactlyWhen(ps: seq<Part>, config: GasConfig, carrier: Carrier)
    requires EstimateBatch(ps, config, carrier).Some?
    ensures (forall qs | UnderAll(qs, ps) :: OfferPays(qs, ps, config, carrier)) <==> OfferPays(WithoutIds(ps), ps, config, carrier)
  {
    WithoutIdsUnder(ps);
    if OfferPays(WithoutIds(ps), ps, config, carrier) {
      forall qs | UnderAll(qs, ps) ensures OfferPays(qs, ps, config, carrier) {
        WithoutIdsIsWorst(qs, ps, config, carrier);
      }
    }
  }

  // ----- the two extremes of an interval of readings -----

  /** The reading between `low` and `high` that is billed most: all as in `high`, but the burns' meta ids as in `low`. */
  function Dearest(low: seq<Part>, high: seq<Part>): seq<Part>
    requires |low| == |high|
  {
    WithIds(high, low)
  }

  /** The one that is billed least: all as in `low`, but the burns' meta ids as in `high`. */
  function Cheapened(low: seq<Part>, high: seq<Part>): seq<Part>
    requires |low| == |high|
  {
    WithIds(low, high)
  }

  lemma IdsOf(ps: seq<Part>, from: seq<Part>)
    requires |from| == |ps| && forall i :: 0 <= i < |ps| ==> from[i].kind == ps[i].kind && Count(from[i]) == Count(ps[i])
    ensures AllMetaRows(WithIds(ps, from)) == AllMetaRows(from)
    decreases |ps|
  {
    if ps != [] {
      IdsOf(ps[1..], from[1..]);
      assert WithIds(ps, from)[1..] == WithIds(ps[1..], from[1..]);
    }
  }

  lemma SameCounts(qs: seq<Part>, ps: seq<Part>)
    requires UnderAll(qs, ps)
    ensures forall i :: 0 <= i < |ps| ==> qs[i].kind == ps[i].kind && Count(qs[i]) == Count(ps[i])
  {
    forall i | 0 <= i < |ps| ensures qs[i].kind == ps[i].kind && Count(qs[i]) == Count(ps[i]) {
      assert Under(qs[i], ps[i]);
    }
  }

  lemma ExtremesWithin(low: seq<Part>, high: seq<Part>)
    requires UnderAll(low, high)
    ensures UnderAll(Dearest(low, high), high) && UnderAll(low, Dearest(low, high))
    ensures UnderAll(Cheapened(low, high), high) && UnderAll(low, Cheapened(low, high))
  {
    forall i | 0 <= i < |high|
      ensures Under(Dearest(low, high)[i], high[i]) && Under(low[i], Dearest(low, high)[i])
      ensures Under(Cheapened(low, high)[i], high[i]) && Under(low[i], Cheapened(low, high)[i])
    {
      assert Under(low[i], high[i]);
      WithIdUnder(high[i], low[i].params.facts.romHasMetaId);
      BetweenIds(low[i], high[i]);
    }
  }

  lemma BetweenIds(low: Part, high: Part)
    requires Under(low, high)
    ensures Under(low, WithId(high, low.params.facts.romHasMetaId))
    ensures Under(WithId(low, high.params.facts.romHasMetaId), high) && Under(low, WithId(low, high.params.facts.romHasMetaId))
  {
    BelowDearest(low, high, low.params.facts, high.params.facts);
    CheapenedBelow(low, high, low.params.facts, high.params.facts);
    AboveSelf(low, low.params.facts, high.params.facts.romHasMetaId);
  }

  lemma BelowDearest(low: Part, high: Part, f: Facts, g: Facts)
    requires Under(low, high) && f == low.params.facts && g == high.params.facts
    ensures Under(low, WithId(high, f.romHasMetaId))
  {
    WithIdIs(high, f.romHasMetaId);
    UnderFacts(low, high, f, IdRead(g, high.kind, f.romHasMetaId));
  }

  lemma CheapenedBelow(low: Part, high: Part, f: Facts, g: Facts)
    requires Under(low, high) && f == low.params.facts && g == high.params.facts
    ensures Under(WithId(low, g.romHasMetaId), high)
  {
    WithIdIs(low, g.romHasMetaId);
    UnderFacts(low, high, IdRead(f, low.kind, g.romHasMetaId), g);
  }

  lemma AboveSelf(p: Part, f: Facts, id: Option<bool>)
    requires f == p.params.facts && (Or(f.romHasMetaId, true) ==> Or(id, true))
    ensures Under(p, WithId(p, id))
  {
    WithIdIs(p, id);
    SameButFacts(p.params, f);
    UnderFacts(p, p, f, IdRead(f, p.kind, id));
  }

  function IdRead(facts: Facts, kind: Kind, id: Option<bool>): Facts {
    if kind.BurnNonFungible? then facts.(romHasMetaId := id) else facts
  }

  lemma WithIdIs(p: Part, id: Option<bool>)
    ensures WithId(p, id) == Reread(p, IdRead(p.params.facts, p.kind, id))
  {
  }

  function Reread(p: Part, facts: Facts): Part {
    Part(p.kind, p.params.(facts := facts))
  }

  lemma UnderFacts(q: Part, p: Part, f: Facts, g: Facts)
    requires q.kind == p.kind && SameOperation(q.params, p.params) && HeldUnder(Assets(q.params), Assets(p.params)) && Cheaper(f, g)
    ensures Under(Reread(q, f), Reread(p, g))
    ensures f == q.params.facts ==> Reread(q, f) == q
    ensures g == p.params.facts ==> Reread(p, g) == p
  {
  }

  /** Every reading between `low` and `high` is billed and offered between the two extremes, whatever the batch mixes. */
  lemma BetweenExtremes(low: seq<Part>, mid: seq<Part>, high: seq<Part>, config: GasConfig, carrier: Carrier)
    requires UnderAll(low, mid) && UnderAll(mid, high) && UnderAll(low, high) && Models(high, config).Some?
    ensures Models(mid, config).Some?
    ensures Models(Dearest(low, high), config).Some? && Models(Cheapened(low, high), config).Some?
    ensures var b, m, d := TotalOf(Cheapened(low, high), config), TotalOf(mid, config), TotalOf(Dearest(low, high), config);
            Bill(b, config, carrier) <= Bill(m, config, carrier) <= Bill(d, config, carrier)
            && Offer(b, config, carrier) <= Offer(m, config, carrier) <= Offer(d, config, carrier)
            && Ceiling(b, config) <= Ceiling(m, config) <= Ceiling(d, config)
  {
    BatchCheaper(mid, high, config);
    BatchCheaper(low, mid, config);
    WithIdsTotal(high, low, config);
    WithIdsTotal(low, high, config);
    SameCounts(low, high);
    IdsOf(high, low);
    IdsOf(low, high);
    var b, m, d := TotalOf(Cheapened(low, high), config), TotalOf(mid, config), TotalOf(Dearest(low, high), config);
    LessNet(b.created, b.deleted, m.created, m.deleted);
    LessNet(m.created, m.deleted, d.created, d.deleted);
    SettleMonotone(b, m, config, carrier);
    SettleMonotone(m, d, config, carrier);
    CeilingMonotone(b, m, config);
    CeilingMonotone(m, d, config);
  }

  // ----- settings under which one more byte of block data shows on the bill -----

  /** The price of a byte survives the scaling: 25 units of it under v2, the price itself under v1. */
  predicate Responsive(config: GasConfig) {
    if V2(config) then config.feeShift < 64 && UNITS_PER_BYTE * config.feeMultiplier >= Pow2(config.feeShift)
    else config.gasFeePerByte >= 1
  }

  /** The bill of the batch is off the floor and below saturation, with room for every row it creates. */
  predicate Unclamped(total: Model, config: GasConfig, carrier: Carrier) {
    Bill(total, config, carrier) < U64_MAX
    && (V2(config) ==>
          config.minimumGasBill < Bill(total, config, carrier)
          && Room(total, config, carrier))
  }

  /** A saturated sum would show, or the units of every row that is created fit 64 bits. */
  predicate Room(total: Model, config: GasConfig, carrier: Carrier) {
    config.feeMultiplier >= Pow2(config.feeShift)
    || total.work + UNITS_PER_BYTE * (carrier.envelope + total.created + total.result) <= U64_MAX
  }

  lemma BillV2Rises(work: nat, policy: nat, data: nat, more: nat, config: GasConfig)
    requires V2(config) && Responsive(config) && data < more
    requires config.minimumGasBill < BillV2(work, policy, data, config) < U64_MAX
    requires config.feeMultiplier >= Pow2(config.feeShift) || work + more * UNITS_PER_BYTE <= U64_MAX
    ensures BillV2(work, policy, data, config) < BillV2(work, policy, more, config)
  {
    var u := Sat64(work + Sat64(data * UNITS_PER_BYTE));
    var v := Sat64(work + Sat64(more * UNITS_PER_BYTE));
    var m, d := config.feeMultiplier, Pow2(config.feeShift);
    if v == U64_MAX && m >= d {
      StaysSaturated(m, d);
    } else {
      assert v >= u + UNITS_PER_BYTE;
      ScaleRises(u, v, m, d);
    }
  }

  lemma ScaleRises(u: nat, v: nat, m: nat, d: nat)
    requires d > 0 && v >= u + UNITS_PER_BYTE && UNITS_PER_BYTE * m >= d
    ensures Scale(v, m, d) >= Scale(u, m, d) + 1
  {
    ScaleSum(u, UNITS_PER_BYTE, m, d);
    DivMonotone(d, UNITS_PER_BYTE * m, d);
    DivUnique(d, d, 1);
    ScaleMonotone(u + UNITS_PER_BYTE, v, m, d);
  }

  lemma BillV1Rises(work: nat, data: nat, more: nat, config: GasConfig)
    requires config.gasFeePerByte >= 1 && data < more && BillV1(work, data, config) < U64_MAX
    ensures BillV1(work, data, config) < BillV1(work, more, config)
  {
    MulRises(data, more, config.gasFeePerByte);
  }

  lemma MulRises(a: nat, b: nat, m: nat)
    requires m >= 1
    ensures a < b ==> a * m < b * m
  {
  }

  /** A batch that is not covered is billed more, under either gas model, once its ROMs turn out to carry no meta id. */
  lemma UncoveredUndercuts(ps: seq<Part>, config: GasConfig, carrier: Carrier)
    requires EstimateBatch(ps, config, carrier).Some? && !Covered(ps, config)
    requires TotalOf(ps, config).created <= U32_MAX && TotalOf(ps, config).deleted <= U32_MAX
    requires Responsive(config) && Unclamped(TotalOf(ps, config), config, carrier)
    ensures !BillBounded(WithoutIds(ps), ps, config, carrier)
  {
    WithoutIdsTotal(ps, config);
    var p, q := TotalOf(ps, config), TotalOf(WithoutIds(ps), config);
    NetRises(p.created, p.deleted, AllMetaRows(ps));
    BillRises(q, p, config, carrier);
  }

  lemma NetRises(created: nat, deleted: nat, meta: nat)
    requires meta <= deleted <= U32_MAX && created <= U32_MAX && meta > 0 && created + meta > deleted
    ensures Net(created, deleted) < Net(created, deleted - meta)
  {
  }

  lemma BillRises(q: Model, p: Model, config: GasConfig, carrier: Carrier)
    requires q == p.(created := q.created, deleted := q.deleted)
    requires Net(p.created, p.deleted) < Net(q.created, q.deleted)
    requires Responsive(config) && Unclamped(p, config, carrier) && (V2(config) ==> Room(q, config, carrier))
    ensures Bill(p, config, carrier) < Bill(q, config, carrier)
  {
    var t, low, high := Saturated(p), Net(p.created, p.deleted), Net(q.created, q.deleted);
    if V2(config) {
      BillV2Rises(t.work, t.policy, carrier.envelope + low + t.result, carrier.envelope + high + t.result, config);
    } else {
      BillV1Rises(t.work, carrier.payload + t.result + low, carrier.payload + t.result + high, config);
    }
  }

  /** Under either gas model, off the floor and with no counter saturated: the bill is a bound exactly for covered batches. */
  lemma BoundExactlyWhenCovered(ps: seq<Part>, config: GasConfig, carrier: Carrier)
    requires EstimateBatch(ps, config, carrier).Some? && AllFit(ps, config)
    requires TotalOf(ps, config).created <= U32_MAX && TotalOf(ps, config).deleted <= U32_MAX
    requires Responsive(config) && Unclamped(TotalOf(ps, config), config, carrier)
    ensures Covered(ps, config) <==> forall qs | UnderAll(qs, ps) :: BillBounded(qs, ps, config, carrier)
  {
    if Covered(ps, config) {
      forall qs | UnderAll(qs, ps) ensures BillBounded(qs, ps, config, carrier) {
        QuoteDominates(qs, ps, config, carrier);
      }
    } else {
      WithoutIdsUnder(ps);
      UncoveredUndercuts(ps, config, carrier);
    }
  }

  // ----- small batches -----

  function OneBurnWork(config: GasConfig): nat {
    Sat64(Sat64(config.gasFeeTransfer + Sat64(config.gasFeeQuery * 2)) * 1)
  }

  /** One NFT burnt with every fact unstated: two rows created, four deleted, and what its assets take. */
  lemma DefaultBurn(infusions: Option<seq<InfusedAsset>>, config: GasConfig)
    requires Returned(Or(infusions, []), config).Some?
    ensures var r := Returned(Or(infusions, []), config).value;
            PartModel(Part(BurnNonFungible, DEFAULT.(infusions := infusions)), config)
            == Some(Model(Sat64(OneBurnWork(config) + r.work), 0, 0, 2 + r.created, 4 + r.deleted))
  {
    var p := DEFAULT.(infusions := infusions);
    var zeros := PerInstance(p.romBytes, 1).value;
    assert zeros[1..] == [] && PerInstance(p.ramBytes, 1).value == zeros;
    assert AllRows(zeros, zeros, false, 3) == InstanceRows(0, 0, 3) + AllRows(zeros[1..], zeros[1..], false, 3);
    assert InstanceRows(0, 0, 3) == 4;
    assert PartModel(Part(BurnNonFungible, p), config) == BurnNonFungibleModel(p, config, 1);
  }

  lemma DefaultMint(config: GasConfig)
    ensures PartModel(Part(MintFungible, DEFAULT), config) == Some(Model(config.gasFeeTransfer, 0, 33, 2, 0))
  {
  }

  /** One NFT burnt and one fungible mint, every fact unstated. */
  function BurnWithMint(): seq<Part> {
    [Part(BurnNonFungible, DEFAULT), Part(MintFungible, DEFAULT)]
  }

  lemma BurnWithMintTotal(config: GasConfig)
    ensures Models(BurnWithMint(), config).Some? && AllMetaRows(BurnWithMint()) == 1
    ensures TotalOf(BurnWithMint(), config) == Model(OneBurnWork(config) + config.gasFeeTransfer, 0, 33, 4, 4)
  {
    var ps := BurnWithMint();
    assert Returned([], config) == Some(NOTHING) && DEFAULT == DEFAULT.(infusions := None);
    DefaultBurn(None, config);
    DefaultMint(config);
    ModelsTail(ps, config);
    ModelsTail(ps[1..], config);
    assert ps[1..][1..] == [] && ps[1..] == [ps[1]];
    assert AllMetaRows(ps) == 1 + AllMetaRows(ps[1..]);
  }

  /** A config of the second gas model with unscaled prices. */
  const PLAIN := GasConfig(1, 0, 0, 0, 1, 1, 2, 0, 1, 1000, 100, 0, 0, 0, 0, 0, 0, 0, 0, 0, 0)

  /**
    The smallest failing batch. Under every config that responds it is not covered and its default
    quote lies below the bill of a ROM without a meta id; the plain config is one.
   */
  lemma BurnWithMintUndercut(config: GasConfig, carrier: Carrier)
    requires V2(config) ==> carrier.envelope != 0
    ensures EstimateBatch(BurnWithMint(), config, carrier).Some? && !Covered(BurnWithMint(), config)
    ensures Responsive(config) && Unclamped(TotalOf(BurnWithMint(), config), config, carrier) ==>
              !BillBounded(WithoutIds(BurnWithMint()), BurnWithMint(), config, carrier)
    ensures config == PLAIN && carrier.envelope == 200 ==>
              !BillBounded(WithoutIds(BurnWithMint()), BurnWithMint(), config, carrier)
  {
    BurnWithMintTotal(config);
    if config == PLAIN && carrier.envelope == 200 {
      PlainBill(TotalOf(BurnWithMint(), config), carrier);
    }
    if Responsive(config) && Unclamped(TotalOf(BurnWithMint(), config), config, carrier) {
      UncoveredUndercuts(BurnWithMint(), config, carrier);
    }
  }

  lemma PlainBill(t: Model, carrier: Carrier)
    requires t.work <= 10000 && t.policy == 0 && t.result <= 100 && t.created <= 100 && carrier.envelope == 200
    ensures Responsive(PLAIN) && Unclamped(t, PLAIN, carrier)
  {
    assert Pow2(0) == 1;
    var net := Net(t.created, t.deleted);
    PlainScale(t.work + 25 * (200 + net + t.result));
  }

  lemma PlainScale(units: nat)
    requires units <= U64_MAX
    ensures MulShift(units, 1, 0) == units
  {
    assert Pow2(0) == 1;
  }

  // ----- burns alone -----

  predicate OnlyIdsDiffer(qs: seq<Part>, ps: seq<Part>) {
    WithoutIds(qs) == WithoutIds(ps)
  }

  predicate OnlyBurns(ps: seq<Part>) {
    forall p <- ps :: p.kind.BurnNonFungible?
  }

  /** A burn, or several, adds no block data: the storage counters can be dropped from its bill. */
  lemma BurnsAddNoData(ps: seq<Part>, config: GasConfig, carrier: Carrier)
    requires Models(ps, config).Some? && OnlyBurns(ps) && AllFit(ps, config)
    ensures var t := TotalOf(ps, config);
            Bill(t, config, carrier) == Bill(t.(created := 0, deleted := 0), config, carrier)
            && Offer(t, config, carrier) == Offer(t.(created := 0, deleted := 0), config, carrier)
  {
    BurnsCovered(ps, config);
    NoGrowth(TotalOf(ps, config), config, carrier);
  }

  lemma NoGrowth(t: Model, config: GasConfig, carrier: Carrier)
    requires t.created <= t.deleted
    ensures Bill(t, config, carrier) == Bill(t.(created := 0, deleted := 0), config, carrier)
    ensures Offer(t, config, carrier) == Offer(t.(created := 0, deleted := 0), config, carrier)
  {
    assert Net(t.created, t.deleted) == 0 == Net(0, 0);
  }

  /** The quote of burns alone does not depend on which of their ROMs carry a meta id. */
  lemma BurnsIgnoreIds(qs: seq<Part>, ps: seq<Part>, config: GasConfig, carrier: Carrier)
    requires OnlyIdsDiffer(qs, ps) && Models(ps, config).Some? && Models(qs, config).Some?
    requires OnlyBurns(ps) && OnlyBurns(qs) && AllFit(ps, config) && AllFit(qs, config)
    ensures Bill(TotalOf(qs, config), config, carrier) == Bill(TotalOf(ps, config), config, carrier)
    ensures Offer(TotalOf(qs, config), config, carrier) == Offer(TotalOf(ps, config), config, carrier)
    ensures Ceiling(TotalOf(qs, config), config) == Ceiling(TotalOf(ps, config), config)
  {
    WithoutIdsTotal(ps, config);
    WithoutIdsTotal(qs, config);
    var p, q := TotalOf(ps, config), TotalOf(qs, config);
    assert p.(deleted := 0) == q.(deleted := 0);
    assert p.(created := 0, deleted := 0) == q.(created := 0, deleted := 0);
    BurnsCovered(ps, config);
    BurnsCovered(qs, config);
    NoGrowth(p, config, carrier);
    NoGrowth(q, config, carrier);
  }

  // ----- instances alone do not grow storage -----

  /** However many instances move, an NFT transfer is billed for its work and at most one balance row. */
  lemma TransferBilledForOneRow(p: Part, config: GasConfig, carrier: Carrier)
    requires p.kind.TransferNonFungible? && PartModel(p, config).Some? && PartFits(p, config)
    ensures var m := PartModel(p, config).value;
            var one := m.(created := RecipientRow(p.params, config), deleted := 0);
            Bill(m, config, carrier) == Bill(one, config, carrier) && Offer(m, config, carrier) == Offer(one, config, carrier)
  {
    var m := PartModel(p, config).value;
    assert Net(m.created, m.deleted) == Net(RecipientRow(p.params, config), 0);
  }

  /**
    Minting instances and burning them in one transaction grows storage only by the rows of the token
    itself: the recipient's balance, the burnt counter and the supply row of each operation.
   */
  lemma MintThenBurnGrowth(p: Params, config: GasConfig)
    requires var mint, burn := Part(MintNonFungible, p), Part(BurnNonFungible, p.(infusions := Some([])));
             PartModel(mint, config).Some?
             && Plus(PartModel(mint, config).value, PartModel(burn, config).value).created <= U32_MAX
    ensures var mint, burn := Part(MintNonFungible, p), Part(BurnNonFungible, p.(infusions := Some([])));
            var t := Plus(PartModel(mint, config).value, PartModel(burn, config).value);
            Net(t.created, t.deleted) == RecipientRow(p, config) + BurntRow(p, config) + 2 * SupplyRow(p, config)
  {
    assert Assets(p.(infusions := Some([]))) == [];
    assert Returned([], config) == Some(NOTHING);
  }
}
