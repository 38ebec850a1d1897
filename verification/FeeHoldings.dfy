/**
  What the burner already holds: the one fact that an infused asset carries, how far it moves a quote,
  and exactly when it moves the bill and when the ceiling.
 */
module FeeHoldings {
  import opened Words
  import opened FeeArithmetic
  import opened FeeModel
  import opened FeeSettlement
  import opened FeeBounds

  /** The same operations under the same facts of chain state; only the burner's holdings are read anew. */
  predicate OnlyHoldingsDiffer(qs: seq<Part>, ps: seq<Part>) {
    |qs| == |ps|
    && forall i :: 0 <= i < |ps| ==> SameHere(qs[i], ps[i])
  }

  predicate SameHere(q: Part, p: Part) {
    q.kind == p.kind && SameParams(q.params, p.params)
  }

  predicate SameParams(q: Params, p: Params) {
    SameOperation(q, p) && q.facts == p.facts
  }

  function ReadAssets(xs: seq<InfusedAsset>, held: bool): seq<InfusedAsset> {
    seq(|xs|, i requires 0 <= i < |xs| => xs[i].(burnerHoldsToken := held))
  }

  /** A burn with everything it returns read as held, or as missing; other operations as they are. */
  function ReadPart(p: Part, held: bool): (q: Part)
    ensures q.kind == p.kind
  {
    if p.kind.BurnNonFungible? && p.params.infusions.Some? then
      Part(p.kind, p.params.(infusions := Some(ReadAssets(p.params.infusions.value, held))))
    else p
  }

  function ReadAll(ps: seq<Part>, held: bool): (qs: seq<Part>)
    ensures |qs| == |ps| && forall i :: 0 <= i < |ps| ==> qs[i] == ReadPart(ps[i], held)
  {
    if ps == [] then [] else [ReadPart(ps[0], held)] + ReadAll(ps[1..], held)
  }

  lemma SameSelf(p: Part)
    ensures SameHere(p, p)
  {
  }

  lemma ReadPartSame(p: Part, held: bool)
    ensures SameHere(ReadPart(p, held), p)
  {
    if p.kind.BurnNonFungible? && p.params.infusions.Some? {
      var xs := p.params.infusions.value;
      assert SameAssets(ReadAssets(xs, held), xs);
    } else {
      SameSelf(p);
    }
  }

  lemma ReadAllSame(ps: seq<Part>, held: bool)
    ensures OnlyHoldingsDiffer(ReadAll(ps, held), ps)
  {
    forall i | 0 <= i < |ps| ensures SameHere(ReadAll(ps, held)[i], ps[i]) {
      ReadPartSame(ps[i], held);
    }
  }

  // ----- operations other than NFT burns never ask -----

  lemma FungibleSame(kind: Kind, q: Params, p: Params, config: GasConfig, count: nat)
    requires SameParams(q, p)
    requires kind.TransferFungible? || kind.MintFungible? || kind.BurnFungible? || kind.Script?
    ensures OperationModel(kind, q, config, count) == OperationModel(kind, p, config, count)
  {
  }

  lemma TransferSame(q: Params, p: Params, config: GasConfig, count: nat)
    requires SameParams(q, p)
    ensures TransferNonFungibleModel(q, config, count) == TransferNonFungibleModel(p, config, count)
  {
  }

  lemma MintSame(q: Params, p: Params, config: GasConfig, count: nat)
    requires SameParams(q, p)
    ensures MintNonFungibleModel(q, config, count) == MintNonFungibleModel(p, config, count)
  {
  }

  lemma PhantasmaSame(q: Params, p: Params, config: GasConfig, count: nat)
    requires SameParams(q, p)
    ensures MintPhantasmaModel(q, config, count) == MintPhantasmaModel(p, config, count)
  {
  }

  lemma SeriesSame(q: Params, p: Params, config: GasConfig)
    requires SameParams(q, p)
    ensures CreateSeriesModel(q, config) == CreateSeriesModel(p, config)
  {
  }

  lemma OthersIgnoreHoldings(q: Part, p: Part, config: GasConfig)
    requires SameHere(q, p) && !p.kind.BurnNonFungible?
    ensures PartModel(q, config) == PartModel(p, config)
  {
    match p.kind {
      case MintNonFungible => MintSame(q.params, p.params, config, Count(p));
      case MintPhantasmaNonFungible => PhantasmaSame(q.params, p.params, config, Count(p));
      case TransferNonFungible => TransferSame(q.params, p.params, config, Count(p));
      case CreateToken => CreateTokenSame(q.params, p.params, config);
      case CreateTokenSeries => SeriesSame(q.params, p.params, config);
      case RegisterName => RegisterNameSame(q.params, p.params, config);
      case BurnNonFungible =>
      case _ => FungibleSame(p.kind, q.params, p.params, config, Count(p));
    }
  }

  // ----- what a burn returns -----

  /** Returned assets that take a balance row of their own: all but the gas and the data token. */
  function AssetRows(xs: seq<InfusedAsset>, config: GasConfig): nat {
    if xs == [] then 0 else Quantum(!FreeRows(xs[0].tokenId, config)) + AssetRows(xs[1..], config)
  }

  /** Any reading of the holdings creates what the all-held one does, and at most one row an asset more. */
  lemma {:induction false} ReturnedBetween(xs: seq<InfusedAsset>, ys: seq<InfusedAsset>, config: GasConfig)
    requires SameAssets(xs, ys) && Returned(ys, config).Some?
    ensures Returned(xs, config).Some?
    ensures Returned(ReadAssets(ys, true), config).Some? && Returned(ReadAssets(ys, false), config).Some?
    ensures var m, n := Returned(xs, config).value, Returned(ys, config).value;
            var held, missing := Returned(ReadAssets(ys, true), config).value, Returned(ReadAssets(ys, false), config).value;
            m == n.(created := m.created) && held.created <= m.created <= missing.created
            && missing.created == held.created + AssetRows(ys, config)
  {
    if ys != [] {
      ReturnedBetween(xs[1..], ys[1..], config);
      assert ReadAssets(ys, true)[1..] == ReadAssets(ys[1..], true);
      assert ReadAssets(ys, false)[1..] == ReadAssets(ys[1..], false);
      AssetBetween(xs[0], ys[0], config);
    }
  }

  lemma AssetBetween(a: InfusedAsset, b: InfusedAsset, config: GasConfig)
    requires SameAsset(a, b) && AssetModel(b, config).Some?
    ensures AssetModel(a, config).Some?
    ensures AssetModel(b.(burnerHoldsToken := true), config).Some? && AssetModel(b.(burnerHoldsToken := false), config).Some?
    ensures var m, n := AssetModel(a, config).value, AssetModel(b, config).value;
            var held, missing := AssetModel(b.(burnerHoldsToken := true), config).value, AssetModel(b.(burnerHoldsToken := false), config).value;
            m == n.(created := m.created) && held.created <= m.created <= missing.created
            && missing.created == held.created + Quantum(!FreeRows(b.tokenId, config))
  {
  }

  /** A burn's model around what its assets add. */
  function Around(own: Model, returned: Model): Model {
    Model(Sat64(own.work + returned.work), 0, 0, own.created + returned.created, own.deleted + returned.deleted)
  }

  function OwnBurn(p: Params, config: GasConfig, count: nat): Option<Model> {
    var roms :- PerInstance(p.romBytes, count);
    var rams :- PerInstance(p.ramBytes, count);
    Some(Model(Sat64(Sat64(config.gasFeeTransfer + Sat64(config.gasFeeQuery * 2)) * count), 0, 0,
               BurntRow(p, config) + SupplyRow(p, config),
               AllRows(roms, rams, false, 2 + Quantum(Or(p.facts.romHasMetaId, true)))))
  }

  lemma BurnAround(p: Params, config: GasConfig, count: nat)
    ensures BurnNonFungibleModel(p, config, count) ==
            if OwnBurn(p, config, count).None? || Returned(Assets(p), config).None? then None
            else Some(Around(OwnBurn(p, config, count).value, Returned(Assets(p), config).value))
  {
  }

  lemma OwnBurnSame(q: Params, p: Params, config: GasConfig, count: nat)
    requires SameParams(q, p)
    ensures OwnBurn(q, config, count) == OwnBurn(p, config, count)
  {
  }

  /** Rows of a burn that hang on what the burner holds. */
  function HoldingRows(p: Part, config: GasConfig): nat {
    if p.kind.BurnNonFungible? then AssetRows(Assets(p.params), config) else 0
  }

  function AllHoldingRows(ps: seq<Part>, config: GasConfig): nat {
    if ps == [] then 0 else HoldingRows(ps[0], config) + AllHoldingRows(ps[1..], config)
  }

  lemma BurnBetween(q: Params, p: Params, held: Params, missing: Params, config: GasConfig, count: nat)
    requires SameParams(q, p) && SameParams(held, p) && SameParams(missing, p)
    requires Assets(held) == ReadAssets(Assets(p), true) && Assets(missing) == ReadAssets(Assets(p), false)
    requires BurnNonFungibleModel(p, config, count).Some?
    ensures BurnNonFungibleModel(q, config, count).Some?
    ensures BurnNonFungibleModel(held, config, count).Some? && BurnNonFungibleModel(missing, config, count).Some?
    ensures var m, n := BurnNonFungibleModel(q, config, count).value, BurnNonFungibleModel(p, config, count).value;
            var h, l := BurnNonFungibleModel(held, config, count).value, BurnNonFungibleModel(missing, config, count).value;
            m == n.(created := m.created) && h.created <= m.created <= l.created
            && l.created == h.created + AssetRows(Assets(p), config)
  {
    ReturnedBetween(Assets(q), Assets(p), config);
    BurnAround(p, config, count);
    BurnAround(q, config, count);
    BurnAround(held, config, count);
    BurnAround(missing, config, count);
    OwnBurnSame(q, p, config, count);
    OwnBurnSame(held, p, config, count);
    OwnBurnSame(missing, p, config, count);
  }

  lemma ReadPartAssets(p: Part, held: bool)
    requires p.kind.BurnNonFungible?
    ensures Assets(ReadPart(p, held).params) == ReadAssets(Assets(p.params), held)
  {
  }

  predicate ModelBetween(m: Model, n: Model, held: Model, missing: Model, rows: nat) {
    m == n.(created := m.created) && held == n.(created := held.created) && missing == n.(created := missing.created)
    && held.created <= m.created <= missing.created == held.created + rows
  }

  lemma HoldingModel(q: Part, p: Part, config: GasConfig)
    requires SameHere(q, p) && PartModel(p, config).Some?
    ensures PartModel(q, config).Some?
    ensures PartModel(ReadPart(p, true), config).Some? && PartModel(ReadPart(p, false), config).Some?
    ensures ModelBetween(PartModel(q, config).value, PartModel(p, config).value, PartModel(ReadPart(p, true), config).value,
                         PartModel(ReadPart(p, false), config).value, HoldingRows(p, config))
  {
    if p.kind.BurnNonFungible? {
      BurnHolding(q, p, ReadPart(p, true), ReadPart(p, false), config);
    } else {
      OthersIgnoreHoldings(q, p, config);
    }
  }

  lemma BurnHolding(q: Part, p: Part, held: Part, missing: Part, config: GasConfig)
    requires SameHere(q, p) && p.kind.BurnNonFungible? && PartModel(p, config).Some?
    requires held == ReadPart(p, true) && missing == ReadPart(p, false)
    ensures PartModel(q, config).Some? && PartModel(held, config).Some? && PartModel(missing, config).Some?
    ensures ModelBetween(PartModel(q, config).value, PartModel(p, config).value, PartModel(held, config).value,
                         PartModel(missing, config).value, HoldingRows(p, config))
  {
    ReadPartSame(p, true);
    ReadPartSame(p, false);
    ReadPartAssets(p, true);
    ReadPartAssets(p, false);
    BurnBetween(q.params, p.params, held.params, missing.params, config, Count(p));
    BurnBetween(held.params, p.params, held.params, missing.params, config, Count(p));
    BurnBetween(missing.params, p.params, held.params, missing.params, config, Count(p));
  }

  // ----- batches -----

  lemma HoldingModels(qs: seq<Part>, ps: seq<Part>, config: GasConfig)
    requires OnlyHoldingsDiffer(qs, ps) && Models(ps, config).Some?
    ensures Models(qs, config).Some? && Models(ReadAll(ps, true), config).Some? && Models(ReadAll(ps, false), config).Some?
  {
    forall i | 0 <= i < |ps|
      ensures PartModel(qs[i], config).Some?
      ensures PartModel(ReadAll(ps, true)[i], config).Some? && PartModel(ReadAll(ps, false)[i], config).Some?
    {
      assert SameHere(qs[i], ps[i]);
      HoldingModel(qs[i], ps[i], config);
    }
  }

  /** The same in all but the created rows, of which there are up to so many more. */
  predicate MoreCreated(m: Model, held: Model, rows: nat) {
    m == held.(created := m.created) && held.created <= m.created <= held.created + rows
  }

  /** Only the created rows move with the holdings, by at most a row for every asset that can take one. */
  lemma {:induction false} HoldingTotal(qs: seq<Part>, ps: seq<Part>, config: GasConfig)
    requires OnlyHoldingsDiffer(qs, ps) && Models(ps, config).Some?
    ensures Models(qs, config).Some? && Models(ReadAll(ps, true), config).Some?
    ensures MoreCreated(TotalOf(qs, config), TotalOf(ReadAll(ps, true), config), AllHoldingRows(ps, config))
  {
    HoldingModels(qs, ps, config);
    if ps != [] {
      HoldingTail(qs, ps);
      HoldingHead(qs[0], ps[0], config);
      HoldingTotal(qs[1..], ps[1..], config);
      MoreJoined(qs, ReadAll(ps, true), HoldingRows(ps[0], config), AllHoldingRows(ps[1..], config), config);
    }
  }

  lemma HoldingHead(q: Part, p: Part, config: GasConfig)
    requires SameHere(q, p) && PartModel(p, config).Some?
    ensures PartModel(q, config).Some? && PartModel(ReadPart(p, true), config).Some?
    ensures MoreCreated(PartModel(q, config).value, PartModel(ReadPart(p, true), config).value, HoldingRows(p, config))
  {
    HoldingModel(q, p, config);
  }

  lemma MoreJoined(qs: seq<Part>, held: seq<Part>, rows: nat, rest: nat, config: GasConfig)
    requires qs != [] && held != [] && Models(qs, config).Some? && Models(held, config).Some?
    requires MoreCreated(PartModel(qs[0], config).value, PartModel(held[0], config).value, rows)
    requires MoreCreated(TotalOf(qs[1..], config), TotalOf(held[1..], config), rest)
    ensures MoreCreated(TotalOf(qs, config), TotalOf(held, config), rows + rest)
  {
    ModelsTail(qs, config);
    ModelsTail(held, config);
    MorePlus(PartModel(qs[0], config).value, PartModel(held[0], config).value, rows,
             TotalOf(qs[1..], config), TotalOf(held[1..], config), rest);
  }

  lemma MorePlus(m: Model, held: Model, rows: nat, m': Model, held': Model, rest: nat)
    requires MoreCreated(m, held, rows) && MoreCreated(m', held', rest)
    ensures MoreCreated(Plus(m, m'), Plus(held, held'), rows + rest)
  {
  }

  lemma {:induction false} MissingTotal(ps: seq<Part>, config: GasConfig)
    requires Models(ps, config).Some?
    ensures Models(ReadAll(ps, true), config).Some? && Models(ReadAll(ps, false), config).Some?
    ensures TotalOf(ReadAll(ps, false), config).created == TotalOf(ReadAll(ps, true), config).created + AllHoldingRows(ps, config)
  {
    ReadAllSame(ps, true);
    HoldingModels(ReadAll(ps, true), ps, config);
    if ps != [] {
      SameSelf(ps[0]);
      HoldingModel(ps[0], ps[0], config);
      MissingTotal(ps[1..], config);
      ModelsTail(ReadAll(ps, true), config);
      ModelsTail(ReadAll(ps, false), config);
    }
  }

  lemma HoldingTail(qs: seq<Part>, ps: seq<Part>)
    requires OnlyHoldingsDiffer(qs, ps) && ps != []
    ensures SameHere(qs[0], ps[0]) && OnlyHoldingsDiffer(qs[1..], ps[1..])
    ensures ReadAll(ps, true)[1..] == ReadAll(ps[1..], true)
  {
    forall i | 0 <= i < |ps[1..]| ensures SameHere(qs[1..][i], ps[1..][i]) {
      assert SameHere(qs[i + 1], ps[i + 1]);
    }
  }

  /** The totals with everything returned read as held, or as missing. */
  function ReadTotal(ps: seq<Part>, held: bool, config: GasConfig): Model
    requires Models(ps, config).Some?
  {
    ReadAllSame(ps, held);
    HoldingModels(ReadAll(ps, held), ps, config);
    TotalOf(ReadAll(ps, held), config)
  }

  /**
    Every reading of the holdings adds up to the same but for the created rows, which lie between the
    all-held and the all-missing reading; these differ by one row for every asset but gas and data tokens.
   */
  lemma ReadingsDiffer(qs: seq<Part>, ps: seq<Part>, config: GasConfig)
    requires OnlyHoldingsDiffer(qs, ps) && Models(ps, config).Some?
    ensures Models(qs, config).Some?
    ensures var m, held, missing := TotalOf(qs, config), ReadTotal(ps, true, config), ReadTotal(ps, false, config);
            MoreCreated(m, held, AllHoldingRows(ps, config))
            && missing == held.(created := held.created + AllHoldingRows(ps, config))
  {
    HoldingTotal(qs, ps, config);
    ReadAllSame(ps, false);
    HoldingTotal(ReadAll(ps, false), ps, config);
    MissingTotal(ps, config);
  }

  /** Where no sum overflows with everything missing, none does under any reading. */
  lemma HoldingsFit(qs: seq<Part>, ps: seq<Part>, config: GasConfig)
    requires OnlyHoldingsDiffer(qs, ps) && Models(ps, config).Some? && AllFit(ReadAll(ps, false), config)
    ensures AllFit(qs, config)
  {
    forall i | 0 <= i < |qs| ensures PartFits(qs[i], config) {
      assert SameHere(qs[i], ps[i]) && PartFits(ReadAll(ps, false)[i], config);
      ReadPartSame(ps[i], false);
      HoldingModel(qs[i], ps[i], config);
    }
  }

  // ----- exactly when a quote asks what the burner holds -----

  predicate SameBill(qs: seq<Part>, ps: seq<Part>, config: GasConfig, carrier: Carrier) {
    EstimateBatch(qs, config, carrier).Some? && EstimateBatch(ps, config, carrier).Some?
    && EstimateBatch(qs, config, carrier).value.bill == EstimateBatch(ps, config, carrier).value.bill
  }

  predicate SameOffer(qs: seq<Part>, ps: seq<Part>, config: GasConfig, carrier: Carrier) {
    EstimateBatch(qs, config, carrier).Some? && EstimateBatch(ps, config, carrier).Some?
    && EstimateBatch(qs, config, carrier).value.maxGas == EstimateBatch(ps, config, carrier).value.maxGas
  }

  predicate SameCeiling(qs: seq<Part>, ps: seq<Part>, config: GasConfig, carrier: Carrier) {
    EstimateBatch(qs, config, carrier).Some? && EstimateBatch(ps, config, carrier).Some?
    && EstimateBatch(qs, config, carrier).value.maxData == EstimateBatch(ps, config, carrier).value.maxData
  }

  /** No returned asset can take a row, or the batch frees all it could create. */
  predicate HoldingsHidden(ps: seq<Part>, config: GasConfig)
    requires Models(ps, config).Some?
  {
    ReadTotal(ps, false, config).created == ReadTotal(ps, true, config).created
    || ReadTotal(ps, false, config).created <= TotalOf(ps, config).deleted
  }

  lemma SameBillable(m: Model, n: Model, config: GasConfig, carrier: Carrier)
    requires m == n.(created := m.created) && (m.created == n.created || (m.created <= m.deleted && n.created <= m.deleted))
    ensures Bill(m, config, carrier) == Bill(n, config, carrier) && Offer(m, config, carrier) == Offer(n, config, carrier)
  {
    assert Net(m.created, m.deleted) == Net(n.created, n.deleted);
  }

  /** Hidden holdings move neither bill nor offer, under any setting. */
  lemma HiddenHoldings(qs: seq<Part>, ps: seq<Part>, config: GasConfig, carrier: Carrier)
    requires OnlyHoldingsDiffer(qs, ps) && EstimateBatch(ps, config, carrier).Some?
    requires AllFit(ReadAll(ps, false), config) && HoldingsHidden(ps, config)
    ensures SameBill(qs, ps, config, carrier) && SameOffer(qs, ps, config, carrier) && AllFit(qs, config)
  {
    HoldingsFit(qs, ps, config);
    ReadingsDiffer(qs, ps, config);
    SamesSelf(ps);
    ReadingsDiffer(ps, ps, config);
    SameBillable(TotalOf(qs, config), TotalOf(ps, config), config, carrier);
  }

  lemma SamesSelf(ps: seq<Part>)
    ensures OnlyHoldingsDiffer(ps, ps)
  {
    forall i | 0 <= i < |ps| ensures SameHere(ps[i], ps[i]) {
      SameSelf(ps[i]);
    }
  }

  /**
    Under either gas model, off the floor and with no counter saturated: the bill ignores what the burner
    holds exactly when no returned asset can take a row, or the batch frees at least all it could create.
   */
  lemma BillIgnoresHoldingsExactlyWhen(ps: seq<Part>, config: GasConfig, carrier: Carrier)
    requires EstimateBatch(ps, config, carrier).Some? && AllFit(ReadAll(ps, false), config)
    requires ReadTotal(ps, false, config).created <= U32_MAX && TotalOf(ps, config).deleted <= U32_MAX
    requires Responsive(config) && Unclamped(ReadTotal(ps, true, config), config, carrier)
    requires V2(config) ==> Room(ReadTotal(ps, false, config), config, carrier)
    ensures (forall qs | OnlyHoldingsDiffer(qs, ps) :: SameBill(qs, ps, config, carrier)) <==> HoldingsHidden(ps, config)
  {
    if HoldingsHidden(ps, config) {
      forall qs | OnlyHoldingsDiffer(qs, ps) ensures SameBill(qs, ps, config, carrier) {
        HiddenHoldings(qs, ps, config, carrier);
      }
    } else {
      var held, missing := ReadAll(ps, true), ReadAll(ps, false);
      ReadAllSame(ps, true);
      ReadAllSame(ps, false);
      ReadingsDiffer(held, ps, config);
      ReadingsDiffer(missing, ps, config);
      var m, n := TotalOf(held, config), TotalOf(missing, config);
      assert m.deleted == TotalOf(ps, config).deleted by { SamesSelf(ps); ReadingsDiffer(ps, ps, config); }
      assert Net(m.created, m.deleted) < Net(n.created, n.deleted);
      BillRises(n, m, config, carrier);
      assert !SameBill(held, ps, config, carrier) || !SameBill(missing, ps, config, carrier);
    }
  }

  /**
    While it is not saturated, the ceiling ignores what the burner holds exactly when rows are free of
    escrow or no returned asset can take one.
   */
  lemma CeilingIgnoresHoldingsExactlyWhen(ps: seq<Part>, config: GasConfig, carrier: Carrier)
    requires EstimateBatch(ps, config, carrier).Some? && AllFit(ReadAll(ps, false), config)
    requires ReadTotal(ps, false, config).created <= U32_MAX && Ceiling(ReadTotal(ps, false, config), config) < U64_MAX
    ensures (forall qs | OnlyHoldingsDiffer(qs, ps) :: SameCeiling(qs, ps, config, carrier))
       <==> config.dataEscrowPerRow == 0 || ReadTotal(ps, false, config).created == ReadTotal(ps, true, config).created
  {
    if config.dataEscrowPerRow == 0 || ReadTotal(ps, false, config).created == ReadTotal(ps, true, config).created {
      forall qs | OnlyHoldingsDiffer(qs, ps) ensures SameCeiling(qs, ps, config, carrier) {
        CeilingKept(qs, ps, config, carrier);
      }
    } else {
      CeilingMoves(ps, config, carrier);
    }
  }

  lemma CeilingKept(qs: seq<Part>, ps: seq<Part>, config: GasConfig, carrier: Carrier)
    requires OnlyHoldingsDiffer(qs, ps) && EstimateBatch(ps, config, carrier).Some?
    requires config.dataEscrowPerRow == 0 || ReadTotal(ps, false, config).created == ReadTotal(ps, true, config).created
    ensures SameCeiling(qs, ps, config, carrier)
  {
    SamesSelf(ps);
    ReadingsDiffer(ps, ps, config);
    ReadingsDiffer(qs, ps, config);
    EqualCeilings(TotalOf(qs, config), TotalOf(ps, config), config);
  }

  lemma EqualCeilings(m: Model, n: Model, config: GasConfig)
    requires m.created == n.created || config.dataEscrowPerRow == 0
    ensures Ceiling(m, config) == Ceiling(n, config)
  {
  }

  lemma CeilingMoves(ps: seq<Part>, config: GasConfig, carrier: Carrier)
    requires EstimateBatch(ps, config, carrier).Some? && config.dataEscrowPerRow > 0
    requires ReadTotal(ps, false, config).created != ReadTotal(ps, true, config).created
    requires ReadTotal(ps, false, config).created <= U32_MAX && Ceiling(ReadTotal(ps, false, config), config) < U64_MAX
    ensures exists qs :: OnlyHoldingsDiffer(qs, ps) && !SameCeiling(qs, ps, config, carrier)
  {
    var held, missing := ReadAll(ps, true), ReadAll(ps, false);
    ReadAllSame(ps, true);
    ReadAllSame(ps, false);
    ReadingsDiffer(held, ps, config);
    HoldingModels(missing, ps, config);
    CeilingRises(TotalOf(held, config), TotalOf(missing, config), config);
    assert !SameCeiling(held, ps, config, carrier) || !SameCeiling(missing, ps, config, carrier);
  }

  lemma CeilingRises(m: Model, n: Model, config: GasConfig)
    requires m.created < n.created <= U32_MAX && config.dataEscrowPerRow > 0 && Ceiling(n, config) < U64_MAX
    ensures Ceiling(m, config) < Ceiling(n, config)
  {
    MulRises(m.created, n.created, config.dataEscrowPerRow);
  }

  /** Under every setting, saturated or not: the whole quote ignores the holdings exactly when its two extremes agree. */
  lemma QuoteIgnoresHoldingsExactlyWhen(ps: seq<Part>, config: GasConfig, carrier: Carrier)
    requires EstimateBatch(ps, config, carrier).Some? && AllFit(ReadAll(ps, false), config)
    ensures EstimateBatch(ReadAll(ps, true), config, carrier).Some? && EstimateBatch(ReadAll(ps, false), config, carrier).Some?
    ensures (forall qs | OnlyHoldingsDiffer(qs, ps) ::
               EstimateBatch(qs, config, carrier).Some?
               && SameQuote(EstimateBatch(qs, config, carrier).value, EstimateBatch(ps, config, carrier).value))
       <==> SameQuote(EstimateBatch(ReadAll(ps, true), config, carrier).value, EstimateBatch(ReadAll(ps, false), config, carrier).value)
  {
    ReadAllSame(ps, true);
    ReadAllSame(ps, false);
    SamesSelf(ps);
    HoldingBetween(ps, ps, config, carrier);
    if SameQuote(EstimateBatch(ReadAll(ps, true), config, carrier).value, EstimateBatch(ReadAll(ps, false), config, carrier).value) {
      forall qs | OnlyHoldingsDiffer(qs, ps)
        ensures EstimateBatch(qs, config, carrier).Some?
                && SameQuote(EstimateBatch(qs, config, carrier).value, EstimateBatch(ps, config, carrier).value)
      {
        HoldingBetween(qs, ps, config, carrier);
      }
    }
  }

  /** Where they move no bill, the two extremes quote alike exactly when rows are free of escrow or none hangs on a holding. */
  lemma ExtremesAgreeExactlyWhen(ps: seq<Part>, config: GasConfig, carrier: Carrier)
    requires EstimateBatch(ps, config, carrier).Some? && HoldingsHidden(ps, config)
    requires ReadTotal(ps, false, config).created <= U32_MAX && Ceiling(ReadTotal(ps, false, config), config) < U64_MAX
    ensures EstimateBatch(ReadAll(ps, true), config, carrier).Some? && EstimateBatch(ReadAll(ps, false), config, carrier).Some?
    ensures SameQuote(EstimateBatch(ReadAll(ps, true), config, carrier).value, EstimateBatch(ReadAll(ps, false), config, carrier).value)
       <==> config.dataEscrowPerRow == 0 || AllHoldingRows(ps, config) == 0
  {
    ReadAllSame(ps, true);
    HoldingModels(ReadAll(ps, true), ps, config);
    var held, missing := EstimateBatch(ReadAll(ps, true), config, carrier).value, EstimateBatch(ReadAll(ps, false), config, carrier).value;
    Settled(ReadAll(ps, true), config, carrier, held);
    Settled(ReadAll(ps, false), config, carrier, missing);
    SamesSelf(ps);
    ReadingsDiffer(ps, ps, config);
    ExtremeModels(ReadTotal(ps, true, config), ReadTotal(ps, false, config), AllHoldingRows(ps, config), config, carrier);
  }

  lemma Settled(ps: seq<Part>, config: GasConfig, carrier: Carrier, e: Estimate)
    requires EstimateBatch(ps, config, carrier) == Some(e)
    ensures Models(ps, config).Some?
    ensures e.bill == Bill(TotalOf(ps, config), config, carrier) && e.maxGas == Offer(TotalOf(ps, config), config, carrier)
    ensures e.maxData == Ceiling(TotalOf(ps, config), config)
  {
  }

  lemma ExtremeModels(held: Model, missing: Model, rows: nat, config: GasConfig, carrier: Carrier)
    requires missing == held.(created := held.created + rows) && (rows == 0 || missing.created <= held.deleted)
    requires missing.created <= U32_MAX && Ceiling(missing, config) < U64_MAX
    ensures Bill(held, config, carrier) == Bill(missing, config, carrier)
    ensures Offer(held, config, carrier) == Offer(missing, config, carrier)
    ensures Ceiling(held, config) == Ceiling(missing, config) <==> config.dataEscrowPerRow == 0 || rows == 0
  {
    SameBillable(held, missing, config, carrier);
    if config.dataEscrowPerRow == 0 || rows == 0 {
      EqualCeilings(held, missing, config);
    } else {
      CeilingRises(held, missing, config);
    }
  }

  predicate QuoteBelow(e: Estimate, f: Estimate) {
    e.bill <= f.bill && e.maxGas <= f.maxGas && e.maxData <= f.maxData
  }

  /** Every reading of the holdings is quoted between the all-held one and the all-missing one. */
  lemma HoldingBetween(qs: seq<Part>, ps: seq<Part>, config: GasConfig, carrier: Carrier)
    requires OnlyHoldingsDiffer(qs, ps) && EstimateBatch(ps, config, carrier).Some? && AllFit(ReadAll(ps, false), config)
    ensures EstimateBatch(qs, config, carrier).Some? && AllFit(qs, config)
    ensures EstimateBatch(ReadAll(ps, true), config, carrier).Some? && EstimateBatch(ReadAll(ps, false), config, carrier).Some?
    ensures QuoteBelow(EstimateBatch(ReadAll(ps, true), config, carrier).value, EstimateBatch(qs, config, carrier).value)
    ensures QuoteBelow(EstimateBatch(qs, config, carrier).value, EstimateBatch(ReadAll(ps, false), config, carrier).value)
  {
    HoldingsFit(qs, ps, config);
    HoldingModels(qs, ps, config);
    ReadingsDiffer(qs, ps, config);
    var held, m, missing := ReadTotal(ps, true, config), TotalOf(qs, config), ReadTotal(ps, false, config);
    LessNet(held.created, held.deleted, m.created, m.deleted);
    LessNet(m.created, m.deleted, missing.created, missing.deleted);
    SettleMonotone(held, m, config, carrier);
    SettleMonotone(m, missing, config, carrier);
    CeilingMonotone(held, m, config);
    CeilingMonotone(m, missing, config);
  }

  // ----- burns alone -----

  /** For burns alone the bill and the offer never move with what the burner already holds; only the ceiling does. */
  lemma BurnsIgnoreHoldings(qs: seq<Part>, ps: seq<Part>, config: GasConfig, carrier: Carrier)
    requires OnlyHoldingsDiffer(qs, ps) && OnlyBurns(ps) && EstimateBatch(ps, config, carrier).Some?
    requires AllFit(ReadAll(ps, false), config)
    ensures SameBill(qs, ps, config, carrier) && SameOffer(qs, ps, config, carrier) && AllFit(qs, config)
  {
    BurnsHide(ps, config);
    HiddenHoldings(qs, ps, config, carrier);
  }

  lemma BurnsHide(ps: seq<Part>, config: GasConfig)
    requires OnlyBurns(ps) && Models(ps, config).Some?
    ensures HoldingsHidden(ps, config)
  {
    ReadAllSame(ps, false);
    StillBurns(ReadAll(ps, false), ps);
    ReadingsDiffer(ReadAll(ps, false), ps, config);
    BurnsCovered(ReadAll(ps, false), config);
    SamesSelf(ps);
    ReadingsDiffer(ps, ps, config);
  }

  /** Batches that do not mix NFT burns with other operations hide the holdings from the bill. */
  lemma UnmixedHides(ps: seq<Part>, config: GasConfig)
    requires Unmixed(ps) && Models(ps, config).Some?
    ensures HoldingsHidden(ps, config)
  {
    if OnlyBurns(ps) {
      BurnsHide(ps, config);
    } else {
      NoBurnsNoRows(ps, config);
      SamesSelf(ps);
      ReadingsDiffer(ps, ps, config);
    }
  }

  lemma {:induction false} NoBurnsNoRows(ps: seq<Part>, config: GasConfig)
    requires forall p <- ps :: !p.kind.BurnNonFungible?
    ensures AllHoldingRows(ps, config) == 0
  {
    if ps != [] {
      NoBurnsNoRows(ps[1..], config);
    }
  }

  lemma StillBurns(qs: seq<Part>, ps: seq<Part>)
    requires OnlyHoldingsDiffer(qs, ps) && OnlyBurns(ps)
    ensures OnlyBurns(qs)
  {
    forall q | q in qs ensures q.kind.BurnNonFungible? {
      var i :| 0 <= i < |qs| && qs[i] == q;
      assert SameHere(qs[i], ps[i]) && ps[i] in ps;
    }
  }

  // ----- small batches -----

  /** A burn that returns one fungible token, held already or not, with two fungible mints. */
  function ReturningBatch(held: bool): seq<Part> {
    [Part(BurnNonFungible, DEFAULT.(infusions := Some([InfusedAsset(None, false, None, held)]))),
     Part(MintFungible, DEFAULT), Part(MintFungible, DEFAULT)]
  }

  /** In a mixed batch the bill does move with what the burner holds. */
  lemma MixedBatchHeedsHoldings(config: GasConfig, carrier: Carrier)
    ensures OnlyHoldingsDiffer(ReturningBatch(true), ReturningBatch(false))
    ensures Models(ReturningBatch(true), config).Some? && Models(ReturningBatch(false), config).Some?
    ensures Responsive(config) && Unclamped(TotalOf(ReturningBatch(true), config), config, carrier)
            && (V2(config) ==> Room(TotalOf(ReturningBatch(false), config), config, carrier)) ==>
              Bill(TotalOf(ReturningBatch(true), config), config, carrier)
              < Bill(TotalOf(ReturningBatch(false), config), config, carrier)
    ensures config == PLAIN && carrier.envelope == 200 ==>
              Responsive(config) && Unclamped(TotalOf(ReturningBatch(true), config), config, carrier)
              && Room(TotalOf(ReturningBatch(false), config), config, carrier)
  {
    ReturningTotal(true, config);
    ReturningTotal(false, config);
    ReturningSame();
    var p, q := TotalOf(ReturningBatch(true), config), TotalOf(ReturningBatch(false), config);
    if Responsive(config) && Unclamped(p, config, carrier) && (V2(config) ==> Room(q, config, carrier)) {
      BillRises(q, p, config, carrier);
    }
    if config == PLAIN && carrier.envelope == 200 {
      PlainBill(p, carrier);
      PlainBill(q, carrier);
    }
  }

  lemma ReturningSame()
    ensures OnlyHoldingsDiffer(ReturningBatch(true), ReturningBatch(false))
  {
    var qs, ps := ReturningBatch(true), ReturningBatch(false);
    forall i | 0 <= i < |ps| ensures SameHere(qs[i], ps[i]) {
    }
  }

  function ReturningWork(config: GasConfig): nat {
    Sat64(OneBurnWork(config) + Sat64(config.gasFeeTransfer + config.gasFeeQuery)) + config.gasFeeTransfer + config.gasFeeTransfer
  }

  lemma ReturningTotal(held: bool, config: GasConfig)
    ensures Models(ReturningBatch(held), config).Some?
    ensures TotalOf(ReturningBatch(held), config) == Model(ReturningWork(config), 0, 66, if held then 6 else 7, 5)
  {
    ReturnedOne(held, config);
    DefaultBurn(Some([InfusedAsset(None, false, None, held)]), config);
    DefaultMint(config);
    ThreeParts(ReturningBatch(held), config);
  }

  lemma ThreeParts(ps: seq<Part>, config: GasConfig)
    requires |ps| == 3 && forall i :: 0 <= i < 3 ==> PartModel(ps[i], config).Some?
    ensures Models(ps, config).Some?
    ensures var a, b, c := PartModel(ps[0], config).value, PartModel(ps[1], config).value, PartModel(ps[2], config).value;
            TotalOf(ps, config) == Plus(a, Plus(b, Plus(c, NOTHING)))
  {
    ModelsTail(ps, config);
    ModelsTail(ps[1..], config);
    ModelsTail(ps[1..][1..], config);
    assert ps[1..][1..][1..] == [];
  }

  lemma ReturnedOne(held: bool, config: GasConfig)
    ensures Returned([InfusedAsset(None, false, None, held)], config)
         == Some(Model(Sat64(config.gasFeeTransfer + config.gasFeeQuery), 0, 0, if held then 0 else 1, 1))
  {
    var a := InfusedAsset(None, false, None, held);
    assert [a][1..] == [];
    AddedToNothing(AssetModel(a, config).value);
  }
}
