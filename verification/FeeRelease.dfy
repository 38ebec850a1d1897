/**
  Pricing as a release build does it, in 32-bit counters that wrap, and that it is the pricing of the
  model wherever the sums of every operation fit.
 */
module FeeRelease {
  import opened Words
  import opened FeeArithmetic
  import opened FeeModel
  import opened FeeSettlement
  import opened FeeBounds
  import opened FeePlanning

  function FixedRows(p: Params): nat {
    2 + Quantum(Or(p.facts.romHasMetaId, true))
  }

  function ReleaseMint(p: Params, config: GasConfig, count: nat): Option<Model> {
    var m :- MintNonFungibleModel(p, config, count);
    var rows := WrappedRows(PerInstance(p.romBytes, count).value, PerInstance(p.ramBytes, count).value, false, FixedRows(p));
    Some(m.(result := Wrap32(m.result), created := Wrap32(RecipientRow(p, config) + SupplyRow(p, config) + rows)))
  }

  function ReleasePhantasma(p: Params, config: GasConfig, count: nat): Option<Model> {
    var m :- MintPhantasmaModel(p, config, count);
    var rows := WrappedRows(PerInstance(p.romBytes, count).value, PerInstance(p.ramBytes, count).value, true, 3);
    Some(m.(result := Wrap32(m.result), created := Wrap32(RecipientRow(p, config) + SupplyRow(p, config) + rows)))
  }

  function ReleaseBurn(p: Params, config: GasConfig, count: nat): Option<Model> {
    var m :- BurnNonFungibleModel(p, config, count);
    var rows := WrappedRows(PerInstance(p.romBytes, count).value, PerInstance(p.ramBytes, count).value, false, FixedRows(p));
    var returned := Returned(Assets(p), config).value;
    Some(m.(created := Wrap32(BurntRow(p, config) + SupplyRow(p, config) + returned.created),
            deleted := Wrap32(rows + returned.deleted)))
  }

  /** The token info's row is measured in 32 bits; the handful of rows beside it cannot overflow. */
  function ReleaseToken(p: Params, config: GasConfig): Option<Model> {
    var m :- CreateTokenModel(p, config);
    Some(m.(created := m.created - Quanta(9 + p.tokenInfoBytes) + Quanta(Wrap32(9 + p.tokenInfoBytes))))
  }

  function ReleaseSeries(p: Params, config: GasConfig): Model {
    var m := CreateSeriesModel(p, config);
    m.(created := m.created - Quanta(13 + p.seriesInfoBytes) + Quanta(Wrap32(13 + p.seriesInfoBytes)))
  }

  function ReleaseOperation(kind: Kind, p: Params, config: GasConfig, count: nat): Option<Model> {
    match kind
    case TransferNonFungible => Some(Wrap(TransferNonFungibleModel(p, config, count)))
    case MintNonFungible => ReleaseMint(p, config, count)
    case MintPhantasmaNonFungible => ReleasePhantasma(p, config, count)
    case BurnNonFungible => ReleaseBurn(p, config, count)
    case CreateToken => ReleaseToken(p, config)
    case CreateTokenSeries => Some(ReleaseSeries(p, config))
    case _ => OperationModel(kind, p, config, count)
  }

  function ReleaseModel(p: Part, config: GasConfig): Option<Model> {
    var count := Or(p.params.count, 1);
    if count == 0 then None else ReleaseOperation(p.kind, p.params, config, count)
  }

  // ----- where the sums fit, the release build prices as the model does -----

  lemma MintReleases(p: Params, config: GasConfig, count: nat)
    requires MintNonFungibleModel(p, config, count).Some?
    requires RowsFit(PerInstance(p.romBytes, count).value, PerInstance(p.ramBytes, count).value, false)
    requires var m := MintNonFungibleModel(p, config, count).value; m.result <= U32_MAX && m.created <= U32_MAX
    ensures ReleaseMint(p, config, count) == MintNonFungibleModel(p, config, count)
  {
    RowsExact(PerInstance(p.romBytes, count).value, PerInstance(p.ramBytes, count).value, false, FixedRows(p));
  }

  lemma PhantasmaReleases(p: Params, config: GasConfig, count: nat)
    requires MintPhantasmaModel(p, config, count).Some?
    requires RowsFit(PerInstance(p.romBytes, count).value, PerInstance(p.ramBytes, count).value, true)
    requires var m := MintPhantasmaModel(p, config, count).value; m.result <= U32_MAX && m.created <= U32_MAX
    ensures ReleasePhantasma(p, config, count) == MintPhantasmaModel(p, config, count)
  {
    RowsExact(PerInstance(p.romBytes, count).value, PerInstance(p.ramBytes, count).value, true, 3);
  }

  lemma BurnReleases(p: Params, config: GasConfig, count: nat)
    requires BurnNonFungibleModel(p, config, count).Some?
    requires RowsFit(PerInstance(p.romBytes, count).value, PerInstance(p.ramBytes, count).value, false)
    requires var m := BurnNonFungibleModel(p, config, count).value; m.created <= U32_MAX && m.deleted <= U32_MAX
    ensures ReleaseBurn(p, config, count) == BurnNonFungibleModel(p, config, count)
  {
    RowsExact(PerInstance(p.romBytes, count).value, PerInstance(p.ramBytes, count).value, false, FixedRows(p));
  }

  lemma TokenReleases(p: Params, config: GasConfig)
    requires 9 + (p.tokenInfoBytes as nat) <= U32_MAX
    ensures ReleaseToken(p, config) == CreateTokenModel(p, config)
  {
  }

  lemma SeriesReleases(p: Params, config: GasConfig)
    requires 13 + (p.seriesInfoBytes as nat) <= U32_MAX
    ensures ReleaseSeries(p, config) == CreateSeriesModel(p, config)
  {
  }

  /** An operation whose 32-bit sums fit is priced alike by both. */
  lemma PartReleases(p: Part, config: GasConfig)
    requires PartFits(p, config)
    ensures ReleaseModel(p, config) == PartModel(p, config)
  {
    if PartModel(p, config).Some? {
      match p.kind {
        case MintNonFungible => MintReleases(p.params, config, Count(p));
        case MintPhantasmaNonFungible => PhantasmaReleases(p.params, config, Count(p));
        case BurnNonFungible => BurnReleases(p.params, config, Count(p));
        case CreateToken => TokenReleases(p.params, config);
        case CreateTokenSeries => SeriesReleases(p.params, config);
        case _ =>
      }
    }
  }

  /** Whatever is priced, the release build's counters are 32-bit numbers. */
  lemma ReleaseFits(p: Part, config: GasConfig)
    requires ReleaseModel(p, config).Some?
    ensures var m := ReleaseModel(p, config).value; m.result <= U32_MAX && m.created <= U32_MAX && m.deleted <= U32_MAX
  {
    match p.kind {
      case CreateToken => TokenFits(p.params, config);
      case MintNonFungible => MintFits(p.params, config, Count(p));
      case MintPhantasmaNonFungible => PhantasmaFits(p.params, config, Count(p));
      case BurnNonFungible => BurnFits(p.params, config, Count(p));
      case RegisterName => assert ReleaseModel(p, config) == RegisterNameModel(p.params, config);
      case _ =>
    }
  }

  predicate Counts32(m: Option<Model>) {
    m.Some? ==> m.value.result <= U32_MAX && m.value.created <= U32_MAX && m.value.deleted <= U32_MAX
  }

  lemma MintFits(p: Params, config: GasConfig, count: nat)
    ensures Counts32(ReleaseMint(p, config, count))
  {
  }

  lemma PhantasmaFits(p: Params, config: GasConfig, count: nat)
    ensures Counts32(ReleasePhantasma(p, config, count))
  {
  }

  lemma BurnFits(p: Params, config: GasConfig, count: nat)
    ensures Counts32(ReleaseBurn(p, config, count))
  {
  }

  lemma TokenFits(p: Params, config: GasConfig)
    requires CreateTokenModel(p, config).Some?
    ensures ReleaseToken(p, config).value.created <= U32_MAX
  {
  }

  /** Beyond 32 bits they part: the row of a token, of a series or of an instance is measured from zero again. */
  lemma RowsWrap(config: GasConfig)
    ensures var p := Part(CreateToken, DEFAULT.(tokenInfoBytes := 0xFFFF_FFFF));
            ReleaseModel(p, config).Some? && PartModel(p, config).Some?
            && PartModel(p, config).value.created == ReleaseModel(p, config).value.created + 0x40_0000
    ensures var p := Part(CreateTokenSeries, DEFAULT.(seriesInfoBytes := 0xFFFF_FFFF));
            ReleaseModel(p, config).Some? && PartModel(p, config).Some?
            && PartModel(p, config).value.created == ReleaseModel(p, config).value.created + 0x40_0000
    ensures WrappedRows([0xFFFF_FFFF], [0], false, 2) + 0x40_0000 == AllRows([0xFFFF_FFFF], [0], false, 2)
  {
    var one: seq<U32>, none: seq<U32> := [0xFFFF_FFFF], [0];
    assert one[1..] == [] && none[1..] == [];
    assert WrappedRows(one[1..], none[1..], false, 2) == 0 && AllRows(one[1..], none[1..], false, 2) == 0;
  }

  // ----- batches and plans -----

  function ReleaseModels(ps: seq<Part>, config: GasConfig): Option<seq<Model>> {
    if ps == [] then Some([]) else
      var head :- ReleaseModel(ps[0], config);
      var tail :- ReleaseModels(ps[1..], config);
      Some([head] + tail)
  }

  function ReleaseBatch(ps: seq<Part>, config: GasConfig, carrier: Carrier): Option<Estimate> {
    var models :- ReleaseModels(ps, config);
    Settle(Total(models), config, carrier)
  }

  lemma {:induction false} ModelsRelease(ps: seq<Part>, config: GasConfig)
    requires AllFit(ps, config)
    ensures ReleaseModels(ps, config) == Models(ps, config)
  {
    if ps != [] {
      PartReleases(ps[0], config);
      forall i | 0 <= i < |ps[1..]| ensures PartFits(ps[1..][i], config) {
        assert PartFits(ps[i + 1], config);
      }
      ModelsRelease(ps[1..], config);
    }
  }

  /** A batch whose parts fit is quoted by the release build as by the model. */
  lemma BatchReleases(ps: seq<Part>, config: GasConfig, carrier: Carrier)
    requires AllFit(ps, config)
    ensures ReleaseBatch(ps, config, carrier) == EstimateBatch(ps, config, carrier)
  {
    ModelsRelease(ps, config);
  }

  function ReleaseMattered(ps: seq<Part>, config: GasConfig, o: Options, carrier: Carrier, quoted: Estimate): Option<bool> {
    var parts :- Priced(ps, Cheapest(o));
    var cheaper :- ReleaseBatch(parts, config, carrier);
    Some(!SameQuote(cheaper, quoted))
  }

  /** The plan as a release build makes it. */
  function ReleasePlan(ps: seq<Part>, size: U32, config: GasConfig, o: Options): Option<Plan> {
    var parts :- Priced(ps, o);
    var estimate :- ReleaseBatch(parts, config, Carrier(size, 0));
    var mattered :- if Budgeted(parts) then Some(true) else ReleaseMattered(ps, config, o, Carrier(size, 0), estimate);
    Some(Plan(KindsOf(parts), !mattered, size, estimate))
  }

  predicate PlanFits(ps: seq<Part>, config: GasConfig, o: Options) {
    Priced(ps, o).Some? ==> AllFit(Priced(ps, o).value, config)
  }

  /** Where the quoted sums fit, the release build makes the plan of the model, `exact` included. */
  lemma PlanReleases(ps: seq<Part>, size: U32, config: GasConfig, o: Options)
    requires PlanFits(ps, config, o)
    ensures ReleasePlan(ps, size, config, o) == PlanParts(ps, size, config, o)
  {
    if Priced(ps, o).Some? {
      var high, carrier := Priced(ps, o).value, Carrier(size, 0);
      BatchReleases(high, config, carrier);
      if EstimateBatch(high, config, carrier).Some? {
        PricedCheaper(ps, o);
        var low := Priced(ps, Cheapest(o)).value;
        CheaperFit(low, high, config);
        BatchReleases(low, config, carrier);
      }
    }
  }
}
