/**
  Planning: the operations recognised in a message get the facts it does not carry, are priced, and the
  price is marked exact or a bound.
 */
module FeePlanning {
  import opened Words
  import opened FeeArithmetic
  import opened FeeModel
  import opened FeeSettlement
  import opened FeeBounds

  /** What a plan is told beside the message: chain state, infused assets, script budgets, the witness count. */
  datatype Options = Options(
    witnessCount: Option<U32>, facts: Facts, infusions: Option<seq<InfusedAsset>>,
    scriptUnits: Option<U64>, scriptEventBytes: Option<U32>, scriptQuanta: Option<U32>)

  // ----- adding what the message does not carry -----

  /** The state facts each kind of operation is priced from. */
  function FactsFor(kind: Kind, o: Options): Facts {
    var f := o.facts;
    match kind
    case CreateToken => UNSTATED
    case RegisterName => UNSTATED
    case Script => UNSTATED
    case CreateTokenSeries => Facts(false, None, false, false, f.seriesHasMetaId, None, None)
    case MintPhantasmaNonFungible =>
      Facts(f.recipientHoldsToken, f.bigFungible, f.tokenBurnedBefore, f.supplyRowExists, None, f.romHasMetaId, f.duplicatedSeries)
    case _ =>
      Facts(f.recipientHoldsToken, f.bigFungible, f.tokenBurnedBefore, f.supplyRowExists, None, f.romHasMetaId, None)
  }

  /** The inputs of an operation other than facts: what a burn returns, what a script may spend. */
  function Supplied(p: Part, o: Options, due: Option<seq<InfusedAsset>>): Option<Params> {
    if p.kind.BurnNonFungible? then
      if due.None? then None else Some(p.params.(infusions := due))
    else if p.kind.Script? then
      Some(p.params.(scriptUnitsAllowance := o.scriptUnits, scriptEventBytes := o.scriptEventBytes,
                     scriptStorageQuanta := o.scriptQuanta))
    else Some(p.params)
  }

  function Dress(p: Part, o: Options, due: Option<seq<InfusedAsset>>): (r: Option<Part>)
    ensures r.Some? ==> r.value.kind == p.kind
  {
    var params :- Supplied(p, o, due);
    Some(Stated(p.kind, params, FactsFor(p.kind, o)))
  }

  function Stated(kind: Kind, params: Params, facts: Facts): Part {
    Part(kind, params.(facts := facts))
  }

  /** The first burn takes the whole infusion list, the burns after it none. */
  function DressAll(ps: seq<Part>, o: Options, due: Option<seq<InfusedAsset>>): (r: Option<seq<Part>>)
    ensures r.Some? ==> |r.value| == |ps| && forall i :: 0 <= i < |ps| ==> r.value[i].kind == ps[i].kind
  {
    if ps == [] then Some([]) else
      var head :- Dress(ps[0], o, due);
      var tail :- DressAll(ps[1..], o, After(ps[0], due));
      Some([head] + tail)
  }

  function After(p: Part, due: Option<seq<InfusedAsset>>): Option<seq<InfusedAsset>> {
    if p.kind.BurnNonFungible? then Some([]) else due
  }

  /** The facts of token movements. */
  predicate SameMovement(f: Facts, g: Facts) {
    f.recipientHoldsToken == g.recipientHoldsToken && f.bigFungible == g.bigFungible && f.tokenBurnedBefore == g.tokenBurnedBefore
    && f.supplyRowExists == g.supplyRowExists && f.romHasMetaId == g.romHasMetaId
  }

  lemma MovementReaches(kind: Kind, p: Params, f: Facts, g: Facts, config: GasConfig, count: nat)
    requires SameMovement(f, g) && (kind.TransferFungible? || kind.MintFungible? || kind.BurnFungible? || kind.TransferNonFungible?)
    ensures OperationModel(kind, p.(facts := f), config, count) == OperationModel(kind, p.(facts := g), config, count)
  {
  }

  lemma MintReaches(p: Params, f: Facts, g: Facts, config: GasConfig, count: nat)
    requires SameMovement(f, g)
    ensures MintNonFungibleModel(p.(facts := f), config, count) == MintNonFungibleModel(p.(facts := g), config, count)
  {
  }

  lemma PhantasmaReaches(p: Params, f: Facts, g: Facts, config: GasConfig, count: nat)
    requires SameMovement(f, g) && f.duplicatedSeries == g.duplicatedSeries
    ensures MintPhantasmaModel(p.(facts := f), config, count) == MintPhantasmaModel(p.(facts := g), config, count)
  {
  }

  lemma BurnReaches(p: Params, f: Facts, g: Facts, config: GasConfig, count: nat)
    requires SameMovement(f, g)
    ensures BurnNonFungibleModel(p.(facts := f), config, count) == BurnNonFungibleModel(p.(facts := g), config, count)
  {
  }

  lemma OthersReached(kind: Kind, p: Params, f: Facts, g: Facts, config: GasConfig, count: nat)
    requires kind.CreateToken? || kind.RegisterName? || kind.Script? || (kind.CreateTokenSeries? && f.seriesHasMetaId == g.seriesHasMetaId)
    ensures OperationModel(kind, p.(facts := f), config, count) == OperationModel(kind, p.(facts := g), config, count)
  {
  }

  /** Every fact an operation is priced from reaches it. */
  lemma FactsReach(kind: Kind, params: Params, o: Options, config: GasConfig)
    ensures PartModel(Stated(kind, params, FactsFor(kind, o)), config) == PartModel(Stated(kind, params, o.facts), config)
  {
    var f, g, count: nat := FactsFor(kind, o), o.facts, Or(params.count, 1);
    match kind {
      case MintNonFungible => MintReaches(params, f, g, config, count);
      case MintPhantasmaNonFungible => PhantasmaReaches(params, f, g, config, count);
      case BurnNonFungible => BurnReaches(params, f, g, config, count);
      case TransferFungible => MovementReaches(kind, params, f, g, config, count);
      case TransferNonFungible => MovementReaches(kind, params, f, g, config, count);
      case MintFungible => MovementReaches(kind, params, f, g, config, count);
      case BurnFungible => MovementReaches(kind, params, f, g, config, count);
      case _ => OthersReached(kind, params, f, g, config, count);
    }
  }

  /** An operation is priced from all facts of chain state and its own; a burn from the assets due, too. */
  lemma DressedPrice(p: Part, o: Options, due: Option<seq<InfusedAsset>>, config: GasConfig)
    requires !p.kind.Script?
    ensures Dress(p, o, due).Some? <==> !p.kind.BurnNonFungible? || due.Some?
    ensures Dress(p, o, due).Some? ==>
              PartModel(Dress(p, o, due).value, config)
              == PartModel(Part(p.kind, p.params.(facts := o.facts, infusions := if p.kind.BurnNonFungible? then due else p.params.infusions)), config)
  {
    var params := Supplied(p, o, due);
    if params.Some? {
      FactsReach(p.kind, params.value, o, config);
      RestatedParams(p.params, params.value, o.facts, if p.kind.BurnNonFungible? then due else p.params.infusions);
    }
  }

  lemma RestatedParams(p: Params, q: Params, facts: Facts, infusions: Option<seq<InfusedAsset>>)
    requires q == p.(infusions := infusions)
    ensures q.(facts := facts) == p.(facts := facts, infusions := infusions)
  {
  }

  /** A script is priced at the budgets the plan is given. */
  lemma DressedScript(p: Part, o: Options, due: Option<seq<InfusedAsset>>)
    requires p.kind.Script?
    ensures Dress(p, o, due).Some?
    ensures var q := Dress(p, o, due).value.params;
            q.scriptUnitsAllowance == o.scriptUnits && q.scriptEventBytes == o.scriptEventBytes && q.scriptStorageQuanta == o.scriptQuanta
            && q.count == p.params.count
  {
  }

  // ----- the plan -----

  datatype Plan = Plan(kinds: seq<Kind>, exact: bool, envelope: U32, estimate: Estimate)

  /** Every fact at its cheaper reading, save those stated that have no default left to flip. */
  function Cheapest(o: Options): Options {
    o.(facts := Facts(true, Some(false), true, true,
                      Some(Or(o.facts.seriesHasMetaId, false)), Some(Or(o.facts.romHasMetaId, false)),
                      Some(Or(o.facts.duplicatedSeries, false))))
  }

  predicate Budgeted(ps: seq<Part>) {
    exists p <- ps :: p.kind.Script?
  }

  /** The parts a list of recognised operations is priced as. */
  function Priced(ps: seq<Part>, o: Options): Option<seq<Part>> {
    DressAll(ps, o, o.infusions)
  }

  /** Whether a fact left at its costlier reading changed the quote: price again at the cheaper readings. */
  function AssumptionsMattered(ps: seq<Part>, config: GasConfig, o: Options, carrier: Carrier, quoted: Estimate): Option<bool> {
    var parts :- Priced(ps, Cheapest(o));
    var cheaper :- EstimateBatch(parts, config, carrier);
    Some(!SameQuote(cheaper, quoted))
  }

  function KindsOf(ps: seq<Part>): seq<Kind> {
    seq(|ps|, i requires 0 <= i < |ps| => ps[i].kind)
  }

  /** The plan of recognised operations `ps` in an envelope of `size` bytes. */
  function PlanParts(ps: seq<Part>, size: U32, config: GasConfig, o: Options): Option<Plan> {
    var parts :- Priced(ps, o);
    var estimate :- EstimateBatch(parts, config, Carrier(size, 0));
    var mattered :- if Budgeted(parts) then Some(true) else AssumptionsMattered(ps, config, o, Carrier(size, 0), estimate);
    Some(Plan(KindsOf(parts), !mattered, size, estimate))
  }

  // ----- facts and the parts they dress -----

  predicate SameButFacts(p: Options, o: Options) {
    p == o.(facts := p.facts)
  }

  lemma FactsCheaper(kind: Kind, p: Options, o: Options)
    requires Cheaper(p.facts, o.facts)
    ensures Cheaper(FactsFor(kind, p), FactsFor(kind, o))
  {
  }

  lemma StatedCheaper(kind: Kind, params: Params, f: Facts, g: Facts)
    requires Cheaper(f, g)
    ensures Under(Stated(kind, params, f), Stated(kind, params, g))
  {
  }

  lemma SuppliedSame(part: Part, p: Options, o: Options, due: Option<seq<InfusedAsset>>)
    requires SameButFacts(p, o)
    ensures Supplied(part, p, due) == Supplied(part, o, due)
  {
  }

  lemma DressCheaper(part: Part, p: Options, o: Options, due: Option<seq<InfusedAsset>>)
    requires SameButFacts(p, o) && Cheaper(p.facts, o.facts)
    ensures Dress(part, p, due).Some? == Dress(part, o, due).Some?
    ensures Dress(part, o, due).Some? ==> Under(Dress(part, p, due).value, Dress(part, o, due).value)
  {
    FactsCheaper(part.kind, p, o);
    SuppliedSame(part, p, o, due);
    var params := Supplied(part, o, due);
    if params.Some? {
      StatedCheaper(part.kind, params.value, FactsFor(part.kind, p), FactsFor(part.kind, o));
    }
  }

  /** Cheaper facts change neither what a message is recognised as nor whether it can be described. */
  lemma {:induction false} DressAllCheaper(ps: seq<Part>, p: Options, o: Options, due: Option<seq<InfusedAsset>>)
    requires SameButFacts(p, o) && Cheaper(p.facts, o.facts)
    ensures DressAll(ps, p, due).Some? == DressAll(ps, o, due).Some?
    ensures DressAll(ps, o, due).Some? ==> UnderAll(DressAll(ps, p, due).value, DressAll(ps, o, due).value)
  {
    if ps != [] {
      var next := After(ps[0], due);
      DressCheaper(ps[0], p, o, due);
      DressAllCheaper(ps[1..], p, o, next);
      if DressAll(ps, o, due).Some? {
        UnderCons(Dress(ps[0], p, due).value, DressAll(ps[1..], p, next).value,
                  Dress(ps[0], o, due).value, DressAll(ps[1..], o, next).value);
      }
    }
  }

  lemma UnderCons(q: Part, qs: seq<Part>, p: Part, ps: seq<Part>)
    requires Under(q, p) && UnderAll(qs, ps)
    ensures UnderAll([q] + qs, [p] + ps)
  {
    var cs, bs := [q] + qs, [p] + ps;
    forall i | 0 <= i < |bs| ensures Under(cs[i], bs[i]) {
      assert i > 0 ==> Under(qs[i - 1], ps[i - 1]);
    }
  }

  lemma CheapestIsCheaper(o: Options)
    ensures SameButFacts(Cheapest(o), o) && Cheaper(Cheapest(o).facts, o.facts)
  {
  }

  lemma PricedCheaper(ps: seq<Part>, o: Options)
    requires Priced(ps, o).Some?
    ensures Priced(ps, Cheapest(o)).Some? && UnderAll(Priced(ps, Cheapest(o)).value, Priced(ps, o).value)
  {
    CheapestIsCheaper(o);
    DressAllCheaper(ps, Cheapest(o), o, o.infusions);
  }

  /** The second pricing never refuses: a plan exists exactly when the operations can be dressed and settled. */
  lemma PlansExactlyWhen(ps: seq<Part>, size: U32, config: GasConfig, o: Options)
    ensures PlanParts(ps, size, config, o).Some? <==>
              Priced(ps, o).Some? && EstimateBatch(Priced(ps, o).value, config, Carrier(size, 0)).Some?
  {
    if Priced(ps, o).Some? && EstimateBatch(Priced(ps, o).value, config, Carrier(size, 0)).Some? {
      PricedCheaper(ps, o);
      BatchCheaper(Priced(ps, Cheapest(o)).value, Priced(ps, o).value, config);
    }
  }

  /** A plan lists the operations' kinds in order, is priced for the size it was given, and quotes its parts. */
  lemma PlanLists(ps: seq<Part>, size: U32, config: GasConfig, o: Options)
    requires PlanParts(ps, size, config, o).Some?
    ensures var plan := PlanParts(ps, size, config, o).value;
            |plan.kinds| == |ps| && (forall i :: 0 <= i < |ps| ==> plan.kinds[i] == ps[i].kind)
            && plan.envelope == size
            && Priced(ps, o).Some? && EstimateBatch(Priced(ps, o).value, config, Carrier(size, 0)) == Some(plan.estimate)
  {
  }

  /** A plan bounds the quote under any cheaper facts, part by part: the ceiling always, the rest when covered or with meta ids held. */
  lemma PlanIsBound(ps: seq<Part>, size: U32, config: GasConfig, o: Options, qs: seq<Part>)
    requires PlanParts(ps, size, config, o).Some? && AllFit(Priced(ps, o).value, config) && UnderAll(qs, Priced(ps, o).value)
    ensures EstimateBatch(qs, config, Carrier(size, 0)).Some? && AllFit(qs, config)
    ensures var e, plan := EstimateBatch(qs, config, Carrier(size, 0)).value, PlanParts(ps, size, config, o).value.estimate;
            e.maxData <= plan.maxData
            && (Unmixed(Priced(ps, o).value) || Covered(Priced(ps, o).value, config)
                || AllMetaRows(qs) == AllMetaRows(Priced(ps, o).value) ==>
                  e.bill <= plan.bill && e.maxGas <= plan.maxGas)
  {
    var parts := Priced(ps, o).value;
    QuoteDominates(qs, parts, config, Carrier(size, 0));
    if Unmixed(parts) {
      UnmixedCovered(parts, config);
    }
  }

  /** Every choice of facts between two readings gives this quote. */
  ghost predicate AllQuote(low: seq<Part>, high: seq<Part>, config: GasConfig, carrier: Carrier, quote: Estimate) {
    forall qs | UnderAll(low, qs) && UnderAll(qs, high) ::
      EstimateBatch(qs, config, carrier).Some? && SameQuote(EstimateBatch(qs, config, carrier).value, quote)
  }

  lemma UnderSelf(ps: seq<Part>)
    ensures UnderAll(ps, ps)
  {
    forall i | 0 <= i < |ps| ensures Under(ps[i], ps[i]) {
    }
  }

  lemma CheapestDecides(low: seq<Part>, high: seq<Part>, config: GasConfig, carrier: Carrier)
    requires UnderAll(low, high) && EstimateBatch(high, config, carrier).Some? && AllFit(high, config)
    requires Covered(high, config) || AllMetaRows(low) == AllMetaRows(high)
    ensures EstimateBatch(low, config, carrier).Some?
    ensures var quote := EstimateBatch(high, config, carrier).value;
            SameQuote(EstimateBatch(low, config, carrier).value, quote) <==> AllQuote(low, high, config, carrier, quote)
  {
    UnderSelf(low);
    QuoteDominates(low, high, config, carrier);
    if SameQuote(EstimateBatch(low, config, carrier).value, EstimateBatch(high, config, carrier).value) {
      forall qs | UnderAll(low, qs) && UnderAll(qs, high)
        ensures EstimateBatch(qs, config, carrier).Some?
                && SameQuote(EstimateBatch(qs, config, carrier).value, EstimateBatch(high, config, carrier).value)
      {
        Sandwich(low, qs, high, config, carrier);
      }
    }
  }

  /** With the meta ids stated, the cheaper reading keeps them. */
  lemma {:induction false} DressAllIds(ps: seq<Part>, p: Options, o: Options, due: Option<seq<InfusedAsset>>)
    requires DressAll(ps, p, due).Some? && DressAll(ps, o, due).Some?
    requires p.facts.romHasMetaId == o.facts.romHasMetaId
    ensures SameIds(DressAll(ps, p, due).value, DressAll(ps, o, due).value)
  {
    if ps != [] {
      DressIds(ps[0], p, o, due);
      DressAllIds(ps[1..], p, o, After(ps[0], due));
      IdsCons(Dress(ps[0], p, due).value, DressAll(ps[1..], p, After(ps[0], due)).value,
              Dress(ps[0], o, due).value, DressAll(ps[1..], o, After(ps[0], due)).value);
    }
  }

  lemma DressIds(part: Part, p: Options, o: Options, due: Option<seq<InfusedAsset>>)
    requires Dress(part, p, due).Some? && Dress(part, o, due).Some? && p.facts.romHasMetaId == o.facts.romHasMetaId
    ensures Or(Dress(part, p, due).value.params.facts.romHasMetaId, true) == Or(Dress(part, o, due).value.params.facts.romHasMetaId, true)
  {
    DressFacts(part, p, due);
    DressFacts(part, o, due);
    assert FactsFor(part.kind, p).romHasMetaId == FactsFor(part.kind, o).romHasMetaId;
  }

  lemma DressFacts(part: Part, o: Options, due: Option<seq<InfusedAsset>>)
    requires Dress(part, o, due).Some?
    ensures Dress(part, o, due).value.params.facts == FactsFor(part.kind, o)
  {
  }

  lemma IdsCons(q: Part, qs: seq<Part>, p: Part, ps: seq<Part>)
    requires Or(q.params.facts.romHasMetaId, true) == Or(p.params.facts.romHasMetaId, true) && SameIds(qs, ps)
    ensures SameIds([q] + qs, [p] + ps)
  {
  }

  lemma CheapestKeepsIds(ps: seq<Part>, o: Options)
    requires Priced(ps, o).Some? && o.facts.romHasMetaId.Some?
    ensures Priced(ps, Cheapest(o)).Some? && AllMetaRows(Priced(ps, Cheapest(o)).value) == AllMetaRows(Priced(ps, o).value)
  {
    PricedCheaper(ps, o);
    DressAllIds(ps, Cheapest(o), o, o.infusions);
    FixedIds(Priced(ps, Cheapest(o)).value, Priced(ps, o).value);
  }

  /**
    `exact`, part by part, for messages that do not mix NFT burns with other operations, cover what they
    create, or come with the meta ids stated: nothing was budgeted, and every choice of facts between the
    quoted reading and the all-cheaper one gives the same quote.
   */
  lemma ExactByPart(ps: seq<Part>, size: U32, config: GasConfig, o: Options)
    requires PlanParts(ps, size, config, o).Some? && AllFit(Priced(ps, o).value, config)
    requires Unmixed(Priced(ps, o).value) || Covered(Priced(ps, o).value, config) || o.facts.romHasMetaId.Some?
    ensures Priced(ps, Cheapest(o)).Some?
    ensures var plan, high, low := PlanParts(ps, size, config, o).value, Priced(ps, o).value, Priced(ps, Cheapest(o)).value;
            plan.exact <==> !Budgeted(high) && AllQuote(low, high, config, Carrier(size, 0), plan.estimate)
  {
    var high := Priced(ps, o).value;
    PricedCheaper(ps, o);
    if Unmixed(high) {
      UnmixedCovered(high, config);
    }
    if o.facts.romHasMetaId.Some? {
      CheapestKeepsIds(ps, o);
    }
    CheapestDecides(Priced(ps, Cheapest(o)).value, high, config, Carrier(size, 0));
  }

  /** A fact that was stated and has no default left to flip stays as stated. */
  predicate KeepsStated(f: Facts, g: Facts) {
    (g.seriesHasMetaId.Some? ==> f.seriesHasMetaId == g.seriesHasMetaId)
    && (g.romHasMetaId.Some? ==> f.romHasMetaId == g.romHasMetaId)
    && (g.duplicatedSeries.Some? ==> f.duplicatedSeries == g.duplicatedSeries)
  }

  /** Options under which the same message may turn out to be settled: no fact costlier, stated ones kept. */
  predicate Reading(p: Options, o: Options) {
    SameButFacts(p, o) && Cheaper(p.facts, o.facts) && KeepsStated(p.facts, o.facts)
  }

  /** The all-cheaper reading is a reading, and none is cheaper. */
  lemma CheapestIsLeast(o: Options)
    ensures Reading(Cheapest(o), o) && forall p | Reading(p, o) :: SameButFacts(Cheapest(o), p) && Cheaper(Cheapest(o).facts, p.facts)
  {
  }

  /** Every reading is planned, at this quote. */
  ghost predicate AllReadings(ps: seq<Part>, size: U32, config: GasConfig, o: Options, quote: Estimate) {
    forall p | Reading(p, o) :: PlanParts(ps, size, config, p).Some? && SameQuote(PlanParts(ps, size, config, p).value.estimate, quote)
  }

  lemma ReadingWithin(ps: seq<Part>, p: Options, o: Options)
    requires Reading(p, o) && Priced(ps, o).Some?
    ensures Priced(ps, p).Some? && Priced(ps, Cheapest(o)).Some?
    ensures UnderAll(Priced(ps, p).value, Priced(ps, o).value) && UnderAll(Priced(ps, Cheapest(o)).value, Priced(ps, p).value)
  {
    CheapestIsLeast(o);
    DressAllCheaper(ps, p, o, o.infusions);
    DressAllCheaper(ps, Cheapest(o), p, o.infusions);
  }

  lemma PlanOf(ps: seq<Part>, size: U32, config: GasConfig, o: Options)
    requires Priced(ps, o).Some? && EstimateBatch(Priced(ps, o).value, config, Carrier(size, 0)).Some?
    ensures PlanParts(ps, size, config, o).Some?
    ensures PlanParts(ps, size, config, o).value.estimate == EstimateBatch(Priced(ps, o).value, config, Carrier(size, 0)).value
  {
    PlansExactlyWhen(ps, size, config, o);
  }

  lemma BudgetedDressed(ps: seq<Part>, o: Options)
    requires Priced(ps, o).Some?
    ensures Budgeted(Priced(ps, o).value) == Budgeted(ps)
  {
    var parts := Priced(ps, o).value;
    assert forall i :: 0 <= i < |ps| ==> parts[i].kind == ps[i].kind && ps[i] in ps && parts[i] in parts;
  }

  /**
    `exact`, for messages that do not mix NFT burns with other operations, cover what they create, or come
    with the meta ids stated: no script is among the operations, and under every reading of the facts the
    message would be planned with the same bill, offer and ceiling.
   */
  lemma ExactMeans(ps: seq<Part>, size: U32, config: GasConfig, o: Options)
    requires PlanParts(ps, size, config, o).Some? && AllFit(Priced(ps, o).value, config)
    requires Unmixed(Priced(ps, o).value) || Covered(Priced(ps, o).value, config) || o.facts.romHasMetaId.Some?
    ensures var plan := PlanParts(ps, size, config, o).value;
            plan.exact <==> (forall p <- ps :: !p.kind.Script?) && AllReadings(ps, size, config, o, plan.estimate)
  {
    var plan, carrier := PlanParts(ps, size, config, o).value, Carrier(size, 0);
    PlansExactlyWhen(ps, size, config, o);
    BudgetedDressed(ps, o);
    ExactByPart(ps, size, config, o);
    if plan.exact {
      forall p | Reading(p, o)
        ensures PlanParts(ps, size, config, p).Some? && SameQuote(PlanParts(ps, size, config, p).value.estimate, plan.estimate)
      {
        ReadingWithin(ps, p, o);
        PlanOf(ps, size, config, p);
      }
    }
    if !Budgeted(ps) && AllReadings(ps, size, config, o, plan.estimate) {
      CheapestIsLeast(o);
      ReadingWithin(ps, Cheapest(o), o);
      BatchCheaper(Priced(ps, Cheapest(o)).value, Priced(ps, o).value, config);
      PlanOf(ps, size, config, Cheapest(o));
    }
  }

  /** The reading in between that is billed most and the one billed least both give this quote. */
  predicate ExtremesQuote(low: seq<Part>, high: seq<Part>, config: GasConfig, carrier: Carrier, quote: Estimate)
    requires |low| == |high|
  {
    var dear, cheap := EstimateBatch(Dearest(low, high), config, carrier), EstimateBatch(Cheapened(low, high), config, carrier);
    dear.Some? && cheap.Some? && SameQuote(dear.value, quote) && SameQuote(cheap.value, quote)
  }

  /** Whatever the batch mixes, two readings decide for all in between. */
  lemma ExtremesDecide(low: seq<Part>, high: seq<Part>, config: GasConfig, carrier: Carrier, quote: Estimate)
    requires UnderAll(low, high) && EstimateBatch(high, config, carrier).Some? && AllFit(high, config)
    ensures AllQuote(low, high, config, carrier, quote) <==> ExtremesQuote(low, high, config, carrier, quote)
  {
    ExtremesWithin(low, high);
    if ExtremesQuote(low, high, config, carrier, quote) {
      forall qs | UnderAll(low, qs) && UnderAll(qs, high)
        ensures EstimateBatch(qs, config, carrier).Some? && SameQuote(EstimateBatch(qs, config, carrier).value, quote)
      {
        BetweenExtremes(low, qs, high, config, carrier);
      }
    }
  }

  /**
    `exact` on any message: it is never denied where every reading gives the same quote, and where it is
    granted every reading gives that quote exactly when the two extremes do.
   */
  lemma ExactSoundExactlyWhen(ps: seq<Part>, size: U32, config: GasConfig, o: Options)
    requires PlanParts(ps, size, config, o).Some? && AllFit(Priced(ps, o).value, config)
    ensures Priced(ps, Cheapest(o)).Some? && UnderAll(Priced(ps, Cheapest(o)).value, Priced(ps, o).value)
    ensures var plan, high, low := PlanParts(ps, size, config, o).value, Priced(ps, o).value, Priced(ps, Cheapest(o)).value;
            (AllQuote(low, high, config, Carrier(size, 0), plan.estimate) <==>
               ExtremesQuote(low, high, config, Carrier(size, 0), plan.estimate))
            && (AllQuote(low, high, config, Carrier(size, 0), plan.estimate) && !Budgeted(high) ==> plan.exact)
  {
    PricedCheaper(ps, o);
    if AllQuote(Priced(ps, Cheapest(o)).value, Priced(ps, o).value, config, Carrier(size, 0), PlanParts(ps, size, config, o).value.estimate) {
      ExactComplete(ps, size, config, o, Priced(ps, Cheapest(o)).value, Priced(ps, o).value);
    }
    ExtremesDecide(Priced(ps, Cheapest(o)).value, Priced(ps, o).value, config, Carrier(size, 0), PlanParts(ps, size, config, o).value.estimate);
  }

  lemma ExactComplete(ps: seq<Part>, size: U32, config: GasConfig, o: Options, low: seq<Part>, high: seq<Part>)
    requires PlanParts(ps, size, config, o).Some? && Priced(ps, o) == Some(high) && Priced(ps, Cheapest(o)) == Some(low)
    requires UnderAll(low, high) && AllQuote(low, high, config, Carrier(size, 0), PlanParts(ps, size, config, o).value.estimate)
    ensures !Budgeted(high) ==> PlanParts(ps, size, config, o).value.exact
  {
    UnderSelf(low);
  }
}
