/** Settling a transaction: its operations add up, and one bill, one offer and one ceiling come out. */
module FeeSettlement {
  import opened Words
  import opened FeeArithmetic
  import opened FeeModel

  datatype Estimate = Estimate(maxGas: U64, maxData: U64, bill: U64, newQuanta: U32, deletedQuanta: U32)

  /** What one transaction owns however many operations it performs. */
  datatype Carrier = Carrier(envelope: U32, payload: U32)

  function Plus(a: Model, b: Model): Model {
    Model(a.work + b.work, a.policy + b.policy, a.result + b.result, a.created + b.created, a.deleted + b.deleted)
  }

  function Total(models: seq<Model>): Model {
    if models == [] then NOTHING else Plus(models[0], Total(models[1..]))
  }

  /** The counters as the source keeps them: 64-bit and 32-bit, saturating. */
  function Saturated(m: Model): Model {
    Model(Sat64(m.work), Sat64(m.policy), Sat32(m.result), Sat32(m.created), Sat32(m.deleted))
  }

  // ----- the charges -----

  const UNITS_PER_BYTE: nat := 25

  function BillV2(work: nat, policy: nat, blockData: nat, config: GasConfig): U64 {
    var units := Sat64(work + Sat64(blockData * UNITS_PER_BYTE));
    Max(Sat64(MulShift(units, config.feeMultiplier, config.feeShift) + policy), config.minimumGasBill)
  }

  function BytePrice(blockData: nat, config: GasConfig): U64 {
    Product(blockData, config.gasFeePerByte);
    Sat64(blockData * config.gasFeePerByte)
  }

  function BillV1(work: nat, blockData: nat, config: GasConfig): U64 {
    Sat64(MulShift(work, config.feeMultiplier, config.feeShift) + BytePrice(blockData, config))
  }

  /** A doubled minimum offer, the work, and at least a kibibyte of block data. */
  function OfferV1(work: nat, blockData: nat, config: GasConfig): U64 {
    Sat64(Sat64(Sat64(config.minimumGasOffer * 2) + MulShift(work, config.feeMultiplier, config.feeShift))
          + BytePrice(Max(blockData, 1024), config))
  }

  /** Only the net growth of storage is block data. */
  function Net(created: nat, deleted: nat): nat {
    SatSub(Sat32(created), Sat32(deleted))
  }

  function Bill(total: Model, config: GasConfig, carrier: Carrier): U64 {
    var t, net := Saturated(total), Net(total.created, total.deleted);
    if V2(config) then BillV2(t.work, t.policy, carrier.envelope + net + t.result, config)
    else BillV1(t.work, carrier.payload + t.result + net, config)
  }

  function Offer(total: Model, config: GasConfig, carrier: Carrier): U64 {
    var t, net := Saturated(total), Net(total.created, total.deleted);
    if V2(config) then Max(Bill(total, config, carrier), config.minimumGasOffer)
    else OfferV1(t.work, carrier.payload + t.result + net, config)
  }

  function Ceiling(total: Model, config: GasConfig): U64 {
    Product(Sat32(total.created), config.dataEscrowPerRow);
    Sat64(Sat32(total.created) * config.dataEscrowPerRow)
  }

  function Settle(total: Model, config: GasConfig, carrier: Carrier): Option<Estimate> {
    if V2(config) && carrier.envelope == 0 then None else
      Some(Estimate(Offer(total, config, carrier), Ceiling(total, config), Bill(total, config, carrier),
                    Sat32(total.created), Sat32(total.deleted)))
  }

  // ----- the offer covers the bill -----

  /** Under both gas models, whatever saturates, the offer pays the bill. */
  lemma OfferCoversBill(total: Model, config: GasConfig, carrier: Carrier)
    requires Settle(total, config, carrier).Some?
    ensures var e := Settle(total, config, carrier).value; e.maxGas >= e.bill
  {
    if !V2(config) {
      var data := carrier.payload + Saturated(total).result + Net(total.created, total.deleted);
      BytePriceMonotone(data, Max(data, 1024), config);
    }
  }

  lemma BytePriceMonotone(a: nat, b: nat, config: GasConfig)
    requires a <= b
    ensures BytePrice(a, config) <= BytePrice(b, config)
  {
    MulMonotone(a, b, config.gasFeePerByte);
  }

  // ----- monotonicity of a settlement -----

  /** `q` costs no more than `p` in any counter a bill rises with, and grows storage by no more. */
  predicate NoDearer(q: Model, p: Model) {
    q.work <= p.work && q.policy <= p.policy && q.result <= p.result && q.created <= p.created
  }

  lemma CeilingMonotone(q: Model, p: Model, config: GasConfig)
    requires q.created <= p.created
    ensures Ceiling(q, config) <= Ceiling(p, config)
  {
    MulMonotone(Sat32(q.created), Sat32(p.created), config.dataEscrowPerRow);
  }

  lemma BillV2Monotone(w: nat, w': nat, f: nat, f': nat, b: nat, b': nat, config: GasConfig)
    requires w <= w' && f <= f' && b <= b'
    ensures BillV2(w, f, b, config) <= BillV2(w', f', b', config)
  {
    MulShiftMonotone(Sat64(w + Sat64(b * UNITS_PER_BYTE)), Sat64(w' + Sat64(b' * UNITS_PER_BYTE)),
                     config.feeMultiplier, config.feeShift);
  }

  lemma V1Monotone(w: nat, w': nat, b: nat, b': nat, config: GasConfig)
    requires w <= w' && b <= b'
    ensures BillV1(w, b, config) <= BillV1(w', b', config)
    ensures OfferV1(w, b, config) <= OfferV1(w', b', config)
  {
    MulShiftMonotone(w, w', config.feeMultiplier, config.feeShift);
    BytePriceMonotone(b, b', config);
    BytePriceMonotone(Max(b, 1024), Max(b', 1024), config);
  }

  lemma SettleMonotone(q: Model, p: Model, config: GasConfig, carrier: Carrier)
    requires NoDearer(q, p) && Net(q.created, q.deleted) <= Net(p.created, p.deleted)
    ensures Bill(q, config, carrier) <= Bill(p, config, carrier)
    ensures Offer(q, config, carrier) <= Offer(p, config, carrier)
  {
    var s, t := Saturated(q), Saturated(p);
    var m, n := Net(q.created, q.deleted), Net(p.created, p.deleted);
    if V2(config) {
      BillV2Monotone(s.work, t.work, s.policy, t.policy, carrier.envelope + m + s.result, carrier.envelope + n + t.result, config);
    } else {
      V1Monotone(s.work, t.work, carrier.payload + s.result + m, carrier.payload + t.result + n, config);
    }
  }

  // ----- totals -----

  lemma PlusNothing(m: Model)
    ensures Plus(NOTHING, m) == m && Plus(m, NOTHING) == m
  {
  }

  lemma PlusAssociative(a: Model, b: Model, c: Model)
    ensures Plus(a, Plus(b, c)) == Plus(Plus(a, b), c)
  {
  }

  /** A batch is the sum of its parts. */
  lemma {:induction false} TotalConcat(a: seq<Model>, b: seq<Model>)
    ensures Total(a + b) == Plus(Total(a), Total(b))
  {
    if a == [] {
      assert a + b == b;
      PlusNothing(Total(b));
    } else {
      assert (a + b)[1..] == a[1..] + b;
      TotalConcat(a[1..], b);
      PlusAssociative(a[0], Total(a[1..]), Total(b));
    }
  }

  lemma SaturatedTwice(a: Model, m: Model, rest: Model)
    ensures Saturated(Plus(Saturated(Plus(a, m)), rest)) == Saturated(Plus(a, Plus(m, rest)))
  {
  }

  lemma SettleSaturated(p: Model, q: Model, config: GasConfig, carrier: Carrier)
    requires Saturated(p) == Saturated(q)
    ensures Settle(p, config, carrier) == Settle(q, config, carrier)
  {
  }

  // ----- the batch -----

  function Models(parts: seq<Part>, config: GasConfig): (r: Option<seq<Model>>)
    ensures r.Some? <==> forall i :: 0 <= i < |parts| ==> PartModel(parts[i], config).Some?
    ensures r.Some? ==> |r.value| == |parts| && forall i :: 0 <= i < |parts| ==> r.value[i] == PartModel(parts[i], config).value
  {
    if parts == [] then Some([]) else
      var head :- PartModel(parts[0], config);
      var tail :- Models(parts[1..], config);
      Some([head] + tail)
  }

  function EstimateBatch(parts: seq<Part>, config: GasConfig, carrier: Carrier): Option<Estimate> {
    var models :- Models(parts, config);
    Settle(Total(models), config, carrier)
  }

  // ----- the loops of the source -----

  /** The accumulation loop of the settlement, with saturating counters, and the estimate it ends in. */
  method SettleModels(models: seq<Model>, config: GasConfig, carrier: Carrier) returns (r: Option<Estimate>)
    ensures r == Settle(Total(models), config, carrier)
  {
    var total := NOTHING;
    for i := 0 to |models|
      invariant total == Saturated(total)
      invariant Saturated(Plus(total, Total(models[i..]))) == Saturated(Total(models))
    {
      assert models[i..][1..] == models[i + 1..] && models[i..][0] == models[i];
      SaturatedTwice(total, models[i], Total(models[i + 1..]));
      total := Saturated(Plus(total, models[i]));
    }
    assert models[|models|..] == [] && Plus(total, NOTHING) == total;
    SettleSaturated(Total(models), total, config, carrier);

    var net := SatSub(total.created, total.deleted);
    var expected, maxGas: nat := 0, 0;
    if V2(config) {
      if carrier.envelope == 0 {
        return None;
      }
      var blockData: nat := carrier.envelope + net + total.result;
      expected := BillV2(total.work, total.policy, blockData, config);
      maxGas := Max(expected, config.minimumGasOffer);
    } else {
      var blockData: nat := carrier.payload + total.result + net;
      expected := BillV1(total.work, blockData, config);
      maxGas := OfferV1(total.work, blockData, config);
    }
    return Some(Estimate(maxGas, Ceiling(total, config), expected, total.created, total.deleted));
  }

  method EstimateNativeFeeBatch(parts: seq<Part>, config: GasConfig, carrier: Carrier) returns (r: Option<Estimate>)
    ensures r == EstimateBatch(parts, config, carrier)
  {
    var models := [];
    for i := 0 to |parts|
      invariant |models| == i
      invariant forall k :: 0 <= k < i ==> PartModel(parts[k], config) == Some(models[k])
    {
      var model := PartModel(parts[i], config);
      if model.None? {
        return None;
      }
      models := models + [model.value];
    }
    assert Models(parts, config).Some? && models == Models(parts, config).value;
    r := SettleModels(models, config, carrier);
  }
}
