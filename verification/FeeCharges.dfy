/**
  What a settled transaction is charged for, in the terms of the chain's formula: which inputs the bill,
  the offer and the ceiling answer to, by how much, and within what bounds.
 */
module FeeCharges {
  import opened Words
  import opened FeeArithmetic
  import opened FeeModel
  import opened FeeSettlement

  /** Every counter within the width the source keeps it in. */
  predicate Counters(t: Model) {
    t.work <= U64_MAX && t.policy <= U64_MAX && t.result <= U32_MAX && t.created <= U32_MAX && t.deleted <= U32_MAX
  }

  /** Rows created beyond those deleted. */
  function Growth(t: Model): nat {
    if t.created > t.deleted then t.created - t.deleted else 0
  }

  /** `n` is x * m shifted right: the whole number of 2^shift in it. */
  ghost predicate Shifts(n: nat, x: nat, m: nat, shift: nat) {
    n * Pow2(shift) <= x * m < n * Pow2(shift) + Pow2(shift)
  }

  lemma ShiftMeans(x: nat, m: U64, shift: Byte)
    requires shift < 64 && MulShift(x, m, shift) < U64_MAX
    ensures Shifts(MulShift(x, m, shift), x, m, shift)
  {
    var d := Pow2(shift);
    Product(x, m);
    DivMod(x * m, d);
    assert Scale(x, m, d) * d == d * Scale(x, m, d);
  }

  lemma WideShift(x: nat, m: U64, shift: Byte)
    requires shift >= 64
    ensures MulShift(x, m, shift) == 0
  {
  }

  // ----- the second gas model -----

  /** Work, and 25 units for each byte of envelope and result and each row of growth. */
  function Units(t: Model, carrier: Carrier): nat {
    t.work + 25 * carrier.envelope + 25 * t.result + 25 * Growth(t)
  }

  lemma BillUnits(t: Model, config: GasConfig, carrier: Carrier)
    requires config.version >= 1 && Counters(t) && Units(t, carrier) <= U64_MAX
    ensures Bill(t, config, carrier)
         == Max(Sat64(MulShift(Units(t, carrier), config.feeMultiplier, config.feeShift) + t.policy), config.minimumGasBill)
  {
  }

  /** Off the floor and unsaturated, the bill is the policy fee and the scaled units, rounded down once. */
  lemma BillMeans(t: Model, config: GasConfig, carrier: Carrier)
    requires config.version >= 1 && Counters(t) && Units(t, carrier) <= U64_MAX && config.feeShift < 64
    requires config.minimumGasBill < Bill(t, config, carrier) < U64_MAX
    ensures Bill(t, config, carrier) >= t.policy
    ensures Shifts(Bill(t, config, carrier) - t.policy, Units(t, carrier), config.feeMultiplier, config.feeShift)
  {
    BillUnits(t, config, carrier);
    ShiftMeans(Units(t, carrier), config.feeMultiplier, config.feeShift);
  }

  /** Never below the minimum bill; at a shift of 64 or more only policy fees and the minimum are left. */
  lemma BillFloor(t: Model, config: GasConfig, carrier: Carrier)
    requires config.version >= 1
    ensures Bill(t, config, carrier) >= config.minimumGasBill
    ensures Bill(t, config, carrier) == config.minimumGasBill || Bill(t, config, carrier) >= Sat64(t.policy)
    ensures config.feeShift >= 64 && t.policy <= U64_MAX ==>
              Bill(t, config, carrier) == if t.policy > config.minimumGasBill then t.policy else config.minimumGasBill
  {
    if config.feeShift >= 64 {
      WideShift(Sat64(Saturated(t).work + Sat64((carrier.envelope + Net(t.created, t.deleted) + Saturated(t).result) * UNITS_PER_BYTE)),
                config.feeMultiplier, config.feeShift);
    }
  }

  /** A policy fee is added as it is, whatever the multiplier and the shift. */
  lemma PolicyIsAdded(t: Model, fee: nat, config: GasConfig, carrier: Carrier)
    requires config.version >= 1 && config.minimumGasBill < Bill(t, config, carrier) && Bill(t, config, carrier) + fee <= U64_MAX
    ensures Bill(t.(policy := t.policy + fee), config, carrier) == Bill(t, config, carrier) + fee
  {
  }

  /** One more byte of envelope, byte of result or row of growth costs what 25 more units of work cost. */
  lemma ByteCostsWork(t: Model, config: GasConfig, carrier: Carrier)
    requires config.version >= 1 && Counters(t) && Units(t, carrier) + 25 <= U64_MAX
    requires carrier.envelope < U32_MAX && t.result < U32_MAX && t.deleted <= t.created < U32_MAX
    ensures var more := Bill(t.(work := t.work + 25), config, carrier);
            Bill(t, config, carrier.(envelope := carrier.envelope + 1)) == more
            && Bill(t.(result := t.result + 1), config, carrier) == more
            && Bill(t.(created := t.created + 1), config, carrier) == more
  {
    BillUnits(t.(work := t.work + 25), config, carrier);
    BillUnits(t, config, carrier.(envelope := carrier.envelope + 1));
    BillUnits(t.(result := t.result + 1), config, carrier);
    BillUnits(t.(created := t.created + 1), config, carrier);
  }

  /** A deleted row takes back a created one; what is deleted beyond that is not refunded on the bill. */
  lemma DeletedOffsets(t: Model, config: GasConfig, carrier: Carrier)
    requires Counters(t) && t.created < U32_MAX && t.deleted < U32_MAX
    ensures Bill(t.(created := t.created + 1, deleted := t.deleted + 1), config, carrier) == Bill(t, config, carrier)
    ensures t.created <= t.deleted ==> Bill(t.(deleted := t.deleted + 1), config, carrier) == Bill(t, config, carrier)
  {
    assert Net(t.created + 1, t.deleted + 1) == Net(t.created, t.deleted);
  }

  /** The payload does not count; the offer is the bill, or the chain's minimum offer where that is more. */
  lemma OfferMeans(t: Model, config: GasConfig, carrier: Carrier, payload: U32)
    requires config.version >= 1
    ensures Bill(t, config, carrier.(payload := payload)) == Bill(t, config, carrier)
    ensures Offer(t, config, carrier)
         == if config.minimumGasOffer > Bill(t, config, carrier) then config.minimumGasOffer else Bill(t, config, carrier)
  {
  }

  // ----- the first gas model -----

  /** Payload, result and growth at the byte price. */
  function Data(t: Model, carrier: Carrier): nat {
    carrier.payload + t.result + Growth(t)
  }

  lemma BillOneUnits(t: Model, config: GasConfig, carrier: Carrier)
    requires config.version == 0 && Counters(t)
    ensures Bill(t, config, carrier)
         == Sat64(MulShift(t.work, config.feeMultiplier, config.feeShift) + Sat64(Data(t, carrier) * config.gasFeePerByte))
  {
    Product(Data(t, carrier), config.gasFeePerByte);
    assert carrier.payload + t.result + Net(t.created, t.deleted) == Data(t, carrier);
  }

  /** Unsaturated, the bill is the scaled work and the byte price of its block data. */
  lemma BillOneMeans(t: Model, config: GasConfig, carrier: Carrier)
    requires config.version == 0 && Counters(t) && config.feeShift < 64 && Bill(t, config, carrier) < U64_MAX
    ensures Bill(t, config, carrier) >= Data(t, carrier) * config.gasFeePerByte
    ensures Shifts(Bill(t, config, carrier) - Data(t, carrier) * config.gasFeePerByte, t.work, config.feeMultiplier, config.feeShift)
  {
    BillOneUnits(t, config, carrier);
    ShiftMeans(t.work, config.feeMultiplier, config.feeShift);
  }

  /** Neither policy fees, nor the envelope, nor the minimum bill count. */
  lemma BillOneIgnores(t: Model, config: GasConfig, carrier: Carrier, policy: nat, envelope: U32, minimum: U64)
    requires config.version == 0
    ensures Bill(t.(policy := policy), config.(minimumGasBill := minimum), carrier.(envelope := envelope)) == Bill(t, config, carrier)
  {
  }

  /** Unsaturated, the offer is the bill, twice the minimum offer, and what the block data lack of a kibibyte. */
  lemma OfferOneMeans(t: Model, config: GasConfig, carrier: Carrier)
    requires config.version == 0 && Counters(t) && Offer(t, config, carrier) < U64_MAX
    ensures var lacking := if Data(t, carrier) < 1024 then 1024 - Data(t, carrier) else 0;
            Offer(t, config, carrier) == Bill(t, config, carrier) + 2 * config.minimumGasOffer + lacking * config.gasFeePerByte
  {
    var data := Data(t, carrier);
    BillOneUnits(t, config, carrier);
    OfferOneUnits(t, config, carrier);
    OfferSum(config.minimumGasOffer, MulShift(t.work, config.feeMultiplier, config.feeShift), data,
             if data < 1024 then 1024 - data else 0, config.gasFeePerByte);
  }

  lemma OfferSum(minimum: nat, work: nat, data: nat, lacking: nat, price: nat)
    requires (data + lacking) * price >= 0 && data * price >= 0
    requires Sat64(Sat64(Sat64(minimum * 2) + work) + Sat64((data + lacking) * price)) < U64_MAX
    ensures Sat64(Sat64(Sat64(minimum * 2) + work) + Sat64((data + lacking) * price))
         == Sat64(work + Sat64(data * price)) + 2 * minimum + lacking * price
  {
    Product(lacking, price);
    assert (data + lacking) * price == data * price + lacking * price;
  }

  lemma OfferOneUnits(t: Model, config: GasConfig, carrier: Carrier)
    requires config.version == 0 && Counters(t)
    ensures Offer(t, config, carrier)
         == Sat64(Sat64(Sat64(config.minimumGasOffer * 2) + MulShift(t.work, config.feeMultiplier, config.feeShift))
                  + Sat64(Max(Data(t, carrier), 1024) * config.gasFeePerByte))
  {
    Product(Max(Data(t, carrier), 1024), config.gasFeePerByte);
    assert carrier.payload + t.result + Net(t.created, t.deleted) == Data(t, carrier);
  }

  // ----- what is quoted -----

  /** Escrow is asked for every row created, deleted ones or not, and for nothing else. */
  lemma CeilingMeans(t: Model, config: GasConfig)
    requires Counters(t)
    ensures Ceiling(t, config) == if t.created * config.dataEscrowPerRow <= U64_MAX then t.created * config.dataEscrowPerRow else U64_MAX
  {
    Product(t.created, config.dataEscrowPerRow);
  }

  /** A settlement is refused exactly under the second model without an envelope; its row counters are the totals. */
  lemma SettlesExactlyWhen(t: Model, config: GasConfig, carrier: Carrier)
    requires Counters(t)
    ensures Settle(t, config, carrier).Some? <==> config.version == 0 || carrier.envelope > 0
    ensures Settle(t, config, carrier).Some? ==>
              var e := Settle(t, config, carrier).value;
              e.bill == Bill(t, config, carrier) && e.maxGas == Offer(t, config, carrier) && e.maxData == Ceiling(t, config)
              && e.newQuanta == t.created && e.deletedQuanta == t.deleted
  {
  }

  // ----- operations together -----

  /** The bill of two operations in one transaction: all counters add, the envelope counts once. */
  lemma TogetherUnits(a: Model, b: Model, carrier: Carrier)
    requires a.deleted <= a.created && b.deleted <= b.created
    ensures Units(Plus(a, b), carrier) + 25 * carrier.envelope == Units(a, carrier) + Units(b, carrier)
  {
  }
}
