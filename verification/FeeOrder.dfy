/** The order of the calls in a batch does not change its plan. */
module FeeOrder {
  import opened Words
  import opened FeeArithmetic
  import opened FeeModel
  import opened FeeSettlement
  import opened FeeBounds
  import opened FeePlanning
  import opened FeeMessages
  import opened FeeRelease
  import Wire = CarbonWire
  import M = CarbonMessage
  import E = CarbonEnvelope

  // ----- sums that ignore order -----

  function Both<A>(a: Option<A>, b: Option<A>, plus: (A, A) -> A): Option<A> {
    if a.None? || b.None? then None else Some(plus(a.value, b.value))
  }

  /** The sum of `f` over a list, if every item has one. */
  function Fold<T, A>(xs: seq<T>, f: T -> Option<A>, plus: (A, A) -> A, zero: A): Option<A> {
    if xs == [] then Some(zero) else Both(f(xs[0]), Fold(xs[1..], f, plus, zero), plus)
  }

  ghost predicate Orderless<A(!new)>(plus: (A, A) -> A) {
    (forall a, b :: plus(a, b) == plus(b, a)) && forall a, b, c :: plus(a, plus(b, c)) == plus(b, plus(a, c))
  }

  lemma {:induction false} FoldSplit<T, A(!new)>(a: seq<T>, x: T, b: seq<T>, f: T -> Option<A>, plus: (A, A) -> A, zero: A)
    requires Orderless(plus)
    ensures Fold(a + [x] + b, f, plus, zero) == Both(f(x), Fold(a + b, f, plus, zero), plus)
  {
    var whole := a + [x] + b;
    if a == [] {
      assert whole == [x] + b && whole[1..] == b && a + b == b;
    } else {
      FoldSplit(a[1..], x, b, f, plus, zero);
      assert whole[1..] == a[1..] + [x] + b && (a + b)[1..] == a[1..] + b;
      assert whole[0] == a[0] == (a + b)[0];
      Swap(f(a[0]), f(x), Fold(a[1..] + b, f, plus, zero), plus);
    }
  }

  lemma Swap<A(!new)>(a: Option<A>, b: Option<A>, c: Option<A>, plus: (A, A) -> A)
    requires Orderless(plus)
    ensures Both(a, Both(b, c, plus), plus) == Both(b, Both(a, c, plus), plus)
  {
  }

  /** Lists with the same items, in any order, have the same sum. */
  lemma {:induction false} FoldPermutes<T, A(!new)>(xs: seq<T>, ys: seq<T>, f: T -> Option<A>, plus: (A, A) -> A, zero: A)
    requires Orderless(plus) && multiset(xs) == multiset(ys)
    ensures Fold(xs, f, plus, zero) == Fold(ys, f, plus, zero)
  {
    assert |multiset(xs)| == |xs| && |multiset(ys)| == |ys|;
    if xs != [] {
      var j := Found(xs, ys);
      assert ys == ys[..j] + [ys[j]] + ys[j + 1..];
      Without(xs, ys, j);
      FoldPermutes(xs[1..], ys[..j] + ys[j + 1..], f, plus, zero);
      FoldSplit(ys[..j], ys[j], ys[j + 1..], f, plus, zero);
    }
  }

  lemma Found<T>(xs: seq<T>, ys: seq<T>) returns (j: nat)
    requires xs != [] && multiset(xs) == multiset(ys)
    ensures j < |ys| && ys[j] == xs[0]
  {
    assert xs[0] in multiset(ys);
    j :| 0 <= j < |ys| && ys[j] == xs[0];
  }

  lemma Without<T>(xs: seq<T>, ys: seq<T>, j: nat)
    requires xs != [] && j < |ys| && ys[j] == xs[0] && multiset(xs) == multiset(ys)
    ensures multiset(xs[1..]) == multiset(ys[..j] + ys[j + 1..])
  {
    assert xs == [xs[0]] + xs[1..] && ys == ys[..j] + [ys[j]] + ys[j + 1..];
    assert multiset(xs) == multiset{xs[0]} + multiset(xs[1..]);
    assert multiset(ys) == multiset(ys[..j]) + multiset{ys[j]} + multiset(ys[j + 1..]);
    assert multiset(xs[1..]) == multiset(xs) - multiset{xs[0]};
    assert multiset(ys[..j] + ys[j + 1..]) == multiset(ys) - multiset{ys[j]};
  }

  lemma SameMembers<T>(xs: seq<T>, ys: seq<T>)
    requires multiset(xs) == multiset(ys)
    ensures forall x :: x in xs <==> x in ys
  {
    forall x ensures x in xs <==> x in ys {
      assert x in multiset(xs) <==> x in xs;
      assert x in multiset(ys) <==> x in ys;
    }
  }

  // ----- the operations of a batch -----

  /** The operation with every fact it needs and nothing returned. */
  function Bare(o: Options, config: GasConfig): Part -> Option<Model> {
    p => BareModel(p, o, config)
  }

  function BareModel(p: Part, o: Options, config: GasConfig): Option<Model> {
    PartModel(Dress(p, o, Some([])).value, config)
  }

  function BareTotal(ps: seq<Part>, o: Options, config: GasConfig): Option<Model> {
    Fold(ps, Bare(o, config), Plus, NOTHING)
  }

  /** What the burns of a batch return, counted once however many they are. */
  function Returns(ps: seq<Part>, due: Option<seq<InfusedAsset>>, config: GasConfig): Option<Model> {
    if !HasBurn(ps) then Some(NOTHING) else if due.None? then None else Returned(due.value, config)
  }

  lemma PlusOrderless()
    ensures Orderless(Plus)
  {
  }

  /** `t` is `bare` and `back` together, up to saturation. */
  predicate Amounts(t: Option<Model>, bare: Option<Model>, back: Option<Model>) {
    (t.Some? <==> bare.Some? && back.Some?)
    && (t.Some? ==> Saturated(t.value) == Saturated(Plus(bare.value, back.value)))
  }

  lemma BurnReturns(a: Params, b: Params, config: GasConfig, count: nat, assets: seq<InfusedAsset>)
    requires a.infusions == Some([]) && b == a.(infusions := Some(assets))
    ensures Amounts(BurnNonFungibleModel(b, config, count), BurnNonFungibleModel(a, config, count), Returned(assets, config))
  {
    assert Or(a.infusions, []) == [] && Or(b.infusions, []) == assets;
    assert Returned([], config) == Some(NOTHING);
  }

  lemma DressedReturns(p: Part, o: Options, config: GasConfig, assets: seq<InfusedAsset>)
    requires p.kind.BurnNonFungible?
    ensures Amounts(PartModel(Dress(p, o, Some(assets)).value, config), BareModel(p, o, config), Returned(assets, config))
  {
    var a, b := Dress(p, o, Some([])).value, Dress(p, o, Some(assets)).value;
    SameButInfusions(p.params, FactsFor(p.kind, o), assets);
    if Count(a) != 0 {
      BurnReturns(a.params, b.params, config, Count(a), assets);
    }
  }

  lemma SameButInfusions(p: Params, f: Facts, assets: seq<InfusedAsset>)
    ensures p.(infusions := Some(assets)).(facts := f) == p.(infusions := Some([])).(facts := f).(infusions := Some(assets))
    ensures p.(infusions := Some([])).(facts := f).count == p.count == p.(infusions := Some(assets)).(facts := f).count
  {
  }

  lemma SaturatedPlus(a: Model, a': Model, b: Model, b': Model)
    requires Saturated(a) == Saturated(a') && Saturated(b) == Saturated(b')
    ensures Saturated(Plus(a, b)) == Saturated(Plus(a', b'))
  {
  }

  lemma AmountsOther(head: Option<Model>, tail: Option<Model>, rest: Option<Model>, back: Option<Model>)
    requires Amounts(tail, rest, back)
    ensures Amounts(Both(head, tail, Plus), Both(head, rest, Plus), back)
  {
    if head.Some? && tail.Some? {
      SaturatedPlus(head.value, head.value, tail.value, Plus(rest.value, back.value));
      PlusAssociative(head.value, rest.value, back.value);
    }
  }

  lemma AmountsBurn(head: Option<Model>, first: Option<Model>, back: Option<Model>, tail: Option<Model>, rest: Option<Model>)
    requires Amounts(head, first, back) && Amounts(tail, rest, Some(NOTHING))
    ensures Amounts(Both(head, tail, Plus), Both(first, rest, Plus), back)
  {
    if head.Some? && tail.Some? {
      PlusNothing(rest.value);
      SaturatedPlus(head.value, Plus(first.value, back.value), tail.value, rest.value);
      Aside(first.value, back.value, rest.value);
    }
  }

  lemma Aside(a: Model, b: Model, c: Model)
    ensures Plus(Plus(a, b), c) == Plus(Plus(a, c), b)
  {
  }

  function BatchTotal(ps: seq<Part>, config: GasConfig): Option<Model> {
    var models :- Models(ps, config);
    Some(Total(models))
  }

  lemma BatchTotalCons(ps: seq<Part>, config: GasConfig)
    requires ps != []
    ensures BatchTotal(ps, config) == Both(PartModel(ps[0], config), BatchTotal(ps[1..], config), Plus)
  {
    if PartModel(ps[0], config).Some? && Models(ps[1..], config).Some? {
      ModelsHead(ps, config);
    }
    if Models(ps, config).Some? {
      ModelsTail(ps, config);
    }
  }

  /** A priced batch is the sum of its operations and of the returns, wherever in it the burns stand. */
  lemma {:induction false} PricedTotal(ps: seq<Part>, o: Options, due: Option<seq<InfusedAsset>>, config: GasConfig)
    requires DressAll(ps, o, due).Some?
    ensures Amounts(BatchTotal(DressAll(ps, o, due).value, config), BareTotal(ps, o, config), Returns(ps, due, config))
  {
    if ps == [] {
      NothingPriced(ps, o, due, config);
    } else {
      PricedCons(ps, o, due, config);
      PricedTotal(ps[1..], o, After(ps[0], due), config);
      if ps[0].kind.BurnNonFungible? {
        assert After(ps[0], due) == Some([]);
        BurnFirst(ps, o, due, config);
      } else {
        assert After(ps[0], due) == due;
        OtherFirst(ps, o, due, config);
      }
    }
  }

  lemma NothingPriced(ps: seq<Part>, o: Options, due: Option<seq<InfusedAsset>>, config: GasConfig)
    requires ps == [] && DressAll(ps, o, due).Some?
    ensures Amounts(BatchTotal(DressAll(ps, o, due).value, config), BareTotal(ps, o, config), Returns(ps, due, config))
  {
    NothingAmounts();
    EmptyTotal(DressAll(ps, o, due).value, config);
    assert BareTotal(ps, o, config) == Some(NOTHING) && Returns(ps, due, config) == Some(NOTHING);
  }

  lemma EmptyTotal(parts: seq<Part>, config: GasConfig)
    requires parts == []
    ensures BatchTotal(parts, config) == Some(NOTHING)
  {
  }

  lemma NothingAmounts()
    ensures Amounts(Some(NOTHING), Some(NOTHING), Some(NOTHING))
  {
    PlusNothing(NOTHING);
  }

  lemma PricedCons(ps: seq<Part>, o: Options, due: Option<seq<InfusedAsset>>, config: GasConfig)
    requires ps != [] && DressAll(ps, o, due).Some?
    ensures Dress(ps[0], o, due).Some? && DressAll(ps[1..], o, After(ps[0], due)).Some?
    ensures BatchTotal(DressAll(ps, o, due).value, config)
         == Both(PartModel(Dress(ps[0], o, due).value, config),
                 BatchTotal(DressAll(ps[1..], o, After(ps[0], due)).value, config), Plus)
  {
    var parts := DressAll(ps, o, due).value;
    assert parts[1..] == DressAll(ps[1..], o, After(ps[0], due)).value;
    BatchTotalCons(parts, config);
  }

  lemma BurnFirst(ps: seq<Part>, o: Options, due: Option<seq<InfusedAsset>>, config: GasConfig)
    requires ps != [] && ps[0].kind.BurnNonFungible? && DressAll(ps, o, due).Some?
    requires DressAll(ps[1..], o, Some([])).Some?
    requires Amounts(BatchTotal(DressAll(ps[1..], o, Some([])).value, config), BareTotal(ps[1..], o, config), Returns(ps[1..], Some([]), config))
    ensures Amounts(BatchTotal(DressAll(ps, o, due).value, config), BareTotal(ps, o, config), Returns(ps, due, config))
  {
    var rest := DressAll(ps[1..], o, Some([])).value;
    PricedCons(ps, o, due, config);
    DressedReturns(ps[0], o, config, due.value);
    NothingLeft(ps[1..], config);
    AmountsBurn(PartModel(Dress(ps[0], o, due).value, config), BareModel(ps[0], o, config), Returned(due.value, config),
                BatchTotal(rest, config), BareTotal(ps[1..], o, config));
    assert HasBurn(ps);
  }

  lemma OtherFirst(ps: seq<Part>, o: Options, due: Option<seq<InfusedAsset>>, config: GasConfig)
    requires ps != [] && !ps[0].kind.BurnNonFungible? && DressAll(ps, o, due).Some? && DressAll(ps[1..], o, due).Some?
    requires Amounts(BatchTotal(DressAll(ps[1..], o, due).value, config), BareTotal(ps[1..], o, config), Returns(ps[1..], due, config))
    ensures Amounts(BatchTotal(DressAll(ps, o, due).value, config), BareTotal(ps, o, config), Returns(ps, due, config))
  {
    PricedCons(ps, o, due, config);
    OthersIgnoreReturns(ps[0], o, due);
    ReturnsTail(ps, due, config);
    AmountsOther(BareModel(ps[0], o, config), BatchTotal(DressAll(ps[1..], o, due).value, config),
                 BareTotal(ps[1..], o, config), Returns(ps, due, config));
  }

  lemma NothingLeft(ps: seq<Part>, config: GasConfig)
    ensures Returns(ps, Some([]), config) == Some(NOTHING)
  {
  }

  lemma OthersIgnoreReturns(p: Part, o: Options, due: Option<seq<InfusedAsset>>)
    requires !p.kind.BurnNonFungible?
    ensures Dress(p, o, due) == Dress(p, o, Some([]))
  {
  }

  lemma ReturnsTail(ps: seq<Part>, due: Option<seq<InfusedAsset>>, config: GasConfig)
    requires ps != [] && !ps[0].kind.BurnNonFungible?
    ensures Returns(ps, due, config) == Returns(ps[1..], due, config)
  {
    assert HasBurn(ps) == HasBurn(ps[1..]);
  }

  lemma EstimatePermutes(ps: seq<Part>, qs: seq<Part>, o: Options, config: GasConfig, carrier: Carrier)
    requires multiset(ps) == multiset(qs)
    ensures Priced(ps, o).Some? == Priced(qs, o).Some?
    ensures Priced(ps, o).Some? ==>
              EstimateBatch(Priced(ps, o).value, config, carrier) == EstimateBatch(Priced(qs, o).value, config, carrier)
  {
    SameMembers(ps, qs);
    DressedExactlyWhen(ps, o, o.infusions);
    DressedExactlyWhen(qs, o, o.infusions);
    if Priced(ps, o).Some? {
      PlusOrderless();
      FoldPermutes(ps, qs, Bare(o, config), Plus, NOTHING);
      PricedTotal(ps, o, o.infusions, config);
      PricedTotal(qs, o, o.infusions, config);
      if Models(Priced(ps, o).value, config).Some? {
        SettleSaturated(TotalOf(Priced(ps, o).value, config), TotalOf(Priced(qs, o).value, config), config, carrier);
      }
    }
  }

  /** Success, exactness, size, bill, offer, ceiling and quanta: everything but the order of the kinds. */
  predicate SamePlan(p: Option<Plan>, q: Option<Plan>) {
    p.Some? == q.Some? && (p.Some? ==> q.value == p.value.(kinds := q.value.kinds))
  }

  lemma PlanPermutes(ps: seq<Part>, qs: seq<Part>, size: U32, config: GasConfig, o: Options)
    requires multiset(ps) == multiset(qs)
    ensures SamePlan(PlanParts(ps, size, config, o), PlanParts(qs, size, config, o))
  {
    EstimatePermutes(ps, qs, o, config, Carrier(size, 0));
    EstimatePermutes(ps, qs, Cheapest(o), config, Carrier(size, 0));
    SameMembers(ps, qs);
    if Priced(ps, o).Some? {
      BudgetedDressed(ps, o);
      BudgetedDressed(qs, o);
    }
  }

  // ----- what fits in one order fits in every order -----

  /** The same part, but for what a burn returns. */
  predicate Alike(a: Part, b: Part) {
    a == b || (a.kind.BurnNonFungible? && b.kind.BurnNonFungible? && a.params == b.params.(infusions := a.params.infusions))
  }

  function BarePart(p: Part, o: Options): Part {
    Dress(p, o, Some([])).value
  }

  lemma DressAlike(p: Part, o: Options, due: Option<seq<InfusedAsset>>)
    requires Dress(p, o, due).Some?
    ensures Alike(Dress(p, o, due).value, BarePart(p, o))
  {
    if p.kind.BurnNonFungible? {
      SameButInfusions(p.params, FactsFor(p.kind, o), due.value);
    } else {
      OthersIgnoreReturns(p, o, due);
    }
  }

  lemma {:induction false} DressAllAlike(ps: seq<Part>, o: Options, due: Option<seq<InfusedAsset>>, i: nat)
    requires DressAll(ps, o, due).Some? && i < |ps|
    ensures Alike(DressAll(ps, o, due).value[i], BarePart(ps[i], o))
  {
    if i == 0 {
      DressAlike(ps[0], o, due);
    } else {
      DressAllAlike(ps[1..], o, After(ps[0], due), i - 1);
    }
  }

  lemma AlikeSizes(a: Part, b: Part, config: GasConfig)
    requires Alike(a, b) && PartModel(a, config).Some? && PartModel(b, config).Some?
    ensures SizesFit(a) == SizesFit(b) && PartModel(a, config).value.result == PartModel(b, config).value.result
  {
  }

  lemma {:induction false} PartInTotal(parts: seq<Part>, config: GasConfig, i: nat)
    requires Models(parts, config).Some? && i < |parts|
    ensures PartModel(parts[i], config).value.created <= TotalOf(parts, config).created
    ensures PartModel(parts[i], config).value.deleted <= TotalOf(parts, config).deleted
  {
    ModelsTail(parts, config);
    if i > 0 {
      PartInTotal(parts[1..], config, i - 1);
    }
  }

  lemma AlikeFits(q: Part, p: Part, bare: Part, config: GasConfig)
    requires Alike(q, bare) && Alike(p, bare) && PartFits(p, config) && PartModel(p, config).Some? && PartModel(q, config).Some?
    requires PartModel(bare, config).Some?
    requires PartModel(q, config).value.created <= U32_MAX && PartModel(q, config).value.deleted <= U32_MAX
    ensures PartFits(q, config)
  {
    AlikeSizes(q, bare, config);
    AlikeSizes(p, bare, config);
  }

  lemma BareModelled(a: Part, b: Part, config: GasConfig)
    requires Alike(a, b) && PartModel(a, config).Some? && (b.kind.BurnNonFungible? ==> b.params.infusions == Some([]))
    ensures PartModel(b, config).Some?
  {
    assert Returned([], config) == Some(NOTHING);
  }

  /** Fitting parts whose counters stay below the limit together fit in every order. */
  lemma FitInEveryOrder(ps: seq<Part>, qs: seq<Part>, o: Options, config: GasConfig, carrier: Carrier)
    requires multiset(ps) == multiset(qs) && Priced(ps, o).Some? && AllFit(Priced(ps, o).value, config)
    requires EstimateBatch(Priced(ps, o).value, config, carrier).Some?
    requires Unsaturated(EstimateBatch(Priced(ps, o).value, config, carrier).value)
    ensures Priced(qs, o).Some? && AllFit(Priced(qs, o).value, config)
  {
    EstimatePermutes(ps, qs, o, config, carrier);
    var high, other := Priced(ps, o).value, Priced(qs, o).value;
    forall i | 0 <= i < |other| ensures PartFits(other[i], config) {
      assert qs[i] in multiset(ps);
      var j :| 0 <= j < |ps| && ps[j] == qs[i];
      DressAllAlike(qs, o, o.infusions, i);
      DressAllAlike(ps, o, o.infusions, j);
      PartInTotal(other, config, i);
      assert PartFits(high[j], config);
      BareModelled(high[j], BarePart(qs[i], o), config);
      AlikeFits(other[i], high[j], BarePart(qs[i], o), config);
    }
  }

  /** The row counters of a quote are below their limit. */
  predicate Unsaturated(e: Estimate) {
    e.newQuanta < U32_MAX && e.deletedQuanta < U32_MAX
  }

  // ----- the calls of a message -----

  function Bag(c: M.MsgCall): Option<multiset<Part>> {
    var p :- RecogniseCall(c);
    Some(multiset{p})
  }

  function Union(a: multiset<Part>, b: multiset<Part>): multiset<Part> { a + b }

  lemma UnionOrderless()
    ensures Orderless(Union)
  {
    forall a, b ensures Union(a, b) == Union(b, a) {
    }
    forall a, b, c ensures Union(a, Union(b, c)) == Union(b, Union(a, c)) {
    }
  }

  lemma {:induction false} RecognisedBag(cs: seq<M.MsgCall>)
    ensures RecogniseCalls(cs).Some? == Fold(cs, Bag, Union, multiset{}).Some?
    ensures RecogniseCalls(cs).Some? ==> multiset(RecogniseCalls(cs).value) == Fold(cs, Bag, Union, multiset{}).value
  {
    if cs != [] {
      RecognisedBag(cs[1..]);
    }
  }

  lemma RecogniseCallsPermutes(cs: seq<M.MsgCall>, ds: seq<M.MsgCall>)
    requires multiset(cs) == multiset(ds)
    ensures RecogniseCalls(cs).Some? == RecogniseCalls(ds).Some?
    ensures RecogniseCalls(cs).Some? ==> multiset(RecogniseCalls(cs).value) == multiset(RecogniseCalls(ds).value)
  {
    RecognisedBag(cs);
    RecognisedBag(ds);
    UnionOrderless();
    FoldPermutes(cs, ds, Bag, Union, multiset{});
  }

  function CallSize(c: M.MsgCall): Option<int> {
    var bytes :- M.EncodeCall(c);
    Some(|bytes|)
  }

  function Add(a: int, b: int): int { a + b }

  lemma {:induction false} CallSizes(cs: seq<M.MsgCall>)
    ensures Wire.EncodeAll(cs, M.EncodeCall).Some? == Fold(cs, CallSize, Add, 0).Some?
    ensures Wire.EncodeAll(cs, M.EncodeCall).Some? ==>
              |Wire.EncodeAll(cs, M.EncodeCall).value| == Fold(cs, CallSize, Add, 0).value
  {
    if cs != [] {
      CallSizes(cs[1..]);
    }
  }

  lemma CallsSizePermutes(cs: seq<M.MsgCall>, ds: seq<M.MsgCall>)
    requires multiset(cs) == multiset(ds)
    ensures M.EncodePayload(M.CallMulti(cs)).Some? == M.EncodePayload(M.CallMulti(ds)).Some?
    ensures M.EncodePayload(M.CallMulti(cs)).Some? ==>
              |M.EncodePayload(M.CallMulti(cs)).value| == |M.EncodePayload(M.CallMulti(ds)).value|
  {
    assert |multiset(cs)| == |cs| && |multiset(ds)| == |ds|;
    CallSizes(cs);
    CallSizes(ds);
    FoldPermutes(cs, ds, CallSize, Add, 0);
  }

  lemma MessageSizePermutes(m: M.TxMsg, cs: seq<M.MsgCall>, ds: seq<M.MsgCall>)
    requires m.msg == M.CallMulti(cs) && multiset(cs) == multiset(ds)
    ensures var n := m.(msg := M.CallMulti(ds));
            M.EncodeTxMsg(m).Some? == M.EncodeTxMsg(n).Some?
            && (M.EncodeTxMsg(m).Some? ==> |M.EncodeTxMsg(m).value| == |M.EncodeTxMsg(n).value|)
  {
    CallsSizePermutes(cs, ds);
    assert M.Header(m.(msg := M.CallMulti(ds))) == M.Header(m);
  }

  lemma EnvelopePermutes(m: M.TxMsg, cs: seq<M.MsgCall>, ds: seq<M.MsgCall>, count: Option<U32>)
    requires m.msg == M.CallMulti(cs) && multiset(cs) == multiset(ds)
    ensures E.EnvelopeBytes(m.(msg := M.CallMulti(ds)), count) == E.EnvelopeBytes(m, count)
  {
    var n := m.(msg := M.CallMulti(ds));
    MessageSizePermutes(m, cs, ds);
    assert E.RequiredWitnesses(n) == E.RequiredWitnesses(m);
    E.EnvelopeFromSize(m, n, count);
  }

  lemma CallsPermute(m: M.TxMsg, cs: seq<M.MsgCall>, ds: seq<M.MsgCall>, config: GasConfig, o: Options)
    requires m.msg == M.CallMulti(cs) && multiset(cs) == multiset(ds)
    ensures SamePlan(PlanFees(m, config, o), PlanFees(m.(msg := M.CallMulti(ds)), config, o))
  {
    RecogniseCallsPermutes(cs, ds);
    EnvelopePermutes(m, cs, ds, o.witnessCount);
    var n := m.(msg := M.CallMulti(ds));
    assert E.RequiredWitnesses(n) == E.RequiredWitnesses(m);
    var size := E.EnvelopeBytes(m, o.witnessCount);
    if Recognise(m).Some? && size.Some? {
      PlanPermutes(Recognise(m).value, Recognise(n).value, size.value, config, o);
    }
  }

  // ----- in a release build -----

  function ReleaseFees(m: M.TxMsg, config: GasConfig, o: Options): Option<Plan> {
    if !WitnessesKnown(m, o) then None else
      var ps :- Recognise(m);
      var size :- E.EnvelopeBytes(m, o.witnessCount);
      ReleasePlan(ps, size, config, o)
  }

  /** No 32-bit sum overflows in any operation of the message. */
  predicate MessageFits(m: M.TxMsg, config: GasConfig, o: Options) {
    Recognise(m).Some? ==> PlanFits(Recognise(m).value, config, o)
  }

  lemma FeesRelease(m: M.TxMsg, config: GasConfig, o: Options)
    requires MessageFits(m, config, o)
    ensures ReleaseFees(m, config, o) == PlanFees(m, config, o)
  {
    var size := E.EnvelopeBytes(m, o.witnessCount);
    if Recognise(m).Some? && size.Some? {
      PlanReleases(Recognise(m).value, size.value, config, o);
    }
  }

  /**
    Permuting the calls of a batch changes nothing in its plan but the order of the kinds it lists; nor
    does it in a release build, whose counters wrap, where both orders fit.
   */
  lemma CallOrderIrrelevant(m: M.TxMsg, cs: seq<M.MsgCall>, ds: seq<M.MsgCall>, config: GasConfig, o: Options)
    requires m.msg == M.CallMulti(cs) && multiset(cs) == multiset(ds)
    ensures SamePlan(PlanFees(m, config, o), PlanFees(m.(msg := M.CallMulti(ds)), config, o))
    ensures MessageFits(m, config, o) && MessageFits(m.(msg := M.CallMulti(ds)), config, o) ==>
              SamePlan(ReleaseFees(m, config, o), ReleaseFees(m.(msg := M.CallMulti(ds)), config, o))
  {
    var n := m.(msg := M.CallMulti(ds));
    CallsPermute(m, cs, ds, config, o);
    if MessageFits(m, config, o) && MessageFits(n, config, o) {
      FeesRelease(m, config, o);
      FeesRelease(n, config, o);
    }
  }

  /**
    One order is enough to look at: if its operations fit and its quoted row counters are below their
    limit, every other order fits as well and the release build plans it alike.
   */
  lemma ReleaseOrderIrrelevant(m: M.TxMsg, cs: seq<M.MsgCall>, ds: seq<M.MsgCall>, config: GasConfig, o: Options)
    requires m.msg == M.CallMulti(cs) && multiset(cs) == multiset(ds) && MessageFits(m, config, o)
    requires PlanFees(m, config, o).Some? && Unsaturated(PlanFees(m, config, o).value.estimate)
    ensures MessageFits(m.(msg := M.CallMulti(ds)), config, o)
    ensures SamePlan(ReleaseFees(m, config, o), ReleaseFees(m.(msg := M.CallMulti(ds)), config, o))
  {
    RecogniseCallsPermutes(cs, ds);
    FitInEveryOrder(Recognise(m).value, Recognise(m.(msg := M.CallMulti(ds))).value, o, config,
                    Carrier(E.EnvelopeBytes(m, o.witnessCount).value, 0));
    CallOrderIrrelevant(m, cs, ds, config, o);
  }
}
