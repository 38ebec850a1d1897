/**
  The canonical form is a normal form: wherever no schema names a field twice, making a value canonical
  twice is making it canonical once; and exactly when, where one does. Which values keep their bytes is
  `CarbonUnchanged`.
 */
module CarbonCanonical {
  import opened Words
  import opened CarbonWire
  import opened CarbonSchema
  import opened CarbonValues
  import opened CarbonSort
  import opened CarbonRoundTrip

  // ----- types that do not nest -----

  lemma MapTwice<T>(xs: seq<T>, c: T -> T)
    requires forall x :: x in xs ==> c(c(x)) == c(x)
    ensures Map(c, Map(c, xs)) == Map(c, xs)
  {
  }

  lemma CastsTwice(w: IntWidth, xs: seq<int>)
    ensures Map(Cast(w), Map(Cast(w), xs)) == Map(Cast(w), xs)
  {
    forall x | x in xs ensures Cast(w)(Cast(w)(x)) == Cast(w)(x) {
      CastSame(w, x);
    }
    MapTwice(xs, Cast(w));
  }

  lemma ReduceTwice(x: int)
    ensures Reduce(Reduce(x)) == Reduce(x)
  {
    LESigned(LE(WORD_BYTES, x));
  }

  lemma ReducesTwice(xs: seq<int>)
    ensures Map(Reduce, Map(Reduce, xs)) == Map(Reduce, xs)
  {
    forall x | x in xs ensures Reduce(Reduce(x)) == Reduce(x) {
      ReduceTwice(x);
    }
    MapTwice(xs, Reduce);
  }

  lemma FlatTwice(t: VMType, d: Value)
    requires Flat(t)
    ensures CanonFlat(t, CanonFlat(t, d)) == CanonFlat(t, d)
  {
    match t
    case TInt(w) => CastSame(w, AsInt(d));
    case TInt256 => ReduceTwice(AsBigInt(d));
    case TArrayInt(w) => CastsTwice(w, AsInts(w, d));
    case TArrayInt256 => ReducesTwice(AsBigInts(d));
    case _ =>
  }

  // ----- the domain: no schema on the way names a field twice -----

  ghost predicate DistinctNames(schema: seq<NamedSchema>) {
    forall i, j :: 0 <= i < j < |schema| ==> schema[i].name != schema[j].name
  }

  ghost predicate DistinctStatic(t: VMType, schema: Option<StructSchema>, d: Value)
    decreases Depth(d), DefHeight(schema), if t.TDynamic? then 1 else 0, 4, 0
  {
    match t
    case TDynamic => DistinctVariable(AsDynamic(d))
    case TStruct => if schema.Some? then DistinctWith(schema.value, AsStruct(d)) else DistinctStruct(AsStruct(d))
    case TArrayDynamic => DistinctVariables(AsVariables(d))
    case TArrayStruct => DistinctStructs(Used(schema, OwnSchema(d)), AsStructs(d))
    case _ => true
  }

  ghost predicate DistinctVariable(v: Variable)
    decreases Depth(v.data), 0, if v.vmType.TDynamic? then 1 else 0, 5, 0
  {
    DistinctStatic(v.vmType, None, v.data)
  }

  ghost predicate DistinctVariables(vs: seq<Variable>)
    decreases VariablesDepth(vs), 0, 0, 2, |vs|
  {
    vs != [] ==>
      (assert VariableDepth(vs[0]) == Depth(vs[0].data); DistinctVariable(vs[0]) && DistinctVariables(vs[1..]))
  }

  ghost predicate DistinctFields(fields: seq<Field>)
    decreases FieldsDepth(fields), 0, 0, 2, |fields|
  {
    fields != [] ==> DistinctVariable(fields[0].value) && DistinctFields(fields[1..])
  }

  ghost predicate DistinctStruct(x: Struct)
    decreases FieldsDepth(x.fields), 0, 0, 3, 0
  {
    SortDepth(x.fields);
    DistinctFields(Sort(x.fields))
  }

  ghost predicate DistinctWith(schema: StructSchema, x: Struct)
    decreases FieldsDepth(x.fields), SchemaHeight(schema.fields), 0, 3, 0
  {
    UnnamedDepth(x.fields, schema.fields);
    DistinctNames(schema.fields) && DistinctBound(schema.fields, x)
    && (DynamicExtras(schema) ==> DistinctFields(Unnamed(x.fields, schema.fields)))
  }

  ghost predicate DistinctBound(schema: seq<NamedSchema>, x: Struct)
    decreases FieldsDepth(x.fields), SchemaHeight(schema), 0, 2, |schema|
  {
    schema != [] ==>
      (OfferedDepth(x, schema[0]);
       && DistinctStatic(schema[0].schema.vmType, schema[0].schema.structDef, Offered(x, schema[0]))
       && DistinctBound(schema[1..], x))
  }

  ghost predicate DistinctStructs(schema: StructSchema, xs: seq<Struct>)
    decreases StructsDepth(xs), 0, 0, 2, |xs|
  {
    xs != [] ==> DistinctWith(schema, xs[0]) && DistinctStructs(schema, xs[1..])
  }

  // ----- fields in name order -----

  lemma CanonSorted(fields: seq<Field>)
    requires SortedNames(fields)
    ensures SortedNames(CanonFields(fields)) && Sort(CanonFields(fields)) == CanonFields(fields)
  {
    SortFixed(CanonFields(fields));
  }

  ghost function CanonField(f: Field): Field {
    Field(f.name, CanonVariable(f.value))
  }

  lemma {:induction false} CanonInsert(f: Field, fields: seq<Field>)
    ensures CanonFields(Insert(f, fields)) == Insert(CanonField(f), CanonFields(fields))
  {
    CanonCons(f, fields);
    if fields != [] && Before(fields[0].name, f.name) {
      CanonInsert(f, fields[1..]);
      CanonCons(fields[0], Insert(f, fields[1..]));
      assert CanonFields(fields)[1..] == CanonFields(fields[1..]);
    }
  }

  lemma CanonCons(f: Field, fields: seq<Field>)
    ensures CanonFields([f] + fields) == [CanonField(f)] + CanonFields(fields)
  {
    assert ([f] + fields)[1..] == fields;
  }

  /** Canonicalising fields and sorting them commute. */
  lemma {:induction false} CanonSort(fields: seq<Field>)
    ensures CanonFields(Sort(fields)) == Sort(CanonFields(fields))
  {
    if fields != [] {
      CanonSort(fields[1..]);
      CanonInsert(fields[0], Sort(fields[1..]));
      assert CanonFields(fields)[1..] == CanonFields(fields[1..]);
    }
  }

  lemma TailOfConcat(a: seq<Field>, p: seq<Field>)
    requires a != []
    ensures a + p != [] && (a + p)[0] == a[0] && (a + p)[1..] == a[1..] + p
  {
  }

  lemma SortStep(left: seq<Field>, right: seq<Field>)
    requires left != [] && right != [] && left[0] == right[0] && Sort(left[1..]) == Sort(right[1..])
    ensures Sort(left) == Sort(right)
  {
  }

  lemma {:induction false} SortAppend(a: seq<Field>, p: seq<Field>, q: seq<Field>)
    requires Sort(p) == Sort(q)
    ensures Sort(a + p) == Sort(a + q)
  {
    if a == [] {
      assert a + p == p && a + q == q;
    } else {
      SortAppend(a[1..], p, q);
      TailOfConcat(a, p);
      TailOfConcat(a, q);
      SortStep(a + p, a + q);
    }
  }

  /** Sorting part of a list first makes no difference. */
  lemma SortConcat(a: seq<Field>, b: seq<Field>)
    ensures Sort(a + Sort(b)) == Sort(a + b)
  {
    SortSorted(b);
    SortFixed(Sort(b));
    SortAppend(a, Sort(b), b);
  }

  // ----- what a canonical struct holds -----

  ghost predicate FirstOf(schema: seq<NamedSchema>, j: nat) {
    j < |schema| && forall k :: 0 <= k < j ==> schema[k].name != schema[j].name
  }

  /** What the canonical struct offers for a schema field: the canonical form under the first field of that name. */
  lemma OfferedFirst(schema: StructSchema, x: Struct, i: nat, j: nat)
    requires j <= i < |schema.fields| && FirstOf(schema.fields, j) && schema.fields[i].name == schema.fields[j].name
    ensures Offered(CanonWith(schema, x), schema.fields[i]) == CanonOffer(x, schema.fields[j]).data
  {
    var name := schema.fields[j].name;
    var bound, extras := CanonBound(schema.fields, x), CanonExtras(schema, x);
    GetBound(schema.fields, x, j);
    GetConcat(bound, extras, name);
    GetSort(bound + extras, name);
  }

  lemma OfferedCanon(schema: StructSchema, x: Struct, i: nat)
    requires DistinctNames(schema.fields) && i < |schema.fields|
    ensures var f := schema.fields[i];
            Offered(CanonWith(schema, x), f) == CanonStatic(f.schema.vmType, f.schema.structDef, Offered(x, f))
  {
    OfferedFirst(schema, x, i, i);
  }

  ghost function CanonOffer(x: Struct, f: NamedSchema): Variable {
    Variable(f.schema.vmType, CanonStatic(f.schema.vmType, f.schema.structDef, Offered(x, f)))
  }

  lemma {:induction false} GetBound(schema: seq<NamedSchema>, x: Struct, i: nat)
    requires i < |schema| && FirstOf(schema, i)
    ensures Get(CanonBound(schema, x), schema[i].name) == Some(CanonOffer(x, schema[i]))
  {
    if i > 0 {
      assert schema[0].name != schema[i].name;
      forall k | 0 <= k < i - 1 ensures schema[1..][k].name != schema[1..][i - 1].name {
        assert schema[k + 1].name != schema[i].name;
      }
      GetBound(schema[1..], x, i - 1);
      assert CanonBound(schema, x)[1..] == CanonBound(schema[1..], x);
    }
  }

  /** The extras of the canonical struct are the canonical extras in name order. */
  lemma ExtrasOfCanon(schema: StructSchema, x: Struct)
    requires DynamicExtras(schema)
    ensures Unnamed(CanonWith(schema, x).fields, schema.fields) == Sort(CanonFields(Unnamed(x.fields, schema.fields)))
  {
    var bound, extras := CanonBound(schema.fields, x), CanonExtras(schema, x);
    var own := Unnamed(x.fields, schema.fields);
    UnnamedAreUnnamed(x.fields, schema.fields);
    forall f | f in extras ensures !Names(schema.fields, f.name) {
      var i :| 0 <= i < |extras| && extras[i] == f;
      assert own[i] in own;
    }
    UnnamedConcat(bound, extras, schema.fields);
    UnnamedSort(bound + extras, schema.fields);
  }

  ghost predicate OffersCanon(c: Struct, x: Struct, f: NamedSchema) {
    Offered(c, f) == CanonStatic(f.schema.vmType, f.schema.structDef, Offered(x, f))
  }

  // ----- idempotence -----

  /** The canonical form of a value is its own canonical form, whether or not the value can be written. */
  lemma {:induction false} StaticIdempotent(t: VMType, schema: Option<StructSchema>, d: Value)
    requires DistinctStatic(t, schema, d)
    ensures CanonStatic(t, schema, CanonStatic(t, schema, d)) == CanonStatic(t, schema, d)
    decreases Depth(d), DefHeight(schema), if t.TDynamic? then 1 else 0, 4, 0
  {
    if t.TDynamic? {
      VariableIdempotent(AsDynamic(d));
    } else if t.TStruct? {
      StructValueIdempotent(schema, d);
    } else if t.TArrayDynamic? || t.TArrayStruct? {
      NestedArrayIdempotent(t, schema, d);
    } else if Flat(t) {
      FlatTwice(t, d);
    }
  }

  lemma {:induction false} StructValueIdempotent(schema: Option<StructSchema>, d: Value)
    requires DistinctStatic(TStruct, schema, d)
    ensures CanonStatic(TStruct, schema, CanonStatic(TStruct, schema, d)) == CanonStatic(TStruct, schema, d)
    decreases Depth(d), DefHeight(schema), 0, 3, 1
  {
    if schema.Some? {
      WithIdempotent(schema.value, AsStruct(d));
    } else {
      StructIdempotent(AsStruct(d));
    }
  }

  lemma {:induction false} NestedArrayIdempotent(t: VMType, schema: Option<StructSchema>, d: Value)
    requires (t.TArrayDynamic? || t.TArrayStruct?) && DistinctStatic(t, schema, d)
    ensures CanonStatic(t, schema, CanonStatic(t, schema, d)) == CanonStatic(t, schema, d)
    decreases Depth(d), DefHeight(schema), 0, 3, 1
  {
    if t.TArrayDynamic? {
      VariablesIdempotent(AsVariables(d));
    } else {
      var used := Used(schema, OwnSchema(d));
      StructsIdempotent(used, AsStructs(d));
      assert CanonStatic(t, schema, d) == VArrayStruct(used, CanonStructs(used, AsStructs(d)));
      assert Used(schema, used) == used;
    }
  }

  lemma {:induction false} VariableIdempotent(v: Variable)
    requires DistinctVariable(v)
    ensures CanonVariable(CanonVariable(v)) == CanonVariable(v)
    decreases Depth(v.data), 0, if v.vmType.TDynamic? then 1 else 0, 5, 0
  {
    StaticIdempotent(v.vmType, None, v.data);
  }

  lemma {:induction false} VariablesIdempotent(vs: seq<Variable>)
    requires DistinctVariables(vs)
    ensures CanonVariables(CanonVariables(vs)) == CanonVariables(vs)
    decreases VariablesDepth(vs), 0, 0, 2, |vs|
  {
    if vs != [] {
      assert VariableDepth(vs[0]) == Depth(vs[0].data);
      VariableIdempotent(vs[0]);
      VariablesIdempotent(vs[1..]);
      assert CanonVariables(vs)[1..] == CanonVariables(vs[1..]);
    }
  }

  lemma {:induction false} FieldsIdempotent(fields: seq<Field>)
    requires DistinctFields(fields)
    ensures CanonFields(CanonFields(fields)) == CanonFields(fields)
    decreases FieldsDepth(fields), 0, 0, 2, |fields|
  {
    if fields != [] {
      VariableIdempotent(fields[0].value);
      FieldsIdempotent(fields[1..]);
      assert CanonFields(fields)[1..] == CanonFields(fields[1..]);
    }
  }

  lemma {:induction false} StructIdempotent(x: Struct)
    requires DistinctStruct(x)
    ensures CanonStruct(CanonStruct(x)) == CanonStruct(x)
    decreases FieldsDepth(x.fields), 0, 0, 3, 0
  {
    SortDepth(x.fields);
    SortSorted(x.fields);
    var sorted := Sort(x.fields);
    FieldsIdempotent(sorted);
    CanonSorted(sorted);
    CanonSorted(CanonFields(sorted));
  }

  /** Bound fields are found again as they were left, and extras once sorted stay sorted. */
  lemma {:induction false} WithIdempotent(schema: StructSchema, x: Struct)
    requires DistinctWith(schema, x)
    ensures CanonWith(schema, CanonWith(schema, x)) == CanonWith(schema, x)
    decreases FieldsDepth(x.fields), SchemaHeight(schema.fields), 0, 3, 0
  {
    var c := CanonWith(schema, x);
    forall i | 0 <= i < |schema.fields| ensures OffersCanon(c, x, schema.fields[i]) {
      OfferedCanon(schema, x, i);
    }
    BoundIdempotent(schema.fields, x, c);
    ExtrasIdempotent(schema, x);
    SortConcat(CanonBound(schema.fields, x), CanonExtras(schema, x));
  }

  lemma {:induction false} BoundIdempotent(schema: seq<NamedSchema>, x: Struct, c: Struct)
    requires DistinctBound(schema, x) && forall i :: 0 <= i < |schema| ==> OffersCanon(c, x, schema[i])
    ensures CanonBound(schema, c) == CanonBound(schema, x)
    decreases FieldsDepth(x.fields), SchemaHeight(schema), 0, 2, |schema|
  {
    if schema != [] {
      OfferedDepth(x, schema[0]);
      assert OffersCanon(c, x, schema[0]);
      StaticIdempotent(schema[0].schema.vmType, schema[0].schema.structDef, Offered(x, schema[0]));
      BoundIdempotent(schema[1..], x, c);
    }
  }

  lemma {:induction false} ExtrasIdempotent(schema: StructSchema, x: Struct)
    requires DynamicExtras(schema) ==> DistinctFields(Unnamed(x.fields, schema.fields))
    ensures CanonExtras(schema, CanonWith(schema, x)) == Sort(CanonExtras(schema, x))
    decreases FieldsDepth(x.fields), 0, 0, 2, |x.fields| + 2
  {
    if DynamicExtras(schema) {
      var extras := Unnamed(x.fields, schema.fields);
      UnnamedDepth(x.fields, schema.fields);
      ExtrasOfCanon(schema, x);
      CanonSort(CanonFields(extras));
      FieldsIdempotent(extras);
    }
  }

  lemma {:induction false} StructsIdempotent(schema: StructSchema, xs: seq<Struct>)
    requires DistinctStructs(schema, xs)
    ensures CanonStructs(schema, CanonStructs(schema, xs)) == CanonStructs(schema, xs)
    decreases StructsDepth(xs), 0, 0, 2, |xs|
  {
    if xs != [] {
      WithIdempotent(schema, xs[0]);
      StructsIdempotent(schema, xs[1..]);
      assert CanonStructs(schema, xs)[1..] == CanonStructs(schema, xs[1..]);
    }
  }

  // ----- schemas that name a field twice -----

  ghost predicate SameNames(a: seq<Field>, b: seq<Field>) {
    |a| == |b| && forall i :: 0 <= i < |a| ==> a[i].name == b[i].name
  }

  lemma SameCons(f: Field, a: seq<Field>, g: Field, b: seq<Field>)
    ensures [f] + a == [g] + b <==> f == g && a == b
    ensures SameNames([f] + a, [g] + b) <==> f.name == g.name && SameNames(a, b)
  {
    assert ([f] + a)[1..] == a && ([g] + b)[1..] == b && ([f] + a)[0] == f && ([g] + b)[0] == g;
    if SameNames([f] + a, [g] + b) {
      forall i | 0 <= i < |a| ensures a[i].name == b[i].name {
        assert ([f] + a)[i + 1].name == ([g] + b)[i + 1].name;
      }
    }
  }

  lemma {:induction false} InsertNames(f: Field, a: seq<Field>, g: Field, b: seq<Field>)
    requires f.name == g.name && SameNames(a, b)
    ensures SameNames(Insert(f, a), Insert(g, b)) && (Insert(f, a) == Insert(g, b) ==> f == g && a == b)
  {
    if a == [] || !Before(a[0].name, f.name) {
      SameCons(f, a, g, b);
    } else {
      var p, q := a[1..], b[1..];
      assert a == [a[0]] + p && b == [b[0]] + q;
      SameCons(a[0], p, b[0], q);
      InsertNames(f, p, g, q);
      SameCons(a[0], Insert(f, p), b[0], Insert(g, q));
    }
  }

  lemma SameTail(a: seq<Field>, b: seq<Field>)
    requires SameNames(a, b) && |a| > 0
    ensures |b| > 0 && a[0].name == b[0].name && SameNames(a[1..], b[1..])
    ensures a[0] == b[0] && a[1..] == b[1..] ==> a == b
  {
    assert a == [a[0]] + a[1..] && b == [b[0]] + b[1..];
  }

  lemma SortOfCons(a: seq<Field>)
    requires |a| > 0
    ensures Sort(a) == Insert(a[0], Sort(a[1..]))
  {
  }

  /** Where a field goes depends on names alone, so lists of the same names that sort alike are the same. */
  lemma {:induction false} SortInjective(a: seq<Field>, b: seq<Field>, left: seq<Field>, right: seq<Field>)
    requires SameNames(a, b) && left == Sort(a) && right == Sort(b)
    ensures SameNames(left, right) && (left == right ==> a == b)
    decreases |a|
  {
    if |a| > 0 {
      var p, q := Sort(a[1..]), Sort(b[1..]);
      SameTail(a, b);
      SortInjective(a[1..], b[1..], p, q);
      SortOfCons(a);
      SortOfCons(b);
      InsertNames(a[0], p, b[0], q);
    }
  }

  /** A repeated field makes of the first one's canonical form what it makes of its own value. */
  ghost predicate Settled(schema: seq<NamedSchema>, x: Struct) {
    forall i, j :: 0 <= j < i < |schema| && schema[i].name == schema[j].name && FirstOf(schema, j) ==>
      CanonAs(schema[i], CanonOffer(x, schema[j]).data) == CanonOffer(x, schema[i]).data
  }

  ghost function CanonAs(f: NamedSchema, d: Value): Value {
    CanonStatic(f.schema.vmType, f.schema.structDef, d)
  }

  lemma {:induction false} BoundAt(schema: seq<NamedSchema>, x: Struct, i: nat)
    requires i < |schema|
    ensures CanonBound(schema, x)[i] == Field(schema[i].name, CanonOffer(x, schema[i]))
  {
    if i > 0 {
      BoundAt(schema[1..], x, i - 1);
      assert CanonBound(schema, x)[1..] == CanonBound(schema[1..], x);
    }
  }

  lemma {:induction false} DistinctAt(schema: seq<NamedSchema>, x: Struct, i: nat)
    requires DistinctBound(schema, x) && i < |schema|
    ensures DistinctStatic(schema[i].schema.vmType, schema[i].schema.structDef, Offered(x, schema[i]))
  {
    if i > 0 {
      DistinctAt(schema[1..], x, i - 1);
    }
  }

  lemma {:induction false} FirstNamed(schema: seq<NamedSchema>, i: nat, k: nat)
    requires k <= i < |schema| && forall m :: 0 <= m < k ==> schema[m].name != schema[i].name
    ensures exists j: nat :: j <= i && FirstOf(schema, j) && schema[j].name == schema[i].name
    decreases i - k
  {
    if schema[k].name == schema[i].name {
      assert FirstOf(schema, k);
    } else {
      FirstNamed(schema, i, k + 1);
    }
  }

  lemma BoundAgain(schema: StructSchema, x: Struct)
    requires DistinctBound(schema.fields, x)
    ensures CanonBound(schema.fields, CanonWith(schema, x)) == CanonBound(schema.fields, x) <==> Settled(schema.fields, x)
  {
    var fields, c := schema.fields, CanonWith(schema, x);
    forall i | 0 <= i < |fields|
      ensures CanonBound(fields, c)[i] == Field(fields[i].name, CanonOffer(c, fields[i]))
      ensures CanonBound(fields, x)[i] == Field(fields[i].name, CanonOffer(x, fields[i]))
    {
      BoundAt(fields, c, i);
      BoundAt(fields, x, i);
    }
    forall i, j | 0 <= j < i < |fields| && fields[i].name == fields[j].name && FirstOf(fields, j)
      ensures CanonOffer(c, fields[i]).data == CanonAs(fields[i], CanonOffer(x, fields[j]).data)
    {
      OfferedFirst(schema, x, i, j);
    }
    if Settled(fields, x) {
      forall i | 0 <= i < |fields| ensures CanonOffer(c, fields[i]) == CanonOffer(x, fields[i]) {
        SettledAt(schema, x, c, i);
      }
    }
  }

  lemma SettledAt(schema: StructSchema, x: Struct, c: Struct, i: nat)
    requires i < |schema.fields| && DistinctBound(schema.fields, x) && Settled(schema.fields, x) && c == CanonWith(schema, x)
    ensures CanonOffer(c, schema.fields[i]) == CanonOffer(x, schema.fields[i])
  {
    var f := schema.fields[i];
    FirstNamed(schema.fields, i, 0);
    var j: nat :| j <= i && FirstOf(schema.fields, j) && schema.fields[j].name == f.name;
    OfferedFirst(schema, x, i, j);
    if j == i {
      DistinctAt(schema.fields, x, i);
      StaticIdempotent(f.schema.vmType, f.schema.structDef, Offered(x, f));
    } else {
      assert CanonAs(f, CanonOffer(x, schema.fields[j]).data) == CanonOffer(x, f).data;
    }
  }

  /**
    With or without repeated names: a schema-bound struct is settled by making it canonical once exactly
    when every repeated field makes of the first one's canonical form what it makes of its own value.
   */
  lemma WithIdempotentExactlyWhen(schema: StructSchema, x: Struct)
    requires DistinctBound(schema.fields, x) && (DynamicExtras(schema) ==> DistinctFields(Unnamed(x.fields, schema.fields)))
    ensures CanonWith(schema, CanonWith(schema, x)) == CanonWith(schema, x) <==> Settled(schema.fields, x)
  {
    ExtrasIdempotent(schema, x);
    BoundAgain(schema, x);
    WithAgain(schema, x, CanonWith(schema, x));
  }

  lemma WithAgain(schema: StructSchema, x: Struct, c: Struct)
    requires c == CanonWith(schema, x) && CanonExtras(schema, c) == Sort(CanonExtras(schema, x))
    ensures CanonWith(schema, c) == c <==> CanonBound(schema.fields, c) == CanonBound(schema.fields, x)
  {
    WithIs(schema, x);
    WithIs(schema, c);
    SortsAgain(CanonBound(schema.fields, c), CanonBound(schema.fields, x), CanonExtras(schema, x), CanonExtras(schema, c));
  }

  lemma WithIs(schema: StructSchema, x: Struct)
    ensures CanonWith(schema, x) == Struct(Sort(CanonBound(schema.fields, x) + CanonExtras(schema, x)))
  {
  }

  lemma SortsAgain(a: seq<Field>, b: seq<Field>, rest: seq<Field>, sorted: seq<Field>)
    requires SameNames(a, b) && sorted == Sort(rest)
    ensures Sort(a + sorted) == Sort(b + rest) <==> a == b
  {
    SortConcat(b, rest);
    SameHeads(a, b, sorted);
    SortInjective(a + sorted, b + sorted, Sort(a + sorted), Sort(b + sorted));
  }

  lemma SameHeads(a: seq<Field>, b: seq<Field>, rest: seq<Field>)
    requires SameNames(a, b)
    ensures SameNames(a + rest, b + rest) && (a + rest == b + rest ==> a == b)
  {
    assert a == (a + rest)[..|a|] && b == (b + rest)[..|b|];
  }
}
