/**
  Exactly which values keep their bytes when they are made canonical: at every depth, those whose
  schema-bound structs hold their extras in name order.
 */
module CarbonUnchanged {
  import opened Words
  import opened CarbonWire
  import opened CarbonSchema
  import opened CarbonValues
  import opened CarbonSort
  import opened CarbonRoundTrip
  import opened CarbonCanonical

  // ----- types that do not nest -----

  lemma {:induction false} AllSame<T>(xs: seq<T>, f: T -> Option<Bytes>, c: T -> T)
    requires EncodeAll(xs, f).Some?
    requires forall x :: x in xs && f(x).Some? ==> f(c(x)) == f(x)
    ensures EncodeAll(Map(c, xs), f) == EncodeAll(xs, f)
  {
    if xs != [] {
      AllSame(xs[1..], f, c);
      assert xs[0] in xs && Map(c, xs)[1..] == Map(c, xs[1..]);
    }
  }

  lemma IntsSame(w: IntWidth, xs: seq<int>)
    requires EncodeArray(xs, EncodeInt(w)).Some?
    ensures EncodeArray(Map(Cast(w), xs), EncodeInt(w)) == EncodeArray(xs, EncodeInt(w))
  {
    forall x | x in xs ensures EncodeInt(w)(Cast(w)(x)) == EncodeInt(w)(x) {
      CastSame(w, x);
    }
    AllSame(xs, EncodeInt(w), Cast(w));
  }

  lemma BigIntsSame(xs: seq<int>)
    requires EncodeArray(xs, EncodeBigInt).Some?
    ensures EncodeArray(Map(Reduce, xs), EncodeBigInt) == EncodeArray(xs, EncodeBigInt)
  {
    forall x: int | EncodeBigInt(x).Some? { ReduceEncodable(x); }
    AllSame(xs, EncodeBigInt, Reduce);
  }

  lemma ReduceEncodable(x: int)
    requires EncodeBigInt(x).Some?
    ensures EncodeBigInt(Reduce(x)) == EncodeBigInt(x)
  {
    ReduceSame(x);
  }

  lemma FlatSame(t: VMType, d: Value)
    requires Flat(t) && EncodeFlat(t, d).Some?
    ensures EncodeFlat(t, CanonFlat(t, d)) == EncodeFlat(t, d)
  {
    match t
    case TInt(w) => CastSame(w, AsInt(d));
    case TInt256 => ReduceEncodable(AsBigInt(d));
    case TArrayInt(w) => IntsSame(w, AsInts(w, d));
    case TArrayInt256 => BigIntsSame(AsBigInts(d));
    case _ =>
  }

  // ----- tidy values -----

  /** Schema-bound structs whose kept extras are in name order, as `VMDynamicStruct::new` leaves them. */
  ghost predicate TidyStatic(t: VMType, schema: Option<StructSchema>, d: Value)
    decreases Depth(d), DefHeight(schema), if t.TDynamic? then 1 else 0, 4, 0
  {
    match t
    case TDynamic => TidyVariable(AsDynamic(d))
    case TStruct => if schema.Some? then TidyWith(schema.value, AsStruct(d)) else TidyStruct(AsStruct(d))
    case TArrayDynamic => TidyVariables(AsVariables(d))
    case TArrayStruct => TidyStructs(Used(schema, OwnSchema(d)), AsStructs(d))
    case _ => true
  }

  ghost predicate TidyVariable(v: Variable)
    decreases Depth(v.data), 0, if v.vmType.TDynamic? then 1 else 0, 5, 0
  {
    TidyStatic(v.vmType, None, v.data)
  }

  ghost predicate TidyVariables(vs: seq<Variable>)
    decreases VariablesDepth(vs), 0, 0, 2, |vs|
  {
    vs != [] ==>
      (assert VariableDepth(vs[0]) == Depth(vs[0].data); TidyVariable(vs[0]) && TidyVariables(vs[1..]))
  }

  ghost predicate TidyFields(fields: seq<Field>)
    decreases FieldsDepth(fields), 0, 0, 2, |fields|
  {
    fields != [] ==> TidyVariable(fields[0].value) && TidyFields(fields[1..])
  }

  ghost predicate TidyStruct(x: Struct)
    decreases FieldsDepth(x.fields), 0, 0, 3, 0
  {
    SortDepth(x.fields);
    TidyFields(Sort(x.fields))
  }

  ghost predicate TidyWith(schema: StructSchema, x: Struct)
    decreases FieldsDepth(x.fields), SchemaHeight(schema.fields), 0, 3, 0
  {
    TidyBound(schema.fields, x) && TidyExtras(schema, x)
  }

  ghost predicate TidyExtras(schema: StructSchema, x: Struct)
    decreases FieldsDepth(x.fields), 0, 0, 2, |x.fields| + 2
  {
    UnnamedDepth(x.fields, schema.fields);
    DynamicExtras(schema) ==>
      SortedNames(Unnamed(x.fields, schema.fields)) && TidyFields(Unnamed(x.fields, schema.fields))
  }

  ghost predicate TidyBound(schema: seq<NamedSchema>, x: Struct)
    decreases FieldsDepth(x.fields), SchemaHeight(schema), 0, 2, |schema|
  {
    schema != [] ==>
      (OfferedDepth(x, schema[0]);
       && TidyStatic(schema[0].schema.vmType, schema[0].schema.structDef, Offered(x, schema[0]))
       && TidyBound(schema[1..], x))
  }

  ghost predicate TidyStructs(schema: StructSchema, xs: seq<Struct>)
    decreases StructsDepth(xs), 0, 0, 2, |xs|
  {
    xs != [] ==> TidyWith(schema, xs[0]) && TidyStructs(schema, xs[1..])
  }

  // ----- bytes of the same length, the same for the tidy and no others -----

  ghost predicate Judged(canon: Option<Bytes>, own: Option<Bytes>, tidy: bool) {
    canon.Some? && own.Some? && |canon.value| == |own.value| && (canon == own <==> tidy)
  }

  /** Two parts of the same lengths are the same together exactly when each is. */
  lemma JudgedTogether(a: Bytes, b: Bytes, left: bool, a': Bytes, b': Bytes, right: bool)
    requires Judged(Some(a), Some(b), left) && Judged(Some(a'), Some(b'), right)
    ensures Judged(Some(a + a'), Some(b + b'), left && right)
  {
    if a + a' == b + b' {
      assert a == (a + a')[..|a|] == (b + b')[..|b|] == b;
      assert a' == (a + a')[|a|..] == (b + b')[|b|..] == b';
    }
  }

  ghost predicate StaticJudged(t: VMType, schema: Option<StructSchema>, d: Value) {
    Judged(EncodeStatic(t, schema, CanonStatic(t, schema, d)), EncodeStatic(t, schema, d), TidyStatic(t, schema, d))
  }

  ghost predicate FieldJudged(f: Field) {
    Judged(EncodeField(CanonField(f)), EncodeField(f), TidyVariable(f.value))
  }

  // ----- extras -----

  ghost predicate AllJudged(fields: seq<Field>) {
    forall i :: 0 <= i < |fields| ==> FieldJudged(fields[i])
  }

  lemma {:induction false} FieldsJudged(fields: seq<Field>)
    requires AllJudged(fields)
    ensures Judged(EncodeFields(CanonFields(fields)), EncodeFields(fields), TidyFields(fields))
  {
    if fields != [] {
      assert FieldJudged(fields[0]);
      FieldsJudged(fields[1..]);
      assert CanonFields(fields)[1..] == CanonFields(fields[1..]);
      JudgedTogether(EncodeField(CanonField(fields[0])).value, EncodeField(fields[0]).value, TidyVariable(fields[0].value),
                     EncodeFields(CanonFields(fields[1..])).value, EncodeFields(fields[1..]).value, TidyFields(fields[1..]));
    }
  }

  lemma {:induction false} InsertBytes(f: Field, fields: seq<Field>)
    requires EncodeField(f).Some? && EncodeFields(fields).Some?
    ensures EncodeFields(Insert(f, fields)).Some?
    ensures |EncodeFields(Insert(f, fields)).value| == |EncodeField(f).value| + |EncodeFields(fields).value|
  {
    if fields == [] || !Before(fields[0].name, f.name) {
      assert ([f] + fields)[1..] == fields;
    } else {
      InsertBytes(f, fields[1..]);
      assert Insert(f, fields)[1..] == Insert(f, fields[1..]);
    }
  }

  /** Sorting keeps the number of bytes. */
  lemma {:induction false} SortBytes(fields: seq<Field>)
    requires EncodeFields(fields).Some?
    ensures EncodeFields(Sort(fields)).Some? && |EncodeFields(Sort(fields)).value| == |EncodeFields(fields).value|
  {
    if fields != [] {
      SortBytes(fields[1..]);
      InsertBytes(fields[0], Sort(fields[1..]));
    }
  }

  /** Equal bytes start with equal names. */
  lemma SameFirstName(f: Field, r: Bytes, g: Field, s: Bytes)
    requires EncodeField(f).Some? && EncodeField(g).Some? && EncodeField(f).value + r == EncodeField(g).value + s
    ensures f.name == g.name
  {
    FieldBytes(f, r);
    FieldBytes(g, s);
    SameSmall(f.name, EncodeVariable(f.value).value + r, g.name, EncodeVariable(g.value).value + s);
  }

  lemma FieldBytes(f: Field, r: Bytes)
    requires EncodeField(f).Some?
    ensures EncodeSmall(f.name).Some? && EncodeVariable(f.value).Some?
    ensures EncodeField(f).value + r == EncodeSmall(f.name).value + (EncodeVariable(f.value).value + r)
  {
    var name, value := EncodeSmall(f.name).value, EncodeVariable(f.value).value;
    assert name + value + r == name + (value + r);
  }

  lemma SameSmall(a: Text, r: Bytes, b: Text, s: Bytes)
    requires EncodeSmall(a).Some? && EncodeSmall(b).Some? && EncodeSmall(a).value + r == EncodeSmall(b).value + s
    ensures a == b
  {
    SmallBack(a, r);
    SmallBack(b, s);
  }

  /** The sort is stable: a first name that stays first is the same field. */
  lemma SortHead(fields: seq<Field>)
    requires fields != [] && Sort(fields) != [] && Sort(fields)[0].name == fields[0].name
    ensures Sort(fields) == [fields[0]] + Sort(fields[1..])
  {
    var rest := Sort(fields[1..]);
    if rest != [] {
      BeforeTotal(rest[0].name, fields[0].name);
    }
  }

  /** Canonical extras in name order are written to the bytes of the extras exactly when those were in order, and tidy. */
  lemma {:induction false} ExtrasJudged(fields: seq<Field>)
    requires AllJudged(fields)
    ensures Judged(EncodeFields(Sort(CanonFields(fields))), EncodeFields(fields), SortedNames(fields) && TidyFields(fields))
  {
    FieldsJudged(fields);
    SortBytes(CanonFields(fields));
    if EncodeFields(Sort(CanonFields(fields))) == EncodeFields(fields) {
      SameExtras(fields);
    } else if SortedNames(fields) {
      CanonSorted(fields);
    }
  }

  lemma {:induction false} SameExtras(fields: seq<Field>)
    requires AllJudged(fields) && EncodeFields(Sort(CanonFields(fields))) == EncodeFields(fields)
    ensures SortedNames(fields) && TidyFields(fields)
  {
    if fields != [] {
      var canon, rest := CanonFields(fields), CanonFields(fields[1..]);
      assert FieldJudged(fields[0]) && canon[0] == CanonField(fields[0]) && canon[1..] == rest;
      FieldsJudged(fields);
      FirstStays(fields);
      SortHead(canon);
      var a, b := EncodeField(canon[0]).value, EncodeField(fields[0]).value;
      assert Sort(canon)[1..] == Sort(rest);
      var a', b' := EncodeFields(Sort(rest)).value, EncodeFields(fields[1..]).value;
      assert a + a' == b + b';
      assert a == (a + a')[..|a|] == (b + b')[..|b|] == b;
      assert a' == (a + a')[|a|..] == (b + b')[|b|..] == b';
      SameExtras(fields[1..]);
      InOrder(fields);
    }
  }

  lemma FirstStays(fields: seq<Field>)
    requires fields != [] && AllJudged(fields) && EncodeFields(Sort(CanonFields(fields))) == EncodeFields(fields)
    requires EncodeFields(fields).Some?
    ensures Sort(CanonFields(fields)) != [] && Sort(CanonFields(fields))[0].name == CanonFields(fields)[0].name
  {
    var sorted := Sort(CanonFields(fields));
    SortLength(CanonFields(fields));
    SameFirstName(sorted[0], EncodeFields(sorted[1..]).value, fields[0], EncodeFields(fields[1..]).value);
  }

  lemma InOrder(fields: seq<Field>)
    requires fields != [] && SortedNames(fields[1..])
    requires Sort(CanonFields(fields)) == [CanonFields(fields)[0]] + Sort(CanonFields(fields[1..]))
    ensures SortedNames(fields)
  {
    var canon, rest := CanonFields(fields), CanonFields(fields[1..]);
    CanonSorted(fields[1..]);
    SortSorted(canon);
    assert Sort(canon) == canon;
    forall i, j | 0 <= i < j < |fields| ensures !Before(fields[j].name, fields[i].name) {
      assert canon[j].name == fields[j].name && canon[i].name == fields[i].name;
    }
  }

  lemma NamedJudged(canon: seq<Field>, own: seq<Field>, tidy: bool)
    requires |canon| == |own| && EncodeNamed(own).Some? && Judged(EncodeFields(canon), EncodeFields(own), tidy)
    ensures Judged(EncodeNamed(canon), EncodeNamed(own), tidy)
  {
    var head := EncodeLen(|own|).value;
    JudgedTogether(head, head, true, EncodeFields(canon).value, EncodeFields(own).value, tidy);
  }

  // ----- every type -----

  lemma {:induction false} StaticIsJudged(t: VMType, schema: Option<StructSchema>, d: Value)
    requires EncodeStatic(t, schema, d).Some? && DistinctStatic(t, schema, d)
    ensures StaticJudged(t, schema, d)
    decreases Depth(d), DefHeight(schema), if t.TDynamic? then 1 else 0, 4, 0
  {
    if t.TDynamic? {
      VariableIsJudged(AsDynamic(d));
    } else if t.TStruct? {
      StructValueJudged(schema, d);
    } else if t.TArrayDynamic? || t.TArrayStruct? {
      NestedArrayJudged(t, schema, d);
    } else {
      FlatJudged(t, schema, d);
    }
  }

  lemma FlatJudged(t: VMType, schema: Option<StructSchema>, d: Value)
    requires Flat(t) && EncodeStatic(t, schema, d).Some?
    ensures StaticJudged(t, schema, d)
  {
    FlatIs(t, schema, d);
    FlatIs(t, schema, CanonFlat(t, d));
    FlatSame(t, d);
  }

  lemma FlatIs(t: VMType, schema: Option<StructSchema>, d: Value)
    requires Flat(t)
    ensures EncodeStatic(t, schema, d) == EncodeFlat(t, d) && CanonStatic(t, schema, d) == CanonFlat(t, d) && TidyStatic(t, schema, d)
  {
  }

  lemma {:induction false} NestedArrayJudged(t: VMType, schema: Option<StructSchema>, d: Value)
    requires t.TArrayDynamic? || t.TArrayStruct?
    requires EncodeStatic(t, schema, d).Some? && DistinctStatic(t, schema, d)
    ensures StaticJudged(t, schema, d)
    decreases Depth(d), DefHeight(schema), 0, 3, 1
  {
    if t.TArrayDynamic? {
      VariablesJudged(AsVariables(d));
      VariableArrayJudged(schema, d);
    } else {
      StructsJudged(Used(schema, OwnSchema(d)), AsStructs(d));
      StructArrayJudged(schema, d);
    }
  }

  lemma {:induction false} StructValueJudged(schema: Option<StructSchema>, d: Value)
    requires EncodeStatic(TStruct, schema, d).Some? && DistinctStatic(TStruct, schema, d)
    ensures StaticJudged(TStruct, schema, d)
    decreases Depth(d), DefHeight(schema), 0, 3, 1
  {
    if schema.Some? {
      WithJudged(schema.value, AsStruct(d));
    } else {
      StructJudged(AsStruct(d));
    }
  }

  lemma {:induction false} VariableIsJudged(v: Variable)
    requires EncodeVariable(v).Some? && DistinctVariable(v)
    ensures Judged(EncodeVariable(CanonVariable(v)), EncodeVariable(v), TidyVariable(v))
    decreases Depth(v.data), 0, if v.vmType.TDynamic? then 1 else 0, 5, 0
  {
    StaticIsJudged(v.vmType, None, v.data);
    var code := [Code(v.vmType)];
    JudgedTogether(code, code, true, EncodeStatic(v.vmType, None, CanonStatic(v.vmType, None, v.data)).value,
                   EncodeStatic(v.vmType, None, v.data).value, TidyStatic(v.vmType, None, v.data));
  }

  lemma {:induction false} VariablesJudged(vs: seq<Variable>)
    requires EncodeVariables(vs).Some? && DistinctVariables(vs)
    ensures Judged(EncodeVariables(CanonVariables(vs)), EncodeVariables(vs), TidyVariables(vs))
    decreases VariablesDepth(vs), 0, 0, 2, |vs|
  {
    if vs != [] {
      assert VariableDepth(vs[0]) == Depth(vs[0].data);
      VariableIsJudged(vs[0]);
      VariablesJudged(vs[1..]);
      assert CanonVariables(vs)[1..] == CanonVariables(vs[1..]);
      JudgedTogether(EncodeVariable(CanonVariable(vs[0])).value, EncodeVariable(vs[0]).value, TidyVariable(vs[0]),
                     EncodeVariables(CanonVariables(vs[1..])).value, EncodeVariables(vs[1..]).value, TidyVariables(vs[1..]));
    }
  }

  lemma VariableArrayJudged(schema: Option<StructSchema>, d: Value)
    requires EncodeStatic(TArrayDynamic, schema, d).Some?
    requires Judged(EncodeVariables(CanonVariables(AsVariables(d))), EncodeVariables(AsVariables(d)), TidyVariables(AsVariables(d)))
    ensures StaticJudged(TArrayDynamic, schema, d)
  {
    var vs := AsVariables(d);
    var head := EncodeLen(|vs|).value;
    JudgedTogether(head, head, true, EncodeVariables(CanonVariables(vs)).value, EncodeVariables(vs).value, TidyVariables(vs));
  }

  lemma StructArrayJudged(schema: Option<StructSchema>, d: Value)
    requires EncodeStatic(TArrayStruct, schema, d).Some?
    requires var used := Used(schema, OwnSchema(d));
             Judged(EncodeStructs(used, CanonStructs(used, AsStructs(d))), EncodeStructs(used, AsStructs(d)), TidyStructs(used, AsStructs(d)))
    ensures StaticJudged(TArrayStruct, schema, d)
  {
    var used, xs := Used(schema, OwnSchema(d)), AsStructs(d);
    var canon := CanonStructs(used, xs);
    assert CanonStatic(TArrayStruct, schema, d) == VArrayStruct(used, canon);
    assert Used(schema, used) == used && EncodeOwn(schema, used) == EncodeOwn(schema, OwnSchema(d));
    var head, prefix := EncodeLen(|xs|).value, EncodeOwn(schema, used).value;
    JudgedTogether(prefix, prefix, true, EncodeStructs(used, canon).value, EncodeStructs(used, xs).value, TidyStructs(used, xs));
    JudgedTogether(head, head, true, prefix + EncodeStructs(used, canon).value, prefix + EncodeStructs(used, xs).value, TidyStructs(used, xs));
    assert EncodeStructArray(schema, used, canon) == Some(head + (prefix + EncodeStructs(used, canon).value));
  }

  lemma {:induction false} FieldIsJudged(f: Field)
    requires EncodeField(f).Some? && DistinctVariable(f.value)
    ensures FieldJudged(f)
    decreases Depth(f.value.data), 0, if f.value.vmType.TDynamic? then 1 else 0, 6, 0
  {
    VariableIsJudged(f.value);
    var name := EncodeSmall(f.name).value;
    JudgedTogether(name, name, true, EncodeVariable(CanonVariable(f.value)).value, EncodeVariable(f.value).value, TidyVariable(f.value));
  }

  lemma {:induction false} FieldsAllJudged(fields: seq<Field>)
    requires EncodeFields(fields).Some? && DistinctFields(fields)
    ensures AllJudged(fields)
    decreases FieldsDepth(fields), 0, 0, 2, |fields|
  {
    if fields != [] {
      FieldIsJudged(fields[0]);
      FieldsAllJudged(fields[1..]);
      forall i | 0 <= i < |fields| ensures FieldJudged(fields[i]) {
        assert i > 0 ==> FieldJudged(fields[1..][i - 1]);
      }
    }
  }

  lemma {:induction false} StructJudged(x: Struct)
    requires EncodeStruct(x).Some? && DistinctStruct(x)
    ensures Judged(EncodeStruct(CanonStruct(x)), EncodeStruct(x), TidyStruct(x))
    decreases FieldsDepth(x.fields), 0, 0, 3, 0
  {
    SortDepth(x.fields);
    SortSorted(x.fields);
    var sorted := Sort(x.fields);
    CanonSorted(sorted);
    FieldsAllJudged(sorted);
    FieldsJudged(sorted);
    NamedJudged(CanonFields(sorted), sorted, TidyFields(sorted));
  }

  lemma {:induction false} WithJudged(schema: StructSchema, x: Struct)
    requires EncodeWith(schema, x).Some? && DistinctWith(schema, x)
    ensures Judged(EncodeWith(schema, CanonWith(schema, x)), EncodeWith(schema, x), TidyWith(schema, x))
    decreases FieldsDepth(x.fields), SchemaHeight(schema.fields), 0, 3, 0
  {
    var c := CanonWith(schema, x);
    forall i | 0 <= i < |schema.fields| ensures OffersCanon(c, x, schema.fields[i]) {
      OfferedCanon(schema, x, i);
    }
    BoundJudged(schema.fields, x, c);
    ExtrasAreJudged(schema, x);
    JudgedTogether(EncodeBound(schema.fields, c).value, EncodeBound(schema.fields, x).value, TidyBound(schema.fields, x),
                   EncodeExtras(schema, c).value, EncodeExtras(schema, x).value, TidyExtras(schema, x));
  }

  lemma {:induction false} ExtrasAreJudged(schema: StructSchema, x: Struct)
    requires EncodeExtras(schema, x).Some?
    requires DynamicExtras(schema) ==> DistinctFields(Unnamed(x.fields, schema.fields))
    ensures Judged(EncodeExtras(schema, CanonWith(schema, x)), EncodeExtras(schema, x), TidyExtras(schema, x))
    decreases FieldsDepth(x.fields), 0, 0, 2, |x.fields| + 2
  {
    if DynamicExtras(schema) {
      var extras := Unnamed(x.fields, schema.fields);
      UnnamedDepth(x.fields, schema.fields);
      ExtrasOfCanon(schema, x);
      FieldsAllJudged(extras);
      ExtrasJudged(extras);
      SortLength(CanonFields(extras));
      NamedJudged(Sort(CanonFields(extras)), extras, SortedNames(extras) && TidyFields(extras));
    }
  }

  lemma {:induction false} BoundJudged(schema: seq<NamedSchema>, x: Struct, c: Struct)
    requires EncodeBound(schema, x).Some? && DistinctBound(schema, x)
    requires forall i :: 0 <= i < |schema| ==> OffersCanon(c, x, schema[i])
    ensures Judged(EncodeBound(schema, c), EncodeBound(schema, x), TidyBound(schema, x))
    decreases FieldsDepth(x.fields), SchemaHeight(schema), 0, 2, |schema|
  {
    if schema != [] {
      var t, def, d := schema[0].schema.vmType, schema[0].schema.structDef, Offered(x, schema[0]);
      OfferedDepth(x, schema[0]);
      assert OffersCanon(c, x, schema[0]);
      StaticIsJudged(t, def, d);
      BoundJudged(schema[1..], x, c);
      JudgedTogether(EncodeStatic(t, def, CanonStatic(t, def, d)).value, EncodeStatic(t, def, d).value, TidyStatic(t, def, d),
                     EncodeBound(schema[1..], c).value, EncodeBound(schema[1..], x).value, TidyBound(schema[1..], x));
    }
  }

  lemma {:induction false} StructsJudged(schema: StructSchema, xs: seq<Struct>)
    requires EncodeStructs(schema, xs).Some? && DistinctStructs(schema, xs)
    ensures Judged(EncodeStructs(schema, CanonStructs(schema, xs)), EncodeStructs(schema, xs), TidyStructs(schema, xs))
    decreases StructsDepth(xs), 0, 0, 2, |xs|
  {
    if xs != [] {
      WithJudged(schema, xs[0]);
      StructsJudged(schema, xs[1..]);
      assert CanonStructs(schema, xs)[1..] == CanonStructs(schema, xs[1..]);
      JudgedTogether(EncodeWith(schema, CanonWith(schema, xs[0])).value, EncodeWith(schema, xs[0]).value, TidyWith(schema, xs[0]),
                     EncodeStructs(schema, CanonStructs(schema, xs[1..])).value, EncodeStructs(schema, xs[1..]).value,
                     TidyStructs(schema, xs[1..]));
    }
  }

  // ----- exactly when the bytes stay -----

  /**
    Where no schema names a field twice: making a value canonical leaves its bytes as they are exactly
    when every schema-bound struct in it, at every depth, holds its kept extras in name order.
   */
  lemma UnchangedExactlyWhenTidy(t: VMType, schema: Option<StructSchema>, d: Value)
    requires EncodeStatic(t, schema, d).Some? && DistinctStatic(t, schema, d)
    ensures EncodeStatic(t, schema, CanonStatic(t, schema, d)) == EncodeStatic(t, schema, d) <==> TidyStatic(t, schema, d)
  {
    StaticIsJudged(t, schema, d);
  }

  /** The same of a struct and the schema-bound writer, which does not sort the extras it keeps. */
  lemma CanonicalBytesExactlyWhen(schema: StructSchema, x: Struct)
    requires EncodeWith(schema, x).Some? && DistinctWith(schema, x)
    ensures EncodeWith(schema, CanonWith(schema, x)) == EncodeWith(schema, x) <==> TidyWith(schema, x)
  {
    WithJudged(schema, x);
  }

  /** The same of a struct and the self-describing writer, which sorts: only what is nested in its fields decides. */
  lemma SelfDescribingBytesExactlyWhen(x: Struct)
    requires EncodeStruct(x).Some? && DistinctStruct(x)
    ensures EncodeStruct(CanonStruct(x)) == EncodeStruct(x) <==> TidyFields(Sort(x.fields))
  {
    StructJudged(x);
  }

  // ----- bytes that change -----

  /** A struct of two extras, `b` before `a`, both empty byte strings. */
  function OutOfOrder(): Struct {
    Struct([Field([0x62], Variable(TBytes, VBytes([]))), Field([0x61], Variable(TBytes, VBytes([])))])
  }

  /** Under a schema that names nothing and keeps extras, its canonical form is written to other bytes. */
  lemma OutOfOrderChanges()
    ensures var schema := StructSchema([], 1);
            EncodeWith(schema, OutOfOrder()).Some?
            && EncodeWith(schema, CanonWith(schema, OutOfOrder())) != EncodeWith(schema, OutOfOrder())
  {
    var schema, fields := StructSchema([], 1), OutOfOrder().fields;
    UnnamedByNone(fields);
    EmptyBytesField(fields[0]);
    EmptyBytesField(fields[1]);
    assert fields[1..] == [fields[1]] && fields[1..][1..] == [];
    assert EncodeFields(fields).Some? && DistinctFields(fields);
    assert Before(fields[1].name, fields[0].name);
    CanonicalBytesExactlyWhen(schema, OutOfOrder());
  }

  lemma {:induction false} UnnamedByNone(fields: seq<Field>)
    ensures Unnamed(fields, []) == fields
  {
    if fields != [] {
      UnnamedByNone(fields[1..]);
    }
  }

  lemma EmptyBytesField(f: Field)
    requires |f.name| == 1 && f.value == Variable(TBytes, VBytes([]))
    ensures EncodeField(f).Some? && DistinctVariable(f.value)
  {
  }

  /** A schema that names one field twice, first in one byte and then in two, and a number that needs both. */
  const TWICE := StructSchema([NamedSchema([0x61], VarSchema(TInt(1), None)), NamedSchema([0x61], VarSchema(TInt(2), None))], 0)
  const NEEDS_TWO := Struct([Field([0x61], Variable(TInt(2), VInt(256)))])

  lemma TwiceWritten(x: Struct, n: int)
    requires Get(x.fields, [0x61]).Some? && Get(x.fields, [0x61]).value.data == VInt(n)
    ensures EncodeWith(TWICE, x) == Some(LE(1, n) + LE(2, n))
  {
    var fields := TWICE.fields;
    assert fields[1..] == [fields[1]] && fields[1..][1..] == [];
    assert Offered(x, fields[0]) == VInt(n) && Offered(x, fields[1]) == VInt(n);
    assert EncodeStatic(TInt(1), None, VInt(n)) == Some(LE(1, n)) && EncodeStatic(TInt(2), None, VInt(n)) == Some(LE(2, n));
    assert EncodeBound(fields[1..], x) == Some(LE(2, n) + []);
    assert LE(2, n) + [] == LE(2, n);
    assert EncodeBound(fields, x) == Some(LE(1, n) + LE(2, n));
    assert LE(1, n) + LE(2, n) + [] == LE(1, n) + LE(2, n);
  }

  /** There the canonical struct is written to other bytes: its second field holds what the first was cut to. */
  lemma NamedTwiceChanges()
    ensures EncodeWith(TWICE, NEEDS_TWO).Some?
    ensures EncodeWith(TWICE, CanonWith(TWICE, NEEDS_TWO)) != EncodeWith(TWICE, NEEDS_TWO)
  {
    var bound := CanonBound(TWICE.fields, NEEDS_TWO);
    TwiceWritten(NEEDS_TWO, 256);
    assert Offered(NEEDS_TWO, TWICE.fields[0]) == VInt(256);
    assert bound[0] == Field([0x61], Variable(TInt(1), CanonStatic(TInt(1), None, VInt(256))));
    CutToZero();
    assert CanonExtras(TWICE, NEEDS_TWO) == [] && bound + [] == bound;
    GetSort(bound, [0x61]);
    TwiceWritten(CanonWith(TWICE, NEEDS_TWO), 0);
    assert (LE(1, 256) + LE(2, 256))[1..] == LE(2, 256) && (LE(1, 0) + LE(2, 0))[1..] == LE(2, 0);
    assert Pow256(2) == 0x1_0000;
    UnsignedLE(2, 256);
    UnsignedLE(2, 0);
  }

  lemma CutToZero()
    ensures CanonStatic(TInt(1), None, VInt(256)) == VInt(0)
  {
    assert LE(1, 256) == [0] + LE(0, 1);
    assert LE(1, 256) == [0];
    assert Signed([0]) == 0;
  }

  /** Nor is the canonical form a normal form there: made canonical again, the second field is cut as well. */
  lemma NamedTwiceNotIdempotent()
    ensures CanonWith(TWICE, CanonWith(TWICE, NEEDS_TWO)) != CanonWith(TWICE, NEEDS_TWO)
  {
    var c := CanonWith(TWICE, NEEDS_TWO);
    CutToZero();
    TwiceSecond(NEEDS_TWO, 256);
    TwiceSecond(c, 0);
    assert Pow256(2) == 0x1_0000;
    SignedLE(2, 256);
    SignedLE(2, 0);
  }

  lemma TwiceSecond(x: Struct, n: int)
    requires Get(x.fields, [0x61]).Some? && Get(x.fields, [0x61]).value.data == VInt(n)
    ensures var c := CanonWith(TWICE, x);
            |c.fields| == 2 && c.fields[1].value.data == VInt(Cast(2)(n))
            && Get(c.fields, [0x61]).Some? && Get(c.fields, [0x61]).value.data == CanonStatic(TInt(1), None, VInt(n))
  {
    var bound := CanonBound(TWICE.fields, x);
    BoundAt(TWICE.fields, x, 0);
    BoundAt(TWICE.fields, x, 1);
    assert Offered(x, TWICE.fields[0]) == VInt(n) && Offered(x, TWICE.fields[1]) == VInt(n);
    assert CanonExtras(TWICE, x) == [] && bound + [] == bound;
    BeforeTotal([0x61], [0x61]);
    SortFixed(bound);
  }
}
