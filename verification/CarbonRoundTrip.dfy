/** What is written is read back, in canonical form, with exactly the following bytes left over. */
module CarbonRoundTrip {
  import opened Words
  import opened CarbonWire
  import opened CarbonSchema
  import opened CarbonValues

  // ----- types that do not nest -----

  /** Lengths below 2^31, and fixed-size items of their declared size. */
  predicate ReadableFlat(t: VMType, d: Value)
    requires Flat(t)
  {
    match t
    case TBytes => |AsBytes(d)| < MAX_LEN
    case TArrayBytes => |AsBlobs(d)| < MAX_LEN && forall b :: b in AsBlobs(d) ==> |b| < MAX_LEN
    case TArrayInt(w) => |AsInts(w, d)| < MAX_LEN
    case TArrayInt256 => |AsBigInts(d)| < MAX_LEN
    case TArrayFixed(n) => |AsFixeds(n, d)| < MAX_LEN && forall b :: b in AsFixeds(n, d) ==> |b| == n
    case TArrayString => |AsTexts(d)| < MAX_LEN
    case _ => true
  }

  lemma {:induction false} MapSame<T>(c: T -> T, xs: seq<T>)
    requires forall x :: x in xs ==> c(x) == x
    ensures Map(c, xs) == xs
  {
  }

  lemma BlobsBack(xs: seq<Bytes>, r: Bytes)
    requires EncodeArray(xs, EncodeBlob).Some? && |xs| < MAX_LEN
    requires forall x :: x in xs ==> |x| < MAX_LEN
    ensures DecodeArray(4, DecodeBlob, EncodeArray(xs, EncodeBlob).value + r) == Got(xs, r)
  {
    var id := (x: Bytes) => x;
    forall x | x in xs ensures Inverts(EncodeBlob, DecodeBlob, id, x) {
      forall r: Bytes { BlobBack(x, r); }
    }
    ArrayBack(xs, 4, EncodeBlob, DecodeBlob, id, r);
    MapSame(id, xs);
  }

  lemma IntsBack(w: IntWidth, xs: seq<int>, r: Bytes)
    requires EncodeArray(xs, EncodeInt(w)).Some? && |xs| < MAX_LEN
    ensures DecodeArray(w, DecodeInt(w), EncodeArray(xs, EncodeInt(w)).value + r) == Got(Map(Cast(w), xs), r)
  {
    forall x | x in xs ensures Inverts(EncodeInt(w), DecodeInt(w), Cast(w), x) {
      IntInverts(w, x);
    }
    ArrayBack(xs, w, EncodeInt(w), DecodeInt(w), Cast(w), r);
  }

  lemma BigIntsBack(xs: seq<int>, r: Bytes)
    requires EncodeArray(xs, EncodeBigInt).Some? && |xs| < MAX_LEN
    ensures DecodeArray(1, DecodeBigInt, EncodeArray(xs, EncodeBigInt).value + r) == Got(Map(Reduce, xs), r)
  {
    forall x | x in xs ensures Inverts(EncodeBigInt, DecodeBigInt, Reduce, x) {
      BigIntInverts(x);
    }
    ArrayBack(xs, 1, EncodeBigInt, DecodeBigInt, Reduce, r);
  }

  lemma FixedsBack(n: FixedSize, xs: seq<Bytes>, r: Bytes)
    requires EncodeArray(xs, EncodeRaw).Some? && |xs| < MAX_LEN
    requires forall x :: x in xs ==> |x| == n
    ensures DecodeArray(n, DecodeRaw(n), EncodeArray(xs, EncodeRaw).value + r) == Got(xs, r)
  {
    var id := (x: Bytes) => x;
    forall x | x in xs ensures Inverts(EncodeRaw, DecodeRaw(n), id, x) {
      forall r: Bytes { TakeBack(x, r); }
    }
    ArrayBack(xs, n, EncodeRaw, DecodeRaw(n), id, r);
    MapSame(id, xs);
  }

  lemma TextsBack(xs: seq<Text>, r: Bytes)
    requires EncodeArray(xs, EncodeZ).Some? && |xs| < MAX_LEN
    ensures DecodeArray(1, DecodeZ, EncodeArray(xs, EncodeZ).value + r) == Got(xs, r)
  {
    var id := (x: Text) => x;
    forall x | x in xs ensures Inverts(EncodeZ, DecodeZ, id, x) {
      if EncodeZ(x).Some? {
        forall r: Bytes { ZBack(x, r); }
      }
    }
    ArrayBack(xs, 1, EncodeZ, DecodeZ, id, r);
    MapSame(id, xs);
  }

  lemma FlatBack(t: VMType, d: Value, r: Bytes)
    requires Flat(t) && EncodeFlat(t, d).Some? && ReadableFlat(t, d)
    ensures DecodeFlat(t, EncodeFlat(t, d).value + r) == Got(CanonFlat(t, d), r)
  {
    match t
    case TBytes => BlobBack(AsBytes(d), r);
    case TInt(w) => IntBack(w, AsInt(d), r);
    case TInt256 => BigIntBack(AsBigInt(d), r);
    case TFixed(n) => TakeBack(AsFixed(n, d), r);
    case TString => ZBack(AsText(d), r);
    case TArrayBytes => BlobsBack(AsBlobs(d), r);
    case TArrayInt(w) => IntsBack(w, AsInts(w, d), r);
    case TArrayInt256 => BigIntsBack(AsBigInts(d), r);
    case TArrayFixed(n) => FixedsBack(n, AsFixeds(n, d), r);
    case TArrayString => TextsBack(AsTexts(d), r);
  }

  // ----- the domain -----

  /**
    The values the reader can take back: lengths below 2^31, self-described schemas that survive the
    wire, and struct arrays whose items are at least as many bytes as there are items.
   */
  ghost predicate ReadableStatic(t: VMType, schema: Option<StructSchema>, d: Value)
    decreases Depth(d), DefHeight(schema), if t.TDynamic? then 1 else 0, 4, 0
  {
    match t
    case TDynamic => ReadableVariable(AsDynamic(d))
    case TStruct =>
      if schema.Some? then ReadableWith(schema.value, AsStruct(d)) else ReadableStruct(AsStruct(d))
    case TArrayDynamic => |AsVariables(d)| < MAX_LEN && ReadableVariables(AsVariables(d))
    case TArrayStruct => ReadableStructArray(schema, OwnSchema(d), AsStructs(d))
    case TArray => false
    case _ => ReadableFlat(t, d)
  }

  ghost predicate ReadableStructArray(schema: Option<StructSchema>, own: StructSchema, xs: seq<Struct>)
    decreases StructsDepth(xs), 0, 0, 3, 1
  {
    ReadableItems(schema, own, xs) && WideEnough(schema, own, xs)
  }

  /** The count is at most the number of bytes that follow it within the array. */
  ghost predicate WideEnough(schema: Option<StructSchema>, own: StructSchema, xs: seq<Struct>) {
    var bytes := EncodeStructArray(schema, own, xs);
    bytes.Some? ==> 4 + |xs| <= |bytes.value|
  }

  ghost predicate ReadableVariable(v: Variable)
    decreases Depth(v.data), 0, if v.vmType.TDynamic? then 1 else 0, 5, 0
  {
    ReadableStatic(v.vmType, None, v.data)
  }

  ghost predicate ReadableVariables(vs: seq<Variable>)
    decreases VariablesDepth(vs), 0, 0, 2, |vs|
  {
    vs != [] ==>
      (assert VariableDepth(vs[0]) == Depth(vs[0].data); ReadableVariable(vs[0]) && ReadableVariables(vs[1..]))
  }

  ghost predicate ReadableFields(fields: seq<Field>)
    decreases FieldsDepth(fields), 0, 0, 2, |fields|
  {
    fields != [] ==> ReadableVariable(fields[0].value) && ReadableFields(fields[1..])
  }

  ghost predicate ReadableStruct(x: Struct)
    decreases FieldsDepth(x.fields), 0, 0, 3, 0
  {
    SortDepth(x.fields);
    |x.fields| < MAX_LEN && ReadableFields(Sort(x.fields))
  }

  ghost predicate ReadableWith(schema: StructSchema, x: Struct)
    decreases FieldsDepth(x.fields), SchemaHeight(schema.fields), 0, 3, 0
  {
    UnnamedDepth(x.fields, schema.fields);
    var extras := Unnamed(x.fields, schema.fields);
    && ReadableBound(schema.fields, x)
    && (DynamicExtras(schema) ==> |extras| < MAX_LEN && ReadableFields(extras))
  }

  ghost predicate ReadableBound(schema: seq<NamedSchema>, x: Struct)
    decreases FieldsDepth(x.fields), SchemaHeight(schema), 0, 2, |schema|
  {
    OfferedDepthAll(x);
    schema != [] ==>
      && ReadableStatic(schema[0].schema.vmType, schema[0].schema.structDef, Offered(x, schema[0]))
      && ReadableBound(schema[1..], x)
  }

  lemma OfferedDepthAll(x: Struct)
    ensures forall f: NamedSchema :: Depth(Offered(x, f)) < FieldsDepth(x.fields) || Depth(Offered(x, f)) == 0
  {
    forall f: NamedSchema {
      OfferedDepth(x, f);
    }
  }

  ghost predicate ReadableStructs(schema: StructSchema, xs: seq<Struct>)
    decreases StructsDepth(xs), 0, 0, 2, |xs|
  {
    xs != [] ==> ReadableWith(schema, xs[0]) && ReadableStructs(schema, xs[1..])
  }

  // ----- round trips -----

  lemma {:induction false} StaticBack(t: VMType, schema: Option<StructSchema>, d: Value, r: Bytes)
    requires EncodeStatic(t, schema, d).Some? && ReadableStatic(t, schema, d)
    ensures DecodeStatic(t, schema, EncodeStatic(t, schema, d).value + r) == Got(CanonStatic(t, schema, d), r)
    decreases Depth(d), DefHeight(schema), if t.TDynamic? then 1 else 0, 4, 0
  {
    if t.TDynamic? {
      VariableBack(AsDynamic(d), r);
    } else if t.TStruct? {
      StructValueBack(schema, d, r);
    } else if t.TArrayDynamic? || t.TArrayStruct? {
      NestedArrayBack(t, schema, d, r);
    } else {
      FlatBack(t, d, r);
    }
  }

  lemma {:induction false} NestedArrayBack(t: VMType, schema: Option<StructSchema>, d: Value, r: Bytes)
    requires t.TArrayDynamic? || t.TArrayStruct?
    requires EncodeStatic(t, schema, d).Some? && ReadableStatic(t, schema, d)
    ensures DecodeStatic(t, schema, EncodeStatic(t, schema, d).value + r) == Got(CanonStatic(t, schema, d), r)
    decreases Depth(d), DefHeight(schema), 0, 3, 1
  {
    var s := EncodeStatic(t, schema, d).value + r;
    if t.TArrayDynamic? {
      VariableArrayBack(AsVariables(d), r);
      VariablesAreStatic(schema, s, CanonVariables(AsVariables(d)), r);
    } else {
      var used := Used(schema, OwnSchema(d));
      StructArrayBack(schema, OwnSchema(d), AsStructs(d), r);
      StructsAreStatic(schema, s, used, CanonStructs(used, AsStructs(d)), r);
    }
  }

  lemma VariablesAreStatic(schema: Option<StructSchema>, s: Bytes, vs: seq<Variable>, r: Bytes)
    requires DecodeVariableArray(s) == Got(vs, r)
    ensures DecodeStatic(TArrayDynamic, schema, s) == Got(VArrayDynamic(vs), r)
  {
  }

  lemma StructsAreStatic(schema: Option<StructSchema>, s: Bytes, used: StructSchema, xs: seq<Struct>, r: Bytes)
    requires DecodeStructArray(schema, s) == Got((used, xs), r)
    ensures DecodeStatic(TArrayStruct, schema, s) == Got(VArrayStruct(used, xs), r)
  {
  }

  lemma {:induction false} StructValueBack(schema: Option<StructSchema>, d: Value, r: Bytes)
    requires EncodeStatic(TStruct, schema, d).Some? && ReadableStatic(TStruct, schema, d)
    ensures DecodeStatic(TStruct, schema, EncodeStatic(TStruct, schema, d).value + r) == Got(CanonStatic(TStruct, schema, d), r)
    decreases Depth(d), DefHeight(schema), 0, 3, 1
  {
    if schema.Some? {
      WithBack(schema.value, AsStruct(d), r);
    } else {
      StructBack(AsStruct(d), r);
    }
  }

  lemma {:induction false} VariableArrayBack(vs: seq<Variable>, r: Bytes)
    requires EncodeVariableArray(vs).Some? && |vs| < MAX_LEN && ReadableVariables(vs)
    ensures DecodeVariableArray(EncodeVariableArray(vs).value + r) == Got(CanonVariables(vs), r)
    decreases VariablesDepth(vs), 0, 0, 3, 0
  {
    var head, body := EncodeLen(|vs|).value, EncodeVariables(vs).value;
    VariablesLength(vs);
    VariablesBack(vs, r);
    LenBack(|vs|, 1, body + r);
    assert head + body + r == head + (body + r);
  }

  /** Everything but the count check of the array reader. */
  ghost predicate ReadableItems(schema: Option<StructSchema>, own: StructSchema, xs: seq<Struct>)
    decreases StructsDepth(xs), 0, 0, 3, 0
  {
    && |xs| < MAX_LEN
    && (schema.None? ==> ShortSchema(own) && NormalSchema(own.fields))
    && ReadableStructs(Used(schema, own), xs)
  }

  /**
    An array of structs is read back exactly when its count does not exceed the bytes after it, the
    bytes that follow the array included: items of no width at all can fail the reader's count check.
   */
  lemma {:induction false} StructArrayBack(schema: Option<StructSchema>, own: StructSchema, xs: seq<Struct>, r: Bytes)
    requires EncodeStructArray(schema, own, xs).Some? && ReadableItems(schema, own, xs)
    ensures DecodeStructArray(schema, EncodeStructArray(schema, own, xs).value + r)
         == if 4 + |xs| <= |EncodeStructArray(schema, own, xs).value| + |r|
            then Got((Used(schema, own), CanonStructs(Used(schema, own), xs)), r)
            else Refused
    decreases StructsDepth(xs), 0, 0, 3, 0
  {
    var head, prefix := EncodeLen(|xs|).value, EncodeOwn(schema, own).value;
    var body := EncodeStructs(Used(schema, own), xs).value;
    assert head + (prefix + body) + r == head + (prefix + (body + r));
    CountCheck(|xs|, prefix + (body + r));
    OwnBack(schema, own, body + r);
    StructsBack(Used(schema, own), xs, r);
  }

  lemma CountCheck(n: nat, r: Bytes)
    requires n < MAX_LEN
    ensures EncodeLen(n).Some?
    ensures DecodeLenFor(1, EncodeLen(n).value + r) == if n <= |r| then Got(n, r) else Refused
  {
    if n <= |r| {
      LenBack(n, 1, r);
    } else {
      assert Pow256(4) == 0x1_0000_0000;
      SignedLE(4, n);
      TakeBack(LE(4, n), r);
    }
  }

  lemma OwnBack(schema: Option<StructSchema>, own: StructSchema, r: Bytes)
    requires EncodeOwn(schema, own).Some?
    requires schema.None? ==> ShortSchema(own) && NormalSchema(own.fields)
    ensures DecodeOwn(schema, EncodeOwn(schema, own).value + r) == Got(Used(schema, own), r)
  {
    if schema.Some? {
      assert [] + r == r;
    } else {
      SchemaBack(own, r);
      NormalIffUnchanged(own.fields);
    }
  }

  lemma {:induction false} VariableBack(v: Variable, r: Bytes)
    requires EncodeVariable(v).Some? && ReadableVariable(v)
    ensures DecodeVariable(EncodeVariable(v).value + r) == Got(CanonVariable(v), r)
    decreases Depth(v.data), 0, if v.vmType.TDynamic? then 1 else 0, 5, 0
  {
    var code, body := [Code(v.vmType)], EncodeStatic(v.vmType, None, v.data).value;
    assert code + body + r == code + (body + r);
    TakeBack(code, body + r);
    TypeBack(v.vmType);
    StaticBack(v.vmType, None, v.data, r);
  }

  lemma {:induction false} VariablesLength(vs: seq<Variable>)
    requires EncodeVariables(vs).Some?
    ensures |vs| <= |EncodeVariables(vs).value|
  {
    if vs != [] {
      VariablesLength(vs[1..]);
    }
  }

  lemma {:induction false} VariablesBack(vs: seq<Variable>, r: Bytes)
    requires EncodeVariables(vs).Some? && ReadableVariables(vs)
    ensures DecodeVariables(|vs|, EncodeVariables(vs).value + r) == Got(CanonVariables(vs), r)
    decreases VariablesDepth(vs), 0, 0, 2, |vs|
  {
    if vs == [] {
      assert [] + r == r;
    } else {
      assert VariableDepth(vs[0]) == Depth(vs[0].data);
      var head, tail := EncodeVariable(vs[0]).value, EncodeVariables(vs[1..]).value;
      VariableBack(vs[0], tail + r);
      VariablesBack(vs[1..], r);
      assert head + tail + r == head + (tail + r);
      VariablesCons(|vs|, |vs[1..]|, head + tail + r, CanonVariable(vs[0]), tail + r, CanonVariables(vs[1..]), r);
    }
  }

  lemma {:induction false} FieldsLength(fields: seq<Field>)
    requires EncodeFields(fields).Some?
    ensures |fields| <= |EncodeFields(fields).value|
  {
    if fields != [] {
      FieldsLength(fields[1..]);
    }
  }

  lemma {:induction false} FieldsBack(fields: seq<Field>, r: Bytes)
    requires EncodeFields(fields).Some? && ReadableFields(fields)
    ensures DecodeFields(|fields|, EncodeFields(fields).value + r) == Got(CanonFields(fields), r)
    decreases FieldsDepth(fields), 0, 0, 2, |fields|
  {
    if fields == [] {
      assert [] + r == r;
    } else {
      var head, tail := EncodeField(fields[0]).value, EncodeFields(fields[1..]).value;
      assert head + tail + r == head + (tail + r);
      FieldBack(fields[0], tail + r);
      FieldsBack(fields[1..], r);
      FieldsCons(|fields|, |fields[1..]|, head + tail + r, Field(fields[0].name, CanonVariable(fields[0].value)), tail + r, CanonFields(fields[1..]), r);
    }
  }

  lemma {:induction false} FieldBack(f: Field, r: Bytes)
    requires EncodeField(f).Some? && ReadableVariable(f.value)
    ensures DecodeField(EncodeField(f).value + r) == Got(Field(f.name, CanonVariable(f.value)), r)
    decreases Depth(f.value.data), 0, if f.value.vmType.TDynamic? then 1 else 0, 6, 0
  {
    var name, value := EncodeSmall(f.name).value, EncodeVariable(f.value).value;
    assert name + value + r == name + (value + r);
    SmallBack(f.name, value + r);
    VariableBack(f.value, r);
  }

  lemma {:induction false} NamedBack(fields: seq<Field>, r: Bytes)
    requires EncodeNamed(fields).Some? && ReadableFields(fields) && |fields| < MAX_LEN
    ensures DecodeNamed(EncodeNamed(fields).value + r) == Got(CanonFields(fields), r)
    decreases FieldsDepth(fields), 0, 0, 2, |fields| + 1
  {
    var head, body := EncodeLen(|fields|).value, EncodeFields(fields).value;
    FieldsLength(fields);
    FieldsBack(fields, r);
    LenBack(|fields|, 1, body + r);
    assert head + body + r == head + (body + r);
  }

  /** Self-describing structs: every field read back, sorted by name. */
  lemma {:induction false} StructBack(x: Struct, r: Bytes)
    requires EncodeStruct(x).Some? && ReadableStruct(x)
    ensures DecodeStruct(EncodeStruct(x).value + r) == Got(CanonStruct(x), r)
    decreases FieldsDepth(x.fields), 0, 0, 3, 0
  {
    SortDepth(x.fields);
    assert |multiset(Sort(x.fields))| == |multiset(x.fields)|;
    NamedBack(Sort(x.fields), r);
  }

  /** Schema-bound structs: the schema's fields, missing ones defaulted, and the extras it keeps. */
  lemma {:induction false} WithBack(schema: StructSchema, x: Struct, r: Bytes)
    requires EncodeWith(schema, x).Some? && ReadableWith(schema, x)
    ensures DecodeWith(schema, EncodeWith(schema, x).value + r) == Got(CanonWith(schema, x), r)
    decreases FieldsDepth(x.fields), SchemaHeight(schema.fields), 0, 3, 0
  {
    var body, extras := EncodeBound(schema.fields, x).value, EncodeExtras(schema, x).value;
    ExtrasBack(schema, x, r);
    BoundBack(schema.fields, x, extras + r);
    assert body + extras + r == body + (extras + r);
  }

  lemma {:induction false} ExtrasBack(schema: StructSchema, x: Struct, r: Bytes)
    requires EncodeExtras(schema, x).Some? && ReadableWith(schema, x)
    ensures DecodeExtras(schema, EncodeExtras(schema, x).value + r) == Got(CanonExtras(schema, x), r)
    decreases FieldsDepth(x.fields), 0, 0, 2, |x.fields| + 2
  {
    UnnamedDepth(x.fields, schema.fields);
    if DynamicExtras(schema) {
      NamedBack(Unnamed(x.fields, schema.fields), r);
    } else {
      assert [] + r == r;
    }
  }

  lemma {:induction false} BoundBack(schema: seq<NamedSchema>, x: Struct, r: Bytes)
    requires EncodeBound(schema, x).Some? && ReadableBound(schema, x)
    ensures DecodeBound(schema, EncodeBound(schema, x).value + r) == Got(CanonBound(schema, x), r)
    decreases FieldsDepth(x.fields), SchemaHeight(schema), 0, 2, |schema|
  {
    if schema == [] {
      assert [] + r == r;
    } else {
      OfferedDepth(x, schema[0]);
      var t, def, d := schema[0].schema.vmType, schema[0].schema.structDef, Offered(x, schema[0]);
      var head, tail := EncodeStatic(t, def, d).value, EncodeBound(schema[1..], x).value;
      StaticBack(t, def, d, tail + r);
      BoundBack(schema[1..], x, r);
      assert head + tail + r == head + (tail + r);
    }
  }

  lemma {:induction false} StructsBack(schema: StructSchema, xs: seq<Struct>, r: Bytes)
    requires EncodeStructs(schema, xs).Some? && ReadableStructs(schema, xs)
    ensures DecodeStructs(|xs|, schema, EncodeStructs(schema, xs).value + r) == Got(CanonStructs(schema, xs), r)
    decreases StructsDepth(xs), 0, 0, 2, |xs|
  {
    if xs == [] {
      assert [] + r == r;
    } else {
      var head, tail := EncodeWith(schema, xs[0]).value, EncodeStructs(schema, xs[1..]).value;
      WithBack(schema, xs[0], tail + r);
      StructsBack(schema, xs[1..], r);
      assert head + tail + r == head + (tail + r);
      StructsCons(|xs|, |xs[1..]|, schema, head + tail + r, CanonWith(schema, xs[0]), tail + r, CanonStructs(schema, xs[1..]), r);
    }
  }
}
