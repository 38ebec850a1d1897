/** The recursive codec of schemas and dynamic values on the mutable writer and reader. */
module CarbonDynamicCodec {
  import opened Words
  import opened CarbonWire
  import opened CarbonSchema
  import opened CarbonValues
  import opened CarbonCodec

  // ----- loop bookkeeping -----

  /** A loop over `xs` that has emitted `done` and has `todo` left does what the whole should. */
  predicate Remaining(whole: Option<Bytes>, done: Bytes, todo: Option<Bytes>) {
    whole == Join(Some(done), todo)
  }

  lemma RemainingStart(whole: Option<Bytes>)
    ensures Remaining(whole, [], whole)
  {
    assert whole.Some? ==> [] + whole.value == whole.value;
  }

  lemma RemainingStep(whole: Option<Bytes>, done: Bytes, head: Bytes, todo: Option<Bytes>)
    requires Remaining(whole, done, Join(Some(head), todo))
    ensures Remaining(whole, done + head, todo)
  {
    JoinAssociates(Some(done), Some(head), todo);
  }

  lemma WroteBoth(ok: bool, a: Option<Bytes>, b: Option<Bytes>, start: Bytes, middle: Bytes, end: Bytes)
    requires Wrote(true, a, start, middle) && Wrote(ok, b, middle, end)
    ensures Wrote(ok, Join(a, b), start, end)
  {
    assert ok ==> start + a.value + b.value == start + (a.value + b.value);
  }

  // ----- schemas -----

  method WriteVarSchema(w: CarbonWriter, v: VarSchema) returns (ok: bool)
    modifies w
    ensures Wrote(ok, EncodeVarSchema(v), old(w.buffer), w.buffer)
    decreases v, 2
  {
    w.Write([Code(v.vmType)]);
    if !HasStruct(v.vmType) {
      return true;
    }
    if v.structDef.Some? {
      ok := WriteSchema(w, v.structDef.value);
    } else {
      w.Write(LE(4, 0));
      w.Write([0]);
      ok := true;
    }
  }

  method WriteSchema(w: CarbonWriter, schema: StructSchema) returns (ok: bool)
    modifies w
    ensures Wrote(ok, EncodeSchema(schema), old(w.buffer), w.buffer)
    decreases schema, 1
  {
    ok := w.WriteLength(|schema.fields|);
    if !ok {
      return;
    }
    ok := WriteSchemaFields(w, schema.fields);
    if ok {
      w.Write([schema.flags]);
    }
  }

  method WriteSchemaFields(w: CarbonWriter, fields: seq<NamedSchema>) returns (ok: bool)
    modifies w
    ensures Wrote(ok, EncodeSchemaFields(fields), old(w.buffer), w.buffer)
    decreases fields, 0
  {
    ghost var done := [];
    RemainingStart(EncodeSchemaFields(fields));
    for i := 0 to |fields|
      invariant w.buffer == old(w.buffer) + done
      invariant Remaining(EncodeSchemaFields(fields), done, EncodeSchemaFields(fields[i..]))
    {
      assert fields[i..][1..] == fields[i + 1..] && fields[i] == fields[i..][0];
      ok := WriteNamedSchema(w, fields[i]);
      if !ok {
        return;
      }
      ghost var head := EncodeNamedSchema(fields[i]).value;
      RemainingStep(EncodeSchemaFields(fields), done, head, EncodeSchemaFields(fields[i + 1..]));
      done := done + head;
    }
    return true;
  }

  method WriteNamedSchema(w: CarbonWriter, f: NamedSchema) returns (ok: bool)
    modifies w
    ensures Wrote(ok, EncodeNamedSchema(f), old(w.buffer), w.buffer)
    decreases f, 3
  {
    ok := w.WriteSmallString(f.name);
    if ok {
      ghost var before := w.buffer;
      ok := WriteVarSchema(w, f.schema);
      WroteBoth(ok, EncodeSmall(f.name), EncodeVarSchema(f.schema), old(w.buffer), before, w.buffer);
    }
  }

  method ReadVarSchema(r: CarbonReader) returns (v: Option<VarSchema>)
    requires r.Valid()
    modifies r`offset
    ensures r.Valid() && Follows(v, DecodeVarSchema(old(r.Rest())), r.Rest())
    decreases |r.data| - r.offset, 2
  {
    var code :- r.Read(1);
    var t := TypeOf(code[0]);
    if t.None? {
      return None;
    }
    if !HasStruct(t.value) {
      return Some(VarSchema(t.value, None));
    }
    var def :- ReadSchema(r);
    return Some(VarSchema(t.value, Some(def)));
  }

  method ReadSchema(r: CarbonReader) returns (v: Option<StructSchema>)
    requires r.Valid()
    modifies r`offset
    ensures r.Valid() && Follows(v, DecodeSchema(old(r.Rest())), r.Rest())
    decreases |r.data| - r.offset, 1
  {
    var n :- r.ReadLengthFor(1);
    var fields :- ReadSchemaFields(r, n);
    var flags :- r.Read(1);
    return Some(StructSchema(fields, flags[0]));
  }

  method ReadSchemaFields(r: CarbonReader, n: nat) returns (v: Option<seq<NamedSchema>>)
    requires r.Valid()
    modifies r`offset
    ensures r.Valid() && Follows(v, DecodeSchemaFields(n, old(r.Rest())), r.Rest())
    decreases |r.data| - r.offset, 4
  {
    ghost var s := r.Rest();
    var fields := [];
    AheadStart(DecodeSchemaFields(n, s));
    var left := n;
    while left > 0
      invariant r.Valid() && old(r.offset) <= r.offset
      invariant DecodeSchemaFields(n, s) == Ahead(fields, DecodeSchemaFields(left, r.Rest()))
    {
      var next := left - 1;
      SchemaFieldsStep(left, next, fields, r.Rest());
      var f := ReadNamedSchema(r);
      if f.None? {
        return None;
      }
      fields := fields + [f.value];
      left := next;
    }
    assert fields + [] == fields;
    return Some(fields);
  }

  lemma SchemaFieldsStep(n: nat, k: nat, done: seq<NamedSchema>, s: Bytes)
    requires n == k + 1
    ensures Ahead(done, DecodeSchemaFields(n, s))
         == var f := DecodeNamedSchema(s);
            if f.Got? then Ahead(done + [f.value], DecodeSchemaFields(k, f.rest)) else Refused
  {
    var f := DecodeNamedSchema(s);
    if DecodeSchemaFields(n, s).Got? {
      SchemaFieldsSplit(n, k, s);
    }
    if f.Got? && DecodeSchemaFields(k, f.rest).Got? {
      var tail := DecodeSchemaFields(k, f.rest);
      SchemaFieldsCons(n, k, s, f.value, f.rest, tail.value, tail.rest);
      AheadStep(done, f.value, tail);
    }
  }

  method ReadNamedSchema(r: CarbonReader) returns (v: Option<NamedSchema>)
    requires r.Valid()
    modifies r`offset
    ensures r.Valid() && Follows(v, DecodeNamedSchema(old(r.Rest())), r.Rest())
    decreases |r.data| - r.offset, 3
  {
    var name :- r.ReadSmallString();
    var schema :- ReadVarSchema(r);
    return Some(NamedSchema(name, schema));
  }

  // ----- writing values -----

  method WriteFlat(w: CarbonWriter, t: VMType, d: Value) returns (ok: bool)
    requires Flat(t)
    modifies w
    ensures Wrote(ok, EncodeFlat(t, d), old(w.buffer), w.buffer)
  {
    match t
    case TBytes => ok := w.WriteByteArray(AsBytes(d));
    case TInt(n) => w.Write(LE(n, AsInt(d))); ok := true;
    case TInt256 => ok := w.WriteBigInt(AsBigInt(d));
    case TFixed(n) => w.Write(AsFixed(n, d)); ok := true;
    case TString => ok := w.WriteStringZ(AsText(d));
    case TArrayBytes => ok := w.WriteByteArrays(AsBlobs(d));
    case TArrayInt(n) => ok := w.WriteIntArray(n, AsInts(n, d));
    case TArrayInt256 => ok := w.WriteBigIntArray(AsBigInts(d));
    case TArrayFixed(n) => ok := w.WriteFixedArray(AsFixeds(n, d));
    case TArrayString => ok := w.WriteStringZArray(AsTexts(d));
  }

  method WriteStatic(w: CarbonWriter, t: VMType, schema: Option<StructSchema>, d: Value) returns (ok: bool)
    modifies w
    ensures Wrote(ok, EncodeStatic(t, schema, d), old(w.buffer), w.buffer)
    decreases Depth(d), DefHeight(schema), if t.TDynamic? then 1 else 0, 4, 0
  {
    if t.TDynamic? {
      ok := WriteVariable(w, AsDynamic(d));
    } else if t.TStruct? {
      if schema.Some? {
        ok := WriteWithSchema(w, schema.value, AsStruct(d));
      } else {
        ok := WriteStruct(w, AsStruct(d));
      }
    } else if t.TArrayDynamic? {
      ok := WriteVariableArray(w, AsVariables(d));
    } else if t.TArrayStruct? {
      ok := WriteStructArray(w, schema, OwnSchema(d), AsStructs(d));
    } else if t.TArray? {
      ok := false;
    } else {
      ok := WriteFlat(w, t, d);
    }
  }

  method WriteVariable(w: CarbonWriter, v: Variable) returns (ok: bool)
    modifies w
    ensures Wrote(ok, EncodeVariable(v), old(w.buffer), w.buffer)
    decreases Depth(v.data), 0, if v.vmType.TDynamic? then 1 else 0, 5, 0
  {
    w.Write([Code(v.vmType)]);
    ghost var middle := w.buffer;
    ok := WriteStatic(w, v.vmType, None, v.data);
    WroteBoth(ok, Some([Code(v.vmType)]), EncodeStatic(v.vmType, None, v.data), old(w.buffer), middle, w.buffer);
  }

  method WriteVariables(w: CarbonWriter, vs: seq<Variable>) returns (ok: bool)
    modifies w
    ensures Wrote(ok, EncodeVariables(vs), old(w.buffer), w.buffer)
    decreases VariablesDepth(vs), 0, 0, 2, |vs|
  {
    ghost var done := [];
    RemainingStart(EncodeVariables(vs));
    for i := 0 to |vs|
      invariant w.buffer == old(w.buffer) + done
      invariant Remaining(EncodeVariables(vs), done, EncodeVariables(vs[i..]))
    {
      assert vs[i..][1..] == vs[i + 1..] && vs[i] == vs[i..][0];
      VariableInDepth(vs, i);
      ok := WriteVariable(w, vs[i]);
      if !ok {
        return;
      }
      ghost var head := EncodeVariable(vs[i]).value;
      RemainingStep(EncodeVariables(vs), done, head, EncodeVariables(vs[i + 1..]));
      done := done + head;
    }
    return true;
  }

  lemma {:induction false} VariableInDepth(vs: seq<Variable>, i: nat)
    requires i < |vs|
    ensures Depth(vs[i].data) < VariablesDepth(vs)
  {
    assert VariableDepth(vs[0]) == Depth(vs[0].data);
    if i > 0 {
      VariableInDepth(vs[1..], i - 1);
    }
  }

  method WriteVariableArray(w: CarbonWriter, vs: seq<Variable>) returns (ok: bool)
    modifies w
    ensures Wrote(ok, EncodeVariableArray(vs), old(w.buffer), w.buffer)
    decreases VariablesDepth(vs), 0, 0, 3, 0
  {
    ok := w.WriteLength(|vs|);
    if ok {
      ghost var middle := w.buffer;
      ok := WriteVariables(w, vs);
      WroteBoth(ok, EncodeLen(|vs|), EncodeVariables(vs), old(w.buffer), middle, w.buffer);
    }
  }

  method WriteField(w: CarbonWriter, f: Field) returns (ok: bool)
    modifies w
    ensures Wrote(ok, EncodeField(f), old(w.buffer), w.buffer)
    decreases Depth(f.value.data), 0, if f.value.vmType.TDynamic? then 1 else 0, 6, 0
  {
    ok := w.WriteSmallString(f.name);
    if ok {
      ghost var middle := w.buffer;
      ok := WriteVariable(w, f.value);
      WroteBoth(ok, EncodeSmall(f.name), EncodeVariable(f.value), old(w.buffer), middle, w.buffer);
    }
  }

  method WriteFields(w: CarbonWriter, fields: seq<Field>) returns (ok: bool)
    modifies w
    ensures Wrote(ok, EncodeFields(fields), old(w.buffer), w.buffer)
    decreases FieldsDepth(fields), 0, 0, 2, |fields|
  {
    ghost var done := [];
    RemainingStart(EncodeFields(fields));
    for i := 0 to |fields|
      invariant w.buffer == old(w.buffer) + done
      invariant Remaining(EncodeFields(fields), done, EncodeFields(fields[i..]))
    {
      assert fields[i..][1..] == fields[i + 1..] && fields[i] == fields[i..][0];
      FieldDepth(fields, fields[i]);
      ok := WriteField(w, fields[i]);
      if !ok {
        return;
      }
      ghost var head := EncodeField(fields[i]).value;
      RemainingStep(EncodeFields(fields), done, head, EncodeFields(fields[i + 1..]));
      done := done + head;
    }
    return true;
  }

  /** `write_named_dynamic_variables`. */
  method WriteNamed(w: CarbonWriter, fields: seq<Field>) returns (ok: bool)
    modifies w
    ensures Wrote(ok, EncodeNamed(fields), old(w.buffer), w.buffer)
    decreases FieldsDepth(fields), 0, 0, 2, |fields| + 1
  {
    ok := w.WriteLength(|fields|);
    if ok {
      ghost var middle := w.buffer;
      ok := WriteFields(w, fields);
      WroteBoth(ok, EncodeLen(|fields|), EncodeFields(fields), old(w.buffer), middle, w.buffer);
    }
  }

  method WriteStruct(w: CarbonWriter, x: Struct) returns (ok: bool)
    modifies w
    ensures Wrote(ok, EncodeStruct(x), old(w.buffer), w.buffer)
    decreases FieldsDepth(x.fields), 0, 0, 3, 0
  {
    SortDepth(x.fields);
    ok := WriteNamed(w, Sort(x.fields));
  }

  /** The schema's fields in order; counts how many the struct really has. */
  method WriteBound(w: CarbonWriter, schema: seq<NamedSchema>, x: Struct) returns (ok: bool, found: nat)
    modifies w
    ensures Wrote(ok, EncodeBound(schema, x), old(w.buffer), w.buffer)
    decreases FieldsDepth(x.fields), SchemaHeight(schema), 0, 2, |schema|
  {
    found := 0;
    ghost var done := [];
    RemainingStart(EncodeBound(schema, x));
    for i := 0 to |schema|
      invariant w.buffer == old(w.buffer) + done
      invariant Remaining(EncodeBound(schema, x), done, EncodeBound(schema[i..], x))
    {
      FieldHeight(schema, i);
      BoundStep(schema, i, x);
      var has;
      ok, has := WriteBoundField(w, schema[i], x);
      if !ok {
        return;
      }
      if has {
        found := found + 1;
      }
      ghost var head := EncodeOffered(schema[i], x).value;
      RemainingStep(EncodeBound(schema, x), done, head, EncodeBound(schema[i + 1..], x));
      done := done + head;
    }
    ok := true;
  }

  ghost function EncodeOffered(f: NamedSchema, x: Struct): Option<Bytes> {
    EncodeStatic(f.schema.vmType, f.schema.structDef, Offered(x, f))
  }

  lemma BoundStep(schema: seq<NamedSchema>, i: nat, x: Struct)
    requires i < |schema|
    ensures EncodeBound(schema[i..], x) == Join(EncodeOffered(schema[i], x), EncodeBound(schema[i + 1..], x))
  {
    assert schema[i..][1..] == schema[i + 1..] && schema[i] == schema[i..][0];
  }

  method WriteBoundField(w: CarbonWriter, f: NamedSchema, x: Struct) returns (ok: bool, has: bool)
    modifies w
    ensures Wrote(ok, EncodeOffered(f, x), old(w.buffer), w.buffer)
    ensures has == Get(x.fields, f.name).Some?
    decreases FieldsDepth(x.fields), DefHeight(f.schema.structDef), 1, 5, 0
  {
    var field := Get(x.fields, f.name);
    has := field.Some?;
    OfferedDepth(x, f);
    var value := if has then field.value.data else Default(f.schema.vmType);
    ok := WriteStatic(w, f.schema.vmType, f.schema.structDef, value);
  }

  lemma {:induction false} FieldHeight(schema: seq<NamedSchema>, i: nat)
    requires i < |schema|
    ensures DefHeight(schema[i].schema.structDef) < SchemaHeight(schema)
  {
    if i > 0 {
      FieldHeight(schema[1..], i - 1);
    }
  }

  method WriteWithSchema(w: CarbonWriter, schema: StructSchema, x: Struct) returns (ok: bool)
    modifies w
    ensures Wrote(ok, EncodeWith(schema, x), old(w.buffer), w.buffer)
    decreases FieldsDepth(x.fields), SchemaHeight(schema.fields), 0, 3, 0
  {
    var found;
    ok, found := WriteBound(w, schema.fields, x);
    if !ok {
      return;
    }
    ghost var middle := w.buffer;
    ok := WriteExtras(w, schema, x, found);
    WroteBoth(ok, EncodeBound(schema.fields, x), EncodeExtras(schema, x), old(w.buffer), middle, w.buffer);
  }

  method WriteExtras(w: CarbonWriter, schema: StructSchema, x: Struct, found: nat) returns (ok: bool)
    modifies w
    ensures Wrote(ok, EncodeExtras(schema, x), old(w.buffer), w.buffer)
    decreases FieldsDepth(x.fields), 0, 0, 2, |x.fields| + 2
  {
    if !DynamicExtras(schema) {
      assert old(w.buffer) + [] == w.buffer;
      return true;
    }
    UnnamedDepth(x.fields, schema.fields);
    var extras := Unnamed(x.fields, schema.fields);
    if found == |schema.fields| && extras == [] {
      w.Write(LE(4, 0));
      assert LE(4, 0) + [] == LE(4, 0);
      return true;
    }
    ok := WriteNamed(w, extras);
  }

  method WriteStructs(w: CarbonWriter, schema: StructSchema, xs: seq<Struct>) returns (ok: bool)
    modifies w
    ensures Wrote(ok, EncodeStructs(schema, xs), old(w.buffer), w.buffer)
    decreases StructsDepth(xs), 0, 0, 2, |xs|
  {
    ghost var done := [];
    RemainingStart(EncodeStructs(schema, xs));
    for i := 0 to |xs|
      invariant w.buffer == old(w.buffer) + done
      invariant Remaining(EncodeStructs(schema, xs), done, EncodeStructs(schema, xs[i..]))
    {
      assert xs[i..][1..] == xs[i + 1..] && xs[i] == xs[i..][0];
      StructInDepth(xs, i);
      ok := WriteWithSchema(w, schema, xs[i]);
      if !ok {
        return;
      }
      ghost var head := EncodeWith(schema, xs[i]).value;
      RemainingStep(EncodeStructs(schema, xs), done, head, EncodeStructs(schema, xs[i + 1..]));
      done := done + head;
    }
    return true;
  }

  lemma {:induction false} StructInDepth(xs: seq<Struct>, i: nat)
    requires i < |xs|
    ensures FieldsDepth(xs[i].fields) < StructsDepth(xs)
  {
    if i > 0 {
      StructInDepth(xs[1..], i - 1);
    }
  }

  method WriteStructArray(w: CarbonWriter, schema: Option<StructSchema>, own: StructSchema, xs: seq<Struct>) returns (ok: bool)
    modifies w
    ensures Wrote(ok, EncodeStructArray(schema, own, xs), old(w.buffer), w.buffer)
    decreases StructsDepth(xs), 0, 0, 3, 0
  {
    ok := w.WriteLength(|xs|);
    if !ok {
      return;
    }
    ghost var a := w.buffer;
    if schema.None? {
      ok := WriteSchema(w, own);
      if !ok {
        return;
      }
    }
    ghost var b := w.buffer;
    assert schema.Some? ==> a + [] == b;
    ok := WriteStructs(w, Used(schema, own), xs);
    WroteBoth(ok, EncodeOwn(schema, own), EncodeStructs(Used(schema, own), xs), a, b, w.buffer);
    WroteBoth(ok, EncodeLen(|xs|), Join(EncodeOwn(schema, own), EncodeStructs(Used(schema, own), xs)), old(w.buffer), a, w.buffer);
  }

  // ----- reading values -----

  method ReadFlat(r: CarbonReader, t: VMType) returns (v: Option<Value>)
    requires Flat(t) && r.Valid()
    modifies r`offset
    ensures r.Valid() && Follows(v, DecodeFlat(t, old(r.Rest())), r.Rest())
  {
    match t
    case TBytes => var x :- r.ReadByteArray(); v := Some(VBytes(x));
    case TInt(n) => var x :- r.ReadInt(n); v := Some(VInt(x));
    case TInt256 => var x :- r.ReadBigInt(); v := Some(VInt256(x));
    case TFixed(n) => var x :- r.Read(n); v := Some(VFixed(x));
    case TString => var x :- r.ReadStringZ(); v := Some(VString(x));
    case TArrayBytes => var x :- r.ReadByteArrays(); v := Some(VArrayBytes(x));
    case TArrayInt(n) => var x :- r.ReadIntArray(n); v := Some(VArrayInt(n, x));
    case TArrayInt256 => var x :- r.ReadBigIntArray(); v := Some(VArrayInt256(x));
    case TArrayFixed(n) => var x :- r.ReadFixedArray(n); v := Some(VArrayFixed(n, x));
    case TArrayString => var x :- r.ReadStringZArray(); v := Some(VArrayString(x));
  }

  method ReadStatic(r: CarbonReader, t: VMType, schema: Option<StructSchema>) returns (v: Option<Value>)
    requires r.Valid()
    modifies r`offset
    ensures r.Valid() && Follows(v, DecodeStatic(t, schema, old(r.Rest())), r.Rest())
    decreases |r.data| - r.offset, DefHeight(schema), 4, 0
  {
    if t.TDynamic? {
      var x :- ReadVariable(r);
      v := Some(VDynamic(x));
    } else if t.TStruct? {
      v := ReadStructValue(r, schema);
    } else if t.TArrayDynamic? {
      var n :- r.ReadLengthFor(1);
      var xs :- ReadVariables(r, n);
      v := Some(VArrayDynamic(xs));
    } else if t.TArrayStruct? {
      var a :- ReadStructArray(r, schema);
      v := Some(VArrayStruct(a.0, a.1));
    } else if t.TArray? {
      v := None;
    } else {
      v := ReadFlat(r, t);
    }
  }

  method ReadStructValue(r: CarbonReader, schema: Option<StructSchema>) returns (v: Option<Value>)
    requires r.Valid()
    modifies r`offset
    ensures r.Valid() && Follows(v, DecodeStatic(TStruct, schema, old(r.Rest())), r.Rest())
    decreases |r.data| - r.offset, DefHeight(schema), 3, 1
  {
    if schema.Some? {
      var x :- ReadWithSchema(r, schema.value);
      return Some(VStruct(x));
    }
    var x :- ReadStruct(r);
    return Some(VStruct(x));
  }

  method ReadVariable(r: CarbonReader) returns (v: Option<Variable>)
    requires r.Valid()
    modifies r`offset
    ensures r.Valid() && Follows(v, DecodeVariable(old(r.Rest())), r.Rest())
    decreases |r.data| - r.offset, 0, 0, 0
  {
    var code :- r.Read(1);
    var t := TypeOf(code[0]);
    if t.None? {
      return None;
    }
    var d :- ReadStatic(r, t.value, None);
    return Some(Variable(t.value, d));
  }

  method ReadVariables(r: CarbonReader, n: nat) returns (v: Option<seq<Variable>>)
    requires r.Valid()
    modifies r`offset
    ensures r.Valid() && Follows(v, DecodeVariables(n, old(r.Rest())), r.Rest())
    decreases |r.data| - r.offset, 0, 1, n
  {
    if n == 0 {
      return Some([]);
    }
    var x :- ReadVariable(r);
    var xs :- ReadVariables(r, n - 1);
    return Some([x] + xs);
  }

  method ReadField(r: CarbonReader) returns (v: Option<Field>)
    requires r.Valid()
    modifies r`offset
    ensures r.Valid() && Follows(v, DecodeField(old(r.Rest())), r.Rest())
    decreases |r.data| - r.offset, 0, 0, 1
  {
    var name :- r.ReadSmallString();
    var value :- ReadVariable(r);
    return Some(Field(name, value));
  }

  method ReadFields(r: CarbonReader, n: nat) returns (v: Option<seq<Field>>)
    requires r.Valid()
    modifies r`offset
    ensures r.Valid() && Follows(v, DecodeFields(n, old(r.Rest())), r.Rest())
    decreases |r.data| - r.offset, 0, 1, n
  {
    if n == 0 {
      return Some([]);
    }
    var f :- ReadField(r);
    var fields :- ReadFields(r, n - 1);
    return Some([f] + fields);
  }

  /** `read_named_dynamic_variables`. */
  method ReadNamed(r: CarbonReader) returns (v: Option<seq<Field>>)
    requires r.Valid()
    modifies r`offset
    ensures r.Valid() && Follows(v, DecodeNamed(old(r.Rest())), r.Rest())
    decreases |r.data| - r.offset, 0, 2, 0
  {
    var n :- r.ReadLengthFor(1);
    v := ReadFields(r, n);
  }

  method ReadStruct(r: CarbonReader) returns (v: Option<Struct>)
    requires r.Valid()
    modifies r`offset
    ensures r.Valid() && Follows(v, DecodeStruct(old(r.Rest())), r.Rest())
    decreases |r.data| - r.offset, 0, 3, 0
  {
    var fields :- ReadNamed(r);
    return Some(Struct(Sort(fields)));
  }

  method ReadWithSchema(r: CarbonReader, schema: StructSchema) returns (v: Option<Struct>)
    requires r.Valid()
    modifies r`offset
    ensures r.Valid() && Follows(v, DecodeWith(schema, old(r.Rest())), r.Rest())
    decreases |r.data| - r.offset, SchemaHeight(schema.fields), 3, 0
  {
    var fields :- ReadBound(r, schema.fields);
    if !DynamicExtras(schema) {
      assert fields + [] == fields;
      return Some(Struct(Sort(fields)));
    }
    var extras :- ReadNamed(r);
    return Some(Struct(Sort(fields + extras)));
  }

  method ReadBound(r: CarbonReader, schema: seq<NamedSchema>) returns (v: Option<seq<Field>>)
    requires r.Valid()
    modifies r`offset
    ensures r.Valid() && Follows(v, DecodeBound(schema, old(r.Rest())), r.Rest())
    decreases |r.data| - r.offset, SchemaHeight(schema), 2, |schema|
  {
    ghost var s := r.Rest();
    var fields := [];
    AheadStart(DecodeBound(schema, s));
    for i := 0 to |schema|
      invariant r.Valid() && old(r.offset) <= r.offset
      invariant DecodeBound(schema, s) == Ahead(fields, DecodeBound(schema[i..], r.Rest()))
    {
      assert schema[i..][1..] == schema[i + 1..] && schema[i] == schema[i..][0];
      FieldHeight(schema, i);
      var d := ReadStatic(r, schema[i].schema.vmType, schema[i].schema.structDef);
      if d.None? {
        return None;
      }
      var f := Field(schema[i].name, Variable(schema[i].schema.vmType, d.value));
      AheadStep(fields, f, DecodeBound(schema[i + 1..], r.Rest()));
      fields := fields + [f];
    }
    assert fields + [] == fields;
    return Some(fields);
  }

  method ReadStructs(r: CarbonReader, n: nat, schema: StructSchema) returns (v: Option<seq<Struct>>)
    requires r.Valid()
    modifies r`offset
    ensures r.Valid() && Follows(v, DecodeStructs(n, schema, old(r.Rest())), r.Rest())
    decreases |r.data| - r.offset, SchemaHeight(schema.fields), 4, n
  {
    ghost var s := r.Rest();
    var structs := [];
    AheadStart(DecodeStructs(n, schema, s));
    var left := n;
    while left > 0
      invariant r.Valid() && old(r.offset) <= r.offset
      invariant DecodeStructs(n, schema, s) == Ahead(structs, DecodeStructs(left, schema, r.Rest()))
    {
      StructsStep(left, schema, structs, r.Rest());
      var x := ReadWithSchema(r, schema);
      if x.None? {
        return None;
      }
      structs := structs + [x.value];
      left := left - 1;
    }
    assert structs + [] == structs;
    return Some(structs);
  }

  lemma StructsStep(n: nat, schema: StructSchema, done: seq<Struct>, s: Bytes)
    requires n > 0
    ensures Ahead(done, DecodeStructs(n, schema, s))
         == var x := DecodeWith(schema, s);
            if x.Got? then Ahead(done + [x.value], DecodeStructs(n - 1, schema, x.rest)) else Refused
  {
    var x := DecodeWith(schema, s);
    if x.Got? {
      AheadStep(done, x.value, DecodeStructs(n - 1, schema, x.rest));
    }
  }

  method ReadStructArray(r: CarbonReader, schema: Option<StructSchema>) returns (v: Option<(StructSchema, seq<Struct>)>)
    requires r.Valid()
    modifies r`offset
    ensures r.Valid() && Follows(v, DecodeStructArray(schema, old(r.Rest())), r.Rest())
    decreases |r.data| - r.offset, 0, 3, 0
  {
    var n :- r.ReadLengthFor(1);
    var used;
    if schema.Some? {
      used := schema.value;
    } else {
      used :- ReadSchema(r);
    }
    var structs :- ReadStructs(r, n, used);
    return Some((used, structs));
  }
}
