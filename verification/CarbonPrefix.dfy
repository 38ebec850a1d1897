/**
  Carbon readers look only at the bytes they consume: success on a buffer is the same success on any
  extension of it, and so an accepted buffer has no accepted strict prefix.
 */
module CarbonPrefix {
  import opened Words
  import opened CarbonWire
  import opened CarbonSchema
  import opened CarbonValues

  /** `deserialize`: a value and nothing after it. */
  function Deserialize<T>(g: Bytes -> Read<T>, s: Bytes): Option<T> {
    var r := g(s);
    if r.Got? && r.rest == [] then Some(r.value) else None
  }

  lemma PrefixRefused<T(!new)>(g: Bytes -> Read<T>, s: Bytes, k: nat)
    requires Stable(g) && Deserialize(g, s).Some? && k < |s|
    ensures Deserialize(g, s[..k]).None?
  {
    assert s[..k] + s[k..] == s;
  }

  lemma ElementsStable()
    ensures Stable(DecodeBlob) && Stable(DecodeBigInt) && Stable(DecodeZ)
  {
    forall s: Bytes, t: Bytes | DecodeBlob(s).Got? { BlobMore(s, t); }
    forall s: Bytes, t: Bytes | DecodeBigInt(s).Got? { BigIntMore(s, t); }
    forall s: Bytes, t: Bytes | DecodeZ(s).Got? { ZMore(s, t); }
  }

  lemma RawStable(n: nat)
    ensures Stable(DecodeRaw(n))
  {
    forall s: Bytes, t: Bytes | Take(n, s).Got? { TakeMore(n, s, t); }
  }

  lemma FlatArrayMore(t: VMType, s: Bytes, more: Bytes)
    requires Flat(t) && (t.TArrayBytes? || t.TArrayInt? || t.TArrayInt256? || t.TArrayFixed? || t.TArrayString?)
    requires DecodeFlat(t, s).Got?
    ensures DecodeFlat(t, s + more) == Got(DecodeFlat(t, s).value, DecodeFlat(t, s).rest + more)
  {
    match t
    case TArrayBytes => ElementsStable(); ArrayMore(4, DecodeBlob, s, more);
    case TArrayInt(w) => IntStable(w); ArrayMore(w, DecodeInt(w), s, more);
    case TArrayInt256 => ElementsStable(); ArrayMore(1, DecodeBigInt, s, more);
    case TArrayFixed(n) => RawStable(n); ArrayMore(n, DecodeRaw(n), s, more);
    case TArrayString => ElementsStable(); ArrayMore(1, DecodeZ, s, more);
  }

  lemma FlatMore(t: VMType, s: Bytes, more: Bytes)
    requires Flat(t) && DecodeFlat(t, s).Got?
    ensures DecodeFlat(t, s + more) == Got(DecodeFlat(t, s).value, DecodeFlat(t, s).rest + more)
  {
    match t
    case TBytes => BlobMore(s, more);
    case TInt(w) => TakeMore(w, s, more);
    case TInt256 => BigIntMore(s, more);
    case TFixed(n) => TakeMore(n, s, more);
    case TString => ZMore(s, more);
    case _ => FlatArrayMore(t, s, more);
  }

  lemma {:induction false} StaticMore(t: VMType, schema: Option<StructSchema>, s: Bytes, more: Bytes)
    requires DecodeStatic(t, schema, s).Got?
    ensures DecodeStatic(t, schema, s + more) == Got(DecodeStatic(t, schema, s).value, DecodeStatic(t, schema, s).rest + more)
    decreases |s|, DefHeight(schema), 4, 0
  {
    match t
    case TDynamic => VariableMore(s, more);
    case TStruct =>
      if schema.Some? {
        WithMore(schema.value, s, more);
      } else {
        StructMore(s, more);
      }
    case TArrayDynamic => VariableArrayMore(s, more);
    case TArrayStruct => StructArrayMore(schema, s, more);
    case _ => FlatMore(t, s, more);
  }

  lemma {:induction false} VariableMore(s: Bytes, more: Bytes)
    requires DecodeVariable(s).Got?
    ensures DecodeVariable(s + more) == Got(DecodeVariable(s).value, DecodeVariable(s).rest + more)
    decreases |s|, 0, 0, 0
  {
    TakeMore(1, s, more);
    StaticMore(TypeOf(s[0]).value, None, s[1..], more);
  }

  lemma {:induction false} VariablesMore(n: nat, s: Bytes, more: Bytes)
    requires DecodeVariables(n, s).Got?
    ensures DecodeVariables(n, s + more) == Got(DecodeVariables(n, s).value, DecodeVariables(n, s).rest + more)
    decreases |s|, 0, 1, n
  {
    if n > 0 {
      var k := n - 1;
      VariablesSplit(n, k, s);
      var v := DecodeVariable(s);
      var tail := DecodeVariables(k, v.rest);
      VariableMore(s, more);
      VariablesMore(k, v.rest, more);
      VariablesCons(n, k, s + more, v.value, v.rest + more, tail.value, tail.rest + more);
    }
  }

  lemma {:induction false} VariableArrayMore(s: Bytes, more: Bytes)
    requires DecodeVariableArray(s).Got?
    ensures DecodeVariableArray(s + more) == Got(DecodeVariableArray(s).value, DecodeVariableArray(s).rest + more)
    decreases |s|, 0, 3, 0
  {
    LenMore(1, s, more);
    VariablesMore(DecodeLenFor(1, s).value, DecodeLenFor(1, s).rest, more);
  }

  lemma {:induction false} StructArrayMore(schema: Option<StructSchema>, s: Bytes, more: Bytes)
    requires DecodeStructArray(schema, s).Got?
    ensures DecodeStructArray(schema, s + more) == Got(DecodeStructArray(schema, s).value, DecodeStructArray(schema, s).rest + more)
    decreases |s|, 0, 3, 0
  {
    LenMore(1, s, more);
    var n, rest := DecodeLenFor(1, s).value, DecodeLenFor(1, s).rest;
    OwnMore(schema, rest, more);
    StructsMore(n, DecodeOwn(schema, rest).value, DecodeOwn(schema, rest).rest, more);
  }

  lemma OwnMore(schema: Option<StructSchema>, s: Bytes, more: Bytes)
    requires DecodeOwn(schema, s).Got?
    ensures DecodeOwn(schema, s + more) == Got(DecodeOwn(schema, s).value, DecodeOwn(schema, s).rest + more)
  {
    if schema.None? {
      SchemaMore(s, more);
    }
  }

  lemma {:induction false} FieldsMore(n: nat, s: Bytes, more: Bytes)
    requires DecodeFields(n, s).Got?
    ensures DecodeFields(n, s + more) == Got(DecodeFields(n, s).value, DecodeFields(n, s).rest + more)
    decreases |s|, 0, 1, n
  {
    if n > 0 {
      var k := n - 1;
      FieldsSplit(n, k, s);
      var f := DecodeField(s);
      var tail := DecodeFields(k, f.rest);
      FieldMore(s, more);
      FieldsMore(k, f.rest, more);
      FieldsCons(n, k, s + more, f.value, f.rest + more, tail.value, tail.rest + more);
    }
  }

  lemma {:induction false} FieldMore(s: Bytes, more: Bytes)
    requires DecodeField(s).Got?
    ensures DecodeField(s + more) == Got(DecodeField(s).value, DecodeField(s).rest + more)
    decreases |s|, 0, 0, 1
  {
    SmallMore(s, more);
    VariableMore(DecodeSmall(s).rest, more);
  }

  lemma {:induction false} NamedMore(s: Bytes, more: Bytes)
    requires DecodeNamed(s).Got?
    ensures DecodeNamed(s + more) == Got(DecodeNamed(s).value, DecodeNamed(s).rest + more)
    decreases |s|, 0, 2, 0
  {
    LenMore(1, s, more);
    FieldsMore(DecodeLenFor(1, s).value, DecodeLenFor(1, s).rest, more);
  }

  lemma {:induction false} StructMore(s: Bytes, more: Bytes)
    requires DecodeStruct(s).Got?
    ensures DecodeStruct(s + more) == Got(DecodeStruct(s).value, DecodeStruct(s).rest + more)
    decreases |s|, 0, 3, 0
  {
    NamedMore(s, more);
  }

  lemma {:induction false} WithMore(schema: StructSchema, s: Bytes, more: Bytes)
    requires DecodeWith(schema, s).Got?
    ensures DecodeWith(schema, s + more) == Got(DecodeWith(schema, s).value, DecodeWith(schema, s).rest + more)
    decreases |s|, SchemaHeight(schema.fields), 3, 0
  {
    BoundMore(schema.fields, s, more);
    if DynamicExtras(schema) {
      NamedMore(DecodeBound(schema.fields, s).rest, more);
    }
  }

  lemma {:induction false} BoundMore(schema: seq<NamedSchema>, s: Bytes, more: Bytes)
    requires DecodeBound(schema, s).Got?
    ensures DecodeBound(schema, s + more) == Got(DecodeBound(schema, s).value, DecodeBound(schema, s).rest + more)
    decreases |s|, SchemaHeight(schema), 2, |schema|
  {
    if schema != [] {
      var t, def := schema[0].schema.vmType, schema[0].schema.structDef;
      StaticMore(t, def, s, more);
      BoundMore(schema[1..], DecodeStatic(t, def, s).rest, more);
    }
  }

  lemma {:induction false} StructsMore(n: nat, schema: StructSchema, s: Bytes, more: Bytes)
    requires DecodeStructs(n, schema, s).Got?
    ensures DecodeStructs(n, schema, s + more) == Got(DecodeStructs(n, schema, s).value, DecodeStructs(n, schema, s).rest + more)
    decreases |s|, SchemaHeight(schema.fields), 4, n
  {
    if n > 0 {
      var k := n - 1;
      StructsSplit(n, k, schema, s);
      var x := DecodeWith(schema, s);
      var tail := DecodeStructs(k, schema, x.rest);
      WithMore(schema, s, more);
      StructsMore(k, schema, x.rest, more);
      StructsCons(n, k, schema, s + more, x.value, x.rest + more, tail.value, tail.rest + more);
    }
  }

  /** Dynamic values, self-describing structs and schemas: no accepted buffer has an accepted strict prefix. */
  lemma DynamicPrefixRefused(s: Bytes, k: nat)
    requires k < |s|
    ensures Deserialize(DecodeVariable, s).Some? ==> Deserialize(DecodeVariable, s[..k]).None?
    ensures Deserialize(DecodeStruct, s).Some? ==> Deserialize(DecodeStruct, s[..k]).None?
    ensures Deserialize(DecodeSchema, s).Some? ==> Deserialize(DecodeSchema, s[..k]).None?
  {
    DynamicStable();
    if Deserialize(DecodeVariable, s).Some? { PrefixRefused(DecodeVariable, s, k); }
    if Deserialize(DecodeStruct, s).Some? { PrefixRefused(DecodeStruct, s, k); }
    if Deserialize(DecodeSchema, s).Some? { PrefixRefused(DecodeSchema, s, k); }
  }

  lemma DynamicStable()
    ensures Stable(DecodeVariable) && Stable(DecodeStruct) && Stable(DecodeSchema)
  {
    forall s: Bytes, t: Bytes | DecodeVariable(s).Got? { VariableMore(s, t); }
    forall s: Bytes, t: Bytes | DecodeStruct(s).Got? { StructMore(s, t); }
    forall s: Bytes, t: Bytes | DecodeSchema(s).Got? { SchemaMore(s, t); }
  }

  /** A schema-bound struct, read alone, has no accepted strict prefix. */
  lemma BoundPrefixRefused(schema: StructSchema, s: Bytes, k: nat)
    requires k < |s| && DecodeWith(schema, s).Got? && DecodeWith(schema, s).rest == []
    ensures DecodeWith(schema, s[..k]).Got? ==> DecodeWith(schema, s[..k]).rest != []
  {
    assert s[..k] + s[k..] == s;
    if DecodeWith(schema, s[..k]).Got? {
      WithMore(schema, s[..k], s[k..]);
    }
  }
}
