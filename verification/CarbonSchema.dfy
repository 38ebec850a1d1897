/** The schemas of Carbon's dynamic values: types and their codes, nested definitions, and their codec. */
module CarbonSchema {
  import opened Words
  import opened CarbonWire

  type IntWidth = w: nat | w == 1 || w == 2 || w == 4 || w == 8 witness 1
  type FixedSize = n: nat | n == 16 || n == 32 || n == 64 witness 16

  /** The 25 types: Int8 to Int64 are `TInt` of 1 to 8 bytes, Bytes16 to Bytes64 are `TFixed`. */
  datatype VMType =
    | TDynamic | TArray | TBytes | TStruct | TInt(width: IntWidth) | TInt256 | TFixed(size: FixedSize) | TString
    | TArrayDynamic | TArrayBytes | TArrayStruct | TArrayInt(width: IntWidth) | TArrayInt256
    | TArrayFixed(size: FixedSize) | TArrayString

  function Code(t: VMType): Byte {
    match t
    case TDynamic => 0
    case TArray => 1
    case TArrayDynamic => 1
    case TBytes => 2
    case TArrayBytes => 3
    case TStruct => 4
    case TArrayStruct => 5
    case TInt(w) => if w == 1 then 6 else if w == 2 then 8 else if w == 4 then 10 else 12
    case TArrayInt(w) => if w == 1 then 7 else if w == 2 then 9 else if w == 4 then 11 else 13
    case TInt256 => 14
    case TArrayInt256 => 15
    case TFixed(n) => if n == 16 then 16 else if n == 32 then 18 else 20
    case TArrayFixed(n) => if n == 16 then 17 else if n == 32 then 19 else 21
    case TString => 22
    case TArrayString => 23
  }

  function TypeOf(b: Byte): Option<VMType> {
    match b
    case 0 => Some(TDynamic)
    case 1 => Some(TArrayDynamic)
    case 2 => Some(TBytes)
    case 3 => Some(TArrayBytes)
    case 4 => Some(TStruct)
    case 5 => Some(TArrayStruct)
    case 6 => Some(TInt(1))
    case 7 => Some(TArrayInt(1))
    case 8 => Some(TInt(2))
    case 9 => Some(TArrayInt(2))
    case 10 => Some(TInt(4))
    case 11 => Some(TArrayInt(4))
    case 12 => Some(TInt(8))
    case 13 => Some(TArrayInt(8))
    case 14 => Some(TInt256)
    case 15 => Some(TArrayInt256)
    case 16 => Some(TFixed(16))
    case 17 => Some(TArrayFixed(16))
    case 18 => Some(TFixed(32))
    case 19 => Some(TArrayFixed(32))
    case 20 => Some(TFixed(64))
    case 21 => Some(TArrayFixed(64))
    case 22 => Some(TString)
    case 23 => Some(TArrayString)
    case _ => None
  }

  /** The type a code is read back as: `Array` shares its code with `ArrayDynamic`. */
  function Canonical(t: VMType): VMType {
    if t.TArray? then TArrayDynamic else t
  }

  lemma TypeBack(t: VMType)
    ensures TypeOf(Code(t)) == Some(Canonical(t))
  {
  }

  predicate HasStruct(t: VMType) { t.TStruct? || t.TArrayStruct? }

  // ----- schemas -----

  datatype VarSchema = VarSchema(vmType: VMType, structDef: Option<StructSchema>)
  datatype NamedSchema = NamedSchema(name: Text, schema: VarSchema)
  datatype StructSchema = StructSchema(fields: seq<NamedSchema>, flags: Byte)

  const EMPTY_SCHEMA := StructSchema([], 0)

  predicate DynamicExtras(schema: StructSchema) { schema.flags % 2 == 1 }

  ghost function SchemaHeight(fields: seq<NamedSchema>): nat {
    if fields == [] then 0 else
      var here := 1 + DefHeight(fields[0].schema.structDef);
      var rest := SchemaHeight(fields[1..]);
      if here > rest then here else rest
  }

  ghost function DefHeight(def: Option<StructSchema>): nat {
    if def.None? then 0 else SchemaHeight(def.value.fields)
  }

  function EncodeSchema(schema: StructSchema): Option<Bytes> {
    var head :- EncodeLen(|schema.fields|);
    var body :- EncodeSchemaFields(schema.fields);
    Some(head + body + [schema.flags])
  }

  function EncodeSchemaFields(fields: seq<NamedSchema>): Option<Bytes> {
    if fields == [] then Some([]) else
      var head :- EncodeNamedSchema(fields[0]);
      var tail :- EncodeSchemaFields(fields[1..]);
      Some(head + tail)
  }

  function EncodeNamedSchema(f: NamedSchema): (r: Option<Bytes>)
    ensures r.Some? ==> |r.value| >= 1
  {
    var name :- EncodeSmall(f.name);
    var schema :- EncodeVarSchema(f.schema);
    Some(name + schema)
  }

  /** A missing struct definition is written as an empty schema. */
  function EncodeVarSchema(v: VarSchema): Option<Bytes> {
    var def :- if !HasStruct(v.vmType) then Some([])
               else if v.structDef.Some? then EncodeSchema(v.structDef.value)
               else Some(LE(4, 0) + [0]);
    Some([Code(v.vmType)] + def)
  }

  function DecodeSchema(s: Bytes): (r: Read<StructSchema>)
    ensures r.Got? ==> |r.rest| < |s|
    decreases |s|
  {
    var (n, rest) :- DecodeLenFor(1, s);
    var (fields, rest') :- DecodeSchemaFields(n, rest);
    var (flags, rest'') :- Take(1, rest');
    Got(StructSchema(fields, flags[0]), rest'')
  }

  function DecodeSchemaFields(n: nat, s: Bytes): (r: Read<seq<NamedSchema>>)
    ensures r.Got? ==> |r.rest| <= |s| && |r.value| == n
    decreases |s|, 1
  {
    if n == 0 then Got([], s) else
      var (f, rest) :- DecodeNamedSchema(s);
      var (fields, rest') :- DecodeSchemaFields(n - 1, rest);
      Got([f] + fields, rest')
  }

  function DecodeNamedSchema(s: Bytes): (r: Read<NamedSchema>)
    ensures r.Got? ==> |r.rest| < |s|
    decreases |s|, 0
  {
    var (name, rest) :- DecodeSmall(s);
    var (v, rest') :- DecodeVarSchema(rest);
    Got(NamedSchema(name, v), rest')
  }

  function DecodeVarSchema(s: Bytes): (r: Read<VarSchema>)
    ensures r.Got? ==> |r.rest| < |s|
    decreases |s|
  {
    var (code, rest) :- Take(1, s);
    var t := TypeOf(code[0]);
    if t.None? then Refused
    else if HasStruct(t.value) then
      var (def, rest') :- DecodeSchema(rest);
      Got(VarSchema(t.value, Some(def)), rest')
    else Got(VarSchema(t.value, None), rest)
  }

  /** The schema as the reader reconstructs it. */
  function CanonSchema(schema: StructSchema): StructSchema {
    StructSchema(CanonSchemaFields(schema.fields), schema.flags)
  }

  function CanonSchemaFields(fields: seq<NamedSchema>): (r: seq<NamedSchema>)
    ensures |r| == |fields|
  {
    if fields == [] then [] else
      [NamedSchema(fields[0].name, CanonVarSchema(fields[0].schema))] + CanonSchemaFields(fields[1..])
  }

  function CanonVarSchema(v: VarSchema): VarSchema {
    VarSchema(Canonical(v.vmType),
              if !HasStruct(v.vmType) then None
              else if v.structDef.Some? then Some(CanonSchema(v.structDef.value))
              else Some(EMPTY_SCHEMA))
  }

  /** Every field list is short enough for its length to be read back. */
  ghost predicate ShortSchema(schema: StructSchema) {
    |schema.fields| < MAX_LEN && ShortDefs(schema.fields)
  }

  ghost predicate ShortDefs(fields: seq<NamedSchema>) {
    fields != [] ==>
      && (fields[0].schema.structDef.Some? ==> ShortSchema(fields[0].schema.structDef.value))
      && ShortDefs(fields[1..])
  }

  /** Exactly the schemas that survive the wire: struct types carry a definition, other types none. */
  ghost predicate NormalSchema(fields: seq<NamedSchema>) {
    fields != [] ==> NormalVar(fields[0].schema) && NormalSchema(fields[1..])
  }

  ghost predicate NormalVar(v: VarSchema) {
    && !v.vmType.TArray?
    && (HasStruct(v.vmType) <==> v.structDef.Some?)
    && (v.structDef.Some? ==> NormalSchema(v.structDef.value.fields))
  }

  lemma {:induction false} SchemaBack(schema: StructSchema, r: Bytes)
    requires EncodeSchema(schema).Some? && ShortSchema(schema)
    ensures DecodeSchema(EncodeSchema(schema).value + r) == Got(CanonSchema(schema), r)
    decreases schema, 0
  {
    var head, body := EncodeLen(|schema.fields|).value, EncodeSchemaFields(schema.fields).value;
    var last := [schema.flags];
    SchemaFieldsLength(schema.fields);
    LenBack(|schema.fields|, 1, body + (last + r));
    SchemaFieldsBack(schema.fields, last + r);
    TakeBack(last, r);
    Regroup(head, body, last, r);
  }

  lemma {:induction false} SchemaFieldsLength(fields: seq<NamedSchema>)
    requires EncodeSchemaFields(fields).Some?
    ensures |fields| <= |EncodeSchemaFields(fields).value|
  {
    if fields != [] {
      SchemaFieldsLength(fields[1..]);
    }
  }

  lemma {:induction false} SchemaFieldsBack(fields: seq<NamedSchema>, r: Bytes)
    requires EncodeSchemaFields(fields).Some?
    requires ShortDefs(fields)
    ensures DecodeSchemaFields(|fields|, EncodeSchemaFields(fields).value + r) == Got(CanonSchemaFields(fields), r)
    decreases fields, 1
  {
    if fields == [] {
      assert [] + r == r;
    } else {
      var head, tail := EncodeNamedSchema(fields[0]).value, EncodeSchemaFields(fields[1..]).value;
      assert head + tail + r == head + (tail + r);
      NamedSchemaBack(fields[0], tail + r);
      SchemaFieldsBack(fields[1..], r);
    }
  }

  lemma {:induction false} NamedSchemaBack(f: NamedSchema, r: Bytes)
    requires EncodeNamedSchema(f).Some?
    requires f.schema.structDef.Some? ==> ShortSchema(f.schema.structDef.value)
    ensures DecodeNamedSchema(EncodeNamedSchema(f).value + r) == Got(NamedSchema(f.name, CanonVarSchema(f.schema)), r)
    decreases f, 3
  {
    var name, schema := EncodeSmall(f.name).value, EncodeVarSchema(f.schema).value;
    assert name + schema + r == name + (schema + r);
    SmallBack(f.name, schema + r);
    VarSchemaBack(f.schema, r);
  }

  lemma {:induction false} VarSchemaBack(v: VarSchema, r: Bytes)
    requires EncodeVarSchema(v).Some?
    requires v.structDef.Some? ==> ShortSchema(v.structDef.value)
    ensures DecodeVarSchema(EncodeVarSchema(v).value + r) == Got(CanonVarSchema(v), r)
    decreases v, 2
  {
    var code, def := [Code(v.vmType)], EncodeVarSchema(v).value[1..];
    assert EncodeVarSchema(v).value + r == code + (def + r);
    TakeBack(code, def + r);
    TypeBack(v.vmType);
    if !HasStruct(v.vmType) {
      assert def + r == r;
    } else if v.structDef.Some? {
      SchemaBack(v.structDef.value, r);
    } else {
      EmptySchemaBack(r);
    }
  }

  lemma EmptySchemaBack(r: Bytes)
    ensures DecodeSchema(LE(4, 0) + [0] + r) == Got(EMPTY_SCHEMA, r)
  {
    assert LE(4, 0) + [0] + r == LE(4, 0) + ([0] + r);
    LenBack(0, 1, [0] + r);
    TakeBack([0], r);
  }

  /** A schema is unchanged by the wire exactly when it is normal. */
  lemma {:induction false} NormalIffUnchanged(fields: seq<NamedSchema>)
    ensures CanonSchemaFields(fields) == fields <==> NormalSchema(fields)
  {
    if fields != [] {
      NormalIffUnchanged(fields[1..]);
      NormalVarIff(fields[0].schema);
      var canon := CanonSchemaFields(fields);
      assert fields == [fields[0]] + fields[1..] && canon == [canon[0]] + canon[1..];
      assert canon[1..] == CanonSchemaFields(fields[1..]);
    }
  }

  lemma {:induction false} NormalVarIff(v: VarSchema)
    ensures CanonVarSchema(v) == v <==> NormalVar(v)
  {
    if HasStruct(v.vmType) && v.structDef.Some? {
      NormalIffUnchanged(v.structDef.value.fields);
    }
  }

  lemma {:induction false} SchemaMore(s: Bytes, t: Bytes)
    requires DecodeSchema(s).Got?
    ensures DecodeSchema(s + t) == Got(DecodeSchema(s).value, DecodeSchema(s).rest + t)
    decreases |s|
  {
    LenMore(1, s, t);
    var n, rest := DecodeLenFor(1, s).value, DecodeLenFor(1, s).rest;
    SchemaFieldsMore(n, rest, t);
    TakeMore(1, DecodeSchemaFields(n, rest).rest, t);
  }

  lemma {:induction false} SchemaFieldsMore(n: nat, s: Bytes, t: Bytes)
    requires DecodeSchemaFields(n, s).Got?
    ensures DecodeSchemaFields(n, s + t) == Got(DecodeSchemaFields(n, s).value, DecodeSchemaFields(n, s).rest + t)
    decreases |s|, 1
  {
    if n > 0 {
      var k := n - 1;
      SchemaFieldsSplit(n, k, s);
      var f := DecodeNamedSchema(s);
      var tail := DecodeSchemaFields(k, f.rest);
      SchemaFieldsMore(k, f.rest, t);
      NamedSchemaMore(s, t);
      SchemaFieldsCons(n, k, s + t, f.value, f.rest + t, tail.value, tail.rest + t);
    }
  }

  lemma SchemaFieldsCons(n: nat, k: nat, s: Bytes, f: NamedSchema, rest: Bytes, fields: seq<NamedSchema>, r: Bytes)
    requires n == k + 1 && DecodeNamedSchema(s) == Got(f, rest) && DecodeSchemaFields(k, rest) == Got(fields, r)
    ensures DecodeSchemaFields(n, s) == Got([f] + fields, r)
  {
    var head, tail := DecodeNamedSchema(s), DecodeSchemaFields(k, rest);
    assert n != 0 && n - 1 == k && !head.IsFailure() && !tail.IsFailure();
    assert head.Extract() == (f, rest) && tail.Extract() == (fields, r);
  }

  lemma SchemaFieldsSplit(n: nat, k: nat, s: Bytes)
    requires n == k + 1 && DecodeSchemaFields(n, s).Got?
    ensures DecodeNamedSchema(s).Got? && DecodeSchemaFields(k, DecodeNamedSchema(s).rest).Got?
    ensures var tail := DecodeSchemaFields(k, DecodeNamedSchema(s).rest);
            DecodeSchemaFields(n, s) == Got([DecodeNamedSchema(s).value] + tail.value, tail.rest)
  {
  }

  lemma {:induction false} NamedSchemaMore(s: Bytes, t: Bytes)
    requires DecodeNamedSchema(s).Got?
    ensures DecodeNamedSchema(s + t) == Got(DecodeNamedSchema(s).value, DecodeNamedSchema(s).rest + t)
    decreases |s|, 0
  {
    SmallMore(s, t);
    VarSchemaMore(DecodeSmall(s).rest, t);
  }

  lemma {:induction false} VarSchemaMore(s: Bytes, t: Bytes)
    requires DecodeVarSchema(s).Got?
    ensures DecodeVarSchema(s + t) == Got(DecodeVarSchema(s).value, DecodeVarSchema(s).rest + t)
    decreases |s|
  {
    TakeMore(1, s, t);
    if HasStruct(TypeOf(s[0]).value) {
      SchemaMore(s[1..], t);
    }
  }
}
