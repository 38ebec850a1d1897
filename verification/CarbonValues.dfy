/**
  Carbon's dynamic values as functions: what the schema-directed writer puts on the wire, what the
  reader makes of any bytes, and the canonical value a written one is read back as.
 */
module CarbonValues {
  import opened Words
  import opened CarbonWire
  import opened CarbonSchema

  /** `VFixed` is Bytes16, Bytes32 or Bytes64 by its length; arrays of them and of integers carry their width. */
  datatype Value =
    | VNone
    | VDynamic(variable: Variable)
    | VBytes(bytes: Bytes)
    | VStruct(struct: Struct)
    | VInt(number: int)
    | VInt256(number: int)
    | VFixed(bytes: Bytes)
    | VString(text: Text)
    | VArrayDynamic(variables: seq<Variable>)
    | VArrayBytes(blobs: seq<Bytes>)
    | VArrayStruct(schema: StructSchema, structs: seq<Struct>)
    | VArrayInt(width: IntWidth, numbers: seq<int>)
    | VArrayInt256(numbers: seq<int>)
    | VArrayFixed(size: FixedSize, blobs: seq<Bytes>)
    | VArrayString(texts: seq<Text>)
  datatype Variable = Variable(vmType: VMType, data: Value)
  datatype Field = Field(name: Text, value: Variable)
  datatype Struct = Struct(fields: seq<Field>)

  // ----- names -----

  /** The order of `str`: bytewise. */
  predicate Before(a: Bytes, b: Bytes) {
    if b == [] then false
    else if a == [] then true
    else if a[0] != b[0] then a[0] < b[0]
    else Before(a[1..], b[1..])
  }

  function Get(fields: seq<Field>, name: Bytes): Option<Variable> {
    if fields == [] then None
    else if fields[0].name == name then Some(fields[0].value)
    else Get(fields[1..], name)
  }

  function Insert(f: Field, fields: seq<Field>): (r: seq<Field>)
    ensures multiset(r) == multiset{f} + multiset(fields)
  {
    if fields == [] || !Before(fields[0].name, f.name) then
      [f] + fields
    else
      assert fields == [fields[0]] + fields[1..];
      [fields[0]] + Insert(f, fields[1..])
  }

  /** The stable sort by name. */
  function Sort(fields: seq<Field>): (r: seq<Field>)
    ensures multiset(r) == multiset(fields)
  {
    if fields == [] then [] else
      assert fields == [fields[0]] + fields[1..];
      Insert(fields[0], Sort(fields[1..]))
  }

  predicate Names(fields: seq<NamedSchema>, name: Bytes) {
    exists i :: 0 <= i < |fields| && fields[i].name == name
  }

  /** The fields the schema does not name, in the struct's own order. */
  function Unnamed(fields: seq<Field>, schema: seq<NamedSchema>): seq<Field> {
    if fields == [] then []
    else if Names(schema, fields[0].name) then Unnamed(fields[1..], schema)
    else [fields[0]] + Unnamed(fields[1..], schema)
  }

  function Default(t: VMType): Value {
    match t
    case TDynamic => VNone
    case TArray => VNone
    case TBytes => VBytes([])
    case TStruct => VStruct(Struct([]))
    case TInt(_) => VInt(0)
    case TInt256 => VInt256(0)
    case TFixed(n) => VFixed(Fill(n, 0))
    case TString => VString([])
    case TArrayDynamic => VArrayDynamic([])
    case TArrayBytes => VArrayBytes([])
    case TArrayStruct => VArrayStruct(EMPTY_SCHEMA, [])
    case TArrayInt(w) => VArrayInt(w, [])
    case TArrayInt256 => VArrayInt256([])
    case TArrayFixed(n) => VArrayFixed(n, [])
    case TArrayString => VArrayString([])
  }

  /** What a struct offers for a schema field: its own value, or the default of the type. */
  function Offered(x: Struct, f: NamedSchema): Value {
    var found := Get(x.fields, f.name);
    if found.Some? then found.value.data else Default(f.schema.vmType)
  }

  // ----- reading a value as the type it is written as -----

  function AsInt(d: Value): int {
    match d
    case VInt(n) => n
    case VInt256(n) => if FitsSigned(8, n) then n else 0
    case _ => 0
  }

  function AsBigInt(d: Value): int {
    if d.VInt? || d.VInt256? then d.number else 0
  }

  function AsBytes(d: Value): Bytes {
    if d.VBytes? then d.bytes else []
  }

  function AsFixed(n: FixedSize, d: Value): (r: Bytes)
    ensures |r| == n
  {
    if d.VFixed? && |d.bytes| == n then d.bytes else Fill(n, 0)
  }

  function AsText(d: Value): Text {
    if d.VString? then d.text else []
  }

  function AsStruct(d: Value): Struct {
    if d.VStruct? then d.struct else Struct([])
  }

  function AsInts(w: IntWidth, d: Value): seq<int> {
    if d.VArrayInt? && d.width == w then d.numbers else []
  }

  function AsBigInts(d: Value): seq<int> {
    if d.VArrayInt256? then d.numbers else []
  }

  function AsBlobs(d: Value): seq<Bytes> {
    if d.VArrayBytes? then d.blobs else []
  }

  function AsFixeds(n: FixedSize, d: Value): seq<Bytes> {
    if d.VArrayFixed? && d.size == n then d.blobs else []
  }

  function AsTexts(d: Value): seq<Text> {
    if d.VArrayString? then d.texts else []
  }

  function AsVariables(d: Value): seq<Variable> {
    if d.VArrayDynamic? then d.variables else []
  }

  function AsStructs(d: Value): seq<Struct> {
    if d.VArrayStruct? then d.structs else []
  }

  function OwnSchema(d: Value): StructSchema {
    if d.VArrayStruct? then d.schema else EMPTY_SCHEMA
  }

  const EMPTY_ARRAY := Variable(TArrayDynamic, VArrayDynamic([]))

  function AsDynamic(d: Value): Variable {
    if d.VDynamic? then d.variable else EMPTY_ARRAY
  }

  // ----- nesting depth, the termination measure of the writer -----

  ghost function Max(a: nat, b: nat): nat { if a > b then a else b }

  ghost function Depth(d: Value): nat {
    match d
    case VDynamic(v) => 1 + Depth(v.data)
    case VStruct(x) => FieldsDepth(x.fields)
    case VArrayDynamic(vs) => VariablesDepth(vs)
    case VArrayStruct(_, xs) => StructsDepth(xs)
    case _ => 0
  }

  ghost function FieldsDepth(fields: seq<Field>): nat {
    if fields == [] then 0 else Max(1 + Depth(fields[0].value.data), FieldsDepth(fields[1..]))
  }

  ghost function VariableDepth(v: Variable): nat {
    Depth(v.data)
  }

  ghost function VariablesDepth(vs: seq<Variable>): nat {
    if vs == [] then 0 else Max(1 + VariableDepth(vs[0]), VariablesDepth(vs[1..]))
  }

  ghost function StructsDepth(xs: seq<Struct>): nat {
    if xs == [] then 0 else Max(1 + FieldsDepth(xs[0].fields), StructsDepth(xs[1..]))
  }

  lemma {:induction false} FieldDepth(fields: seq<Field>, f: Field)
    requires f in fields
    ensures Depth(f.value.data) < FieldsDepth(fields)
  {
    if f != fields[0] {
      FieldDepth(fields[1..], f);
    }
  }

  lemma {:induction false} SubsetDepth(fields: seq<Field>, within: seq<Field>)
    requires forall f :: f in fields ==> f in within
    ensures FieldsDepth(fields) <= FieldsDepth(within)
  {
    if fields != [] {
      FieldDepth(within, fields[0]);
      SubsetDepth(fields[1..], within);
    }
  }

  lemma SortDepth(fields: seq<Field>)
    ensures FieldsDepth(Sort(fields)) <= FieldsDepth(fields)
  {
    forall f | f in Sort(fields) ensures f in fields {
      assert f in multiset(Sort(fields));
    }
    SubsetDepth(Sort(fields), fields);
  }

  lemma {:induction false} UnnamedWithin(fields: seq<Field>, schema: seq<NamedSchema>)
    ensures forall f :: f in Unnamed(fields, schema) ==> f in fields
    ensures |Unnamed(fields, schema)| <= |fields|
  {
    if fields != [] {
      UnnamedWithin(fields[1..], schema);
    }
  }

  lemma UnnamedDepth(fields: seq<Field>, schema: seq<NamedSchema>)
    ensures FieldsDepth(Unnamed(fields, schema)) <= FieldsDepth(fields)
    ensures |Unnamed(fields, schema)| <= |fields|
  {
    UnnamedWithin(fields, schema);
    SubsetDepth(Unnamed(fields, schema), fields);
  }

  lemma {:induction false} GetWithin(fields: seq<Field>, name: Bytes)
    ensures Get(fields, name).Some? ==> exists f :: f in fields && f.value == Get(fields, name).value
  {
    if fields != [] && fields[0].name != name {
      GetWithin(fields[1..], name);
    } else if fields != [] {
      assert fields[0] in fields;
    }
  }

  lemma OfferedDepth(x: Struct, f: NamedSchema)
    ensures Depth(Offered(x, f)) < FieldsDepth(x.fields) || Depth(Offered(x, f)) == 0
  {
    GetWithin(x.fields, f.name);
    var found := Get(x.fields, f.name);
    if found.Some? {
      var g :| g in x.fields && g.value == found.value;
      FieldDepth(x.fields, g);
    }
  }

  // ----- types whose values do not nest -----

  predicate Flat(t: VMType) {
    !t.TDynamic? && !t.TStruct? && !t.TArrayDynamic? && !t.TArrayStruct? && !t.TArray?
  }

  function EncodeRaw(b: Bytes): Option<Bytes> {
    Some(b)
  }

  function DecodeRaw(n: nat): Bytes -> Read<Bytes> {
    s => Take(n, s)
  }

  function EncodeFlat(t: VMType, d: Value): Option<Bytes>
    requires Flat(t)
  {
    match t
    case TBytes => EncodeBlob(AsBytes(d))
    case TInt(w) => Some(LE(w, AsInt(d)))
    case TInt256 => EncodeBigInt(AsBigInt(d))
    case TFixed(n) => Some(AsFixed(n, d))
    case TString => EncodeZ(AsText(d))
    case TArrayBytes => EncodeArray(AsBlobs(d), EncodeBlob)
    case TArrayInt(w) => EncodeArray(AsInts(w, d), EncodeInt(w))
    case TArrayInt256 => EncodeArray(AsBigInts(d), EncodeBigInt)
    case TArrayFixed(n) => EncodeArray(AsFixeds(n, d), EncodeRaw)
    case TArrayString => EncodeArray(AsTexts(d), EncodeZ)
  }

  function DecodeFlat(t: VMType, s: Bytes): (r: Read<Value>)
    requires Flat(t)
    ensures r.Got? ==> |r.rest| <= |s|
  {
    match t
    case TBytes =>
      var (b, rest) :- DecodeBlob(s);
      Got(VBytes(b), rest)
    case TInt(w) =>
      var (n, rest) :- DecodeIntAt(w, s);
      Got(VInt(n), rest)
    case TInt256 =>
      var (n, rest) :- DecodeBigInt(s);
      Got(VInt256(n), rest)
    case TFixed(n) =>
      var (b, rest) :- Take(n, s);
      Got(VFixed(b), rest)
    case TString =>
      var (x, rest) :- DecodeZ(s);
      Got(VString(x), rest)
    case TArrayBytes =>
      ArrayShrinks(4, DecodeBlob, s);
      var (bs, rest) :- DecodeArray(4, DecodeBlob, s);
      Got(VArrayBytes(bs), rest)
    case TArrayInt(w) =>
      ArrayShrinks(w, DecodeInt(w), s);
      var (ns, rest) :- DecodeArray(w, DecodeInt(w), s);
      Got(VArrayInt(w, ns), rest)
    case TArrayInt256 =>
      ArrayShrinks(1, DecodeBigInt, s);
      var (ns, rest) :- DecodeArray(1, DecodeBigInt, s);
      Got(VArrayInt256(ns), rest)
    case TArrayFixed(n) =>
      ArrayShrinks(n, DecodeRaw(n), s);
      var (bs, rest) :- DecodeArray(n, DecodeRaw(n), s);
      Got(VArrayFixed(n, bs), rest)
    case TArrayString =>
      ArrayShrinks(1, DecodeZ, s);
      var (xs, rest) :- DecodeArray(1, DecodeZ, s);
      Got(VArrayString(xs), rest)
  }

  /** The value a flat one is read back as: integers cast to their width, mismatches defaulted. */
  function CanonFlat(t: VMType, d: Value): Value
    requires Flat(t)
  {
    match t
    case TBytes => VBytes(AsBytes(d))
    case TInt(w) => VInt(Cast(w)(AsInt(d)))
    case TInt256 => VInt256(Reduce(AsBigInt(d)))
    case TFixed(n) => VFixed(AsFixed(n, d))
    case TString => VString(AsText(d))
    case TArrayBytes => VArrayBytes(AsBlobs(d))
    case TArrayInt(w) => VArrayInt(w, Map(Cast(w), AsInts(w, d)))
    case TArrayInt256 => VArrayInt256(Map(Reduce, AsBigInts(d)))
    case TArrayFixed(n) => VArrayFixed(n, AsFixeds(n, d))
    case TArrayString => VArrayString(AsTexts(d))
  }

  // ----- writing -----

  function EncodeStatic(t: VMType, schema: Option<StructSchema>, d: Value): Option<Bytes>
    decreases Depth(d), DefHeight(schema), if t.TDynamic? then 1 else 0, 4, 0
  {
    match t
    case TDynamic => EncodeVariable(AsDynamic(d))
    case TStruct =>
      if schema.Some? then EncodeWith(schema.value, AsStruct(d)) else EncodeStruct(AsStruct(d))
    case TArrayDynamic => EncodeVariableArray(AsVariables(d))
    case TArrayStruct => EncodeStructArray(schema, OwnSchema(d), AsStructs(d))
    case TArray => None
    case _ => EncodeFlat(t, d)
  }

  function EncodeVariableArray(vs: seq<Variable>): Option<Bytes>
    decreases VariablesDepth(vs), 0, 0, 3, 0
  {
    var head :- EncodeLen(|vs|);
    var body :- EncodeVariables(vs);
    Some(head + body)
  }

  /** Without a schema from outside, the array's own is written between the count and the items. */
  function EncodeStructArray(schema: Option<StructSchema>, own: StructSchema, xs: seq<Struct>): Option<Bytes>
    decreases StructsDepth(xs), 0, 0, 3, 0
  {
    var head :- EncodeLen(|xs|);
    var prefix :- EncodeOwn(schema, own);
    var body :- EncodeStructs(Used(schema, own), xs);
    Some(head + (prefix + body))
  }

  function EncodeOwn(schema: Option<StructSchema>, own: StructSchema): Option<Bytes> {
    if schema.Some? then Some([]) else EncodeSchema(own)
  }

  /** The schema the items of a struct array are written with: the given one, or the array's own. */
  function Used(schema: Option<StructSchema>, own: StructSchema): StructSchema {
    if schema.Some? then schema.value else own
  }

  function EncodeVariable(v: Variable): Option<Bytes>
    decreases Depth(v.data), 0, if v.vmType.TDynamic? then 1 else 0, 5, 0
  {
    var body :- EncodeStatic(v.vmType, None, v.data);
    Some([Code(v.vmType)] + body)
  }

  function EncodeVariables(vs: seq<Variable>): Option<Bytes>
    decreases VariablesDepth(vs), 0, 0, 2, |vs|
  {
    if vs == [] then Some([]) else
      assert VariableDepth(vs[0]) == Depth(vs[0].data);
      var head :- EncodeVariable(vs[0]);
      var tail :- EncodeVariables(vs[1..]);
      Some(head + tail)
  }

  function EncodeFields(fields: seq<Field>): Option<Bytes>
    decreases FieldsDepth(fields), 0, 0, 2, |fields|
  {
    if fields == [] then Some([]) else
      var head :- EncodeField(fields[0]);
      var tail :- EncodeFields(fields[1..]);
      Some(head + tail)
  }

  function EncodeField(f: Field): Option<Bytes>
    decreases Depth(f.value.data), 0, if f.value.vmType.TDynamic? then 1 else 0, 6, 0
  {
    var name :- EncodeSmall(f.name);
    var value :- EncodeVariable(f.value);
    Some(name + value)
  }

  /** A counted list of named values: the self-describing form, and the extras of a schema-bound struct. */
  function EncodeNamed(fields: seq<Field>): Option<Bytes>
    decreases FieldsDepth(fields), 0, 0, 2, |fields| + 1
  {
    var head :- EncodeLen(|fields|);
    var body :- EncodeFields(fields);
    Some(head + body)
  }

  function EncodeStruct(x: Struct): Option<Bytes>
    decreases FieldsDepth(x.fields), 0, 0, 3, 0
  {
    SortDepth(x.fields);
    EncodeNamed(Sort(x.fields))
  }

  function EncodeWith(schema: StructSchema, x: Struct): Option<Bytes>
    decreases FieldsDepth(x.fields), SchemaHeight(schema.fields), 0, 3, 0
  {
    var body :- EncodeBound(schema.fields, x);
    var extras :- EncodeExtras(schema, x);
    Some(body + extras)
  }

  function EncodeExtras(schema: StructSchema, x: Struct): Option<Bytes>
    decreases FieldsDepth(x.fields), 0, 0, 2, |x.fields| + 2
  {
    UnnamedDepth(x.fields, schema.fields);
    if DynamicExtras(schema) then EncodeNamed(Unnamed(x.fields, schema.fields)) else Some([])
  }

  function EncodeBound(schema: seq<NamedSchema>, x: Struct): Option<Bytes>
    decreases FieldsDepth(x.fields), SchemaHeight(schema), 0, 2, |schema|
  {
    if schema == [] then Some([]) else
      OfferedDepth(x, schema[0]);
      var head :- EncodeStatic(schema[0].schema.vmType, schema[0].schema.structDef, Offered(x, schema[0]));
      var tail :- EncodeBound(schema[1..], x);
      Some(head + tail)
  }

  function EncodeStructs(schema: StructSchema, xs: seq<Struct>): Option<Bytes>
    decreases StructsDepth(xs), 0, 0, 2, |xs|
  {
    if xs == [] then Some([]) else
      var head :- EncodeWith(schema, xs[0]);
      var tail :- EncodeStructs(schema, xs[1..]);
      Some(head + tail)
  }

  // ----- reading: unread bytes, then the height of the schema, bound every recursion -----

  function DecodeStatic(t: VMType, schema: Option<StructSchema>, s: Bytes): (r: Read<Value>)
    ensures r.Got? ==> |r.rest| <= |s|
    decreases |s|, DefHeight(schema), 4, 0
  {
    match t
    case TDynamic =>
      var (v, rest) :- DecodeVariable(s);
      Got(VDynamic(v), rest)
    case TStruct =>
      var (x, rest) :- if schema.Some? then DecodeWith(schema.value, s) else DecodeStruct(s);
      Got(VStruct(x), rest)
    case TArrayDynamic =>
      var (vs, rest) :- DecodeVariableArray(s);
      Got(VArrayDynamic(vs), rest)
    case TArrayStruct =>
      var (a, rest) :- DecodeStructArray(schema, s);
      Got(VArrayStruct(a.0, a.1), rest)
    case TArray => Refused
    case _ => DecodeFlat(t, s)
  }

  function DecodeVariableArray(s: Bytes): (r: Read<seq<Variable>>)
    ensures r.Got? ==> |r.rest| < |s|
    decreases |s|, 0, 3, 0
  {
    var (n, rest) :- DecodeLenFor(1, s);
    DecodeVariables(n, rest)
  }

  function DecodeStructArray(schema: Option<StructSchema>, s: Bytes): (r: Read<(StructSchema, seq<Struct>)>)
    ensures r.Got? ==> |r.rest| < |s|
    decreases |s|, 0, 3, 0
  {
    var (n, rest) :- DecodeLenFor(1, s);
    var (used, rest') :- DecodeOwn(schema, rest);
    var (xs, rest'') :- DecodeStructs(n, used, rest');
    Got((used, xs), rest'')
  }

  function DecodeOwn(schema: Option<StructSchema>, s: Bytes): (r: Read<StructSchema>)
    ensures r.Got? ==> |r.rest| <= |s|
  {
    if schema.Some? then Got(schema.value, s) else DecodeSchema(s)
  }

  function DecodeVariable(s: Bytes): (r: Read<Variable>)
    ensures r.Got? ==> |r.rest| < |s|
    decreases |s|, 0, 0, 0
  {
    var (code, rest) :- Take(1, s);
    var t := TypeOf(code[0]);
    if t.None? then Refused else
      var (d, rest') :- DecodeStatic(t.value, None, rest);
      Got(Variable(t.value, d), rest')
  }

  function DecodeVariables(n: nat, s: Bytes): (r: Read<seq<Variable>>)
    ensures r.Got? ==> |r.rest| <= |s| && |r.value| == n
    decreases |s|, 0, 1, n
  {
    if n == 0 then Got([], s) else
      var (v, rest) :- DecodeVariable(s);
      var (vs, rest') :- DecodeVariables(n - 1, rest);
      Got([v] + vs, rest')
  }

  function DecodeFields(n: nat, s: Bytes): (r: Read<seq<Field>>)
    ensures r.Got? ==> |r.rest| <= |s| && |r.value| == n
    decreases |s|, 0, 1, n
  {
    if n == 0 then Got([], s) else
      var (f, rest) :- DecodeField(s);
      var (fields, rest') :- DecodeFields(n - 1, rest);
      Got([f] + fields, rest')
  }

  function DecodeField(s: Bytes): (r: Read<Field>)
    ensures r.Got? ==> |r.rest| < |s|
    decreases |s|, 0, 0, 1
  {
    var (name, rest) :- DecodeSmall(s);
    var (v, rest') :- DecodeVariable(rest);
    Got(Field(name, v), rest')
  }

  function DecodeNamed(s: Bytes): (r: Read<seq<Field>>)
    ensures r.Got? ==> |r.rest| < |s|
    decreases |s|, 0, 2, 0
  {
    var (n, rest) :- DecodeLenFor(1, s);
    DecodeFields(n, rest)
  }

  function DecodeStruct(s: Bytes): (r: Read<Struct>)
    ensures r.Got? ==> |r.rest| < |s|
    decreases |s|, 0, 3, 0
  {
    var (fields, rest) :- DecodeNamed(s);
    Got(Struct(Sort(fields)), rest)
  }

  function DecodeWith(schema: StructSchema, s: Bytes): (r: Read<Struct>)
    ensures r.Got? ==> |r.rest| <= |s|
    decreases |s|, SchemaHeight(schema.fields), 3, 0
  {
    var (fields, rest) :- DecodeBound(schema.fields, s);
    var (extras, rest') :- DecodeExtras(schema, rest);
    Got(Struct(Sort(fields + extras)), rest')
  }

  function DecodeExtras(schema: StructSchema, s: Bytes): (r: Read<seq<Field>>)
    ensures r.Got? ==> |r.rest| <= |s|
    decreases |s|, 0, 2, 1
  {
    if DynamicExtras(schema) then DecodeNamed(s) else Got([], s)
  }

  function DecodeBound(schema: seq<NamedSchema>, s: Bytes): (r: Read<seq<Field>>)
    ensures r.Got? ==> |r.rest| <= |s|
    decreases |s|, SchemaHeight(schema), 2, |schema|
  {
    if schema == [] then Got([], s) else
      var (d, rest) :- DecodeStatic(schema[0].schema.vmType, schema[0].schema.structDef, s);
      var (fields, rest') :- DecodeBound(schema[1..], rest);
      Got([Field(schema[0].name, Variable(schema[0].schema.vmType, d))] + fields, rest')
  }

  function DecodeStructs(n: nat, schema: StructSchema, s: Bytes): (r: Read<seq<Struct>>)
    ensures r.Got? ==> |r.rest| <= |s| && |r.value| == n
    decreases |s|, SchemaHeight(schema.fields), 4, n
  {
    if n == 0 then Got([], s) else
      var (x, rest) :- DecodeWith(schema, s);
      var (xs, rest') :- DecodeStructs(n - 1, schema, rest);
      Got([x] + xs, rest')
  }

  // ----- one item of a list at a time -----

  lemma VariablesCons(n: nat, k: nat, s: Bytes, v: Variable, rest: Bytes, vs: seq<Variable>, r: Bytes)
    requires n == k + 1 && DecodeVariable(s) == Got(v, rest) && DecodeVariables(k, rest) == Got(vs, r)
    ensures DecodeVariables(n, s) == Got([v] + vs, r)
  {
    var head, tail := DecodeVariable(s), DecodeVariables(k, rest);
    assert n != 0 && n - 1 == k && !head.IsFailure() && !tail.IsFailure();
    assert head.Extract() == (v, rest) && tail.Extract() == (vs, r);
  }

  lemma VariablesSplit(n: nat, k: nat, s: Bytes)
    requires n == k + 1 && DecodeVariables(n, s).Got?
    ensures DecodeVariable(s).Got? && DecodeVariables(k, DecodeVariable(s).rest).Got?
    ensures var tail := DecodeVariables(k, DecodeVariable(s).rest);
            DecodeVariables(n, s) == Got([DecodeVariable(s).value] + tail.value, tail.rest)
  {
    assert n - 1 == k;
  }

  lemma FieldsCons(n: nat, k: nat, s: Bytes, f: Field, rest: Bytes, fields: seq<Field>, r: Bytes)
    requires n == k + 1 && DecodeField(s) == Got(f, rest) && DecodeFields(k, rest) == Got(fields, r)
    ensures DecodeFields(n, s) == Got([f] + fields, r)
  {
    var head, tail := DecodeField(s), DecodeFields(k, rest);
    assert n != 0 && n - 1 == k && !head.IsFailure() && !tail.IsFailure();
    assert head.Extract() == (f, rest) && tail.Extract() == (fields, r);
  }

  lemma FieldsSplit(n: nat, k: nat, s: Bytes)
    requires n == k + 1 && DecodeFields(n, s).Got?
    ensures DecodeField(s).Got? && DecodeFields(k, DecodeField(s).rest).Got?
    ensures var tail := DecodeFields(k, DecodeField(s).rest);
            DecodeFields(n, s) == Got([DecodeField(s).value] + tail.value, tail.rest)
  {
    assert n - 1 == k;
  }

  lemma StructsCons(n: nat, k: nat, schema: StructSchema, s: Bytes, x: Struct, rest: Bytes, xs: seq<Struct>, r: Bytes)
    requires n == k + 1 && DecodeWith(schema, s) == Got(x, rest) && DecodeStructs(k, schema, rest) == Got(xs, r)
    ensures DecodeStructs(n, schema, s) == Got([x] + xs, r)
  {
    var head, tail := DecodeWith(schema, s), DecodeStructs(k, schema, rest);
    assert n != 0 && n - 1 == k && !head.IsFailure() && !tail.IsFailure();
    assert head.Extract() == (x, rest) && tail.Extract() == (xs, r);
  }

  lemma StructsSplit(n: nat, k: nat, schema: StructSchema, s: Bytes)
    requires n == k + 1 && DecodeStructs(n, schema, s).Got?
    ensures DecodeWith(schema, s).Got? && DecodeStructs(k, schema, DecodeWith(schema, s).rest).Got?
    ensures var tail := DecodeStructs(k, schema, DecodeWith(schema, s).rest);
            DecodeStructs(n, schema, s) == Got([DecodeWith(schema, s).value] + tail.value, tail.rest)
  {
    assert n - 1 == k;
  }

  // ----- the canonical value -----

  function CanonStatic(t: VMType, schema: Option<StructSchema>, d: Value): Value
    decreases Depth(d), DefHeight(schema), if t.TDynamic? then 1 else 0, 4, 0
  {
    match t
    case TDynamic => VDynamic(CanonVariable(AsDynamic(d)))
    case TStruct =>
      VStruct(if schema.Some? then CanonWith(schema.value, AsStruct(d)) else CanonStruct(AsStruct(d)))
    case TArrayDynamic => VArrayDynamic(CanonVariables(AsVariables(d)))
    case TArrayStruct =>
      var used := Used(schema, OwnSchema(d));
      VArrayStruct(used, CanonStructs(used, AsStructs(d)))
    case TArray => VNone
    case _ => CanonFlat(t, d)
  }

  function CanonVariable(v: Variable): Variable
    decreases Depth(v.data), 0, if v.vmType.TDynamic? then 1 else 0, 5, 0
  {
    Variable(v.vmType, CanonStatic(v.vmType, None, v.data))
  }

  function CanonVariables(vs: seq<Variable>): (r: seq<Variable>)
    ensures |r| == |vs|
    decreases VariablesDepth(vs), 0, 0, 2, |vs|
  {
    if vs == [] then [] else
      assert VariableDepth(vs[0]) == Depth(vs[0].data);
      [CanonVariable(vs[0])] + CanonVariables(vs[1..])
  }

  function CanonFields(fields: seq<Field>): (r: seq<Field>)
    ensures |r| == |fields|
    ensures forall i :: 0 <= i < |r| ==> r[i].name == fields[i].name
    decreases FieldsDepth(fields), 0, 0, 2, |fields|
  {
    if fields == [] then [] else
      [Field(fields[0].name, CanonVariable(fields[0].value))] + CanonFields(fields[1..])
  }

  function CanonStruct(x: Struct): Struct
    decreases FieldsDepth(x.fields), 0, 0, 3, 0
  {
    SortDepth(x.fields);
    Struct(Sort(CanonFields(Sort(x.fields))))
  }

  /** The schema's fields in their canonical form, then the extras where the schema keeps them, sorted by name. */
  function CanonWith(schema: StructSchema, x: Struct): Struct
    decreases FieldsDepth(x.fields), SchemaHeight(schema.fields), 0, 3, 0
  {
    Struct(Sort(CanonBound(schema.fields, x) + CanonExtras(schema, x)))
  }

  function CanonExtras(schema: StructSchema, x: Struct): seq<Field>
    decreases FieldsDepth(x.fields), 0, 0, 2, |x.fields| + 2
  {
    UnnamedDepth(x.fields, schema.fields);
    if DynamicExtras(schema) then CanonFields(Unnamed(x.fields, schema.fields)) else []
  }

  function CanonBound(schema: seq<NamedSchema>, x: Struct): (r: seq<Field>)
    ensures |r| == |schema|
    ensures forall i :: 0 <= i < |r| ==> r[i].name == schema[i].name
    decreases FieldsDepth(x.fields), SchemaHeight(schema), 0, 2, |schema|
  {
    if schema == [] then [] else
      OfferedDepth(x, schema[0]);
      [Field(schema[0].name,
             Variable(schema[0].schema.vmType,
                      CanonStatic(schema[0].schema.vmType, schema[0].schema.structDef, Offered(x, schema[0]))))]
      + CanonBound(schema[1..], x)
  }

  function CanonStructs(schema: StructSchema, xs: seq<Struct>): (r: seq<Struct>)
    ensures |r| == |xs|
    decreases StructsDepth(xs), 0, 0, 2, |xs|
  {
    if xs == [] then [] else [CanonWith(schema, xs[0])] + CanonStructs(schema, xs[1..])
  }
}
