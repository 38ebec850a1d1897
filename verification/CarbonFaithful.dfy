/**
  Values that come back as they were. A value typed as its schema asks, at every depth, is read back
  unchanged; what a struct lacks, or holds in another kind, is read back as the zero of its type.
 */
module CarbonFaithful {
  import opened Words
  import opened CarbonWire
  import opened CarbonSchema
  import opened CarbonValues
  import opened CarbonSort
  import opened CarbonRoundTrip
  import opened CarbonCanonical
  import CarbonPrefix

  // ----- typed values -----

  /** The fields of one name, in order. */
  function Named(fields: seq<Field>, name: Bytes): (r: seq<Field>)
    ensures forall f :: f in r ==> f in fields && f.name == name
  {
    if fields == [] then []
    else if fields[0].name == name then [fields[0]] + Named(fields[1..], name)
    else Named(fields[1..], name)
  }

  /** A value of its type: integers within their width, structs in name order and as their schema has them. */
  ghost predicate TypedStatic(t: VMType, schema: Option<StructSchema>, d: Value)
    decreases Depth(d), DefHeight(schema), if t.TDynamic? then 1 else 0, 4, 0
  {
    match t
    case TDynamic => d.VDynamic? && TypedVariable(d.variable)
    case TBytes => d.VBytes?
    case TStruct => d.VStruct? && if schema.Some? then TypedWith(schema.value, d.struct) else TypedStruct(d.struct)
    case TInt(w) => d.VInt? && FitsSigned(w, d.number)
    case TInt256 => d.VInt256? && FitsSigned(32, d.number)
    case TFixed(n) => d.VFixed? && |d.bytes| == n
    case TString => d.VString?
    case TArrayDynamic => d.VArrayDynamic? && TypedVariables(d.variables)
    case TArrayBytes => d.VArrayBytes?
    case TArrayStruct => d.VArrayStruct? && (schema.Some? ==> d.schema == schema.value) && TypedStructs(d.schema, d.structs)
    case TArrayInt(w) => d.VArrayInt? && d.width == w && forall n :: n in d.numbers ==> FitsSigned(w, n)
    case TArrayInt256 => d.VArrayInt256? && forall n :: n in d.numbers ==> FitsSigned(32, n)
    case TArrayFixed(n) => d.VArrayFixed? && d.size == n
    case TArrayString => d.VArrayString?
    case TArray => false
  }

  ghost predicate TypedVariable(v: Variable)
    decreases Depth(v.data), 0, if v.vmType.TDynamic? then 1 else 0, 5, 0
  {
    TypedStatic(v.vmType, None, v.data)
  }

  ghost predicate TypedVariables(vs: seq<Variable>)
    decreases VariablesDepth(vs), 0, 0, 2, |vs|
  {
    vs != [] ==>
      (assert VariableDepth(vs[0]) == Depth(vs[0].data); TypedVariable(vs[0]) && TypedVariables(vs[1..]))
  }

  ghost predicate TypedFields(fields: seq<Field>)
    decreases FieldsDepth(fields), 0, 0, 2, |fields|
  {
    fields != [] ==> TypedVariable(fields[0].value) && TypedFields(fields[1..])
  }

  ghost predicate TypedStruct(x: Struct)
    decreases FieldsDepth(x.fields), 0, 0, 3, 0
  {
    SortedNames(x.fields) && TypedFields(x.fields)
  }

  /** Each schema field once and of its type, others only where the schema keeps extras, all in name order. */
  ghost predicate TypedWith(schema: StructSchema, x: Struct)
    decreases FieldsDepth(x.fields), SchemaHeight(schema.fields), 0, 3, 0
  {
    SortedNames(x.fields) && DistinctNames(schema.fields) && TypedBound(schema.fields, x) && TypedOthers(schema, x.fields)
  }

  ghost predicate TypedBound(schema: seq<NamedSchema>, x: Struct)
    decreases FieldsDepth(x.fields), SchemaHeight(schema), 0, 2, |schema|
  {
    schema != [] ==>
      var own := Named(x.fields, schema[0].name);
      && |own| == 1 && own[0].value.vmType == schema[0].schema.vmType
      && (assert own[0] in own; FieldDepth(x.fields, own[0]); TypedStatic(own[0].value.vmType, schema[0].schema.structDef, own[0].value.data))
      && TypedBound(schema[1..], x)
  }

  ghost predicate TypedOthers(schema: StructSchema, fields: seq<Field>)
    decreases FieldsDepth(fields), 0, 0, 2, |fields|
  {
    fields != [] ==>
      && ((exists i :: 0 <= i < |schema.fields| && schema.fields[i].name == fields[0].name)
          || (schema.flags % 2 == 1 && TypedVariable(fields[0].value)))
      && TypedOthers(schema, fields[1..])
  }

  ghost predicate TypedStructs(schema: StructSchema, xs: seq<Struct>)
    decreases StructsDepth(xs), 0, 0, 2, |xs|
  {
    xs != [] ==> TypedWith(schema, xs[0]) && TypedStructs(schema, xs[1..])
  }

  // ----- a stable sort is fixed by the fields of each name -----

  lemma {:induction false} NamedConcat(a: seq<Field>, b: seq<Field>, name: Bytes)
    ensures Named(a + b, name) == Named(a, name) + Named(b, name)
  {
    if a == [] {
      assert a + b == b;
    } else {
      assert (a + b)[1..] == a[1..] + b;
      NamedConcat(a[1..], b, name);
    }
  }

  lemma NamedOne(f: Field, name: Bytes)
    ensures Named([f], name) == if f.name == name then [f] else []
  {
    assert [f][1..] == [];
  }

  lemma {:induction false} InsertCommutes(f: Field, g: Field, fields: seq<Field>)
    requires f.name != g.name
    ensures Insert(g, Insert(f, fields)) == Insert(f, Insert(g, fields))
  {
    BeforeTotal(f.name, g.name);
    if fields != [] {
      var h, rest := fields[0], fields[1..];
      if Before(h.name, f.name) && Before(h.name, g.name) {
        InsertCommutes(f, g, rest);
        BothBefore(f, g, h, rest);
        BothBefore(g, f, h, rest);
      } else if Before(h.name, f.name) {
        OneBefore(f, g, fields);
      } else if Before(h.name, g.name) {
        OneBefore(g, f, fields);
      } else {
        NoneBeforeTwo(f, g, fields);
        NoneBeforeTwo(g, f, fields);
      }
    } else {
      InsertTwo(f, g);
      InsertTwo(g, f);
    }
  }

  lemma InsertTwo(f: Field, g: Field)
    ensures Insert(g, Insert(f, [])) == if Before(f.name, g.name) then [f, g] else [g, f]
  {
    assert [f][1..] == [];
  }

  lemma InsertAhead(f: Field, h: Field, rest: seq<Field>)
    ensures Insert(f, [h] + rest) == if Before(h.name, f.name) then [h] + Insert(f, rest) else [f] + ([h] + rest)
  {
    assert ([h] + rest)[1..] == rest;
  }

  lemma BothBefore(f: Field, g: Field, h: Field, rest: seq<Field>)
    requires Before(h.name, f.name) && Before(h.name, g.name)
    ensures Insert(g, Insert(f, [h] + rest)) == [h] + Insert(g, Insert(f, rest))
    ensures forall fields :: fields != [] && fields[0] == h && fields[1..] == rest ==> fields == [h] + rest
  {
    InsertAhead(f, h, rest);
    InsertAhead(g, h, Insert(f, rest));
  }

  /** The head goes between the two. */
  lemma OneBefore(f: Field, g: Field, fields: seq<Field>)
    requires fields != [] && Before(fields[0].name, f.name) && !Before(fields[0].name, g.name)
    ensures Insert(g, Insert(f, fields)) == Insert(f, Insert(g, fields))
  {
    var h, rest := fields[0], fields[1..];
    assert fields == [h] + rest;
    if !Before(g.name, f.name) {
      BeforeTransitive(f.name, g.name, h.name);
    }
    InsertAhead(f, h, rest);
    InsertAhead(g, h, Insert(f, rest));
    InsertAhead(g, h, rest);
    InsertAhead(f, g, fields);
  }

  lemma NoneBeforeTwo(f: Field, g: Field, fields: seq<Field>)
    requires fields != [] && !Before(fields[0].name, f.name) && !Before(fields[0].name, g.name)
    ensures Insert(g, Insert(f, fields)) == if Before(f.name, g.name) then [f] + ([g] + fields) else [g] + ([f] + fields)
  {
    InsertAhead(g, f, fields);
  }

  lemma MoveTail(a: seq<Field>, f: Field, b: seq<Field>)
    requires |a| > 0
    ensures var whole, without := a + [f] + b, a + b;
            whole[0] == a[0] == without[0] && whole[1..] == a[1..] + [f] + b && without[1..] == a[1..] + b
  {
  }

  lemma MoveNone(a: seq<Field>, f: Field, b: seq<Field>)
    requires |a| == 0
    ensures (a + [f] + b)[0] == f && (a + [f] + b)[1..] == b && a + b == b
  {
  }

  lemma {:induction false} SortMove(a: seq<Field>, f: Field, b: seq<Field>, whole: seq<Field>, without: seq<Field>)
    requires whole == a + [f] + b && without == a + b && forall g :: g in a ==> g.name != f.name
    ensures Sort(whole) == Insert(f, Sort(without))
    decreases |a|
  {
    SortOfCons(whole);
    if |a| == 0 {
      MoveNone(a, f, b);
    } else {
      assert a[0] in a;
      MoveTail(a, f, b);
      SortMove(a[1..], f, b, whole[1..], without[1..]);
      SortOfCons(without);
      InsertCommutes(f, a[0], Sort(without[1..]));
    }
  }

  lemma {:induction false} FirstAt(fields: seq<Field>, name: Bytes) returns (j: nat)
    requires Named(fields, name) != []
    ensures j < |fields| && fields[j] == Named(fields, name)[0] && forall k :: 0 <= k < j ==> fields[k].name != name
  {
    if fields[0].name == name {
      j := 0;
    } else {
      j := FirstAt(fields[1..], name);
      j := j + 1;
    }
  }

  ghost predicate SameByName(p: seq<Field>, q: seq<Field>) {
    forall name :: Named(p, name) == Named(q, name)
  }

  lemma NamedFirst(fields: seq<Field>)
    ensures fields != [] ==> Named(fields, fields[0].name) != []
  {
  }

  lemma {:induction false} SortByName(p: seq<Field>, q: seq<Field>)
    requires SameByName(p, q)
    ensures Sort(p) == Sort(q)
    decreases |p|
  {
    if |p| == 0 {
      NamedFirst(q);
      assert q == [];
    } else {
      var f := p[0];
      assert Named(p, f.name) == Named(q, f.name);
      var j := FirstAt(q, f.name);
      var a, b := q[..j], q[j + 1..];
      assert q == a + [f] + b;
      Removed(p, q, a, b, f);
      SortByName(p[1..], a + b);
      SortMove(a, f, b, q, a + b);
      SortOfCons(p);
    }
  }

  lemma Removed(p: seq<Field>, q: seq<Field>, a: seq<Field>, b: seq<Field>, f: Field)
    requires SameByName(p, q) && p != [] && p[0] == f && q == a + [f] + b && forall g :: g in a ==> g.name != f.name
    ensures SameByName(p[1..], a + b)
  {
    forall name ensures Named(p[1..], name) == Named(a + b, name) {
      assert Named(p, name) == Named(q, name) && p == [f] + p[1..];
      NamedConcat([f], p[1..], name);
      NamedConcat(a + [f], b, name);
      NamedConcat(a, [f], name);
      NamedConcat(a, b, name);
      NamedOne(f, name);
      NoneNamed(a, f.name);
      if name == f.name {
        assert Named(p[1..], name) == ([f] + Named(p[1..], name))[1..] == ([f] + Named(b, name))[1..] == Named(b, name);
      }
    }
  }

  lemma {:induction false} NoneNamed(fields: seq<Field>, name: Bytes)
    requires forall f :: f in fields ==> f.name != name
    ensures Named(fields, name) == []
  {
    if fields != [] {
      assert fields[0] in fields;
      NoneNamed(fields[1..], name);
    }
  }

  // ----- the fields of a typed struct -----

  /** The fields a schema names, in the order of the schema. */
  function Picked(schema: seq<NamedSchema>, fields: seq<Field>): (r: seq<Field>)
    requires forall i :: 0 <= i < |schema| ==> |Named(fields, schema[i].name)| == 1
    ensures |r| == |schema| && forall i :: 0 <= i < |schema| ==> r[i] == Named(fields, schema[i].name)[0]
  {
    seq(|schema|, i requires 0 <= i < |schema| => Named(fields, schema[i].name)[0])
  }

  ghost predicate OnceEach(schema: seq<NamedSchema>, fields: seq<Field>) {
    forall i :: 0 <= i < |schema| ==> |Named(fields, schema[i].name)| == 1
  }

  lemma {:induction false} BoundOnce(schema: seq<NamedSchema>, x: Struct)
    requires TypedBound(schema, x)
    ensures OnceEach(schema, x.fields)
  {
    if schema != [] {
      BoundOnce(schema[1..], x);
      forall i | 0 <= i < |schema| ensures |Named(x.fields, schema[i].name)| == 1 {
        assert i > 0 ==> |Named(x.fields, schema[1..][i - 1].name)| == 1;
      }
    }
  }

  lemma {:induction false} GetNamed(fields: seq<Field>, name: Bytes)
    ensures Get(fields, name) == if Named(fields, name) == [] then None else Some(Named(fields, name)[0].value)
  {
    if fields != [] {
      GetNamed(fields[1..], name);
    }
  }

  lemma {:induction false} UnnamedNamed(fields: seq<Field>, schema: seq<NamedSchema>, name: Bytes)
    ensures Named(Unnamed(fields, schema), name) == if Names(schema, name) then [] else Named(fields, name)
  {
    if fields != [] {
      UnnamedNamed(fields[1..], schema, name);
      var rest := Unnamed(fields[1..], schema);
      assert ([fields[0]] + rest)[1..] == rest;
    }
  }

  lemma PickedNamed(schema: seq<NamedSchema>, fields: seq<Field>, name: Bytes)
    requires DistinctNames(schema) && OnceEach(schema, fields)
    ensures Named(Picked(schema, fields), name) == if Names(schema, name) then Named(fields, name) else []
  {
    var picked := Picked(schema, fields);
    forall i | 0 <= i < |schema| ensures picked[i].name == schema[i].name {
      assert Named(fields, schema[i].name)[0] in Named(fields, schema[i].name);
    }
    if i :| 0 <= i < |schema| && schema[i].name == name {
      OnlyOne(picked, i);
      assert Named(fields, name) == [picked[i]];
    } else {
      forall f | f in picked ensures f.name != name {
        var k :| 0 <= k < |picked| && picked[k] == f;
        assert schema[k].name != name;
      }
      NoneNamed(picked, name);
      assert !Names(schema, name);
    }
  }

  ghost predicate DistinctFieldNames(fields: seq<Field>) {
    forall j, k :: 0 <= j < k < |fields| ==> fields[j].name != fields[k].name
  }

  lemma {:induction false} OnlyOne(fields: seq<Field>, i: nat)
    requires i < |fields| && DistinctFieldNames(fields)
    ensures Named(fields, fields[i].name) == [fields[i]]
  {
    var rest := fields[1..];
    assert forall k :: 0 <= k < |rest| ==> rest[k] == fields[k + 1] && fields[k + 1].name != fields[0].name;
    if i == 0 {
      NoneNamed(rest, fields[0].name);
    } else {
      OnlyOne(rest, i - 1);
    }
  }

  /** Picking a struct's fields apart by its schema and sorting them gives the struct again. */
  lemma PickedBack(schema: seq<NamedSchema>, fields: seq<Field>)
    requires DistinctNames(schema) && OnceEach(schema, fields) && SortedNames(fields)
    ensures Sort(Picked(schema, fields) + Unnamed(fields, schema)) == fields
  {
    var parts := Picked(schema, fields) + Unnamed(fields, schema);
    forall name ensures Named(parts, name) == Named(fields, name) {
      NamedConcat(Picked(schema, fields), Unnamed(fields, schema), name);
      PickedNamed(schema, fields, name);
      UnnamedNamed(fields, schema, name);
    }
    SortByName(parts, fields);
    SortFixed(fields);
  }

  lemma {:induction false} OthersUnnamed(schema: StructSchema, fields: seq<Field>)
    requires TypedOthers(schema, fields)
    ensures schema.flags % 2 == 1 ==> TypedFields(Unnamed(fields, schema.fields))
    ensures schema.flags % 2 != 1 ==> Unnamed(fields, schema.fields) == []
  {
    if fields != [] {
      OthersUnnamed(schema, fields[1..]);
      var rest := Unnamed(fields[1..], schema.fields);
      assert ([fields[0]] + rest)[1..] == rest;
    }
  }

  // ----- a typed value is its own canonical form -----

  lemma CastsKeep(w: IntWidth, xs: seq<int>)
    requires forall n :: n in xs ==> FitsSigned(w, n)
    ensures Map(Cast(w), xs) == xs
  {
    forall x | x in xs ensures Cast(w)(x) == x {
      SignedLE(w, x);
    }
    MapSame(Cast(w), xs);
  }

  lemma ReducesKeep(xs: seq<int>)
    requires forall n :: n in xs ==> FitsSigned(32, n)
    ensures Map(Reduce, xs) == xs
  {
    forall x | x in xs ensures Reduce(x) == x {
      SignedLE(32, x);
    }
    MapSame(Reduce, xs);
  }

  lemma FlatCanon(t: VMType, schema: Option<StructSchema>, d: Value)
    requires Flat(t) && TypedStatic(t, schema, d)
    ensures CanonFlat(t, d) == d
  {
    match t
    case TInt(w) => SignedLE(w, d.number);
    case TInt256 => SignedLE(32, d.number);
    case TArrayInt(w) => CastsKeep(w, d.numbers);
    case TArrayInt256 => ReducesKeep(d.numbers);
    case _ =>
  }

  lemma {:induction false} TypedCanon(t: VMType, schema: Option<StructSchema>, d: Value)
    requires TypedStatic(t, schema, d)
    ensures CanonStatic(t, schema, d) == d
    decreases Depth(d), DefHeight(schema), if t.TDynamic? then 1 else 0, 4, 0
  {
    if t.TDynamic? {
      VariableCanon(d.variable);
    } else if t.TStruct? {
      StructValueCanon(schema, d);
    } else if t.TArrayDynamic? {
      VariablesCanon(d.variables);
    } else if t.TArrayStruct? {
      StructsCanon(d.schema, d.structs);
    } else {
      FlatCanon(t, schema, d);
    }
  }

  lemma {:induction false} StructValueCanon(schema: Option<StructSchema>, d: Value)
    requires TypedStatic(TStruct, schema, d)
    ensures CanonStatic(TStruct, schema, d) == d
    decreases Depth(d), DefHeight(schema), 0, 3, 1
  {
    if schema.Some? {
      WithCanon(schema.value, d.struct);
    } else {
      StructCanon(d.struct);
    }
  }

  lemma {:induction false} VariableCanon(v: Variable)
    requires TypedVariable(v)
    ensures CanonVariable(v) == v
    decreases Depth(v.data), 0, if v.vmType.TDynamic? then 1 else 0, 5, 0
  {
    TypedCanon(v.vmType, None, v.data);
  }

  lemma {:induction false} VariablesCanon(vs: seq<Variable>)
    requires TypedVariables(vs)
    ensures CanonVariables(vs) == vs
    decreases VariablesDepth(vs), 0, 0, 2, |vs|
  {
    if vs != [] {
      assert VariableDepth(vs[0]) == Depth(vs[0].data);
      VariableCanon(vs[0]);
      VariablesCanon(vs[1..]);
    }
  }

  lemma {:induction false} FieldsCanon(fields: seq<Field>)
    requires TypedFields(fields)
    ensures CanonFields(fields) == fields
    decreases FieldsDepth(fields), 0, 0, 2, |fields|
  {
    if fields != [] {
      VariableCanon(fields[0].value);
      FieldsCanon(fields[1..]);
    }
  }

  lemma {:induction false} StructCanon(x: Struct)
    requires TypedStruct(x)
    ensures CanonStruct(x) == x
    decreases FieldsDepth(x.fields), 0, 0, 3, 0
  {
    SortFixed(x.fields);
    FieldsCanon(x.fields);
  }

  lemma {:induction false} WithCanon(schema: StructSchema, x: Struct)
    requires TypedWith(schema, x)
    ensures CanonWith(schema, x) == x
    decreases FieldsDepth(x.fields), SchemaHeight(schema.fields), 0, 3, 0
  {
    BoundOnce(schema.fields, x);
    BoundCanon(schema.fields, x);
    ExtrasCanon(schema, x);
    PickedBack(schema.fields, x.fields);
  }

  lemma {:induction false} ExtrasCanon(schema: StructSchema, x: Struct)
    requires TypedOthers(schema, x.fields)
    ensures CanonExtras(schema, x) == Unnamed(x.fields, schema.fields)
    decreases FieldsDepth(x.fields), 0, 0, 2, |x.fields| + 2
  {
    UnnamedDepth(x.fields, schema.fields);
    OthersUnnamed(schema, x.fields);
    if schema.flags % 2 == 1 {
      FieldsCanon(Unnamed(x.fields, schema.fields));
    }
  }

  lemma {:induction false} BoundCanon(schema: seq<NamedSchema>, x: Struct)
    requires TypedBound(schema, x) && OnceEach(schema, x.fields)
    ensures CanonBound(schema, x) == Picked(schema, x.fields)
    decreases FieldsDepth(x.fields), SchemaHeight(schema), 0, 2, |schema|
  {
    if schema != [] {
      var own := Named(x.fields, schema[0].name);
      assert own[0] in own;
      FieldDepth(x.fields, own[0]);
      GetNamed(x.fields, schema[0].name);
      TypedCanon(own[0].value.vmType, schema[0].schema.structDef, own[0].value.data);
      BoundCanon(schema[1..], x);
      assert Picked(schema, x.fields) == [own[0]] + Picked(schema[1..], x.fields);
    }
  }

  lemma {:induction false} StructsCanon(schema: StructSchema, xs: seq<Struct>)
    requires TypedStructs(schema, xs)
    ensures CanonStructs(schema, xs) == xs
    decreases StructsDepth(xs), 0, 0, 2, |xs|
  {
    if xs != [] {
      WithCanon(schema, xs[0]);
      StructsCanon(schema, xs[1..]);
    }
  }

  /** A typed value that can be read at all is read back as itself. */
  lemma TypedBack(t: VMType, schema: Option<StructSchema>, d: Value, r: Bytes)
    requires TypedStatic(t, schema, d) && EncodeStatic(t, schema, d).Some? && ReadableStatic(t, schema, d)
    ensures DecodeStatic(t, schema, EncodeStatic(t, schema, d).value + r) == Got(d, r)
  {
    TypedCanon(t, schema, d);
    StaticBack(t, schema, d, r);
  }

  lemma TypedWithBack(schema: StructSchema, x: Struct, r: Bytes)
    requires TypedWith(schema, x) && EncodeWith(schema, x).Some? && ReadableWith(schema, x)
    ensures DecodeWith(schema, EncodeWith(schema, x).value + r) == Got(x, r)
  {
    WithCanon(schema, x);
    WithBack(schema, x, r);
  }

  lemma TypedStructBack(x: Struct, r: Bytes)
    requires TypedStruct(x) && EncodeStruct(x).Some? && ReadableStruct(x)
    ensures DecodeStruct(EncodeStruct(x).value + r) == Got(x, r)
  {
    StructCanon(x);
    StructBack(x, r);
  }

  /** Deserialising takes exactly the bytes of a typed struct: with anything behind them it refuses. */
  lemma TypedDeserialized(x: Struct, r: Bytes)
    requires TypedStruct(x) && EncodeStruct(x).Some? && ReadableStruct(x)
    ensures CarbonPrefix.Deserialize(DecodeStruct, EncodeStruct(x).value + r) == if r == [] then Some(x) else None
  {
    TypedStructBack(x, r);
  }

  // ----- the zero of a type -----

  /** Zero, or empty, of the type; for a schema-bound struct in each field of its schema. */
  ghost predicate ZeroOf(t: VMType, def: Option<StructSchema>, v: Value)
    decreases DefHeight(def), 2, 0
  {
    match t
    case TDynamic => v == VDynamic(Variable(TArrayDynamic, VArrayDynamic([])))
    case TBytes => v == VBytes([])
    case TStruct => v.VStruct? && if def.Some? then ZeroStruct(def.value, v.struct) else v.struct.fields == []
    case TInt(_) => v == VInt(0)
    case TInt256 => v == VInt256(0)
    case TFixed(n) => v.VFixed? && |v.bytes| == n && forall i :: 0 <= i < n ==> v.bytes[i] == 0
    case TString => v == VString([])
    case TArrayDynamic => v == VArrayDynamic([])
    case TArrayBytes => v == VArrayBytes([])
    case TArrayStruct => v.VArrayStruct? && v.structs == []
    case TArrayInt(w) => v == VArrayInt(w, [])
    case TArrayInt256 => v == VArrayInt256([])
    case TArrayFixed(n) => v == VArrayFixed(n, [])
    case TArrayString => v == VArrayString([])
    case TArray => false
  }

  /** A field for each of the schema's and no other, each of them zero. */
  ghost predicate ZeroStruct(schema: StructSchema, x: Struct)
    decreases SchemaHeight(schema.fields), 1, 0
  {
    |x.fields| == |schema.fields|
    && forall f :: f in x.fields ==> ZeroField(schema.fields, f)
  }

  ghost predicate ZeroField(schema: seq<NamedSchema>, f: Field)
    decreases SchemaHeight(schema), 0, |schema|
  {
    schema != []
    && ((f.name == schema[0].name && f.value.vmType == schema[0].schema.vmType
         && ZeroOf(f.value.vmType, schema[0].schema.structDef, f.value.data))
        || ZeroField(schema[1..], f))
  }

  lemma {:induction false} ZeroWider(schema: seq<NamedSchema>, fields: seq<Field>)
    requires schema != [] && forall f :: f in fields ==> ZeroField(schema[1..], f)
    ensures forall f :: f in fields ==> ZeroField(schema, f)
  {
  }

  lemma CastsZero(w: IntWidth)
    ensures Cast(w)(0) == 0 && Reduce(0) == 0
  {
    Pow256Least(w);
    Pow256Least(32);
    SignedLE(w, 0);
    SignedLE(32, 0);
  }

  lemma Pow256Least(n: nat)
    ensures Pow256(n) >= 1
  {
  }

  lemma FlatIsZero(t: VMType, def: Option<StructSchema>)
    requires Flat(t)
    ensures ZeroOf(t, def, CanonFlat(t, Default(t)))
  {
    if t.TInt? {
      CastsZero(t.width);
    } else {
      CastsZero(1);
    }
  }

  lemma FlatStatic(t: VMType, def: Option<StructSchema>, d: Value)
    requires Flat(t)
    ensures EncodeStatic(t, def, d) == EncodeFlat(t, d) && CanonStatic(t, def, d) == CanonFlat(t, d)
  {
  }

  lemma {:induction false} DefaultIsZero(t: VMType, def: Option<StructSchema>)
    requires EncodeStatic(t, def, Default(t)).Some?
    ensures ZeroOf(t, def, CanonStatic(t, def, Default(t)))
    decreases DefHeight(def), 2, 0
  {
    if Flat(t) {
      FlatStatic(t, def, Default(t));
      FlatIsZero(t, def);
    } else if t.TStruct? {
      StructIsZero(def);
    } else if t.TDynamic? {
      NoneIsZero();
    }
  }

  lemma {:induction false} StructIsZero(def: Option<StructSchema>)
    requires EncodeStatic(TStruct, def, Default(TStruct)).Some?
    ensures ZeroOf(TStruct, def, CanonStatic(TStruct, def, Default(TStruct)))
    decreases DefHeight(def), 1, 0
  {
    if def.Some? {
      EmptyIsZero(def.value);
    } else {
      NothingCanon();
    }
  }

  lemma NothingCanon()
    ensures CanonStruct(Struct([])) == Struct([])
  {
  }

  lemma NoneIsZero()
    ensures CanonStatic(TDynamic, None, VNone) == VDynamic(Variable(TArrayDynamic, VArrayDynamic([])))
  {
    assert AsDynamic(VNone) == EMPTY_ARRAY;
    assert CanonVariables([]) == [];
  }

  /** A struct that holds nothing is read back with every field of its schema zero. */
  lemma {:induction false} EmptyIsZero(schema: StructSchema)
    requires EncodeWith(schema, Struct([])).Some?
    ensures ZeroStruct(schema, CanonWith(schema, Struct([])))
    decreases SchemaHeight(schema.fields), 0, |schema.fields| + 1
  {
    var bound := CanonBound(schema.fields, Struct([]));
    BoundIsZero(schema.fields, Struct([]));
    assert CanonExtras(schema, Struct([])) == [] && bound + [] == bound;
    SortLength(bound);
    forall f | f in Sort(bound) ensures ZeroField(schema.fields, f) {
      assert f in multiset(Sort(bound));
    }
  }

  lemma {:induction false} BoundIsZero(schema: seq<NamedSchema>, x: Struct)
    requires x == Struct([]) && EncodeBound(schema, x).Some?
    ensures forall f :: f in CanonBound(schema, x) ==> ZeroField(schema, f)
    decreases SchemaHeight(schema), 0, |schema|
  {
    if schema != [] {
      DefaultIsZero(schema[0].schema.vmType, schema[0].schema.structDef);
      BoundIsZero(schema[1..], x);
      ZeroWider(schema, CanonBound(schema[1..], x));
    }
  }

  // ----- what a struct lacks -----

  lemma {:induction false} EncodedAt(schema: seq<NamedSchema>, x: Struct, i: nat)
    requires EncodeBound(schema, x).Some? && i < |schema|
    ensures EncodeStatic(schema[i].schema.vmType, schema[i].schema.structDef, Offered(x, schema[i])).Some?
  {
    if i > 0 {
      EncodedAt(schema[1..], x, i - 1);
    }
  }

  /** A schema field the struct lacks is read back as the zero of its type. */
  lemma LackingReadsZero(schema: StructSchema, x: Struct, i: nat, r: Bytes)
    requires EncodeWith(schema, x).Some? && ReadableWith(schema, x)
    requires i < |schema.fields| && FirstOf(schema.fields, i) && forall f :: f in x.fields ==> f.name != schema.fields[i].name
    ensures var read := DecodeWith(schema, EncodeWith(schema, x).value + r);
            read.Got? && read.rest == r
            && var f := Get(read.value.fields, schema.fields[i].name);
               f.Some? && f.value.vmType == schema.fields[i].schema.vmType
               && ZeroOf(f.value.vmType, schema.fields[i].schema.structDef, f.value.data)
  {
    var f := schema.fields[i];
    WithBack(schema, x, r);
    NoneNamed(x.fields, f.name);
    GetNamed(x.fields, f.name);
    EncodedAt(schema.fields, x, i);
    DefaultIsZero(f.schema.vmType, f.schema.structDef);
    FirstFound(schema, x, i);
  }

  lemma FirstFound(schema: StructSchema, x: Struct, i: nat)
    requires i < |schema.fields| && FirstOf(schema.fields, i)
    ensures Get(CanonWith(schema, x).fields, schema.fields[i].name) == Some(CanonOffer(x, schema.fields[i]))
  {
    var name := schema.fields[i].name;
    var bound, extras := CanonBound(schema.fields, x), CanonExtras(schema, x);
    GetBound(schema.fields, x, i);
    GetConcat(bound, extras, name);
    GetSort(bound + extras, name);
  }

  // ----- values of another kind -----

  /** The value's own kind is that of the type; an integer is one of either integer kind. */
  predicate OfKind(t: VMType, d: Value) {
    match t
    case TDynamic => d.VDynamic?
    case TBytes => d.VBytes?
    case TStruct => d.VStruct?
    case TInt(_) => d.VInt? || d.VInt256?
    case TInt256 => d.VInt? || d.VInt256?
    case TFixed(n) => d.VFixed? && |d.bytes| == n
    case TString => d.VString?
    case TArrayDynamic => d.VArrayDynamic?
    case TArrayBytes => d.VArrayBytes?
    case TArrayStruct => d.VArrayStruct?
    case TArrayInt(w) => d.VArrayInt? && d.width == w
    case TArrayInt256 => d.VArrayInt256?
    case TArrayFixed(n) => d.VArrayFixed? && d.size == n
    case TArrayString => d.VArrayString?
    case TArray => true
  }

  lemma OtherFlatKind(t: VMType, d: Value)
    requires Flat(t) && !OfKind(t, d)
    ensures EncodeFlat(t, d) == EncodeFlat(t, Default(t)) && CanonFlat(t, d) == CanonFlat(t, Default(t))
  {
  }

  lemma OtherNestedKind(t: VMType, def: Option<StructSchema>, d: Value)
    requires !Flat(t) && !OfKind(t, d)
    ensures EncodeStatic(t, def, d) == EncodeStatic(t, def, Default(t)) && CanonStatic(t, def, d) == CanonStatic(t, def, Default(t))
  {
  }

  /** A value of another kind is written and read back as the zero of the type. */
  lemma OtherKindIsZero(t: VMType, def: Option<StructSchema>, d: Value)
    requires !OfKind(t, d) && EncodeStatic(t, def, Default(t)).Some?
    ensures EncodeStatic(t, def, d) == EncodeStatic(t, def, Default(t)) && ZeroOf(t, def, CanonStatic(t, def, d))
  {
    DefaultIsZero(t, def);
    OtherKindAsDefault(t, def, d);
  }

  lemma OtherKindAsDefault(t: VMType, def: Option<StructSchema>, d: Value)
    requires !OfKind(t, d)
    ensures EncodeStatic(t, def, d) == EncodeStatic(t, def, Default(t)) && CanonStatic(t, def, d) == CanonStatic(t, def, Default(t))
  {
    if Flat(t) {
      FlatStatic(t, def, d);
      FlatStatic(t, def, Default(t));
      OtherFlatKind(t, d);
    } else {
      OtherNestedKind(t, def, d);
    }
  }

  /** A 256-bit integer is written as a narrow one when it fits 64 bits, and as zero otherwise; a narrow one as it is. */
  lemma IntegerKinds(w: IntWidth, def: Option<StructSchema>, n: int)
    ensures FitsSigned(8, n) ==> EncodeStatic(TInt(w), def, VInt256(n)) == EncodeStatic(TInt(w), def, VInt(n))
    ensures !FitsSigned(8, n) ==> EncodeStatic(TInt(w), def, VInt256(n)) == EncodeStatic(TInt(w), def, VInt(0))
    ensures EncodeStatic(TInt256, def, VInt(n)) == EncodeStatic(TInt256, def, VInt256(n))
  {
  }
}
