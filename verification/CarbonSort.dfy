/** The stable sort by name: what it keeps, and how field lookup sees through it. */
module CarbonSort {
  import opened Words
  import opened CarbonSchema
  import opened CarbonValues

  // ----- the order on names -----

  lemma {:induction false} BeforeTotal(a: Bytes, b: Bytes)
    ensures Before(a, b) ==> !Before(b, a)
    ensures Before(a, b) || Before(b, a) || a == b
  {
    if a != [] && b != [] && a[0] == b[0] {
      BeforeTotal(a[1..], b[1..]);
      assert a == [a[0]] + a[1..] && b == [b[0]] + b[1..];
    }
  }

  lemma {:induction false} BeforeTransitive(a: Bytes, b: Bytes, c: Bytes)
    requires !Before(b, a) && !Before(c, b)
    ensures !Before(c, a)
  {
    if a != [] && b != [] && c != [] && a[0] == b[0] == c[0] {
      BeforeTransitive(a[1..], b[1..], c[1..]);
    }
  }

  /** The first byte in which they differ decides, and a prefix comes first. */
  ghost predicate DiffersAt(a: Bytes, b: Bytes, k: nat) {
    k <= |a| && k < |b| && a[..k] == b[..k] && (k == |a| || a[k] < b[k])
  }

  lemma HeadsDecide(a: Bytes, b: Bytes, k: nat)
    requires a != [] && b != [] && a[0] > b[0]
    ensures !DiffersAt(a, b, k)
  {
    if 0 < k <= |a| && k < |b| {
      assert a[..k][0] != b[..k][0];
    }
  }

  lemma {:induction false} BeforeExactlyWhen(a: Bytes, b: Bytes)
    ensures Before(a, b) <==> exists k: nat :: DiffersAt(a, b, k)
  {
    if b != [] && a != [] && a[0] == b[0] {
      BeforeExactlyWhen(a[1..], b[1..]);
      if k: nat :| DiffersAt(a[1..], b[1..], k) {
        assert a[..k + 1] == [a[0]] + a[1..][..k] && b[..k + 1] == [b[0]] + b[1..][..k];
        assert DiffersAt(a, b, k + 1);
      }
      if k: nat :| DiffersAt(a, b, k) {
        assert k > 0 && a[1..][..k - 1] == a[..k][1..] && b[1..][..k - 1] == b[..k][1..];
        assert DiffersAt(a[1..], b[1..], k - 1);
      }
    } else if b != [] {
      assert a[..0] == b[..0];
      if Before(a, b) {
        assert DiffersAt(a, b, 0);
      } else {
        forall k: nat ensures !DiffersAt(a, b, k) {
          HeadsDecide(a, b, k);
        }
      }
    }
  }

  ghost predicate SortedNames(fields: seq<Field>) {
    forall i, j :: 0 <= i < j < |fields| ==> !Before(fields[j].name, fields[i].name)
  }

  lemma NoneBefore(f: Field, fields: seq<Field>)
    requires SortedNames(fields) && fields != [] && !Before(fields[0].name, f.name)
    ensures forall j :: 0 <= j < |fields| ==> !Before(fields[j].name, f.name)
  {
    forall j | 0 < j < |fields| ensures !Before(fields[j].name, f.name) {
      BeforeTransitive(f.name, fields[0].name, fields[j].name);
    }
  }

  lemma {:induction false} InsertSorted(f: Field, fields: seq<Field>)
    requires SortedNames(fields)
    ensures SortedNames(Insert(f, fields))
  {
    if fields == [] {
    } else if !Before(fields[0].name, f.name) {
      NoneBefore(f, fields);
    } else {
      InsertSorted(f, fields[1..]);
      var tail := Insert(f, fields[1..]);
      BeforeTotal(fields[0].name, f.name);
      forall g | g in tail ensures !Before(g.name, fields[0].name) {
        assert g in multiset(tail);
        assert g == f || g in fields[1..];
      }
    }
  }

  lemma {:induction false} SortSorted(fields: seq<Field>)
    ensures SortedNames(Sort(fields))
  {
    if fields != [] {
      SortSorted(fields[1..]);
      InsertSorted(fields[0], Sort(fields[1..]));
    }
  }

  lemma {:induction false} SortFixed(fields: seq<Field>)
    requires SortedNames(fields)
    ensures Sort(fields) == fields
  {
    if fields != [] {
      SortFixed(fields[1..]);
      assert fields == [fields[0]] + fields[1..];
    }
  }

  lemma SortLength(fields: seq<Field>)
    ensures |Sort(fields)| == |fields|
  {
    assert |multiset(Sort(fields))| == |multiset(fields)|;
  }

  // ----- stability -----

  lemma {:induction false} GetInsert(f: Field, fields: seq<Field>, name: Bytes)
    ensures Get(Insert(f, fields), name) == if f.name == name then Some(f.value) else Get(fields, name)
  {
    if fields != [] && Before(fields[0].name, f.name) {
      GetInsert(f, fields[1..], name);
      BeforeTotal(fields[0].name, f.name);
    }
  }

  /** The first field of a name stays the first. */
  lemma {:induction false} GetSort(fields: seq<Field>, name: Bytes)
    ensures Get(Sort(fields), name) == Get(fields, name)
  {
    if fields != [] {
      GetSort(fields[1..], name);
      GetInsert(fields[0], Sort(fields[1..]), name);
    }
  }

  lemma {:induction false} UnnamedInsert(f: Field, fields: seq<Field>, schema: seq<NamedSchema>)
    requires SortedNames(fields)
    ensures Unnamed(Insert(f, fields), schema)
         == if Names(schema, f.name) then Unnamed(fields, schema) else Insert(f, Unnamed(fields, schema))
  {
    if fields != [] && Before(fields[0].name, f.name) {
      UnnamedInsert(f, fields[1..], schema);
    } else if fields != [] {
      NoneBefore(f, fields);
      UnnamedHead(f, fields, schema);
    }
  }

  lemma {:induction false} UnnamedHead(f: Field, fields: seq<Field>, schema: seq<NamedSchema>)
    requires forall g :: g in fields ==> !Before(g.name, f.name)
    ensures Insert(f, Unnamed(fields, schema)) == [f] + Unnamed(fields, schema)
  {
    UnnamedWithin(fields, schema);
    var rest := Unnamed(fields, schema);
    if rest != [] {
      assert rest[0] in rest;
    }
  }

  /** Dropping the fields a schema names and sorting commute. */
  lemma {:induction false} UnnamedSort(fields: seq<Field>, schema: seq<NamedSchema>)
    ensures Unnamed(Sort(fields), schema) == Sort(Unnamed(fields, schema))
  {
    if fields != [] {
      UnnamedSort(fields[1..], schema);
      SortSorted(fields[1..]);
      UnnamedInsert(fields[0], Sort(fields[1..]), schema);
    }
  }

  lemma {:induction false} UnnamedConcat(a: seq<Field>, b: seq<Field>, schema: seq<NamedSchema>)
    requires forall f :: f in a ==> Names(schema, f.name)
    requires forall f :: f in b ==> !Names(schema, f.name)
    ensures Unnamed(a + b, schema) == b
  {
    if a != [] {
      assert (a + b)[1..] == a[1..] + b && (a + b)[0] in a;
      UnnamedConcat(a[1..], b, schema);
    } else if b != [] {
      assert a + b == b && b[0] in b && [] + b[1..] == b[1..] && b == [b[0]] + b[1..];
      UnnamedConcat([], b[1..], schema);
    }
  }

  lemma {:induction false} UnnamedAreUnnamed(fields: seq<Field>, schema: seq<NamedSchema>)
    ensures forall f :: f in Unnamed(fields, schema) ==> !Names(schema, f.name)
  {
    if fields != [] {
      UnnamedAreUnnamed(fields[1..], schema);
    }
  }

  lemma {:induction false} GetConcat(a: seq<Field>, b: seq<Field>, name: Bytes)
    requires Get(a, name).Some?
    ensures Get(a + b, name) == Get(a, name)
  {
    if a[0].name != name {
      assert (a + b)[1..] == a[1..] + b;
      GetConcat(a[1..], b, name);
    }
  }
}
