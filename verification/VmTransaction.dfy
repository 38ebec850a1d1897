/** VM script transactions and their byte form. */
module VmTransaction {
  import opened Words
  import opened VmBinary
  import opened VmCodec

  type Bytes64 = s: Bytes | |s| == 64 witness seq(64, i => 0)

  datatype Signature = Signature(data: Bytes64)

  datatype Transaction = Transaction(
    nexus: Text, chain: Text, script: Bytes, expiration: U32, payload: Bytes, signatures: seq<Signature>)

  const ED25519: Byte := 1

  // ----- signatures -----

  function EncodeSignatures(gs: seq<Signature>): Bytes {
    if gs == [] then [] else [ED25519] + EncodeVarBytes(gs[0].data) + EncodeSignatures(gs[1..])
  }

  function DecodeSignature(s: Bytes): (r: Read<Signature>)
    ensures r.Got? ==> |r.rest| < |s|
  {
    var (kind, rest) :- Take(1, s);
    if kind[0] != ED25519 then Refused else
      var (g, rest') :- DecodeVarBytes(rest);
      if |g| == 64 then Got(Signature(g), rest') else Refused
  }

  /** Each signature takes bytes, so any claimed count ends. */
  function DecodeSignatures(n: nat, s: Bytes): (r: Read<seq<Signature>>)
    ensures r.Got? ==> |r.value| == n
    decreases |s|
  {
    if n == 0 then Got([], s) else
      var (g, rest) :- DecodeSignature(s);
      var (gs, rest') :- DecodeSignatures(n - 1, rest);
      Got([g] + gs, rest')
  }

  lemma SignatureBack(g: Signature, r: Bytes)
    ensures DecodeSignature([ED25519] + EncodeVarBytes(g.data) + r) == Got(g, r)
  {
    assert [ED25519] + EncodeVarBytes(g.data) + r == [ED25519] + (EncodeVarBytes(g.data) + r);
    TakeBack([ED25519], EncodeVarBytes(g.data) + r);
    VarBytesBack(g.data, r);
  }

  lemma {:induction false} SignaturesBack(gs: seq<Signature>, r: Bytes)
    ensures DecodeSignatures(|gs|, EncodeSignatures(gs) + r) == Got(gs, r)
  {
    if gs == [] {
      assert [] + r == r;
    } else {
      var head, tail := [ED25519] + EncodeVarBytes(gs[0].data), EncodeSignatures(gs[1..]);
      assert head + tail + r == head + (tail + r);
      SignatureBack(gs[0], tail + r);
      SignaturesBack(gs[1..], r);
      SignaturesCons(|gs|, EncodeSignatures(gs) + r, gs[0], tail + r, gs[1..], r);
      assert gs == [gs[0]] + gs[1..];
    }
  }

  lemma SignaturesCons(n: nat, s: Bytes, g: Signature, rest: Bytes, gs: seq<Signature>, r: Bytes)
    requires n == |gs| + 1 && DecodeSignature(s) == Got(g, rest) && DecodeSignatures(|gs|, rest) == Got(gs, r)
    ensures DecodeSignatures(n, s) == Got([g] + gs, r)
  {
  }

  // ----- transactions -----

  /** The bytes that are hashed and signed. */
  function EncodeUnsigned(t: Transaction): Bytes {
    EncodeVarBytes(t.nexus) + (EncodeVarBytes(t.chain) + (EncodeVarBytes(t.script)
    + (LE(4, t.expiration) + EncodeVarBytes(t.payload))))
  }

  function Encode(t: Transaction): Bytes {
    EncodeUnsigned(t) + (EncodeVarUInt(|t.signatures|) + EncodeSignatures(t.signatures))
  }

  function DecodeUnsigned(s: Bytes): Read<Transaction> {
    WordSizes();
    var (nexus, s1) :- DecodeString(s);
    var (chain, s2) :- DecodeString(s1);
    var (script, s3) :- DecodeVarBytes(s2);
    var (expiration, s4) :- ReadWord(4, s3);
    var (payload, s5) :- DecodeVarBytes(s4);
    Got(Transaction(nexus, chain, script, expiration, payload, []), s5)
  }

  function Decode(s: Bytes): Read<Transaction> {
    var (t, rest) :- DecodeUnsigned(s);
    var (n, rest') :- DecodeVarUInt(rest);
    var (gs, rest'') :- DecodeSignatures(n, rest');
    Got(t.(signatures := gs), rest'')
  }

  function FromBytesOf(s: Bytes): Option<Transaction> {
    var r := Decode(s);
    if r.Got? && r.rest == [] then Some(r.value) else None
  }

  predicate Readable(t: Transaction) {
    |t.nexus| <= MAX_ARRAY_SIZE && |t.chain| <= MAX_ARRAY_SIZE && |t.script| <= MAX_ARRAY_SIZE
    && |t.payload| <= MAX_ARRAY_SIZE
  }

  /** The lengths Rust vectors can have. */
  predicate Addressable(t: Transaction) {
    |t.nexus| < 0x1_0000_0000_0000_0000 && |t.chain| < 0x1_0000_0000_0000_0000
    && |t.script| < 0x1_0000_0000_0000_0000 && |t.payload| < 0x1_0000_0000_0000_0000
    && |t.signatures| < 0x1_0000_0000_0000_0000
  }

  lemma StringBack(t: Text, r: Bytes)
    requires |t| < 0x1_0000_0000_0000_0000
    ensures DecodeString(EncodeVarBytes(t) + r) == if |t| <= MAX_ARRAY_SIZE then Got(t, r) else Refused
  {
    VarBytesBack(t, r);
  }

  lemma UnsignedBack(t: Transaction, r: Bytes)
    requires Addressable(t)
    ensures DecodeUnsigned(EncodeUnsigned(t) + r) == if Readable(t) then Got(t.(signatures := []), r) else Refused
  {
    var e := LE(4, t.expiration);
    var r4 := EncodeVarBytes(t.payload) + r;
    var r3 := e + r4;
    var r2 := EncodeVarBytes(t.script) + r3;
    var r1 := EncodeVarBytes(t.chain) + r2;
    Nested(EncodeVarBytes(t.nexus), EncodeVarBytes(t.chain), EncodeVarBytes(t.script), e, EncodeVarBytes(t.payload), r);
    WordSizes();
    StringBack(t.nexus, r1);
    StringBack(t.chain, r2);
    VarBytesBack(t.script, r3);
    WordBack(4, t.expiration, r4);
    VarBytesBack(t.payload, r);
  }

  lemma Nested(a: Bytes, b: Bytes, c: Bytes, d: Bytes, e: Bytes, r: Bytes)
    ensures a + (b + (c + (d + e))) + r == a + (b + (c + (d + (e + r))))
  {
  }

  /** A transaction comes back with its signatures exactly when its byte strings are within the size limit. */
  lemma TransactionBack(t: Transaction)
    requires Addressable(t)
    ensures FromBytesOf(Encode(t)) == if Readable(t) then Some(t) else None
  {
    var count, gs := EncodeVarUInt(|t.signatures|), EncodeSignatures(t.signatures);
    UnsignedBack(t, count + gs);
    VarUIntBack(|t.signatures|, gs);
    assert gs + [] == gs;
    SignaturesBack(t.signatures, []);
  }

  /** Readable transactions with the same bytes are the same, and so are the signed parts. */
  lemma BytesDecide(t: Transaction, u: Transaction)
    requires Addressable(t) && Addressable(u) && Readable(t) && Readable(u)
    ensures Encode(t) == Encode(u) ==> t == u
    ensures EncodeUnsigned(t) == EncodeUnsigned(u) ==> t.(signatures := []) == u.(signatures := [])
  {
    TransactionBack(t);
    TransactionBack(u);
    UnsignedBack(t, []);
    UnsignedBack(u, []);
  }

  // ----- the methods -----

  method ToBytes(t: Transaction, withSignatures: bool) returns (r: Bytes)
    ensures r == if withSignatures then Encode(t) else EncodeUnsigned(t)
  {
    var w := new BinaryWriter();
    WriteUnsigned(w, t);
    assert w.buffer == EncodeUnsigned(t);
    if withSignatures {
      w.WriteVarUInt(|t.signatures|);
      WriteSignatures(w, t.signatures);
      assert w.buffer == Encode(t);
    }
    r := w.buffer;
  }

  method WriteUnsigned(w: BinaryWriter, t: Transaction)
    modifies w
    ensures w.buffer == old(w.buffer) + EncodeUnsigned(t)
  {
    ghost var was := w.buffer;
    w.WriteVarBytes(t.nexus);
    w.WriteVarBytes(t.chain);
    w.WriteVarBytes(t.script);
    w.Write(LE(4, t.expiration));
    w.WriteVarBytes(t.payload);
    Joined(was, EncodeVarBytes(t.nexus), EncodeVarBytes(t.chain), EncodeVarBytes(t.script), LE(4, t.expiration),
           EncodeVarBytes(t.payload));
  }

  lemma Joined(was: Bytes, a: Bytes, b: Bytes, c: Bytes, d: Bytes, e: Bytes)
    ensures was + a + b + c + d + e == was + (a + (b + (c + (d + e))))
  {
  }

  method WriteSignatures(w: BinaryWriter, gs: seq<Signature>)
    modifies w
    ensures w.buffer == old(w.buffer) + EncodeSignatures(gs)
  {
    ghost var goal := w.buffer + EncodeSignatures(gs);
    assert gs[0..] == gs;
    for i := 0 to |gs|
      invariant w.buffer + EncodeSignatures(gs[i..]) == goal
    {
      ghost var was := w.buffer;
      SignatureWritten(was, gs[i..]);
      assert gs[i..][1..] == gs[i + 1..];
      w.Write([ED25519]);
      w.WriteVarBytes(gs[i].data);
    }
    assert gs[|gs|..] == [] && w.buffer + [] == w.buffer;
  }

  lemma SignatureWritten(was: Bytes, gs: seq<Signature>)
    requires gs != []
    ensures was + EncodeSignatures(gs) == was + [ED25519] + EncodeVarBytes(gs[0].data) + EncodeSignatures(gs[1..])
  {
    var a, b, c := [ED25519], EncodeVarBytes(gs[0].data), EncodeSignatures(gs[1..]);
    assert was + (a + b + c) == was + a + b + c;
  }

  method FromBytes(data: Bytes) returns (r: Option<Transaction>)
    ensures r == FromBytesOf(data)
  {
    var reader := new BinaryReader(data);
    var t :- ReadUnsigned(reader);
    var count :- reader.ReadVarUInt();
    var gs :- ReadSignatures(reader, count);
    if reader.offset < |reader.data| {
      return None;
    }
    return Some(t.(signatures := gs));
  }

  method ReadUnsigned(r: BinaryReader) returns (t: Option<Transaction>)
    requires r.Valid()
    modifies r`offset
    ensures r.Valid() && Follows(t, DecodeUnsigned(old(r.Rest())), r.Rest())
  {
    WordSizes();
    var nexus :- r.ReadString();
    var chain :- r.ReadString();
    var script :- r.ReadVarBytes();
    var expiration :- r.ReadUInt(4);
    var payload :- r.ReadVarBytes();
    return Some(Transaction(nexus, chain, script, expiration, payload, []));
  }

  method ReadSignatures(r: BinaryReader, count: nat) returns (v: Option<seq<Signature>>)
    requires r.Valid()
    modifies r`offset
    ensures r.Valid() && Follows(v, DecodeSignatures(count, old(r.Rest())), r.Rest())
  {
    ghost var s := r.Rest();
    var signatures: seq<Signature> := [];
    ghost var total := DecodeSignatures(count, s);
    ghost var rest := total;
    AheadStart(total);
    var left := count;
    while left > 0
      invariant r.Valid() && rest == DecodeSignatures(left, r.Rest())
      invariant total == Ahead(signatures, rest)
    {
      var g;
      g, rest := ReadNext(r, left, signatures, total);
      if g.None? {
        return None;
      }
      signatures := signatures + [g.value];
      left := left - 1;
    }
    assert signatures + [] == signatures;
    return Some(signatures);
  }

  /** One round of the loop: a refusal is a refusal of the whole list. */
  method ReadNext(r: BinaryReader, ghost left: nat, ghost done: seq<Signature>, ghost total: Read<seq<Signature>>)
    returns (g: Option<Signature>, ghost rest: Read<seq<Signature>>)
    requires r.Valid() && left > 0 && total == Ahead(done, DecodeSignatures(left, r.Rest()))
    modifies r`offset
    ensures r.Valid()
    ensures if g.None? then total.Refused? else total == Ahead(done + [g.value], rest) && rest == DecodeSignatures(left - 1, r.Rest())
  {
    SignaturesStep(left, done, r.Rest());
    g := ReadSignature(r);
    rest := DecodeSignatures(left - 1, r.Rest());
  }

  method ReadSignature(r: BinaryReader) returns (v: Option<Signature>)
    requires r.Valid()
    modifies r`offset
    ensures r.Valid() && Follows(v, DecodeSignature(old(r.Rest())), r.Rest())
  {
    var kind :- r.ReadByte();
    if kind != ED25519 {
      return None;
    }
    var g :- r.ReadVarBytes();
    if |g| != 64 {
      return None;
    }
    return Some(Signature(g));
  }

  lemma SignaturesStep(n: nat, done: seq<Signature>, s: Bytes)
    requires n > 0
    ensures var g := DecodeSignature(s);
            Ahead(done, DecodeSignatures(n, s)) ==
            if g.Refused? then Refused else Ahead(done + [g.value], DecodeSignatures(n - 1, g.rest))
  {
    var g := DecodeSignature(s);
    if g.Got? {
      AheadStep(done, g.value, DecodeSignatures(n - 1, g.rest));
    }
  }
}
