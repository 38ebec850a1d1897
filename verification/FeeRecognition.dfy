/**
  What a plan reads out of a message: for each body and each call of the chain's own contracts, written
  as the SDK writes it, the operation, the token, the recipient, the counts and the sizes it is priced from.
 */
module FeeRecognition {
  import opened Words
  import opened FeeArithmetic
  import opened FeeModel
  import opened FeePlanning
  import opened FeeMessages
  import Wire = CarbonWire
  import R = CarbonRecords
  import Values = CarbonValues
  import Sorting = CarbonSort
  import RoundTrip = CarbonRoundTrip
  import M = CarbonMessage
  import E = CarbonEnvelope

  // ----- NFT addresses -----

  /** The address an NFT instance owns. */
  function NftAddress(token: U64, instance: U64): (a: Wire.Bytes32)
    ensures |a| == 32
  {
    Fill(15, 0) + [1] + LE(8, token) + LE(8, instance)
  }

  lemma NftAddressParts(token: U64, instance: U64)
    ensures var a := NftAddress(token, instance);
            a[15] == 1 && (forall i :: 0 <= i < 15 ==> a[i] == 0)
            && Unsigned(a[16..24]) == token && Unsigned(a[24..32]) == instance
  {
    var a := NftAddress(token, instance);
    assert a[16..24] == LE(8, token) && a[24..32] == LE(8, instance);
    assert Pow256(8) == 0x1_0000_0000_0000_0000;
    UnsignedLE(8, token);
    UnsignedLE(8, instance);
  }

  ghost predicate SomeNft(a: Wire.Bytes32) {
    exists token: U64, instance: U64 :: token != 0 && instance != 0 && a == NftAddress(token, instance)
  }

  /** A recipient is an NFT exactly when its address is one some instance of some token owns. */
  lemma NftAddressExactlyWhen(a: Wire.Bytes32)
    ensures IsNftAddress(a) <==> SomeNft(a)
  {
    if IsNftAddress(a) {
      assert Pow256(8) == 0x1_0000_0000_0000_0000;
      var token: U64, instance: U64 := Unsigned(a[16..24]), Unsigned(a[24..32]);
      LEUnsigned(a[16..24], 0, token);
      LEUnsigned(a[24..32], 0, instance);
      assert a == a[..15] + [a[15]] + a[16..24] + a[24..32] && a[..15] == Fill(15, 0);
      assert a == NftAddress(token, instance);
    }
    if SomeNft(a) {
      var token: U64, instance: U64 :| token != 0 && instance != 0 && a == NftAddress(token, instance);
      NftAddressParts(token, instance);
    }
  }

  // ----- native bodies -----

  /** A movement of the token to the address: nothing else is stated but the count. */
  ghost predicate Moves(p: Part, kind: Kind, token: U64, to: Wire.Bytes32, count: Option<U32>) {
    p.kind == kind && p.params == DEFAULT.(tokenId := Some(token), toIsNftAddress := p.params.toIsNftAddress, count := count)
    && (p.params.toIsNftAddress <==> SomeNft(to))
  }

  ghost predicate Destroys(p: Part, kind: Kind, token: U64, count: Option<U32>) {
    p == Part(kind, DEFAULT.(tokenId := Some(token), count := count))
  }

  /** One operation of the body's kind, with the token, the recipient and the number of instances it names. */
  lemma BodyRead(b: M.Body)
    ensures var r := RecogniseBody(b);
            match b
            case TransferFungible(to, token, _) => r.Some? && Moves(r.value, TransferFungible, token, to, None)
            case MintFungible(token, to, _) => r.Some? && Moves(r.value, MintFungible, token, to, None)
            case TransferNonFungibleSingle(to, token, _) => r.Some? && Moves(r.value, TransferNonFungible, token, to, Some(1))
            case TransferNonFungibleMulti(to, token, ids) =>
              if 0 < |ids| <= U32_MAX then r.Some? && Moves(r.value, TransferNonFungible, token, to, Some(|ids|)) else r.None?
            case BurnFungible(token, _) => r.Some? && Destroys(r.value, BurnFungible, token, None)
            case BurnNonFungible(token, _) => r.Some? && Destroys(r.value, BurnNonFungible, token, Some(1))
            case Phantasma(_, _, _) => r == Some(Part(Script, DEFAULT))
            case PhantasmaRaw(_) => r == None
            case _ => true
  {
    match b
    case TransferFungible(to, _, _) => NftAddressExactlyWhen(to);
    case MintFungible(_, to, _) => NftAddressExactlyWhen(to);
    case TransferNonFungibleSingle(to, _, _) => NftAddressExactlyWhen(to);
    case TransferNonFungibleMulti(to, _, _) => NftAddressExactlyWhen(to);
    case _ =>
  }

  /** An NFT mint is priced at the lengths of its own ROM and RAM. */
  lemma MintBodyRead(token: U64, to: Wire.Bytes32, series: U32, rom: Bytes, ram: Bytes)
    ensures var r := RecogniseBody(M.MintNonFungible(token, to, series, rom, ram));
            (r.Some? <==> |rom| <= U32_MAX && |ram| <= U32_MAX)
            && (r.Some? ==>
                  r.value.kind == MintNonFungible && r.value.params.romBytes == [|rom|] && r.value.params.ramBytes == [|ram|]
                  && Moves(Part(MintNonFungible, r.value.params.(romBytes := [], ramBytes := [])), MintNonFungible, token, to, None))
  {
    NftAddressExactlyWhen(to);
  }

  /** The gas-payer forms are priced as their plain forms: who pays the gas is not an operation. */
  lemma PayerBodiesAsPlain(to: Wire.Bytes32, from: Wire.Bytes32, token: U64, amount: U64, number: int, id: U64, ids: seq<U64>)
    ensures RecogniseBody(M.TransferFungibleGasPayer(to, from, token, amount)) == RecogniseBody(M.TransferFungible(to, token, amount))
    ensures RecogniseBody(M.TransferNonFungibleSingleGasPayer(to, from, token, id)) == RecogniseBody(M.TransferNonFungibleSingle(to, token, id))
    ensures RecogniseBody(M.TransferNonFungibleMultiGasPayer(to, from, token, ids)) == RecogniseBody(M.TransferNonFungibleMulti(to, token, ids))
    ensures RecogniseBody(M.BurnFungibleGasPayer(token, from, number)) == RecogniseBody(M.BurnFungible(token, number))
    ensures RecogniseBody(M.BurnNonFungibleGasPayer(token, from, id)) == RecogniseBody(M.BurnNonFungible(token, id))
  {
  }

  /** A message is one operation, a batch one for each of its calls in order, a trade a script. */
  lemma MessageRead(m: M.TxMsg)
    ensures var r := Recognise(m);
            match m.msg
            case Native(b) => if RecogniseBody(b).Some? then r == Some([RecogniseBody(b).value]) else r.None?
            case Call(c) => if RecogniseCall(c).Some? then r == Some([RecogniseCall(c).value]) else r.None?
            case Trade(_) => r == Some([Part(Script, DEFAULT)])
            case CallMulti(cs) =>
              (r.Some? <==> forall i :: 0 <= i < |cs| ==> RecogniseCall(cs[i]).Some?)
              && (r.Some? ==> |r.value| == |cs| && forall i :: 0 <= i < |cs| ==> Some(r.value[i]) == RecogniseCall(cs[i]))
  {
    if m.msg.CallMulti? {
      CallsRead(m.msg.calls);
    }
  }

  lemma {:induction false} CallsRead(cs: seq<M.MsgCall>)
    ensures RecogniseCalls(cs).Some? <==> forall i :: 0 <= i < |cs| ==> RecogniseCall(cs[i]).Some?
    ensures RecogniseCalls(cs).Some? ==>
              |RecogniseCalls(cs).value| == |cs| && forall i :: 0 <= i < |cs| ==> Some(RecogniseCalls(cs).value[i]) == RecogniseCall(cs[i])
  {
    if cs != [] {
      CallsRead(cs[1..]);
      assert forall i :: 0 < i < |cs| ==> cs[i] == cs[1..][i - 1];
    }
  }

  // ----- calls -----

  /** What is not a call of the token or the governance contract that the planner knows takes the script budget. */
  lemma OtherCallsAreScripts(c: M.MsgCall)
    requires (c.sections.Some? && c.sections.value != []) || c.moduleId > 1 || (c.moduleId == 0 && c.methodId != 1)
             || (c.moduleId == 1 && c.methodId !in {0, 1, 2, 3, 4, 6, 9, 27})
    ensures RecogniseCall(c) == Some(Part(Script, DEFAULT))
  {
  }

  function PlainCall(moduleId: U32, methodId: U32, args: Bytes): M.MsgCall {
    M.MsgCall(moduleId, methodId, args, None)
  }

  /** A name is priced at its length. */
  lemma NameRead(owner: Wire.Bytes32, name: Text)
    requires R.EncodeVals([R.B32(owner), R.Small(name)]).Some?
    ensures |name| <= 255
    ensures RecogniseCall(PlainCall(0, 1, R.EncodeVals([R.B32(owner), R.Small(name)]).value))
         == Some(Part(RegisterName, DEFAULT.(nameLength := |name|)))
  {
    ArgsBack([R.KBytes32, R.KSmall], [R.B32(owner), R.Small(name)]);
    assert R.EncodeVal(R.Small(name)).Some? by {
      assert [R.B32(owner), R.Small(name)][1..] == [R.Small(name)];
    }
  }

  /** A series is priced at its arguments less the eight bytes of the token id. */
  lemma SeriesRead(token: U64, info: Bytes)
    requires |info| <= U32_MAX
    ensures RecogniseCall(PlainCall(1, 6, LE(8, token) + info)) == Some(Part(CreateTokenSeries, DEFAULT.(seriesInfoBytes := |info|)))
  {
  }

  // ----- token creation -----

  /** The fields of a token's info before its schemas. */
  function InfoVals(supply: int, flags: Byte, decimals: Byte, owner: Wire.Bytes32, symbol: Text, metadata: Bytes): seq<R.Val> {
    [R.X(supply), R.U8(flags), R.U8(decimals), R.B32(owner), R.Small(symbol), R.Blob(metadata)]
  }

  /** Token info as it is written: schemas follow for NFT tokens only, which flag bit 1 marks. */
  function InfoBytes(vals: seq<R.Val>, flags: Byte, schemas: Bytes): Option<Bytes> {
    var head :- R.EncodeVals(vals);
    if flags / 2 % 2 == 0 then Some(head) else
      var tail :- Wire.EncodeBlob(schemas);
      Some(head + tail)
  }

  lemma InfoBack(supply: int, flags: Byte, decimals: Byte, owner: Wire.Bytes32, symbol: Text, metadata: Bytes, schemas: Bytes, rest: Bytes)
    requires var vals := InfoVals(supply, flags, decimals, owner, symbol, metadata);
             R.EncodeVals(vals).Some? && Wire.IntXReadable(supply) && |metadata| < Wire.MAX_LEN
    ensures var vals := InfoVals(supply, flags, decimals, owner, symbol, metadata);
            R.DecodeVals([R.KIntX, R.KU8, R.KU8, R.KBytes32, R.KSmall, R.KBlob], R.EncodeVals(vals).value + rest)
            == Got(R.CanonVals(vals), rest)
  {
    var vals := InfoVals(supply, flags, decimals, owner, symbol, metadata);
    InfoKinds(vals);
    R.ValsBack(vals, rest);
  }

  lemma InfoKinds(vals: seq<R.Val>)
    requires |vals| == 6 && vals[0].X? && vals[1].U8? && vals[2].U8? && vals[3].B32? && vals[4].Small? && vals[5].Blob?
    requires R.ReadableVal(vals[0]) && R.ReadableVal(vals[5])
    ensures R.Kinds(vals) == [R.KIntX, R.KU8, R.KU8, R.KBytes32, R.KSmall, R.KBlob] && R.ReadableVals(vals)
  {
    SixReadable(vals);
    SixKinds(vals, R.Kinds(vals));
  }

  lemma SixReadable(vals: seq<R.Val>)
    requires |vals| == 6 && R.ReadableVal(vals[0]) && R.ReadableVal(vals[1]) && R.ReadableVal(vals[2])
    requires R.ReadableVal(vals[3]) && R.ReadableVal(vals[4]) && R.ReadableVal(vals[5])
    ensures R.ReadableVals(vals)
  {
    assert vals == [vals[0], vals[1], vals[2], vals[3], vals[4], vals[5]];
  }

  lemma SixKinds(vals: seq<R.Val>, kinds: seq<R.Kind>)
    requires |vals| == |kinds| == 6 && forall i :: 0 <= i < 6 ==> kinds[i] == R.KindOf(vals[i])
    ensures kinds == [R.KindOf(vals[0]), R.KindOf(vals[1]), R.KindOf(vals[2]), R.KindOf(vals[3]), R.KindOf(vals[4]), R.KindOf(vals[5])]
  {
  }

  lemma TokenInfoBack(supply: int, flags: Byte, decimals: Byte, owner: Wire.Bytes32, symbol: Text, metadata: Bytes, schemas: Bytes)
    requires var vals := InfoVals(supply, flags, decimals, owner, symbol, metadata);
             InfoBytes(vals, flags, schemas).Some? && Wire.IntXReadable(supply) && |metadata| < Wire.MAX_LEN && |schemas| < Wire.MAX_LEN
    ensures ReadTokenInfo(InfoBytes(InfoVals(supply, flags, decimals, owner, symbol, metadata), flags, schemas).value)
         == Some(TokenInfo(flags / 2 % 2 == 1, symbol, metadata))
  {
    var vals := InfoVals(supply, flags, decimals, owner, symbol, metadata);
    var head := R.EncodeVals(vals).value;
    var canon := R.CanonVals(vals);
    assert canon[1] == R.U8(flags) && canon[4] == R.Small(symbol) && canon[5] == R.Blob(metadata);
    if flags / 2 % 2 == 0 {
      InfoBack(supply, flags, decimals, owner, symbol, metadata, schemas, []);
      assert head + [] == head;
    } else {
      var tail := Wire.EncodeBlob(schemas).value;
      InfoBack(supply, flags, decimals, owner, symbol, metadata, schemas, tail);
      Wire.BlobBack(schemas, []);
      assert tail + [] == tail;
    }
  }

  /** A field of that name is in the metadata. */
  ghost predicate Mentions(x: Values.Struct, name: Bytes) {
    exists f :: f in x.fields && f.name == name
  }

  lemma {:induction false} GetMentions(fields: seq<Values.Field>, name: Bytes)
    ensures Values.Get(fields, name).Some? <==> exists f :: f in fields && f.name == name
  {
    if fields != [] {
      GetMentions(fields[1..], name);
      assert fields[0] in fields;
    }
  }

  lemma CanonMentions(x: Values.Struct, name: Bytes)
    ensures Values.Get(Values.CanonStruct(x).fields, name).Some? <==> Mentions(x, name)
  {
    var sorted := Values.Sort(x.fields);
    Sorting.GetSort(Values.CanonFields(sorted), name);
    GetCanon(sorted, name);
    Sorting.GetSort(x.fields, name);
    GetMentions(x.fields, name);
  }

  lemma {:induction false} GetCanon(fields: seq<Values.Field>, name: Bytes)
    ensures Values.Get(Values.CanonFields(fields), name).Some? <==> Values.Get(fields, name).Some?
  {
    if fields != [] {
      GetCanon(fields[1..], name);
      assert Values.CanonFields(fields)[1..] == Values.CanonFields(fields[1..]);
    }
  }

  lemma MetadataBack(x: Values.Struct)
    requires Values.EncodeStruct(x).Some? && RoundTrip.ReadableStruct(x)
    ensures Metadata(Values.EncodeStruct(x).value) == Some(Values.CanonStruct(x).fields)
  {
    var bytes := Values.EncodeStruct(x).value;
    RoundTrip.StructBack(x, []);
    assert bytes + [] == bytes && bytes != [];
  }

  /**
    A token creation is priced at the length of its arguments and of its symbol, as an NFT token when its
    flag says so, and with the rows and queries its metadata asks for.
   */
  lemma CreateRead(supply: int, flags: Byte, decimals: Byte, owner: Wire.Bytes32, symbol: Text, x: Values.Struct, schemas: Bytes)
    requires Values.EncodeStruct(x).Some? && RoundTrip.ReadableStruct(x) && |Values.EncodeStruct(x).value| < Wire.MAX_LEN
    requires Wire.IntXReadable(supply) && |schemas| < Wire.MAX_LEN
    requires var args := InfoBytes(InfoVals(supply, flags, decimals, owner, symbol, Values.EncodeStruct(x).value), flags, schemas);
             args.Some? && |args.value| <= U32_MAX && |symbol| <= U32_MAX
    ensures var args := InfoBytes(InfoVals(supply, flags, decimals, owner, symbol, Values.EncodeStruct(x).value), flags, schemas).value;
            var r := RecogniseCall(PlainCall(1, 2, args));
            r.Some? && r.value.kind == CreateToken
            && var p := r.value.params;
               p.symbolLength == |symbol| && p.tokenInfoBytes == |args| && (p.nonFungible <==> flags / 2 % 2 == 1)
               && (p.hasPreBurn <==> Mentions(x, PRE_BURN)) && (p.hasInflationSchedule <==> Mentions(x, INFLATION_PERIOD))
               && (p.hasStakingOrganisation <==> Mentions(x, STAKING_ORG_ID)) && (p.hasStakingRewardToken <==> Mentions(x, STAKING_REWARD_TOKEN))
               && p.facts == UNSTATED && p.count == None && p.tokenId == None && !p.toIsNftAddress
  {
    var metadata := Values.EncodeStruct(x).value;
    var args := InfoBytes(InfoVals(supply, flags, decimals, owner, symbol, metadata), flags, schemas).value;
    TokenInfoBack(supply, flags, decimals, owner, symbol, metadata, schemas);
    MetadataBack(x);
    CreateCall(args);
    CreatePart(args, TokenInfo(flags / 2 % 2 == 1, symbol, metadata), x);
  }

  /** A token without metadata is priced without any of those rows and queries. */
  lemma BareCreateRead(supply: int, flags: Byte, decimals: Byte, owner: Wire.Bytes32, symbol: Text, schemas: Bytes)
    requires Wire.IntXReadable(supply) && |schemas| < Wire.MAX_LEN
    requires var args := InfoBytes(InfoVals(supply, flags, decimals, owner, symbol, []), flags, schemas);
             args.Some? && |args.value| <= U32_MAX && |symbol| <= U32_MAX
    ensures var args := InfoBytes(InfoVals(supply, flags, decimals, owner, symbol, []), flags, schemas).value;
            var r := RecogniseCall(PlainCall(1, 2, args));
            r.Some? && r.value.kind == CreateToken
            && var p := r.value.params;
               p.symbolLength == |symbol| && p.tokenInfoBytes == |args| && (p.nonFungible <==> flags / 2 % 2 == 1)
               && !p.hasPreBurn && !p.hasInflationSchedule && !p.hasStakingOrganisation && !p.hasStakingRewardToken
  {
    var args := InfoBytes(InfoVals(supply, flags, decimals, owner, symbol, []), flags, schemas).value;
    TokenInfoBack(supply, flags, decimals, owner, symbol, [], schemas);
    CreateCall(args);
    NoMetadata();
    CreatePart(args, TokenInfo(flags / 2 % 2 == 1, symbol, []), Values.Struct([]));
  }

  lemma NoMetadata()
    ensures Metadata([]) == Some(Values.CanonStruct(Values.Struct([])).fields)
  {
    var none: seq<Values.Field> := [];
    assert Values.Sort(none) == none && Values.CanonFields(none) == none;
  }

  lemma TokenMethod(methodId: U32, args: Bytes)
    ensures RecogniseCall(PlainCall(1, methodId, args)) == RecogniseToken(methodId, args)
  {
  }

  lemma CreateCall(args: Bytes)
    ensures RecogniseCall(PlainCall(1, 2, args)) == RecogniseCreate(args)
  {
    TokenMethod(2, args);
  }

  lemma CreatePart(args: Bytes, info: TokenInfo, x: Values.Struct)
    requires ReadTokenInfo(args) == Some(info) && Metadata(info.metadata) == Some(Values.CanonStruct(x).fields)
    requires |args| <= U32_MAX && |info.symbol| <= U32_MAX
    ensures var r := RecogniseCreate(args);
            r.Some? && r.value.kind == CreateToken
            && var p := r.value.params;
               p.symbolLength == |info.symbol| && p.tokenInfoBytes == |args| && p.nonFungible == info.nonFungible
               && (p.hasPreBurn <==> Mentions(x, PRE_BURN)) && (p.hasInflationSchedule <==> Mentions(x, INFLATION_PERIOD))
               && (p.hasStakingOrganisation <==> Mentions(x, STAKING_ORG_ID)) && (p.hasStakingRewardToken <==> Mentions(x, STAKING_REWARD_TOKEN))
               && p.facts == UNSTATED && p.count == None && p.tokenId == None && !p.toIsNftAddress
  {
    CanonMentions(x, PRE_BURN);
    CanonMentions(x, INFLATION_PERIOD);
    CanonMentions(x, STAKING_ORG_ID);
    CanonMentions(x, STAKING_REWARD_TOKEN);
  }

  // ----- deterministic mints -----

  function EncodeMint(t: MintInfo): Option<Bytes> {
    R.EncodeVals([R.X(t.series), R.Blob(t.rom), R.Blob(t.ram)])
  }

  predicate ReadableMint(t: MintInfo) {
    Wire.IntXReadable(t.series) && |t.rom| < Wire.MAX_LEN && |t.ram| < Wire.MAX_LEN
  }

  /** What is read back: the series as its signed 256-bit form. */
  function ReadMint(t: MintInfo): MintInfo {
    MintInfo(Wire.Reduce(t.series), t.rom, t.ram)
  }

  lemma MintInfoBack(t: MintInfo, r: Bytes)
    requires EncodeMint(t).Some? && ReadableMint(t)
    ensures ReadMintInfo(EncodeMint(t).value + r) == Got(ReadMint(t), r)
  {
    var vals := [R.X(t.series), R.Blob(t.rom), R.Blob(t.ram)];
    assert R.Kinds(vals) == [R.KIntX, R.KBlob, R.KBlob];
    R.ValsBack(vals, r);
  }

  lemma MintInfoWide(t: MintInfo)
    requires EncodeMint(t).Some?
    ensures |EncodeMint(t).value| >= 1
  {
    var vals := [R.X(t.series), R.Blob(t.rom), R.Blob(t.ram)];
    assert vals[1..] == [R.Blob(t.rom), R.Blob(t.ram)] && vals[1..][1..] == [R.Blob(t.ram)];
  }

  lemma MintsBack(tokens: seq<MintInfo>)
    requires Wire.EncodeArray(tokens, EncodeMint).Some? && |tokens| < Wire.MAX_LEN && forall t :: t in tokens ==> ReadableMint(t)
    ensures Wire.DecodeArray(1, ReadMintInfo, Wire.EncodeArray(tokens, EncodeMint).value) == Got(Wire.Map(ReadMint, tokens), [])
  {
    forall t | t in tokens ensures Wire.Inverts(EncodeMint, ReadMintInfo, ReadMint, t) {
      if EncodeMint(t).Some? {
        forall r: Bytes { MintInfoBack(t, r); }
      }
    }
    forall t | t in tokens && EncodeMint(t).Some? ensures |EncodeMint(t).value| >= 1 {
      MintInfoWide(t);
    }
    Wire.ArrayBack(tokens, 1, EncodeMint, ReadMintInfo, ReadMint, []);
    var bytes := Wire.EncodeArray(tokens, EncodeMint).value;
    assert bytes + [] == bytes;
  }

  lemma {:induction false} LengthsAre(xs: seq<Bytes>)
    ensures Lengths(xs).Some? <==> forall x :: x in xs ==> |x| <= U32_MAX
    ensures Lengths(xs).Some? ==> |Lengths(xs).value| == |xs| && forall i :: 0 <= i < |xs| ==> Lengths(xs).value[i] == |xs[i]|
  {
    if xs != [] {
      LengthsAre(xs[1..]);
      assert xs == [xs[0]] + xs[1..];
    }
  }

  /** The arguments of a deterministic mint as they are written. */
  function MintBytes(token: U64, to: Wire.Bytes32, tokens: seq<MintInfo>): Option<Bytes> {
    var items :- Wire.EncodeArray(tokens, EncodeMint);
    Some(LE(8, token) + to + items)
  }

  lemma MintArgsBack(token: U64, to: Wire.Bytes32, tokens: seq<MintInfo>)
    requires MintBytes(token, to, tokens).Some? && |tokens| < Wire.MAX_LEN && forall t :: t in tokens ==> ReadableMint(t)
    ensures ReadMintArgs(MintBytes(token, to, tokens).value) == Some(MintArgs(token, to, Wire.Map(ReadMint, tokens)))
  {
    MintsBack(tokens);
    MintArgsRead(token, to, Wire.EncodeArray(tokens, EncodeMint).value, Wire.Map(ReadMint, tokens));
  }

  lemma MintArgsRead(token: U64, to: Wire.Bytes32, items: Bytes, tokens: seq<MintInfo>)
    requires Wire.DecodeArray(1, ReadMintInfo, items) == Got(tokens, [])
    ensures ReadMintArgs(LE(8, token) + to + items) == Some(MintArgs(token, to, tokens))
  {
    HeadRead(token, to, items);
  }

  lemma HeadRead(token: U64, to: Wire.Bytes32, rest: Bytes)
    ensures R.DecodeVals([R.KU64, R.KBytes32], LE(8, token) + to + rest) == Got([R.N64(token), R.B32(to)], rest)
  {
    var vals := [R.N64(token), R.B32(to)];
    HeadBytes(token, to);
    assert R.Kinds(vals) == [R.KU64, R.KBytes32] && R.CanonVals(vals) == vals;
    R.ValsBack(vals, rest);
  }

  lemma HeadBytes(token: U64, to: Wire.Bytes32)
    ensures R.EncodeVals([R.N64(token), R.B32(to)]) == Some(LE(8, token) + to)
  {
    var vals := [R.N64(token), R.B32(to)];
    assert vals[1..] == [R.B32(to)] && vals[1..][1..] == [];
    assert R.EncodeVals(vals[1..]) == Some(to + []);
    assert to + [] == to;
  }

  ghost function SeriesOf(tokens: seq<MintInfo>): set<int> {
    set t | t in tokens :: t.series
  }

  /**
    A deterministic mint is priced for as many instances as it lists, each at the lengths of its own ROM
    and RAM, and for the number of different series among them.
   */
  lemma MintRead(token: U64, to: Wire.Bytes32, tokens: seq<MintInfo>)
    requires MintBytes(token, to, tokens).Some? && 0 < |tokens| < Wire.MAX_LEN && forall t :: t in tokens ==> ReadableMint(t)
    ensures var r := RecogniseCall(PlainCall(1, 27, MintBytes(token, to, tokens).value));
            r.Some? && r.value.kind == MintPhantasmaNonFungible && MintFor(r.value.params, token, to, tokens)
            && r.value.params.distinctSeriesCount == Some(|SeriesOf(Wire.Map(ReadMint, tokens))|)
  {
    var args, read := MintBytes(token, to, tokens).value, Wire.Map(ReadMint, tokens);
    MintArgsBack(token, to, tokens);
    ReadSizes(tokens, read);
    MintCall(args);
    MintPart(args, token, to, read);
  }

  lemma ReadSizes(tokens: seq<MintInfo>, read: seq<MintInfo>)
    requires read == Wire.Map(ReadMint, tokens) && forall t :: t in tokens ==> ReadableMint(t)
    ensures |read| == |tokens| && forall i :: 0 <= i < |tokens| ==> |read[i].rom| == |tokens[i].rom| && |read[i].ram| == |tokens[i].ram|
    ensures ShortMints(read)
  {
    forall i | 0 <= i < |tokens|
      ensures |read[i].rom| == |tokens[i].rom| < Wire.MAX_LEN && |read[i].ram| == |tokens[i].ram| < Wire.MAX_LEN
    {
      assert tokens[i] in tokens;
    }
  }

  ghost predicate MintFor(p: Params, token: U64, to: Wire.Bytes32, tokens: seq<MintInfo>) {
    p.tokenId == Some(token) && p.count == Some(|tokens|) && (p.toIsNftAddress <==> SomeNft(to)) && p.facts == UNSTATED
    && |p.romBytes| == |p.ramBytes| == |tokens|
    && forall i :: 0 <= i < |tokens| ==> p.romBytes[i] == |tokens[i].rom| && p.ramBytes[i] == |tokens[i].ram|
  }

  lemma MintCall(args: Bytes)
    ensures RecogniseCall(PlainCall(1, 27, args)) == RecogniseMint(args)
  {
    TokenMethod(27, args);
    MintMethod(27, args);
  }

  lemma MintMethod(methodId: U32, args: Bytes)
    requires methodId == MINT_PHANTASMA
    ensures RecogniseToken(methodId, args) == RecogniseMint(args)
  {
    assert methodId != TRANSFER_FUNGIBLE && methodId != TRANSFER_NON_FUNGIBLE && methodId != MINT_FUNGIBLE;
    assert methodId != BURN_FUNGIBLE && methodId != BURN_NON_FUNGIBLE && methodId != CREATE_TOKEN && methodId != CREATE_TOKEN_SERIES;
  }

  ghost predicate ShortMints(tokens: seq<MintInfo>) {
    forall t :: t in tokens ==> |t.rom| < Wire.MAX_LEN && |t.ram| < Wire.MAX_LEN
  }

  lemma SizesOf(tokens: seq<MintInfo>)
    requires ShortMints(tokens)
    ensures Roms(tokens).Some? && Rams(tokens).Some? && |Roms(tokens).value| == |Rams(tokens).value| == |tokens|
    ensures forall i :: 0 <= i < |tokens| ==> Roms(tokens).value[i] == |tokens[i].rom| && Rams(tokens).value[i] == |tokens[i].ram|
  {
    var roms, rams := seq(|tokens|, i requires 0 <= i < |tokens| => tokens[i].rom), seq(|tokens|, i requires 0 <= i < |tokens| => tokens[i].ram);
    LengthsAre(roms);
    LengthsAre(rams);
  }

  lemma MintPart(args: Bytes, token: U64, to: Wire.Bytes32, tokens: seq<MintInfo>)
    requires ReadMintArgs(args) == Some(MintArgs(token, to, tokens)) && 0 < |tokens| < Wire.MAX_LEN && ShortMints(tokens)
    ensures var r := RecogniseMint(args);
            r.Some? && r.value.kind == MintPhantasmaNonFungible && MintFor(r.value.params, token, to, tokens)
            && r.value.params.distinctSeriesCount == Some(|SeriesOf(tokens)|)
  {
    NftAddressExactlyWhen(to);
    SizesOf(tokens);
    FewSeries(tokens);
  }

  lemma {:induction false} FewSeries(tokens: seq<MintInfo>)
    ensures |SeriesOf(tokens)| <= |tokens|
  {
    if tokens != [] {
      FewSeries(tokens[1..]);
      assert SeriesOf(tokens) == {tokens[0].series} + SeriesOf(tokens[1..]);
    } else {
      assert SeriesOf(tokens) == {};
    }
  }

  // ----- which instances burn -----

  /** The instances a burn call lists, in order, of its token. */
  lemma BurnCallLists(token: U64, from: Wire.Bytes32, ids: seq<U64>)
    requires |ids| < Wire.MAX_LEN && R.EncodeVals([R.N64(token), R.B32(from), R.N64s(ids)]).Some?
    ensures var burned := BurnedByCall(PlainCall(1, 9, R.EncodeVals([R.N64(token), R.B32(from), R.N64s(ids)]).value));
            |burned| == |ids| && forall i :: 0 <= i < |ids| ==> burned[i].tokenId == token && burned[i].instanceId == ids[i]
  {
    BurnArgsBack(token, from, ids);
  }

  /** A message burns what its burn body names, or what its calls burn, call by call. */
  lemma MessageBurns(m: M.TxMsg)
    ensures match m.msg
            case Native(BurnNonFungible(token, id)) => BurnedInstances(m) == [BurnedInstance(token, id)]
            case Native(BurnNonFungibleGasPayer(token, _, id)) => BurnedInstances(m) == [BurnedInstance(token, id)]
            case Call(c) => BurnedInstances(m) == BurnedByCall(c)
            case CallMulti(cs) =>
              (cs == [] ==> BurnedInstances(m) == [])
              && (cs != [] ==> BurnedInstances(m) == BurnedByCall(cs[0]) + BurnedInstances(m.(msg := M.CallMulti(cs[1..]))))
            case _ => BurnedInstances(m) == []
  {
  }
}
