# Phantasma Rust SDK: a verified model

A Dafny model of the parts of the Phantasma SDK where a mistake costs money or bytes: the Carbon wire
codec, the offline fee planner, the VM script assembler with its argument compiler, the VM object and
transaction codecs, the cursor-page walk and the decimal printer. Codecs are given twice: as functions
from values to bytes and back, about which the theorems are stated, and as the classes and loops the SDK
runs, each proved to compute those functions.

| files | what they hold |
|---|---|
| `Words` | bytes, little-endian two's complement, sign extension, UTF-8 validity |
| `CarbonWire`, `CarbonSchema`, `CarbonValues`, `CarbonSort` | lengths, compact integers, schemas, dynamic values and structs |
| `CarbonRoundTrip`, `CarbonPrefix`, `CarbonCanonical`, `CarbonUnchanged`, `CarbonFaithful` | reading back, refusal of prefixes, the canonical normal form, which bytes and which values it keeps |
| `CarbonCodec`, `CarbonDynamicCodec` | `CarbonWriter` and `CarbonReader` and the recursive codecs over them |
| `CarbonRecords`, `CarbonMessage`, `CarbonEnvelope`, `CarbonSigners` | transaction bodies, messages, witnesses, who signs, sizes |
| `FeeArithmetic`, `FeeModel`, `FeePrices` | scaling, the cost of each operation, the price list |
| `FeeSettlement`, `FeeCharges` | the settlement, and what it charges for |
| `FeeBounds`, `FeeHoldings`, `FeePlanning`, `FeeExactness` | bounds, what a burner holds, plans and their `exact` mark |
| `FeeMessages`, `FeeRecognition`, `FeeRelease`, `FeeOrder` | messages, what is read out of them, wrapping 32-bit counters, order of calls |
| `VmBinary`, `VmObjects`, `VmCodec`, `VmTransaction` | the VM's byte formats |
| `ScriptAssembler`, `ScriptArguments` | labels and patches, nested arguments on 32 registers |
| `PageWalk`, `Decimals` | two loops of the RPC client |

Conventions: a failing call is `None` or `Refused`, error texts are not modelled; strings are their UTF-8
bytes (in `Decimals` and `PageWalk`, character strings); a signature is an uninterpreted function of key
and message giving 64 bytes (section 5.1.6 of RFC 8032); the node is an arbitrary function of request
number and cursor.

## Findings

Claims in the SDK's comments that the code meets only in part, and when it does meet them:

- The costlier default for `rom_has_meta_id` is not a bound in a batch that mixes NFT burns with other
  operations: surplus deleted rows offset rows created elsewhere. `FeeBounds.BoundExactlyWhenCovered` says
  exactly when the bill is a bound, `FeeBounds.OfferPaysExactlyWhen` when the offer pays every reading, and
  `FeeBounds.BurnWithMintUndercut` gives the smallest failing batch.
- `burner_holds_token` is said to move the ceiling and never the bill. Where a byte shows on the bill, it leaves
  the bill alone exactly when no returned asset can take a balance row, or the batch deletes at least as many rows
  as it could create (`FeeHoldings.BillIgnoresHoldingsExactlyWhen`): always for burns alone
  (`FeeHoldings.BurnsIgnoreHoldings`), not for `FeeHoldings.MixedBatchHeedsHoldings`. An unsaturated ceiling ignores
  it exactly when rows cost no escrow or no returned asset can take one (`FeeHoldings.CeilingIgnoresHoldingsExactlyWhen`).
- `exact` says that nothing assumed mattered. It does not ask about that fact (`FeeExactness.ExactMissesHoldings`);
  `FeeExactness.PlanFreeOfHoldingsExactlyWhen` says when a plan is free of it. Of the facts it does ask about it
  prices two readings: that is right for unmixed and covered messages and with `rom_has_meta_id` stated
  (`FeePlanning.ExactMeans`) and can be wrong otherwise (`FeeExactness.ExactUnsoundMixed`); which two readings
  would decide for every message is `FeePlanning.ExactSoundExactlyWhen`.
- Scaling the sum of charges over-covers every list of charges exactly when the multiplier is 0 or at least
  2^shift, or the shift is 64 or more (`FeeArithmetic.OverCoversExactlyWhen`); otherwise while the sum fits 64 bits.
- Row counts and row sizes are added in unchecked 32 bits. The bounds are claimed where those sums fit
  (`FeeModel.PartFits`), where a release build makes the same plan (`FeeRelease.PlanReleases`). Beyond, even the
  ceiling can be undercut (`FeeBounds.CeilingCanWrap`); an exact condition is proved for NFT transfers
  (`FeeBounds.TransferCeilingExactlyWhen`), not for every batch.
- `IntX` numbers from 2^256 - 2^56 up are written and refused on reading (`CarbonWire.IntXBack`), counts from
  2^31 up likewise (`CarbonWire.LongLengthRefused`), and arrays of zero-width structs can fail the reader's
  count check (`CarbonRoundTrip.StructArrayBack`).
- The schema-bound writer does not sort extras. Where no schema names a field twice, canonicalising a value keeps its
  bytes exactly when every schema-bound struct in it, at every depth, drops its extras or holds them in name order
  (`CarbonUnchanged.UnchangedExactlyWhenTidy`, `CarbonUnchanged.OutOfOrderChanges`); a second canonicalisation changes
  nothing, in order or not (`CarbonCanonical.StaticIdempotent`). Under a schema that names a field twice bytes can
  change as well (`CarbonUnchanged.NamedTwiceChanges`) and once need not be enough (`CarbonUnchanged.NamedTwiceNotIdempotent`):
  it is exactly when each repeated field agrees with the first (`CarbonCanonical.WithIdempotentExactlyWhen`). For the
  bytes no exact condition is proved there.
- A finish of a script builder reports a latched failure and forgets it (`ScriptAssembler.FinishAnswers`).

## Model

| member | source | states |
|---|---|---|
| `Words.UnsignedLE` | src/binary.rs:36-48 | a number that fits an n-byte little-endian word is read back from it |
| `Words.SignedLE` | src/carbon.rs:233-251 | a number in two's-complement range of n bytes survives the word; exactly the words with a high top byte are negative (`TopByte`) |
| `Words.SignExtend` | src/binary.rs:219-241 | filling a word up with its sign byte keeps its signed value |
| `Words.TextIsCharacters` | src/carbon.rs:203-212 | what the readers accept as text is the UTF-8 encoding of Unicode scalar values, by section 3 of RFC 3629, and every such encoding is accepted (`CharactersAreText`) |
| `CarbonWire.LenBack` | src/carbon.rs:452-475 | a count below 2^31 that the remaining bytes can carry at the element width is read back with the rest untouched |
| `CarbonWire.LongLengthRefused` | src/carbon.rs:314-319 | counts from 2^31 up to 2^32 are written and then refused whatever follows, because the length is cast to a signed 32-bit number |
| `CarbonWire.BigIntBack` | src/carbon.rs:265-287 | every v in [-2^255, 2^256) is read back as its signed 256-bit form, whatever bytes follow |
| `CarbonWire.BigIntShortest` | src/carbon.rs:518-538 | whatever byte string the reader accepts for a number, the writer's encoding of that number is no longer |
| `CarbonWire.ReduceSame` | src/carbon.rs:265-287 | the signed form of an accepted number is written to the same bytes and is its own signed form |
| `CarbonWire.ReduceIs` | src/binary.rs:219-241 | the 256-bit word stores v itself below 2^255 and v - 2^256 above |
| `CarbonWire.ShortIffSmall` | src/carbon.rs:265-287 | a compact word has at most n bytes exactly when -256^n <= value < 256^n |
| `CarbonWire.IntXBack` | src/carbon.rs:660-693 | an IntX is read back, across the eight-byte fast path and the sign-mismatch fallback, exactly when v < 2^256 - 2^56; otherwise it is refused |
| `CarbonWire.BigIntMore` | src/carbon.rs:513-538 | bytes behind an accepted number change neither the number nor the offset |
| `CarbonWire.SmallBack` | src/carbon.rs:196-213 | a string of at most 255 UTF-8 bytes is read back |
| `CarbonWire.ZBack` | src/carbon.rs:545-556 | a string without a zero byte is read back up to its terminator |
| `CarbonWire.BlobBack` | src/carbon.rs:314-319 | a byte array shorter than 2^31 is read back |
| `CarbonWire.ArrayBack` | src/carbon.rs:5166-5180 | a counted array whose items round-trip, and are at least as wide as the reader assumes, round-trips |
| `CarbonSchema.TypeBack` | src/carbon.rs:910-973 | the 25 type codes decode to the type they encode |
| `CarbonSchema.SchemaBack` | src/carbon.rs:1115-1136 | every nested schema is read back, a struct type without a definition as one with an empty definition |
| `CarbonSchema.NormalIffUnchanged` | src/carbon.rs:1018-1042 | a schema comes back unchanged exactly when every struct type has a definition and no other type has one |
| `CarbonSchema.SchemaMore` | src/carbon.rs:1125-1136 | an accepted schema is read alike from every longer buffer |
| `CarbonRoundTrip.StaticBack` | src/carbon.rs:1195-1429 | for every type, schema and readable value, reading what was written, with any bytes behind it, gives the canonical value and leaves exactly those bytes |
| `CarbonRoundTrip.VariableBack` | src/carbon.rs:1448-1461 | a self-describing value is read back as its canonical form |
| `CarbonRoundTrip.StructBack` | src/carbon.rs:1590-1600 | a self-describing struct is read back with its fields in name order |
| `CarbonRoundTrip.WithBack` | src/carbon.rs:1519-1587 | a schema-bound struct is read back with the schema's fields, missing ones defaulted, extras kept only under DYNAMIC_EXTRAS, all sorted by name, and the following bytes untouched |
| `CarbonRoundTrip.StructArrayBack` | src/carbon.rs:1379-1397 | an array of structs is read back exactly when its count does not exceed the bytes behind the count, following bytes included; otherwise it is refused |
| `CarbonSort.BeforeExactlyWhen` | src/carbon.rs:1507-1510 | names are in the order of their first differing byte, a prefix first |
| `CarbonSort.SortSorted` | src/carbon.rs:1507-1510 | sorting gives a sequence in name order |
| `CarbonSort.GetSort` | src/carbon.rs:1507-1517 | sorting does not change which field a name finds first |
| `CarbonCanonical.StaticIdempotent` | src/carbon.rs:1195-1429 | for every type and every value, writable or not, where no schema on the way names a field twice, making the canonical value canonical again changes nothing |
| `CarbonCanonical.WithIdempotent` | src/carbon.rs:1519-1587 | the same for schema-bound structs, extras out of name order included: fields are found again as they were left, sorted extras stay |
| `CarbonCanonical.StructIdempotent` | src/carbon.rs:1590-1600 | the same for self-describing structs |
| `CarbonCanonical.WithIdempotentExactlyWhen` | src/carbon.rs:1519-1587 | with or without repeated names in the schema: making a struct canonical once is enough exactly when every repeated field makes of the first one's canonical form what it makes of its own value |
| `CarbonUnchanged.UnchangedExactlyWhenTidy` | src/carbon.rs:1195-1354 | for every type and value, where no schema on the way names a field twice, the canonical form is written to the same bytes exactly when every schema-bound struct inside, at any depth, holds its kept extras in name order |
| `CarbonUnchanged.CanonicalBytesExactlyWhen` | src/carbon.rs:1519-1562 | the same for a struct and the schema-bound writer, its fields and extras included |
| `CarbonUnchanged.SelfDescribingBytesExactlyWhen` | src/carbon.rs:1590-1600 | a self-describing struct, which is sorted as it is written, keeps its bytes exactly when what its fields nest does |
| `CarbonUnchanged.OutOfOrderChanges` | src/carbon.rs:1545-1562 | a struct of two extras, `b` before `a`, is one whose canonical form is written to other bytes |
| `CarbonUnchanged.NamedTwiceChanges` | src/carbon.rs:1519-1543 | a schema that names one field twice, in one byte and in two, is another reason: the second field comes back as what the first was cut to |
| `CarbonUnchanged.NamedTwiceNotIdempotent` | src/carbon.rs:1519-1587 | under that schema the canonical form is not a normal form either: made canonical again, the second field is cut as well |
| `CarbonFaithful.TypedBack` | src/carbon.rs:1195-1429 | every value of its declared type (integers within their width, structs complete and in name order, at every depth) that can be read is read back as itself |
| `CarbonFaithful.TypedWithBack` | src/carbon.rs:1519-1587 | the same for structs and the schema-bound codec: each schema field once and of its type, extras where the schema keeps them |
| `CarbonFaithful.TypedStructBack` | src/carbon.rs:1590-1600 | the same for self-describing structs in name order |
| `CarbonFaithful.TypedDeserialized` | src/carbon.rs:36-41 | deserialising takes exactly the bytes of such a struct and refuses anything behind them |
| `CarbonFaithful.LackingReadsZero` | src/carbon.rs:1519-1543 | a schema field the struct lacks is read back as the zero of its type, nested struct types field by field |
| `CarbonFaithful.OtherKindIsZero` | src/carbon.rs:1195-1354 | a value of another kind than its type is written, and read back, as the zero of the type |
| `CarbonFaithful.IntegerKinds` | src/carbon.rs:1431-1446 | a 256-bit integer is written as a narrow one when 64 bits hold it and as zero otherwise; a narrow one is written as a 256-bit one as it is |
| `CarbonPrefix.DynamicPrefixRefused` | src/carbon.rs:36-41 | if a byte string deserialises as a value, struct or schema, no strict prefix of it does |
| `CarbonPrefix.StaticMore` | src/carbon.rs:1356-1429 | the schema-directed reader answers the same value and offset on every extension of an accepted buffer |
| `CarbonPrefix.WithMore` | src/carbon.rs:1564-1587 | the same for schema-bound structs |
| `CarbonPrefix.BoundPrefixRefused` | src/carbon.rs:1564-1587 | a schema-bound struct that fills a buffer is read from no strict prefix of it |
| `CarbonCodec.CarbonWriter.WriteBigInt` | src/carbon.rs:265-287 | the trimming loop appends exactly the specified compact form, or fails where the specification does |
| `CarbonCodec.CarbonWriter.WriteBigIntArray` | src/carbon.rs:289-295 | the array loop appends count and items, or fails if any item does |
| `CarbonCodec.CarbonReader.ReadLengthFor` | src/carbon.rs:456-475 | the offset-advancing length check follows its specification |
| `CarbonCodec.CarbonReader.ReadBigIntWithHeader` | src/carbon.rs:518-538 | the reader follows its specification and leaves exactly the rest unread |
| `CarbonCodec.CarbonReader.ReadStringZ` | src/carbon.rs:545-556 | the byte-by-byte scan stops at the first zero byte and nowhere else |
| `CarbonDynamicCodec.WriteSchema` | src/carbon.rs:1115-1123 | the recursive writer appends the specified schema bytes |
| `CarbonDynamicCodec.ReadSchema` | src/carbon.rs:1125-1136 | the recursive reader follows its specification and terminates on every input |
| `CarbonDynamicCodec.WriteStatic` | src/carbon.rs:1195-1354 | the schema-directed writer appends the specified bytes or fails |
| `CarbonDynamicCodec.ReadStatic` | src/carbon.rs:1356-1429 | the schema-directed reader follows its specification; it terminates by unread bytes, then schema height |
| `CarbonDynamicCodec.WriteWithSchema` | src/carbon.rs:1519-1562 | bound fields, defaults and extras are appended as specified |
| `CarbonDynamicCodec.ReadWithSchema` | src/carbon.rs:1564-1587 | bound fields and extras are read and sorted as specified |
| `CarbonDynamicCodec.ReadStructs` | src/carbon.rs:1379-1397 | the item loop returns the specified list for any claimed count |
| `CarbonRecords.ValsBack` | src/carbon.rs:2721-3117 | a record of typed fields is read back field by field with the rest untouched |
| `CarbonMessage.CallBack` | src/carbon.rs:2609-2715 | a call is read back with its arguments, or with its sections in normal form behind a negative count |
| `CarbonMessage.PayloadBack` | src/carbon.rs:3138-3201 | all seventeen payloads are read back for the type that announces them |
| `CarbonMessage.TxMsgBack` | src/carbon.rs:3226-3258 | a message whose type fits its payload is read back |
| `CarbonMessage.ReadMatches` | src/carbon.rs:3161-3201 | every message read carries the payload its type announces |
| `CarbonMessage.NormalPayloadIff` | src/carbon.rs:2609-2715 | reading changes nothing in a payload exactly when no call has arguments beside sections or an empty section list, no section both an offset and bytes, and every amount is in signed 256-bit range |
| `CarbonMessage.TxMsgUnchanged` | src/carbon.rs:3226-3258 | a message comes back unchanged exactly when its type fits its payload and the payload is in that normal form |
| `CarbonEnvelope.SignedBack` | src/carbon.rs:3368-3458 | signed envelopes of all three witness layouts are read back, witnesses included |
| `CarbonEnvelope.MessagePrefixRefused` | src/carbon.rs:36-41 | messages and envelopes have no accepted strict prefix |
| `CarbonEnvelope.WitnessSlots` | src/carbon.rs:4478-4519 | the two loops pair each slot with the first signer of its address, and refuse missing or surplus signers |
| `CarbonEnvelope.AssertSignable` | src/carbon.rs:4440-4470 | a message is admitted exactly with a gas offer and, for native fungible transfers, an amount above zero and below 2^63 |
| `CarbonEnvelope.SignTxMsg` | src/carbon.rs:4371-4393 | signing as it runs (admission, slots, one signature a key) succeeds exactly when the message is admissible and serialisable and the set of signers is the required set (for listed types, contains the gas payer); every witness is a key's signature of the message, in the order the type fixes |
| `CarbonEnvelope.SignedIsWritten` | src/carbon.rs:3368-3422 | what signing produces passes every witness check of the envelope writer |
| `CarbonEnvelope.SignOrder` | src/carbon.rs:4371-4393 | for types that fix their witnesses, the envelope does not depend on the order or repetition of the keys |
| `CarbonEnvelope.SignedSize` | src/carbon.rs:3368-3422 | an envelope is as long as its message plus an amount fixed by layout and witness count |
| `CarbonEnvelope.PricedSizeIsSignedSize` | src/carbon.rs:3324-3366 | the size planned with placeholders equals the size signed, for every offer, ceiling and signature, when a stated count agrees with the keys |
| `CarbonSigners.FourKinds` | src/carbon.rs:3296-3316 | every message whose type fits its payload has a token owner beside the gas payer, moves its own tokens, lists its witnesses, or carries none |
| `CarbonSigners.PayerAndOwnerSign` | src/carbon.rs:3305-3309 | each of the five gas-payer bodies is signed exactly by the gas payer and the body's owner; the envelope is the message, the payer's signature and the owner's, 128 bytes in all |
| `CarbonSigners.PayerSigns` | src/carbon.rs:3298-3304 | each of the seven other native bodies is signed exactly by the gas payer, in 64 bytes behind the message |
| `CarbonSigners.NobodySigns` | src/carbon.rs:3310-3310 | a raw script message takes no key and is its own envelope |
| `CarbonSigners.ListSigns` | src/carbon.rs:4478-4495 | calls, batches, trades and scripts are signed by every key given, in order, the gas payer among them, in 4 bytes and 96 a witness |
| `CarbonSigners.PlannedOwned` | src/carbon.rs:3324-3366 | a gas-payer envelope is planned at 128 bytes over the message; a stated count other than two is refused |
| `CarbonSigners.PlannedOwn` | src/carbon.rs:3324-3366 | other native envelopes at 64 bytes and one witness |
| `CarbonSigners.PlannedRaw` | src/carbon.rs:3324-3366 | raw script envelopes at the message's size and no witness |
| `CarbonSigners.PlannedList` | src/carbon.rs:3324-3366 | listed witnesses at 4 bytes and 96 each, one where no count is stated, none refused |
| `FeeArithmetic.ScalingOverCovers` | src/fees.rs:286-295 | while the unit sum fits 64 bits, scaling the sum is at least the saturating sum of scaled charges, equal at shift 0 and from shift 64 on, and larger by less than the number of charges otherwise |
| `FeeArithmetic.ScalingCanFallShort` | src/fees.rs:854-860 | under every multiplier from 1 to below 2^shift, shift below 64, two charges of 2^64 - 1 are scaled to less than their parts |
| `FeeArithmetic.OverCoversExactlyWhen` | src/fees.rs:286-295 | scaling the sum covers every list of charges, saturated or not, exactly when the shift is 64 or more, the multiplier is 0, or the multiplier is at least 2^shift |
| `FeePrices.TransferPrice` | src/fees.rs:553-557 | a fungible transfer: one transfer fee, a query more to an NFT, one row for a new holder of a token whose rows are paid |
| `FeePrices.MintPrice` | src/fees.rs:569-574 | a fungible mint: the same work, a balance record of 33 or 9 bytes, rows for holder and supply |
| `FeePrices.BurnPrice` | src/fees.rs:575-580 | a fungible burn: one transfer fee, a balance record, rows for the burnt counter and supply |
| `FeePrices.NftTransferPrice` | src/fees.rs:558-568 | n NFTs: n transfer fees and a query to an NFT, n rows created and deleted, one more for a new holder |
| `FeePrices.QuantaIs` | src/fees.rs:510-512 | a row takes the smallest number of 1024-byte quanta that holds it |
| `FeePrices.InstanceRowsIs` | src/fees.rs:514-521 | one instance takes its ROM row (62 bytes over, twice the ROM and 36 when canonical), the fixed rows and a RAM row of 17 bytes over if it has RAM; instances add up (`AllRowsConcat`) |
| `FeePrices.SpreadIs` | src/fees.rs:834-846 | sizes are given once each, once for all, or not at all, and otherwise refused |
| `FeePrices.NftMintPrice` | src/fees.rs:581-607 | an NFT mint: n transfer fees and a query to an NFT, 4 + 8n result bytes, rows for holder, supply and every instance |
| `FeePrices.PhantasmaMintPrice` | src/fees.rs:608-646 | a deterministic mint: 4 + 40n result bytes and canonical instance rows; refused exactly when a duplicated mint names no series or more than instances |
| `FeePrices.PhantasmaMintWork` | src/fees.rs:608-646 | its work: n transfers, and two queries an instance, or three and one a series where the series is duplicated |
| `FeePrices.NftBurnPrice` | src/fees.rs:647-680 | an NFT burn: a transfer and two queries an instance and what it returns; its instance rows are deleted, burnt counter and supply rows created |
| `FeePrices.FungibleReturn` | src/fees.rs:799-830 | a returned fungible token: a transfer and a query, its row created unless held and deleted at the NFT, none for gas and data tokens |
| `FeePrices.NftReturn` | src/fees.rs:799-830 | a returned NFT token: two queries and a transfer an instance, each instance's row moved; no instance is refused |
| `FeePrices.TokenPrice` | src/fees.rs:681-725 | under v2 a token costs base and symbol price, halved for each character after the first, as policy fee, and its metadata's queries as work |
| `FeePrices.TokenPriceOne` | src/fees.rs:681-725 | under v1 all of it is work |
| `FeePrices.TokenPricedExactlyWhen` | src/fees.rs:862-882 | a token is priced exactly when its symbol is empty or within 64 characters and the chain's length |
| `FeePrices.TokenRows` | src/fees.rs:681-725 | its rows: the info row, the supply row, and one each for symbol, series counter, burnt counter and inflation |
| `FeePrices.SeriesPrice` | src/fees.rs:726-743 | a series: its fee as policy or work, 4 result bytes, the info row and one or two more |
| `FeePrices.NamePrice` | src/fees.rs:744-763 | a name: its fee halved for each character after the first, no rows; priced exactly for lengths of 1 to 64 within the chain's |
| `FeePrices.ScriptPrice` | src/fees.rs:764-776 | a script: the stated budgets, or 5000 units, 512 event bytes and 4 rows |
| `FeePrices.SameWork` | src/fees.rs:553-574 | to the same recipient a transfer, a mint and the transfer of one NFT are the same work |
| `FeePrices.InfusionCostsQuery` | src/fees.rs:546-557 | an NFT as recipient adds exactly one query fee |
| `FeePrices.InstancesScale` | src/fees.rs:558-568 | unsaturated, n instances to an ordinary address are n times the work of one |
| `FeeModel.ReturnedAssets` | src/fees.rs:799-830 | the return sweep keeps work saturating and created and deleted rows in wrapping 32-bit counters, equal to the exact sums while those fit; a zero instance count is refused |
| `FeeModel.CountRows` | src/fees.rs:580-665 | the per-instance row loop in wrapping 32-bit arithmetic, row sizes included, and that it is exact when row sizes and the total fit |
| `FeeModel.SymbolShift` | src/fees.rs:862-882 | a length is priced exactly when it is zero, or at most 64 and at most the chain's maximum |
| `FeeModel.LongerNameCostsHalf` | src/fees.rs:744-763 | one character more, where still admitted, halves the fee of a name |
| `FeeModel.DuplicatedCostsQueries` | src/fees.rs:608-646 | a duplicated series costs one more query fee an instance and one per distinct series, as long as nothing saturates |
| `FeeSettlement.SettleModels` | src/fees.rs:421-482 | the saturating accumulation loop and the two charge formulas give the settlement of the plain totals |
| `FeeSettlement.EstimateNativeFeeBatch` | src/fees.rs:395-415 | pricing part by part and settling once is the batch estimate; any part that cannot be priced refuses the batch |
| `FeeCharges.BillMeans` | src/fees.rs:439-452 | under v2, off the floor and unsaturated, the bill less the policy fee is the number of whole 2^shift in multiplier times (work + 25 for every envelope byte, result byte and row of growth) |
| `FeeCharges.BillFloor` | src/fees.rs:447-452 | the bill is never below the minimum bill, nor below the policy fee unless it is the minimum; at shifts of 64 or more nothing else is left |
| `FeeCharges.PolicyIsAdded` | src/fees.rs:447-452 | a policy fee is added to the bill as it is, for every multiplier and shift |
| `FeeCharges.ByteCostsWork` | src/fees.rs:439-446 | one more byte of envelope, byte of result or row of growth costs what 25 more work units cost |
| `FeeCharges.DeletedOffsets` | src/fees.rs:434-435 | a deleted row offsets a created one and what is deleted beyond that changes no bill |
| `FeeCharges.OfferMeans` | src/fees.rs:453-453 | under v2 the payload does not count and the offer is the larger of bill and minimum offer |
| `FeeCharges.BillOneMeans` | src/fees.rs:454-462 | under v1, unsaturated, the bill less the byte price of payload, result and growth is the scaled work |
| `FeeCharges.BillOneIgnores` | src/fees.rs:454-462 | under v1 neither policy fees, nor the envelope, nor the minimum bill count |
| `FeeCharges.OfferOneMeans` | src/fees.rs:463-472 | under v1, unsaturated, the offer is the bill, twice the minimum offer and the byte price of what the data lack of 1024 bytes |
| `FeeCharges.CeilingMeans` | src/fees.rs:474-481 | the ceiling is the row price for every created row, capped at 64 bits |
| `FeeCharges.SettlesExactlyWhen` | src/fees.rs:437-441 | a settlement is refused exactly under v2 without an envelope; its counters are the totals |
| `FeeSettlement.OfferCoversBill` | src/fees.rs:437-482 | under both gas models, whatever saturates, the offer is at least the bill |
| `FeeSettlement.SettleMonotone` | src/fees.rs:421-482 | bill and offer do not fall when work, policy fee, result bytes and net storage growth do not |
| `FeeSettlement.TotalConcat` | src/fees.rs:378-403 | a batch costs the sum of its parts |
| `FeeBounds.PartCheaper` | src/fees.rs:525-777 | for every operation, cheaper facts (of chain state, and of what a burner holds) still price, cost no more in any counter, delete the same rows save meta-id rows of NFT burns, and overflow no 32-bit sum the costlier ones do not |
| `FeeBounds.BurnFreesMore` | src/fees.rs:647-680 | for every count and every list of infused assets an NFT burn deletes, meta-id rows aside, at least what it creates, and its 32-bit counters are exact while its sums fit |
| `FeeBounds.QuoteDominates` | src/fees.rs:395-482 | with facts chosen independently per part and per infused asset, the costlier quote, where its 32-bit sums fit, bounds the ceiling always, and bill and offer when the batch is covered or no meta-id reading changes; the cheaper sums then fit too |
| `FeeBounds.DefaultsOverCover` | src/fees.rs:106-122 | where its 32-bit sums fit, the quote with every fact unstated bounds the quote under any reading of every fact, the burner's holdings included: the ceiling always, bill and offer when NFT burns are not mixed with other operations or their meta-id reading is held |
| `FeeBounds.CeilingCanWrap` | src/fees.rs:558-568 | where they do not fit the bound fails in a release build: a transfer of 2^32 - 1 instances to a new holder has ceiling 0, to a known holder, with escrow on rows, a positive one |
| `FeeBounds.TransferCeilingExactlyWhen` | src/fees.rs:558-568 | of an NFT transfer, with counters as a release build wraps them, the ceiling bounds every cheaper reading exactly when rows cost no escrow or its sums fit 32 bits |
| `FeeBounds.UnmixedCovered` | src/fees.rs:434-445 | batches of NFT burns only, or without NFT burns, are covered |
| `FeeBounds.BoundExactlyWhenCovered` | src/fees.rs:434-482 | under either gas model, when a byte of block data survives the scaling and the bill is off the floor and unsaturated, the bill bounds every cheaper reading exactly for covered batches |
| `FeeBounds.UncoveredUndercuts` | src/fees.rs:434-482 | under the same settings every uncovered batch is billed strictly more once its burnt ROMs carry no meta id |
| `FeeBounds.WithoutIdsIsWorst` | src/fees.rs:421-482 | under every setting, of all cheaper readings the one without meta ids is billed and offered the most |
| `FeeBounds.BoundExactlyWhenWorstIsNoWorse` | src/fees.rs:421-482 | under every setting, the bill bounds every cheaper reading exactly when it bounds that one |
| `FeeBounds.OfferPaysExactlyWhen` | src/fees.rs:421-482 | under every setting, the offer pays the bill of every cheaper reading exactly when it pays that of the one without meta ids |
| `FeeBounds.BurnWithMintUndercut` | src/fees.rs:647-680 | one NFT burn with one fungible mint is uncovered under every config, and its default quote lies below the bill of a ROM without a meta id under every responding one, such as plain v2 prices |
| `FeeBounds.BurnsAddNoData` | src/fees.rs:434-445 | burns alone, where their 32-bit sums fit, add no block data: their bill and offer are those without storage counters |
| `FeeBounds.BurnsIgnoreIds` | src/fees.rs:647-680 | where 32-bit sums fit, the quote of burns alone does not depend on `rom_has_meta_id` |
| `FeeBounds.BetweenExtremes` | src/fees.rs:395-482 | whatever a batch mixes, every reading between two is billed, offered and capped between the dearer one with the cheaper one's meta ids and the cheaper one with the dearer one's |
| `FeeBounds.TransferBilledForOneRow` | src/fees.rs:558-568 | however many instances an NFT transfer moves, it is billed and offered as if it created one balance row or none |
| `FeeBounds.MintThenBurnGrowth` | src/fees.rs:647-680 | minting instances and burning them in one transaction grows storage by the token's own rows only, whatever the ROM and RAM |
| `FeeBounds.Sandwich` | src/fees.rs:1102-1123 | in a covered batch, or with meta ids held, equal quotes at the two ends mean equal quotes for every reading in between |
| `FeeHoldings.OthersIgnoreHoldings` | src/fees.rs:525-777 | no operation but an NFT burn is priced from what a burner holds |
| `FeeHoldings.ReadingsDiffer` | src/fees.rs:799-830 | under every reading of the holdings a batch adds up to the same but for created rows; these lie between all held and all missing, which differ by one row for each returned asset but the gas and the data token |
| `FeeHoldings.HoldingBetween` | src/fees.rs:269-274 | where the sums of the all-missing reading fit, every reading of the holdings is quoted between all held and all missing, and its sums fit |
| `FeeHoldings.BillIgnoresHoldingsExactlyWhen` | src/fees.rs:269-274 | for every batch, when a byte of block data shows and the bill is off the floor and unsaturated, the bill ignores what the burner holds exactly when no returned asset can take a row or the batch frees at least all it could create |
| `FeeHoldings.HiddenHoldings` | src/fees.rs:269-274 | under that condition bill and offer ignore the holdings under every setting |
| `FeeHoldings.CeilingIgnoresHoldingsExactlyWhen` | src/fees.rs:269-274 | while unsaturated, the ceiling ignores the holdings exactly when rows cost no escrow or no returned asset can take one |
| `FeeHoldings.QuoteIgnoresHoldingsExactlyWhen` | src/fees.rs:269-274 | under every setting, saturated or not, the whole quote ignores the holdings exactly when all held and all missing are quoted alike |
| `FeeHoldings.BurnsIgnoreHoldings` | src/fees.rs:269-274 | where 32-bit sums fit, the bill and the offer of burns alone never move with what the burner already holds |
| `FeeHoldings.MixedBatchHeedsHoldings` | src/fees.rs:269-274 | in a batch of a returning burn and two mints the bill does move with it, against the comment |
| `FeePlanning.PlansExactlyWhen` | src/fees.rs:1056-1086 | the second pricing never refuses: a plan exists exactly when the operations can be described and settled |
| `FeePlanning.PlanIsBound` | src/fees.rs:1056-1086 | a plan whose 32-bit sums fit bounds, under every cheaper choice of facts, part by part and asset by asset, the ceiling always, and bill and offer for unmixed or covered messages and for every reading that keeps the meta ids |
| `FeePlanning.DressedPrice` | src/fees.rs:1131-1142 | an operation is priced from every fact of chain state it depends on, and a burn from the assets due, which it cannot do without |
| `FeePlanning.DressedScript` | src/fees.rs:1484-1494 | a script is priced at the budgets of the options |
| `FeePlanning.PlanLists` | src/fees.rs:1056-1086 | a plan lists the kinds of its operations in order, the size it was priced for and the quote of its parts |
| `FeePlanning.CheapestIsLeast` | src/fees.rs:1109-1118 | the second pricing's facts are a reading of the first's, stated ones kept, and no such reading is cheaper |
| `FeePlanning.ExactMeans` | src/fees.rs:1056-1123 | for unmixed or covered messages, and for any message whose `rom_has_meta_id` is stated, `exact` holds exactly when no operation is a script and under every reading of the facts, stated ones kept, the message is planned with the same bill, offer and ceiling |
| `FeePlanning.ExactByPart` | src/fees.rs:1056-1123 | the same with facts chosen for each part on its own |
| `FeePlanning.ExactSoundExactlyWhen` | src/fees.rs:1056-1123 | for any message, `exact` is never denied where all readings agree, and all readings give the plan's quote exactly when the two extremes of `FeeBounds.BetweenExtremes` do |
| `FeeExactness.ExactUnsoundMixed` | src/fees.rs:1102-1123 | a mixed message marked `exact` that is billed 600 more under a reading in between: absent meta ids raise the bill by what a small balance record takes off it |
| `FeeExactness.PlanIgnoresHoldings` | src/fees.rs:1102-1123 | under every setting a plan's quote is the same for every reading of the holdings exactly when all held and all missing are quoted alike |
| `FeeExactness.PlanFreeOfHoldingsExactlyWhen` | src/fees.rs:1102-1123 | while the ceiling is unsaturated, a plan that is unmixed or frees all it could create quotes alike for every reading of the holdings exactly when rows cost no escrow or every returned asset is the gas or data token |
| `FeeExactness.ExactMissesHoldings` | src/fees.rs:1102-1123 | `exact` can hold while the ceiling still rests on what the burner holds, which the second pricing does not flip; bill and offer do not |
| `FeeRecognition.NftAddressExactlyWhen` | src/carbon.rs:4521-4554 | a recipient counts as an NFT exactly when its address is the one derived from a token and an instance, neither zero |
| `FeeRecognition.BodyRead` | src/fees.rs:1131-1238 | each native body is one operation of its kind with its token, recipient and instance count; an empty or too long list and raw scripts are refused |
| `FeeRecognition.MintBodyRead` | src/fees.rs:1207-1216 | an NFT mint is priced at the lengths of its own ROM and RAM |
| `FeeRecognition.PayerBodiesAsPlain` | src/fees.rs:1154-1245 | the five gas-payer bodies are priced as their plain forms |
| `FeeRecognition.MessageRead` | src/fees.rs:1240-1269 | a message is one operation, a batch one for each call in order, a trade a script |
| `FeeRecognition.OtherCallsAreScripts` | src/fees.rs:1297-1318 | calls with sections, of other modules or of other methods take the script budget |
| `FeeRecognition.NameRead` | src/fees.rs:1464-1479 | a name registration as written is priced at the name's length |
| `FeeRecognition.SeriesRead` | src/fees.rs:1408-1418 | a series creation is priced at its arguments less the token id |
| `FeeRecognition.CreateRead` | src/fees.rs:1370-1407 | a token creation as written is priced at the lengths of its arguments and symbol, its NFT flag, and the four names its metadata may hold |
| `FeeRecognition.BareCreateRead` | src/fees.rs:1370-1407 | a token without metadata is priced without those rows and queries |
| `FeeRecognition.MintRead` | src/fees.rs:1419-1461 | a deterministic mint as written is priced for its instances, each at its own ROM and RAM length, and for its different series |
| `FeeRecognition.BurnCallLists` | src/fees.rs:1011-1050 | a burn call as written burns exactly the listed instances of its token, in order |
| `FeeRecognition.MessageBurns` | src/fees.rs:1011-1050 | a message burns what its burn body names, or what its calls burn, call by call |
| `FeeRelease.PartReleases` | src/fees.rs:525-777 | priced with row sizes, result bytes and row counters wrapping in 32 bits, an operation whose sums fit costs what the model says, and is refused where the model refuses it |
| `FeeRelease.RowsWrap` | src/fees.rs:510-512 | where row sizes do not fit they wrap: a token, series or instance of 2^32 - 1 bytes is counted 2^22 rows short |
| `FeeRelease.ReleaseFits` | src/fees.rs:525-777 | whatever is priced, the wrapping counters are 32-bit numbers |
| `FeeRelease.PlanReleases` | src/fees.rs:1056-1123 | where the quoted sums fit, the plan made with wrapping counters is the plan of the model, `exact` included |
| `FeeMessages.TransferCallAsNative` | src/fees.rs:1321-1333 | a token-module TransferFungible call, read from its argument bytes, is recognised as the native transfer is |
| `FeeMessages.NftTransferCallAsNative` | src/fees.rs:1334-1347 | the same for an NFT transfer of any instances |
| `FeeMessages.MintCallAsNative` | src/fees.rs:1348-1360 | the same for a fungible mint |
| `FeeMessages.BurnCallAsNative` | src/fees.rs:1361-1372 | the same for a fungible burn |
| `FeeMessages.NftBurnCallAsNative` | src/fees.rs:1373-1379 | the same for the burn of one NFT |
| `FeeMessages.DescribeBatch` | src/fees.rs:1246-1261 | the loop over the calls threads the infusion list: the first burn takes it, later burns take none |
| `FeeMessages.BurnsConserved` | src/fees.rs:1011-1050 | the instance counts of the recognised burns add up to the instances the message burns |
| `FeeMessages.InfusionsDemandedExactlyWhen` | src/fees.rs:1275-1295 | a describable message can do without an infusion list exactly when `burned_instances` is empty, and its burn parts count exactly those instances |
| `FeeMessages.FixedOfferIsSigned` | src/fees.rs:1522-1534 | a message that carries an offer is signed as it is, without a config |
| `FeeMessages.PlannedOfferIsSigned` | src/fees.rs:1535-1552 | any other is signed with the offer and ceiling of its plan; the keys are the witness count exactly where message and caller fix none |
| `FeeMessages.PlannedSizeIsSigned` | src/fees.rs:1522-1548 | the bytes `plan_and_sign` returns are as long as the envelope the plan was priced for |
| `FeeOrder.FoldPermutes` | src/fees.rs:421-433 | a sum over a list does not depend on its order |
| `FeeOrder.PricedTotal` | src/fees.rs:1246-1261 | a priced batch is the sum of its operations plus the returns counted once, wherever the burns stand |
| `FeeOrder.CallOrderIrrelevant` | src/fees.rs:1246-1261 | permuting the calls of a CallMulti changes neither success, size, bill, offer, ceiling, quanta nor `exact`, in exact sums and, where both orders fit 32 bits, with wrapping counters |
| `FeeOrder.ReleaseOrderIrrelevant` | src/fees.rs:1246-1261 | if one order fits and its quoted row counters are below 2^32 - 1, every order fits and is planned alike with wrapping counters |
| `VmBinary.VarUIntBack` | src/binary.rs:155-162 | every 64-bit number is read back from its variable-length form |
| `VmBinary.VarBytesBack` | src/binary.rs:164-173 | byte strings are read back up to 2^24 bytes and refused above |
| `VmBinary.WidthLeast` | src/binary.rs:185-191 | the signed little-endian form of a number is the shortest that holds it |
| `VmBinary.BigIntToVmBytes` | src/binary.rs:193-209 | the branches that push padding append exactly that many sign bytes |
| `VmBinary.VmBytesBack` | src/binary.rs:193-217 | VM padding is a sign extension: every integer is preserved |
| `VmObjects.ObjectBack` | src/vm.rs:135-161 | a nested object is read back, whatever follows it, exactly when no byte string in it is over 2^24 bytes; otherwise it is refused |
| `VmObjects.PlainIffUnchanged` | src/vm.rs:144-151 | an object comes back unchanged exactly when each of its Object payloads has 34 bytes |
| `VmObjects.BytesHoldObject` | src/vm.rs:128-134 | the bytes of an object within the limit hold that object, and with anything behind them none |
| `VmObjects.ObjectPrefixRefused` | src/vm.rs:128-133 | a byte string that holds an object has no strict prefix that holds one |
| `VmCodec.WriteObject` | src/vm.rs:310-336 | the recursive writer appends the specified bytes or fails on an enum above one byte |
| `VmCodec.ReadObject` | src/vm.rs:135-161 | the recursive reader follows its specification |
| `VmCodec.ReadItems` | src/vm.rs:152-159 | the item loop follows its specification and terminates for any claimed count |
| `VmTransaction.TransactionBack` | src/transaction.rs:51-90 | a transaction is read back with its signatures exactly when its byte strings are within 2^24 bytes |
| `VmTransaction.BytesDecide` | src/transaction.rs:51-66 | readable transactions with the same bytes are the same, and so for the bytes that are hashed and signed |
| `VmTransaction.ToBytes` | src/transaction.rs:51-66 | the writer and its signature loop produce the specified bytes |
| `VmTransaction.FromBytes` | src/transaction.rs:68-90 | the reader and its signature loop follow their specification, trailing bytes refused |
| `ScriptAssembler.RunLinked` | src/vm.rs:534-641 | every run of builder operations keeps the slots disjoint, in bounds, zero and behind their own instruction, and every label behind a NOP outside all slots |
| `ScriptAssembler.SameLabelExactlyWhen` | src/vm.rs:609-614 | two names are the same label exactly when they differ in the case of ASCII letters at most |
| `ScriptAssembler.OperationStands` | src/vm.rs:562-650 | in the code of every run each accepted operation stands where it was emitted, with the opcode, register, type and data its caller passed, and its target's slot behind it |
| `ScriptAssembler.LabelStands` | src/vm.rs:609-614 | a label names the offset behind its NOP unless a later label of the same name, letter case aside, takes it |
| `ScriptAssembler.LinkedScript` | src/vm.rs:507-532 | a linked script is the emitted code outside the slots, and each slot holds its label's offset, little-endian, at most 32767 for jumps and 65535 for calls, right behind a NOP |
| `ScriptAssembler.FinishesExactlyWhen` | src/vm.rs:496-505 | a run can be finished exactly when no operation was refused, every name used is defined up to letter case, and no target is out of range |
| `ScriptAssembler.PlayLinked` | src/vm.rs:496-641 | runs with any number of finishes keep the same invariant |
| `ScriptAssembler.FinishAnswers` | src/vm.rs:496-505 | in every run with several finishes, one answers a latched failure exactly when an operation since the finish before it was refused; every other one links the code as it stands |
| `ScriptAssembler.FillSlots` | src/vm.rs:507-532 | filling the slots in ascending order gives the linked script or fails; no slot lies past the end |
| `ScriptAssembler.ScriptBuilder.EmitLoad` | src/vm.rs:562-573 | the code of a load is appended, or a failure latched above 65535 bytes |
| `ScriptAssembler.ScriptBuilder.EmitLabel` | src/vm.rs:609-614 | a NOP is emitted and the lower-cased label recorded behind it |
| `ScriptAssembler.ScriptBuilder.EmitJump` | src/vm.rs:616-628 | a slot is reserved behind the jump, or a failure latched for another opcode |
| `ScriptAssembler.ScriptBuilder.EmitCall` | src/vm.rs:630-641 | a call slot is reserved, or a failure latched for a register count outside 1..32 |
| `ScriptAssembler.ScriptBuilder.EndScript` | src/vm.rs:496-505 | finishing changes the builder and answers as specified |
| `ScriptArguments.ArgumentFailsExactlyWhen` | src/vm.rs:988-1025 | loading an argument fails exactly when more than 30 arrays nest or some load is over 65535 bytes or out of timestamp range |
| `ScriptArguments.LoadRuns` | src/vm.rs:988-1025 | run on 32 registers, the code for an argument leaves its value in its register, writes none below, never leaves the register file and does not touch the stack |
| `ScriptArguments.IndexHoldsItem` | src/vm.rs:1007-1022 | in the array that is left, index i is mapped to item i |
| `ScriptArguments.ArgsRun` | src/vm.rs:977-986 | the code for all arguments pushes their values, last argument first |
| `ScriptArguments.PushedAt` | src/vm.rs:977-986 | argument k ends k places below the top |
| `ScriptArguments.LoadIntoRegister` | src/vm.rs:988-1025 | the recursive emitter performs exactly the specified operations |
| `ScriptArguments.InsertMethodArgs` | src/vm.rs:977-986 | the reversed loop performs exactly the specified operations |
| `PageWalk.ReadAllPages` | src/rpc.rs:1840-1866 | against any node, the loop returns what the walk is specified to return and asks for exactly the specified cursors |
| `PageWalk.RequestsBounded` | src/rpc.rs:1840-1866 | against any answers, the cursors the loop asks for are at most 1000 and pairwise distinct |
| `PageWalk.WalkCollects` | src/rpc.rs:1840-1866 | the walk succeeds exactly when it ends by itself, and then returns the items of all requested pages in request order |
| `PageWalk.ChainReturned` | src/rpc.rs:1840-1866 | a chain of fresh cursors that ends within 1000 pages is returned completely, each page once |
| `Decimals.DenotesAmount` | src/rpc.rs:1958-1986 | for decimals of at least 1 the output is canonical and denotes exactly amount / 10^decimals |
| `Decimals.EveryAmount` | src/rpc.rs:1958-1986 | every integer is an amount: its digits behind its sign |
| `Decimals.PlainAmount` | src/rpc.rs:1958-1986 | without decimals the amount is printed as it is and reads as itself |
| `Decimals.ReadsAsAmount` | src/rpc.rs:1958-1986 | for every number of decimals the output reads as amount / 10^decimals |
| `Decimals.OutputsDecide` | src/rpc.rs:1958-1986 | two outputs are equal exactly when the amounts are |

## Left out

- HTTP transport, JSON-RPC calls, response types, extended events and JSON parsing: I/O and serde-driven wrappers.
- Ed25519, SHA-256, Base58, Base64, hex: foreign crates; keys and signatures are parameters.
- Clock-based expiry helpers and the fee cache's lifetime; proof-of-work mining of a VM transaction.
- Token and metadata builders, schema JSON and icon checks; the coercion of nested metadata before writing.
- Argument structs that the fee planner does not decode (market, listing, chain and token configuration): short field lists.
- `*_text`, `*_hex` and single-instance convenience wrappers, and the contract-call helpers of the script builder.
- `VMObject` casts to numbers, strings and arrays.
- FeeOrder.CallOrderIrrelevant: with wrapping counters claimed where both orders fit; the first burn takes the whole infusion list, so one order may fit and another not.
- FeeBounds.BoundExactlyWhenCovered: at settings where a byte of block data does not show on the bill the exact condition is that of `FeeBounds.BoundExactlyWhenWorstIsNoWorse`, in terms of one other bill.
- CarbonMessage.CallBack: the section count -2^31, whose negation overflows in the source, is modelled as a refusal.
- CarbonMessage.PayloadBack: the fourteen fixed-shape bodies are modelled on values, as field lists; their writer and reader methods are not modelled in place.
- CarbonCanonical.StaticIdempotent: asks for distinct field names in every schema; one level of repeated names is decided by `CarbonCanonical.WithIdempotentExactlyWhen`.
- CarbonUnchanged.UnchangedExactlyWhenTidy: asks for distinct field names in every schema, without which bytes can change for another reason (`CarbonUnchanged.NamedTwiceChanges`).
- FeeHoldings.BillIgnoresHoldingsExactlyWhen: at settings where a byte of block data does not show on the bill the exact condition is that of `FeeHoldings.QuoteIgnoresHoldingsExactlyWhen`, in terms of two other quotes.
- FeeBounds.CeilingCanWrap: one input; the exact condition beyond 32 bits is proved for NFT transfers only.
- ScriptArguments.LoadRuns: the machine's LOAD, CAST, PUT and PUSH follow the operand order of the emitter; the chain's own interpreter is not part of this model.
