# Verified model of gsbm

A Dafny 4.11 model of gsbm, a tagged binary serializer: its runtime, the code its generator emits, and the schema tool
that decides which schema changes are allowed. Every property holds for all inputs, all runs or all histories.

## What is modelled

* **Runtime.** `Varint`, `Wire`, `Header`: the byte forms. `ReaderModel`: the bounded Reader with its sticky first error.
  `WriterModel`: the Writer with its counting, recording, buffered and streaming modes and its per-callsite scratch cache.
  `Ops` is the specification: a marshal body as a tree of calls and a recursive pure encoder of what those calls mean.
  `Passes` runs any body on a Writer in any mode; `Framing` is Marshal, compressed Marshal, ReadHeader and blobs in a stream.
* **Generated code.** `Schema`: types (trees of fields) and Go values. `Generated`: the wire form of every type and the
  pure decoder, merging into what a receiver holds as the generated code does. `Evolution` and `RoundTrip`: what a reader
  makes of another schema's bytes, and when a value comes back as it was. `Projection`: what is read in terms of what was
  written, at any depth. `Emit`, `Lockstep`, `SizeWalk`, `Whole`: the size
  walk, the write calls, and why every length prefix is true although codecs may answer differently at every call.
  `Warm`, `WarmCold`, `WarmLimits`: decoding into used memory. `Decoder`, `DecodeIntoModel`: the decoder as loops over a Reader.
* **Schema tool.** `Snapshot`: snapshots and the codec types they stand for. `GoValues`: what a declaration stands for, said
  without those types. `ShapeText`: the Type strings the tool compares.
  `Classifier`: the diff. `Gate`: acknowledgements, and what a diff says about old bytes. `Rules`: the diff code by code and
  exactly which steps pass, on declarations alone. `Chain`, `ChainLimits`: whole
  histories, and those the gate does not protect.
* **Graphs and allocators.** `Predicate`: the memoised search for materialising codecs. `Cycles`: the cycle detector.
  `Shapes`: the shape strings that feed it. `Acyclic`: where these meet the codec. `Pool`: the bump allocators.

## How to read it

A source loop or object is a method or class whose contract equates its effect with a specification function; the lemmas are
about those functions. A generator (`nat -> Option<blob>`) is given the number of the call, so it may answer differently each
time. Lengths and counters are unbounded integers; the wire's own limits (64-bit varints, 2^32-1 bodies, five reserved length
bytes, 29-bit tags, integer widths) are written out. The values of an id_ref field are its target's identifier, which is all
that travels; nil and empty slices and maps are one value.

Where code and comments disagree the code is followed: a repeated slice tag with count 0 keeps the earlier elements
(tools/gsbmcodegen/emit.go:2413-2417), `ReadBytes`, `ReadLength` and `BeginLengthDelim` do not test the error first, and the
width table of the classifier, said to cover every integer kind, does not list the spellings `byte` and `rune`
(tools/gsbmschema/wireoverride.go:210-231). A streaming buffer, said never to grow past its threshold
(storage/gsbm/writer.go:434-438), can pass it by one small write: a varint is appended before the test. The written rules
for codec names call fields in their compat_write window shape-frozen; in the classifier only a plain deprecation on both
sides is (tools/gsbmschema/classifier.go:162).

The fields of a struct are in tag order, as discovery leaves them (tools/gsbmschema/discover.go:1426).

Results that are not what one would hope for, each with its exact condition or a concrete witness:

* a non-nil embedded pointer behind which nothing is written does not come back (`RoundTrip.RoundTrips`);
* a receiver that can fall back on capacity over the allocation budget accepts what a new one rejects, and only such a one
  (`WarmLimits.ReceiverDecides`);
* the gate lets a live field get a codec, which is only a warning, and lets a `rune` be promised fewer bits, which it does not
  see: either way one step makes old bodies unreadable (`ChainLimits.CodecIsAdded`, `ChainLimits.RuneNarrowsUnseen`; exactly
  when a step keeps them readable is `Chain.PlainExactly`);
* a tag's type may change while it is deprecated, so an old blob, or a rollback of two steps, can meet the other type
  (`ChainLimits`; `Chain.HistoryExactly` and `Chain.RollbackExactly` say exactly when two snapshots of a history agree);
* the memoised predicate is exact on acyclic graphs only (`Predicate.CyclicCacheLies`).

## Model

| member | source | states |
|---|---|---|
| Varint.UvarintLength | storage/gsbm/varint.go:4-27 | varintLen is the exact length of the encoding, and never more than 10 bytes below 2^64 |
| Varint.UvarintSpells | storage/gsbm/varint.go:30-36 | an encoding is one LEB128 group sequence (section 7.6 of DWARF 5) that denotes its value |
| Varint.AcceptsExactly | storage/gsbm/varint.go:54-71 | the reader accepts v and n if and only if the first n bytes are one varint of at most 10 bytes whose exact sum is v below 2^64: no wrap-around, nothing at or above 2^64 |
| Varint.AcceptedFits | storage/gsbm/varint.go:54-71 | every accepted value is below 2^64 |
| Varint.ReadBack | storage/gsbm/varint.go:54-71 | an encoded value followed by any suffix reads back with its own length |
| Varint.AppendUvarint | storage/gsbm/varint.go:30-36 | the append loop extends the buffer by the encoding |
| Varint.PutUvarint | storage/gsbm/varint.go:41-50 | the in-place loop writes the same bytes as the append loop and leaves the rest of the buffer alone |
| Varint.ReadUvarintLoop | storage/gsbm/varint.go:54-71 | the shift accumulator, cut to 64 bits at each step, computes the exact parser |
| Varint.ZigzagBijective | storage/gsbm/wire.go:25-32 | zigzag is a bijection, and int64 and uint64 correspond exactly |
| Varint.EncodeBits | storage/gsbm/wire.go:25-27 | the bit expression of the encoder on 64-bit words: doubling, or the complement of doubling, by sign |
| Varint.DecodeBits | storage/gsbm/wire.go:30-32 | the bit expression of the decoder on 64-bit words: halving, or the complement of halving, by parity |
| Ops.PlayAppend | storage/gsbm/writer.go:602-715 | the meaning of two bodies in a row: generators are asked in walk order, the first failure wins |
| Ops.SmallFits | storage/gsbm/gsbm.go:308-335 | once the whole body is within the size cap no region can overflow its five reserved length bytes |
| Ops.ColumnNext | storage/gsbm/writer.go:602-684 | the next answer cached for a callsite and lane is that of the next occurrence of that callsite, whatever other callsites come between |
| WriterModel.Writer.WriteTag | storage/gsbm/writer.go:251-273 | a valid key is written, an invalid one only sets the sticky error |
| WriterModel.Writer.WriteUvarint | storage/gsbm/writer.go:276-303 | one varint in every mode |
| WriterModel.Writer.WriteVarint | storage/gsbm/writer.go:325-335 | one zigzag varint in every mode |
| WriterModel.Writer.WriteBool | storage/gsbm/writer.go:338-353 | one byte in every mode |
| WriterModel.Writer.WriteFixed | storage/gsbm/writer.go:356-383 | a little-endian integer in every mode |
| WriterModel.Writer.WriteText | storage/gsbm/writer.go:394-436 | a length-prefixed string in every mode, chunked when streaming |
| WriterModel.Writer.WriteChunked | storage/gsbm/writer.go:439-490 | cutting a string at the flush threshold loses and reorders nothing; a failed target leaves its error |
| WriterModel.Writer.WritePresence | storage/gsbm/presence.go:29-65 | one presence byte, without a flush |
| WriterModel.Writer.AfterWrite | storage/gsbm/writer.go:136-145 | a flush moves the buffer to the target and describes no new bytes |
| WriterModel.Writer.Flush | storage/gsbm/writer.go:151-165 | nothing for a writer with an error, without a target or with an empty buffer; else the buffer is the last chunk of the target, or the target has failed |
| WriterModel.Writer.BeginLengthDelim | storage/gsbm/writer.go:503-529 | opening a region: a slot on the stack, the recorded length, or five reserved bytes, by mode |
| WriterModel.Writer.EndLengthDelim | storage/gsbm/writer.go:536-584 | closing a region: its size recorded in its own slot, nothing, or the shifted body behind its exact length; BodyTooLarge only when buffered |
| WriterModel.Writer.WriteCached | storage/gsbm/writer.go:602-684 | in walk order a cached write describes the answer of its occurrence: asked for once, replayed in the second pass |
| WriterModel.Writer.TakeAnswer | storage/gsbm/writer.go:602-684 | in walk order a generator is called exactly when the tape has no answer left |
| WriterModel.Writer.LookUp | storage/gsbm/writer.go:602-684 | hit or miss of the scratch entry, whatever the order of callsites: the callsite's own next answer, or the generator's, which is kept |
| WriterModel.AnyInterleaving | storage/gsbm/writer.go:602-715 | however the visits of callsites and lanes interleave, each callsite's answers come back in its own order and no visit disturbs another's |
| WriterModel.Writer.AdoptScratch | storage/gsbm/writer.go:705-715 | every answer moves to the write pass with every cursor at the start |
| Passes.RunAll | storage/gsbm/writer.go:503-584 | any body on a writer in any mode advances it by exactly the bytes, the region sizes and the answers of the body's meaning, or fails as that mode may; streaming a paced body keeps the buffer within the threshold |
| Passes.Run | storage/gsbm/writer.go:276-684 | the same for one call |
| Passes.RunRegion | storage/gsbm/writer.go:503-584 | the same for a region: in streaming mode the size taken from the record is that region's own |
| Passes.RunCached | storage/gsbm/writer.go:602-684 | the same for a cached write |
| Framing.AllModes | storage/gsbm/writer.go:503-584 | count, buffered bytes, and flushed chunks plus tail are one and the same encoding for any flush threshold; the recorded sizes are used up exactly; a stream of a paced body never holds more than its threshold, nor hands over more than ten bytes above it |
| Framing.Marshal | storage/gsbm/gsbm.go:308-335 | the two-pass marshal returns 12 header bytes and the body's meaning, asks every generator exactly once, and refuses only bodies over 2^32-1 bytes |
| Framing.MarshalCompressed | storage/gsbm/gsbm.go:366-450 | the streaming marshal feeds the codec exactly the body's meaning and declares its length; of a paced body it feeds pieces of at most 8202 bytes |
| Header.HeaderFields | storage/gsbm/writer.go:208-231 | the header bytes hold magic, version, flags, hint and length at their offsets |
| Header.HeaderSpelled | storage/gsbm/writer.go:208-231 | the sixteen header bytes: GSBM, 2, the flags, then hint and lengths, low byte first |
| Header.MethodExactly | storage/gsbm/gsbm.go:130-144 | the flags rule accepts 0, 1, 2, 9 and 10 and nothing else, each with its method, and refuses with ErrReservedFlags |
| Header.HeadExactly | storage/gsbm/reader.go:272-325 | the header checks accept exactly the bytes of a header with one of the five allowed flags, 12 bytes or 16 with a declared inflated length, and exactly the declared body behind it |
| Framing.ReadHeader | storage/gsbm/reader.go:272-352 | the imperative header reader accepts exactly the well-formed blobs and leaves the reader on the inflated body |
| Framing.PlainBlobOpens | storage/gsbm/reader.go:272-352 | a blob made by Marshal opens to the same hint, length and body |
| Framing.CompressedBlobOpens | storage/gsbm/reader.go:272-352 | so does a compressed blob, for any codec with an inverse |
| Framing.LegacyBlobOpens | storage/gsbm/reader.go:296-345 | so does one of an older writer, which declares no inflated length |
| Framing.OpensExactly | storage/gsbm/reader.go:272-352 | what an accepted blob holds: the bytes behind its header, or what the codec makes of them, which must have the declared length where one is declared |
| Framing.NewReaderFrom | storage/gsbm/reader.go:94-167 | one blob is taken from a stream, and exactly its bytes |
| Framing.BlobTaken | storage/gsbm/reader.go:94-167 | a well-formed blob followed by anything is taken whole |
| Framing.ConcatenationSplits | storage/gsbm/reader.go:94-167 | a concatenation of k blobs yields each blob in turn and leaves the rest |
| ReaderModel.Reader.ReadTag | storage/gsbm/reader.go:359-382 | reads one key within the region; keeps the first error |
| Wire.KeyExactly | storage/gsbm/reader.go:359-382 | which varints are keys: tags 1 to 2^29 - 1 under wire types 0 to 3, and which error each of the others gets; the writer refuses the same |
| ReaderModel.Reader.ReadUvar | storage/gsbm/reader.go:395-423 | reads one varint within the region; keeps the first error |
| ReaderModel.Reader.ReadFixed | storage/gsbm/reader.go:427-452 | reads a fixed integer within the region; keeps the first error |
| ReaderModel.Reader.ReadBytes | storage/gsbm/reader.go:474-485 | reads a length and its bytes within the region; does not test for an earlier error but never replaces it |
| ReaderModel.Reader.ReadLength | storage/gsbm/reader.go:526-536 | a count never exceeds the bytes left |
| ReaderModel.Reader.BeginLengthDelim | storage/gsbm/reader.go:541-553 | narrows the region to the body, inside the old region |
| ReaderModel.Reader.EndLengthDelim | storage/gsbm/reader.go:559-569 | restores the outer region only when the inner one was read to its end |
| ReaderModel.Reader.SkipField | storage/gsbm/reader.go:574-611 | passes over exactly what the wire type says |
| ReaderModel.Reader.ReadPresenceByte | storage/gsbm/presence.go:76-104 | accepts 0, 1 and, where allowed, 3 |
| Schema.SortedUnique | tools/gsbmcodegen/emit.go:1841-1869 | however the keys of a map were collected, sorting them ends in one sequence |
| Schema.SortedLists | tools/gsbmcodegen/emit.go:1841-1869 | that sequence holds every key once |
| Schema.SortedOrder | tools/gsbmcodegen/emit.go:1841-1869 | in it integers ascend, false comes before true, and of two strings the first is a proper prefix or has the smaller byte where they differ |
| Schema.KeyTotal | tools/gsbmcodegen/emit.go:1841-1869 | the key order is total and strict |
| Schema.KeyTransitive | tools/gsbmcodegen/emit.go:1841-1869 | the key order is transitive |
| Evolution.CountBound | storage/gsbm/reader.go:518-536 | every element takes a byte, so the count guard never rejects a valid slice |
| Evolution.EntriesBound | storage/gsbm/reader.go:518-536 | the same for maps |
| Evolution.SkipExact | tools/gsbmcodegen/emit.go:339-366 | the wire type chosen for a type makes SkipField pass over exactly the bytes of any of its values |
| Evolution.ReadsVal | tools/gsbmcodegen/emit.go:1344-1396 | the central theorem: decoding what a compatible writer wrote, followed by anything, is exactly Convert, in value, length and error |
| Evolution.ReadsFields | tools/gsbmcodegen/emit.go:989-1071 | the same for the decode loop over a writer's fields, known and unknown |
| Evolution.ReadsSlice | tools/gsbmcodegen/emit.go:2402-2525 | the same for slices, with the allocation budget |
| Evolution.ReadsMap | tools/gsbmcodegen/emit.go:2532-2620 | the same for maps |
| Evolution.ReadsOpt | tools/gsbmcodegen/emit.go:2046-2157 | the same for optionals, elided zeros included |
| RoundTrip.FieldsPointwise | tools/gsbmcodegen/emit.go:989-1071 | struct conversion field by field: every reader field holds the writer's value under its tag or what was there; it fails exactly when a shared field does |
| RoundTrip.WhyRefused | tools/gsbmcodegen/emit.go:2329-2372 | a compatible reader refuses a valid value only for a narrowed integer or a slice over the budget |
| RoundTrip.Identity | tools/gsbmcodegen/emit.go:1891-2624 | a value is its own conversion if and only if it survives |
| RoundTrip.RoundTrips | tools/gsbmcodegen/emit.go:1891-2624 | decode after encode gives the value back if and only if its slices are within the budget, its unwritten fields are zero, and every embedded pointer that is not nil has a written field behind it |
| RoundTrip.BodyRoundTrips | tools/gsbmcodegen/emit.go:954-1071 | the same for a whole body through the root's methods |
| RoundTrip.BodyEvolves | tools/gsbmcodegen/emit.go:989-1071 | a body read under another compatible schema: the projection, or an excused error |
| Projection.ConvertProjects | tools/gsbmcodegen/emit.go:989-1071 | what a compatible reader accepts is the projection of what was written, at any depth: the value under every shared tag, zero under every other; and all of it when it declares every tag |
| Projection.ProjectionUnique | tools/gsbmcodegen/emit.go:989-1071 | a projection is determined by what was written |
| Projection.CarriedReadable | tools/gsbmcodegen/emit.go:989-1071 | a body between compatible structs decodes to its projection, or is refused for the slice budget or, where a width narrows, an overflow |
| Projection.AddingFieldsIsSafe | tools/gsbmcodegen/emit.go:1036-1071 | adding fields at any depth: the old reader gets its projection of a new body; the new reader all of an old body, with zeros in what was added at every depth; only the budget can refuse |
| Emit.SizeExact | tools/gsbmcodegen/emit.go:2714-3102 | SizeGSBM equals the number of bytes MarshalGSBM writes, for every type and value that can be encoded |
| SizeWalk.SizeMap | tools/gsbmcodegen/emit.go:3065-3102 | the size walk over a map gives the same sum whatever order the keys come in |
| SizeWalk.SizeValue | tools/gsbmcodegen/emit.go:2947-2969 | the size walk as it runs, nested maps and slices included, computes the analytic size |
| SizeWalk.AnyOrder | tools/gsbmcodegen/emit.go:3065-3102 | the sum over a map's entries depends only on which keys there are |
| Lockstep.Emits | tools/gsbmcodegen/emit.go:1344-1396 | whatever its codecs answer, a value's write calls claim only true lengths and lay down the wire form of the value with each answer in its place; they fail only for a reason in the value |
| Lockstep.EmitsFields | tools/gsbmcodegen/emit.go:954-985 | the same for MarshalGSBM of a struct |
| Lockstep.WrapMeans | tools/gsbmcodegen/emit.go:1353-1382 | a region and a length written beforehand mean the same bytes when the size is right |
| Emit.FieldsPaced | tools/gsbmcodegen/emit.go:954-985 | generated marshal code is paced: a presence byte only ever follows the length of its own region |
| Whole.MarshalledRoot | tools/gsbmcodegen/emit.go:1353-1382 | a marshalled root, opened and decoded, is the root with its codecs' answers, if and only if that value survives |
| Whole.MeasuredBeforehandLies | tools/gsbmcodegen/emit.go:1360-1376 | with a length computed beforehand in front of a materialising codec the claimed length would be false |
| WarmCold.WarmCounted | tools/gsbmcodegen/emit.go:2402-2525 | slice decode into slots that are reused, asked of MakeSlice, or left alone for a count of 0 ends like one into a new slice |
| WarmCold.ResetHolds | tools/gsbmcodegen/emit.go:690-926 | Reset leaves the zero value whatever was there; the capacities decoding can fall back on afterwards are those the receiver's structure says, and a second Reset changes none |
| WarmCold.SlotsDropped | tools/gsbmcodegen/emit.go:822-926 | Reset of a slice: the slots in use let go of every pointer, map and slice and reset their structs, the spare ones stay |
| WarmCold.WarmVal | tools/gsbmcodegen/emit.go:1891-2624 | decoding over used memory agrees with decoding over the value it holds, and what can be fallen back on stays within the budget, even after a failure |
| WarmCold.WarmIsCold | storage/gsbm/decode_into.go:53-60 | DecodeBodyInto ends with the verdict and value of a decode into a new receiver, whenever the capacities in reach after the Reset are within the budget |
| WarmLimits.CapacityDecides | storage/gsbm/allocator.go:111-128 | for memory of any type, warm agrees with cold on every input if and only if every capacity decoding can fall back on is within MakeSlice's budget |
| WarmLimits.ReceiverDecides | storage/gsbm/decode_into.go:53-60 | DecodeBodyInto treats a receiver like a new one on every input if and only if the capacities in reach after its Reset are within the budget |
| WarmLimits.WitnessAccepted | tools/gsbmcodegen/emit.go:2402-2525 | the body built for an oversized receiver, empty values up to the oversized slots, is accepted by it |
| WarmLimits.WitnessRefused | storage/gsbm/allocator.go:111-128 | and refused by any receiver that has to ask for the slots |
| RoundTrip.ZeroSendable | tools/gsbmcodegen/emit.go:940-950 | zero values can always be encoded |
| RoundTrip.ZeroSurvives | tools/gsbmcodegen/emit.go:940-950 | and they come back |
| Decoder.Unmarshal | tools/gsbmcodegen/emit.go:989-1071 | the decode loop over a Reader is the decode on memory: it terminates by the bytes left, stays inside its region, restores it, and returns the reader's first error |
| Decoder.DecodeValue | tools/gsbmcodegen/emit.go:2159-2240 | the same for a value |
| Decoder.DecodeSlots | tools/gsbmcodegen/emit.go:2402-2525 | the same for the element loop, in place over the reused slots |
| Decoder.DecodePairs | tools/gsbmcodegen/emit.go:2532-2620 | the same for the entry loop of a map |
| Decoder.DecodePointer | tools/gsbmcodegen/emit.go:2046-2157 | the same for pointers: presence byte, reuse or allocation |
| DecodeIntoModel.DecodeInto | storage/gsbm/decode_into.go:38-48 | DecodeInto: header, reset and decode; from a fit receiver the result depends on the blob and the type alone, and the receiver is fit again afterwards |
| DecodeIntoModel.DecodeBodyInto | storage/gsbm/decode_into.go:53-60 | the headerless variant |
| Snapshot.ResolveGood | tools/gsbmschema/discover.go:1308-1357 | a validated snapshot resolves to validated codec types, at any depth |
| Snapshot.Settled | tools/gsbmschema/discover.go:1308-1357 | from the depth of its rank on, a shape of an acyclic snapshot resolves to one and the same type |
| Snapshot.SettledFields | tools/gsbmschema/discover.go:1308-1357 | so do the fields of a struct |
| Snapshot.ResolveCarries | tools/gsbmschema/discover.go:1308-1357 | if two snapshots agree on every tag that may travel, so do the codec types of every shape at every depth; and if no tag is lost, none is lost in them |
| GoValues.ValuesExactly | tools/gsbmschema/discover.go:1308-1357 | the values of a shape's codec type are exactly the Go values of the shape: bools, integers in the range of their width and sign, strings, 4- and 8-byte patterns, and slices, maps, pointers and structs of such |
| GoValues.FieldExactly | tools/gsbmcodegen/emit.go:1076-1270 | the same for a field, optional, id_ref, under a codec or plain; out of reach of its embedded pointers it is zero |
| GoValues.ZeroExactly | tools/gsbmcodegen/emit.go:822-926 | the zero value of a codec type is the Go zero of the shape |
| GoValues.FitsExactly | tools/gsbmcodegen/emit.go:1445-1469 | a Go value can be marshalled if and only if every integer in a written place fits the bits it promises (its override's; 32 for int, uint and uintptr; else its own) and every codec has answered |
| GoValues.WireExactly | tools/gsbmcodegen/emit.go:339-366 | the wire type in a field's key: 2 for optionals and codecs, else the one the declaration records (discover.go:1364-1394) |
| GoValues.TravelsExactly | tools/gsbmcodegen/emit.go:954-985 | a tag is written if and only if it is not plainly deprecated, within reach, and no nil id_ref |
| GoValues.OptionalBytes | tools/gsbmcodegen/emit.go:1271-1334 | an optional is one byte 0 for nil, one byte 3 for the zero of a predeclared kind or []byte, and 1 in front of anything else |
| GoValues.SliceBudget | storage/gsbm/allocator.go:111-128 | a slice comes back only within 2^24 elements and 2^24 bytes of memory |
| Classifier.Diff.Add | tools/gsbmschema/classifier.go:52-59 | a row is appended and the maximum severity kept |
| Classifier.Diff.ClassifyStruct | tools/gsbmschema/classifier.go:126-460 | the loops over tags and reserved tags report exactly the rows of the struct, in whatever order the maps are walked |
| Classifier.Classify | tools/gsbmschema/classifier.go:52-124 | the diff holds exactly the reported rows and the highest severity |
| ShapeText.TextInjective | tools/gsbmschema/discover.go:1308-1357 | validated shapes print alike only if they are the same, so comparing Type strings is comparing types |
| ShapeText.NamesAreGo | tools/gsbmschema/discover.go:1308-1311 | the kind names are Go's own, and an integer's says its sign |
| ShapeText.WidthRead | tools/gsbmschema/wireoverride.go:193-245 | the width parsed off a Type string, id_ref suffix and names in parentheses included, is the one the model reads off the shape |
| Gate.EffectiveIsWire | tools/gsbmschema/wireoverride.go:170-245 | the width the classifier reads off a declaration is the width the codec uses, except that it reads none off a byte or rune without an override |
| Gate.PlainField | tools/gsbmschema/classifier.go:138-405 | a field on the wire with nothing breaking reported keeps its kind of value at no less width if and only if it got no codec and did not narrow out of the table's sight |
| Gate.SafeField | tools/gsbmschema/classifier.go:138-405 | with nothing above safe reported it gets no codec |
| Gate.SafeKeeps | tools/gsbmschema/classifier.go:126-460 | a diff with nothing above safe: no written tag is lost, both directions agree on every tag that may travel, and the new schema promises the old widths if and only if nothing narrowed out of sight |
| Gate.SafeUpgrade | tools/gsbmschema/classifier.go:52-460 | a diff with nothing above safe: every old body decodes under the new schema with every written value kept at every depth, or overflows where a rune narrowed unseen; every new body decodes under the old one to its projection, or overflows when a widened integer is reported or was widened unseen; else only the budget refuses (no opaque structs; codecs with length-delimited payloads) |
| Gate.SafeUpgradeSettled | tools/gsbmschema/classifier.go:52-460 | the same between the real types of two acyclic snapshots |
| Gate.CIDiffWithOptions | tools/gsbmschema/runner.go:70-88 | the gate blocks if and only if a breaking row is left unacknowledged |
| Rules.RowsExactly | tools/gsbmschema/classifier.go:52-460 | a diff holds a row if and only if the declarations call for that code about that subject; it has that code's severity and is acknowledged by exactly the text that covers it |
| Rules.GateExactly | tools/gsbmschema/runner.go:70-88 | the gate blocks if and only if a root or struct is lost, a dual-written field is dropped, a dual write stops without the flag, or a struct without a text loses a tag or reserved tag, gives an old name a new tag, or alters a tag old bytes may carry |
| Rules.PlainPasses | tools/gsbmschema/runner.go:70-88 | so a step without texts and flag passes if and only if it takes nothing back and stops no dual write |
| Rules.SafeExactly | tools/gsbmschema/classifier.go:52-460 | nothing above safe is reported if and only if everything promised stays, no tag leaves the wire or comes back for good, none gets a codec and no struct turns opaque or back; such a step passes |
| Chain.PlainStep | tools/gsbmschema/runner.go:70-88 | a step past the gate without acknowledgements takes nothing back, stops no dual write, and changes a type only while the tag is off the wire on both sides |
| Chain.DualWriteGuard | tools/gsbmschema/classifier.go:83-104 | no text in the source acknowledges the end of a dual write, and the operator's flag does not acknowledge removing the field |
| Chain.HistoryGrows | tools/gsbmschema/runner.go:70-88 | over a whole history root sets, struct sets, tag sets and reserved sets never shrink |
| Chain.TypesChangeOffWire | tools/gsbmschema/runner.go:70-88 | over a whole history a tag's type differs only across a step where the tag was off the wire on both sides |
| Chain.PlainExactly | tools/gsbmschema/runner.go:70-88 | a step past the gate loses no tag, and keeps every old body's kinds and widths if and only if no live tag gets a codec or narrows unseen |
| Chain.HistoryExactly | tools/gsbmschema/runner.go:70-88 | over a whole history past the gate two snapshots agree if and only if the tags live in the older that were plainly deprecated, got a codec or narrowed unseen on the way are of the same kind in the newer |
| Chain.HistoryReads | tools/gsbmschema/runner.go:70-88 | then a body of any age decodes with every written value kept |
| Chain.SafeHistoryReads | tools/gsbmschema/classifier.go:126-460 | through any number of steps with nothing above safe old bodies decode with every written value kept, or overflow where an integer narrowed unseen |
| Chain.RollbackExactly | tools/gsbmschema/classifier.go:156-160 | rolling back over such a history agrees on every tag if and only if tags revived from plain deprecation carry the same kind of value |
| Chain.RollbackReads | tools/gsbmschema/classifier.go:156-160 | then the newest bodies are readable by the oldest code, up to overflow and budget |
| ChainLimits.CodecIsAdded | tools/gsbmschema/classifier.go:382-405 | a single step the gate lets through, a codec on a live field, after which an old body cannot be read |
| ChainLimits.RuneNarrowsUnseen | tools/gsbmschema/wireoverride.go:193-245 | a rune promised as int16 reports nothing at all, and an old body overflows |
| ChainLimits.DeprecatedTypeIsReused | tools/gsbmschema/classifier.go:156-162 | a history the gate lets through after which an old blob cannot be read |
| ChainLimits.RollbackOfTwoSteps | tools/gsbmschema/classifier.go:156-162 | a history with nothing above safe after which a rollback of two steps meets a body it cannot read |
| Predicate.SearchTypeExact | tools/gsbmcodegen/emit.go:450-565 | on an acyclic graph a search answers exactly whether a materialising codec or opaque struct is reachable, and every cache entry is exact |
| Predicate.ReachesStep | tools/gsbmcodegen/emit.go:524-565 | reachability unfolds one containment at a time |
| Predicate.Emitter.TypeContainsMaterializingCodec | tools/gsbmcodegen/emit.go:450-453 | any query after any queries before it is exact |
| Predicate.Emitter.Rec | tools/gsbmcodegen/emit.go:455-485 | the imperative search with its visited set and shared cache, on any graph |
| Predicate.Emitter.NamedContains | tools/gsbmcodegen/emit.go:487-565 | the same for a named type and its fields |
| Predicate.CyclicCacheLies | tools/gsbmcodegen/emit.go:470-481 | on a cyclic graph the cache can be wrong: the answer depends on the order of the queries |
| Cycles.CycleSearch.Dfs | tools/gsbmschema/validate.go:240-292 | on-stack structs are exactly the current path; every report is a real closed walk; while none is found the finishing order is topological; a finished root may be walked again |
| Cycles.ValidateNoCycles | tools/gsbmschema/validate.go:240-293 | a report if and only if the roots lead to a cycle; without one the finishing order ranks every struct they lead to |
| Cycles.CleanMeansNone | tools/gsbmschema/validate.go:240-293 | a topological finishing order leaves no cycle that the roots lead to |
| Cycles.CycleCloses | tools/gsbmschema/validate.go:265-284 | the reported part of the path and the closing field are a closed walk |
| Shapes.MatchBracket | tools/gsbmschema/validate.go:454-468 | the loop finds the bracket where the depth falls to zero |
| Shapes.CollectRefs | tools/gsbmschema/validate.go:417-446 | the loop and recursion over a shape string compute the pure collector and terminate |
| Shapes.CollectPrinted | tools/gsbmschema/discover.go:1308-1357 | collecting from a printed shape gives exactly its known struct leaves, in order |
| Shapes.StructKeyGood | tools/gsbmschema/discover.go:210-231 | a struct key, generic or not, is a name the parser can tell from a composite |
| Acyclic.RefsCollected | tools/gsbmschema/validate.go:401-446 | the references read off a field's Type string are exactly the structs its shape mentions |
| Acyclic.CheckCycles | tools/gsbmschema/validate.go:240-293 | when the cycle check reports nothing, every struct the roots lead to has a rank, above all that its fields descend into |
| Acyclic.NoFalseReport | tools/gsbmschema/validate.go:240-293 | and it reports nothing when every struct the roots lead to has a rank above all that its fields mention, id_refs and fields under a codec aside |
| Acyclic.SearchIsMat | tools/gsbmcodegen/emit.go:450-565 | on an acyclic snapshot the memoised search, after any queries, answers exactly whether the real codec type reaches a materialising codec |
| Pool.BumpPool.Alloc | storage/gsbm/allocator.go:68-84 | a slice of exact length and capacity, still zero, in a retained chunk, apart from every slice handed out before |
| Pool.BumpPool.Acquire | storage/gsbmarena/arena.go:96-115 | the bytes are copied into a slice of their own and no earlier slice changes |
| Pool.OneMore | storage/gsbm/allocator.go:68-84 | one more slice beyond the mark keeps all slices pairwise apart |

## Left out

- gzip and zstd, codec pools and decompression limits: library code; a codec is any pair of functions, with an inverse where a lemma says so, and a streaming encoder's output is taken to depend only on the bytes it was fed.
- I/O errors of an io.Reader other than its end, and of an io.Writer other than "this write failed".
- CLI, package loading, go/types lookup, comment parsing, YAML and JSON, and the text of the generated Go: the model is of what the emitted code does.
- The presence sidecar, present bitmaps and FieldPresent; unsafe strings, garbage collection and use after Release.
- Floats are bit patterns; optional floats are left out.
- Custom codecs with a varint or fixed wire type: custom values are length-delimited payloads, their Go zero is the empty payload, and a decode function is taken to use up its region. Handwritten (opaque) structs appear only in the predicate and the classifier; snapshots that hold one are outside `Gate.SafeUpgrade` and the histories of `Chain`.
- Fixed-size arrays as values, which the generator does not encode, appear only as type shapes.
- The order of rows in a diff, and their message texts: a row is its severity, code, subject and acknowledgement.
- Aliasing between receivers: used memory is a tree, so two slices over one backing array are not modelled.
- Generic struct keys are names with balanced brackets in `ShapeText`; that refKey builds such names is `Shapes.StructKeyGood`.
- Interner, schemaHint hashing, benchmarks: only easy claims.
- Chain.RollbackReads: states the direction from its condition only; a rollback can also be readable by luck when no revived tag is present in the body.
- Lockstep.Emits: for encodings of 2^64 bytes or more the claimed lengths wrap and nothing is said.
- WriterModel.Writer.WriteTag: a call made after an error is not modelled beyond the error staying; the model of a body stops at its first error.
- WarmLimits.CapacityDecides: for types nested less than 2^32 deep, so that the witness is shorter than 2^64 bytes.
- WarmLimits.ReceiverDecides: the same bound.
- Varint.EncodeBits: stays on bit vectors; `Varint.ZigzagBijective` is about the same two cases on integers, and no lemma converts between the two.
- Varint.DecodeBits: the same.
- WriterModel.Writer.WriteCached: for visits in the order of the walk; any other order is stated on the cache itself, by `WriterModel.Writer.LookUp` and `WriterModel.AnyInterleaving`.
- WriterModel.Writer.TakeAnswer: the same.
- Chain.HistoryExactly: about agreement on kinds and widths; a type that changed while off the wire into another of the same encoding disagrees here although its bytes still decode.
