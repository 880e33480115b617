# Zen, verified

A Dafny model of Zen's hard core and proofs of what it promises: typed values with one binary
encoding, a JSON compatibility codec, one structural gate, a message bus that gates every delivery,
and the machines at the boundaries - schemas that travel as values, a framed channel, a crash
supervisor, and a library loader.

`dafny verify dfyconfig.toml` checks the whole project (Dafny 4.11).

## How it is built

Every component is written twice. A specification function says what the component computes, on
values; a method or class does it the way the C++ does, with cursors, in-place patches, moving
indices and loops, and is proved to compute that function. The promises are then proved about the
functions, for all inputs and all runs.

| files | what they model |
|---|---|
| `Bytes` `Model` `ValueRun` | octets and machine integers; the seven kinds, schemas and values |
| `Gate` `GateReport` | the single validator, its two report modes, and what a conforming value is |
| `Utf8` `Wire` `Native` `Canonical` `Alike` `BodyCodec` | the native codec and its two round trips |
| `Base64` `Json` `JsonGrammar` `JsonTokens` `JsonExact` `JsonUtf8` `JsonParser` | the text formats, exact against their standards |
| `Compat` `CompatDocs` `CompatRun` `CompatLimits` `CompatExact` `CrossFormat` | the JSON codec of values, and its agreement with the native one |
| `Admission` `ByteIdentity` `AdmissionRun` | envelopes, admission, byte identity |
| `Hash` `SchemaId` `Registry` `HashSteps` `WorkedExample` | content ids and what they commit to; the registry; the repository's worked example, computed |
| `SchemaCodec` `SchemaTransport` `SchemaCodecRun` `ManifestRun` | schemas as values |
| `Grant` `Bus` `BusRuns` `BusDecisions` `BusGuarantees` `Switchboard` | the bus: transition system, invariant, what each operation decides, guarantees over runs, and the object |
| `Framing` `FramingRun` `Channel` | frames, payloads, the channel and the child's end of it |
| `Supervisor` `SupervisorRuns` `HostDecisions` `SupervisorGuarantees` `IsolationHost` | child processes, bounded revival, quarantine |
| `Libraries` `Kernel` `KernelRuns` `KernelDecisions` `KernelLeaks` `KernelRun` | libraries loaded, swapped and closed |
| `Counterexamples` | concrete inputs and runs on which a promise fails, one for each family a theorem delimits |

Sockets, spawning, the dynamic loader, message handlers and hosted children are adversaries: each
call takes as a parameter whatever they answer, and the theorems hold for every answer. A handler is
the list of sends, publishes, pumps and stops it performs on one delivery, so handlers that adapt to
what they see are covered. A script that ends before the queue drains is a pump still under way:
lifecycle operations may follow, as from inside the handler it was left at, and the pump may be
resumed (`OpResume`).

Fields marked as history (who issued a ticket, what was handled, when a shard left, how often a
child was spawned, what it sent, what was done to libraries) record the past so that theorems about whole runs can
be stated of one state; no modelled decision reads them, but for the list of handled envelopes, from
which the host learns what its proxies were handed.

## Where the code says something else than its comments

- `src/detail/hash.hpp:4-21` calls the hash FNV-1a; the offset basis is not the published one. The
  model uses the code's constant.
- `DESIGN.md:277-285` promises that byte identity is value identity. Accepted bytes are always
  canonical (`CanonicalAcceptance`); in the other direction a conforming value comes back from its
  bytes exactly when `RoundTrip`'s condition holds, and from its JSON text exactly when
  `CompatRoundTrip`'s does, because the encoders check neither UTF-8 nor depth, nor the native one
  counts and sizes, and the gate compares nested schemas by content id only. Values that do not come
  back: `NotEveryValueComesBack`, `OnlyJsonCarries`.
- `include/zen/isolation/protocol.hpp:31` caps a frame at 64 MiB; the backlog cap counts the
  five-octet header too, so exactly the payloads larger than 64 MiB - 5 fail an idle sender
  (`QueueFits`; `CapIsNotReached`).
- `src/isolation/host.cpp:725-729` says a quarantined shard stays dead. Exactly when the budget
  allowed a revival but no child came up, the bus has already marked it alive (`SuperviseDecides`;
  the run `QuarantinedButAlive`).
- `src/kernel/kernel.cpp:400` closes the old library of a reload; exactly when `revive` throws inside
  the swap that line is never reached and the old library stays open (`ThrewWhen`,
  `NothingElseLeaks`; the run `ALeakingRun`). The refusal behind it, at lines 402-404, is never taken
  (`SwapIsAdmitted`).
- `include/zen/kernel/schema_codec.hpp:155` and `:171` cut versions to 32 bits, and decoding passes
  over references no token needs, so distinct descriptors rebuild the same schema. Encoding gives a
  descriptor back exactly when it is plain (`EncodeOfSchema`); `CutVersion`, `CutReference` and
  `StrayReference` are three that are not.

## Model

| member | source | states |
|---|---|---|
| `Model.SetThenGet` | src/value.cpp:61-83 | setting succeeds exactly for declared fields; a set field is read back and no other field moves |
| `ValueRun.Draft.Set` | src/value.cpp:61-71 | the in-place scan: fills the slot of the named field, or leaves the value alone and fails when no field has that name |
| `ValueRun.Draft.Get` | src/value.cpp:73-83 | the scan returns the datum of the named field, or nothing |
| `ValueRun.ConstructBlind` | src/value.cpp:92-101 | every slot holds exactly what the source answered for its field, and nothing was checked |
| `Gate.DiagnoseIsExact` | src/gate.cpp:198-219 | the full report is empty if and only if the value recursively conforms to the door |
| `GateReport.ReportIsComplete` | src/gate.cpp:118-219 | the full report names, strictly in declaration and list order, each place at which the value offends, with its kind and its rendered path, and no place is missed |
| `Gate.ReportModesAgree` | src/gate.cpp:118-126 | both report modes accept the same values, and the first-error report is the head of the full one |
| `Gate.Ctx.ValidateValue` | src/gate.cpp:128-143 | the validator appends exactly the offences of the declared fields, cut where the mode stops |
| `Gate.Ctx.ValidateCell` | src/gate.cpp:145-192 | the same for one datum of any type, through nested messages and lists |
| `Gate.ValidateInto` | src/gate.cpp:198-219 | identity first, then structure; the result is empty exactly for conforming values |
| `Gate.FieldIsThere` | src/gate.cpp:128-143 | reading a required field of a gated value never meets an absent or mistyped datum |
| `Utf8.ValidUtf8IsExact` | src/detail/json.cpp:453-503 | the scan accepts exactly the concatenations of encoded Unicode scalar values (RFC 3629, sections 3 and 4) |
| `Utf8.EncodeAllInjective` | src/detail/json.cpp:16-32 | a sequence of scalar values has one UTF-8 spelling |
| `Utf8.HeadIsEncoding` | src/detail/json.cpp:453-503 | a well-formed head is octet for octet the encoding of its code point: no overlong form, surrogate or code point past U+10FFFF |
| `Utf8.PutUtf8` | src/detail/json.cpp:16-32 | appends the encoding of one scalar value |
| `Utf8.CheckUtf8` | src/detail/json.cpp:453-503 | the moving-index scan returns true if and only if the octets are some sequence of encoded scalar values |
| `Wire.ReadPutUvarint` | src/detail/binary.cpp:41-47 | a written varint followed by anything is read back, leaving exactly what followed (DWARF 5, section 7.6) |
| `Wire.ReadUvarintIsPut` | src/detail/binary.cpp:117-141 | every varint the reader accepts is the minimal one the writer produces, and is below 2^64 |
| `Wire.UvarintIsLeb128` | src/detail/binary.cpp:41-47 | what is written for a number is the one minimal LEB128 sequence whose seven-bit groups mean it, and nothing else is |
| `Wire.ZigzagRoundTrip` | src/detail/binary.cpp:49-53 | zigzag is a bijection between 64-bit signed and unsigned integers |
| `Wire.ReadPutFloat` | src/detail/binary.cpp:28-39 | a written binary64 is read back with its NaN normalised; what normalising leaves alone is said by FloatsTravel |
| `Wire.FloatsTravel` | src/detail/binary.cpp:28-39 | for every sign, exponent and mantissa: zeros, subnormals, finite numbers and infinities are written as their own eight octets and read back as themselves; every other pattern is written as 0x7FF8000000000000, and no other of these is read |
| `Wire.FloatHasParts` | src/detail/binary.cpp:28-39 | every 64-bit pattern is of one sign, exponent and mantissa, so FloatsTravel covers them all |
| `Wire.ReadFloatIsPut` | src/detail/binary.cpp:101-115 | every binary64 the reader accepts is the one pattern the writer produces for it |
| `Wire.WriteUvarint` | src/detail/binary.cpp:41-47 | the shift loop appends the specified varint |
| `Wire.WriteZigzag` | src/detail/binary.cpp:49-53 | appends the varint of the zigzag image |
| `Wire.WriteFloat` | src/detail/binary.cpp:28-39 | appends the eight octets FloatsTravel gives for the pattern |
| `Wire.BinReader.Uvarint` | src/detail/binary.cpp:117-141 | the cursor loop accepts exactly the minimal varints of at most ten octets and advances past them |
| `Wire.BinReader.ZigzagInt` | src/detail/binary.cpp:143-152 | reads what the specification of a signed varint reads |
| `Wire.BinReader.FixedLE` | src/detail/binary.cpp:65-99 | gathers little-endian octets by weight, or refuses when too few are left |
| `Wire.BinReader.Float` | src/detail/binary.cpp:101-115 | refuses every NaN pattern but the quiet one and accepts everything else as itself, as FloatsTravel says |
| `Wire.BinReader.Take` | src/detail/binary.cpp:154-161 | takes exactly the octets asked for, or refuses |
| `Native.MaskIsCanonical` | src/serialize.cpp:95-112 | a presence bitmask with clear padding is the only mask of the values it describes |
| `Native.DecodedIsInstance` | src/serialize.cpp:184-225 | what the decoder yields claims the door itself and has the declared kind in every present slot, at every depth |
| `Canonical.DecodedBodyIsEncoding` | src/serialize.cpp:184-225 | every body the decoder accepts is the encoding of the value it yields, followed by what it left |
| `Canonical.DecodeOfBody` | src/serialize.cpp:95-162 | an encoded instance followed by anything decodes to itself with every NaN made the quiet one, and leaves exactly what followed, if and only if it is within the caps |
| `Canonical.BodiesArePrefixFree` | src/serialize.cpp:95-162 | no body under a schema is a proper prefix of another |
| `Canonical.NormEncodesTheSame` | src/serialize.cpp:95-162 | normalising NaNs does not change the encoding |
| `Canonical.DecodedIsNormal` | src/serialize.cpp:227-339 | what the decoder yields is within the caps and carries no other NaN |
| `Alike.SameIsNorm` | src/detail/binary.cpp:28-39 | two values differ at most in which NaNs they carry, datum by datum at every depth, if and only if they normalise alike |
| `Alike.SameNumbersAreEqual` | src/detail/binary.cpp:28-39 | for a value without NaNs that is equality |
| `BodyCodec.WriteBody` | src/serialize.cpp:95-112 | the encoder that patches mask octets in place appends exactly the specified body, or fails where the original throws |
| `BodyCodec.WriteCell` | src/serialize.cpp:114-162 | appends the specified encoding of one datum |
| `BodyCodec.BinaryDecoder.Body` | src/serialize.cpp:184-225 | the cursor-driven decoder yields the specified value, or one fatal error and nothing else |
| `BodyCodec.BinaryDecoder.Cell` | src/serialize.cpp:227-339 | the same for one datum, with depth, count and length caps |
| `Base64.DecodeOfEncode` | src/detail/base64.cpp:28-59 | decoding undoes encoding on every byte string (RFC 4648, section 4) |
| `Base64.EncodeOfDecode` | src/detail/base64.cpp:61-123 | every accepted text is the canonical encoding of what it decodes to, so stray padding bits are refused (RFC 4648, section 3.5) |
| `Base64.OddLengthRefused` | src/detail/base64.cpp:61-123 | a text whose length is not a multiple of four is refused |
| `Base64.EncodeInto` | src/detail/base64.cpp:28-59 | the encoding loop appends the specified text |
| `Base64.DecodeAll` | src/detail/base64.cpp:61-123 | the decoding loop accepts and yields exactly what is specified |
| `JsonExact.ParserIsExact` | src/detail/json.cpp:38-53 | the parser returns a tree if and only if the input is an RFC 8259 document (sections 2 to 7) meaning that tree, with nesting at most 64, unique keys and paired surrogate escapes |
| `JsonExact.DocumentsAreUnambiguous` | src/detail/json.cpp:82-202 | a text is a document of at most one meaning |
| `JsonTokens.ParseOfPieces` | src/detail/json.cpp:235-321 | every well-formed string literal is read as the characters it spells, up to its closing quote |
| `JsonTokens.PiecesOfParse` | src/detail/json.cpp:235-321 | whatever is read as a string was a well-formed literal spelling it |
| `JsonTokens.SkipOfNumber` | src/detail/json.cpp:323-368 | a number of the grammar is scanned to its end |
| `JsonTokens.NumberOfSkip` | src/detail/json.cpp:323-368 | whatever is scanned as a number is one of the grammar |
| `CompatDocs.ParseOfQuote` | src/detail/json.cpp:412-451 | the string parser undoes the quoter on every byte string, consuming exactly the literal |
| `JsonUtf8.LiteralUtf8` | src/detail/json.cpp:235-321 | a literal whose text is UTF-8 spells UTF-8, through every escape and surrogate pair |
| `JsonUtf8.ParsedStringsAreUtf8` | src/detail/json.cpp:38-53 | UTF-8 text parses to strings and keys that are all UTF-8 |
| `JsonParser.Parser.Value` | src/detail/json.cpp:82-109 | the recursive-descent parser reads exactly the specified value and its rest, and terminates |
| `JsonParser.Parser.Object` | src/detail/json.cpp:119-170 | the member loop, with its duplicate check, reads exactly the specified object |
| `JsonParser.Parser.Array` | src/detail/json.cpp:172-202 | the element loop reads exactly the specified array |
| `JsonParser.Parser.StringLiteral` | src/detail/json.cpp:235-321 | the character loop reads exactly the specified string |
| `JsonParser.Parser.NumberLiteral` | src/detail/json.cpp:323-368 | the scan accepts exactly the specified number token |
| `JsonParser.ParseDocument` | src/detail/json.cpp:38-53 | the run accepts exactly the RFC 8259 documents in the sense of ParserIsExact |
| `JsonParser.QuoteInto` | src/detail/json.cpp:412-451 | the quoting loop appends the specified literal |
| `CompatDocs.IntReadsBack` | src/serialize.cpp:346-354 | the decimal text of every 64-bit integer is read back as that integer |
| `CompatDocs.IdReadsBack` | src/serialize.cpp:376-398 | the 16-digit hexadecimal text of a content id is read back |
| `CompatDocs.DecodeOfDocValue` | src/serialize.cpp:504-663 | decoding the tree the encoder writes reports no error if and only if every text is UTF-8, and then yields the value with its NaNs normalised; no count, size or nesting matters |
| `CompatLimits.DecodedObjectIsInstance` | src/serialize.cpp:504-663 | whatever the JSON tree, the decoder's candidate claims the door and holds only data of the declared kinds, at every depth |
| `CompatExact.ObjectIsExact` | src/serialize.cpp:521-548 | a tree decodes without error as a value if and only if, field by field, its member says that datum in the one spelling the type allows, and it has no member beyond the fields |
| `CompatExact.NodeIsExact` | src/serialize.cpp:551-663 | the same for one datum of any type: decimal text of a 64-bit integer, a finite number or one of three names, text, base64, lists and messages |
| `CompatExact.ScalarFaults` | src/serialize.cpp:551-630 | a scalar that says nothing of its type is one error at its path, a mismatch for the wrong sort of node and malformed otherwise |
| `CompatExact.UndeclaredIsExact` | src/serialize.cpp:524-533 | exactly the members the door does not declare are reported, each at its path |
| `CompatExact.CompatParseIsExact` | src/serialize.cpp:883-955 | a text parses to a claim if and only if it is a JSON document of an object with the four required keys, the id if any, and no other, each of its right form |
| `CompatExact.JsonAdmissionIsExact` | src/serialize.cpp:707-737 | a JSON claim is admitted as a value if and only if name, version and any id are the door's, its members say that value and nothing more, and it conforms |
| `CompatExact.UncoveredIsExact` | src/serialize.cpp:686-704 | a full refusal reports the decoder's errors and, of the gate's, those at paths not reported yet |
| `CompatRun.JsonDecoder.Fields` | src/serialize.cpp:521-548 | the strict decoder reports the specified errors in order, cut where the mode stops, and yields the specified value |
| `CompatRun.JsonDecoder.RefuseUndeclared` | src/serialize.cpp:524-533 | every member the door does not declare is reported, in order |
| `CompatRun.JsonDecoder.Node` | src/serialize.cpp:551-663 | one datum of any type, from the node the tree holds for it |
| `CompatRun.WriteObject` | src/serialize.cpp:442-460 | the encoder appends the specified fields object |
| `CompatRun.WriteNode` | src/serialize.cpp:462-502 | appends the specified text of one datum |
| `CrossFormat.ParseOfCompat` | src/serialize.cpp:866-955 | the JSON envelope a value is written as parses to its own claim and the tree of its fields |
| `CrossFormat.ParsedFits` | src/serialize.cpp:866-955 | the JSON text of an instance parses at all only if the instance nests within the reader's limit |
| `CrossFormat.CompatRoundTrip` | src/serialize.cpp:866-955 | a conforming value comes back from its JSON text, differing at most in its NaNs, if and only if it is an instance of the door, its texts are UTF-8 and it nests within the reader's limit; an instance outside that is refused |
| `CrossFormat.FormatsAgree` | src/serialize.cpp:750-955 | the native bytes and the JSON text of an instance are both admitted as the same value if and only if it is within the caps of both formats and the schema name is UTF-8 |
| `Counterexamples.OnlyJsonCarries` | src/serialize.cpp:227-663 | a conforming list of one element more than the native cap is refused from its own bytes and accepted from its own JSON text |
| `ByteIdentity.CanonicalAcceptance` | DESIGN.md:277-285 | whatever bytes any door admits are the serialization of the value they are admitted as, header and body, through all nesting |
| `ByteIdentity.AcceptedValuesDetermineBytes` | DESIGN.md:277-285 | two byte strings admitted as the same value are the same bytes |
| `ByteIdentity.RoundTrip` | src/serialize.cpp:750-827 | a conforming value comes back from its bytes, differing at most in its NaNs, if and only if it is an instance of the door, within the caps, and the schema name is UTF-8; an instance outside that is refused |
| `ByteIdentity.BytesDetermineValue` | DESIGN.md:277-285 | two instances within the caps serialize alike if and only if they differ at most in their NaNs; without NaNs, equal bytes are equal values |
| `Counterexamples.NotEveryValueComesBack` | src/serialize.cpp:750-955 | a conforming value whose one text is not UTF-8 is serialized by both formats and refused from both |
| `ByteIdentity.ConformingIsInstance` | src/gate.cpp:145-192 | when equal content ids mean equal shapes among the schemas in play, conforming values are instances |
| `ByteIdentity.DecodedOnlyMissesFields` | src/serialize.cpp:722-731 | on a decoded candidate the validator can report nothing but MissingField, at any depth |
| `ByteIdentity.DecodeWorkIsBounded` | src/serialize.cpp:303-336 | an accepted decode materialises at most 2^20 data for each octet it consumes, although list elements may consume none |
| `ByteIdentity.ParsedIsHeader` | src/serialize.cpp:767-827 | everything that parses is the header of its claim with a UTF-8 name, and its body untouched |
| `AdmissionRun.AdmitModesAgree` | src/serialize.cpp:672-705 | on the live, native and JSON paths the first-error mode accepts what the full mode accepts, and its error is the first of the full list |
| `AdmissionRun.AdmittedConforms` | src/serialize.cpp:707-737 | whatever is admitted from bytes conforms to the door and claims the door itself; the live path admits exactly the conforming values |
| `AdmissionRun.LiveAdmits` | src/gate.cpp:223-230 | the live path admits exactly the conforming values, unchanged, and never refuses without an error |
| `AdmissionRun.SerializeValue` | src/serialize.cpp:750-765 | appends header and body as specified, or fails where the original throws |
| `AdmissionRun.ParseBytes` | src/serialize.cpp:767-827 | the cursor-driven envelope reader returns the specified claim |
| `AdmissionRun.FinishDecode` | src/serialize.cpp:672-705 | decode errors and gate errors are merged as specified; a fatal decode stands alone |
| `AdmissionRun.AdmitUnder` | src/serialize.cpp:707-737 | identity, decode and gate in that order give the specified admission |
| `AdmissionRun.SerializeText` | src/serialize.cpp:866-881 | the JSON envelope is written as specified |
| `AdmissionRun.ParseText` | src/serialize.cpp:883-955 | the JSON envelope is read as specified |
| `Hash.StepIsInjective` | src/detail/hash.hpp:29-33 | for a fixed octet the hash step is one-to-one on states, and for a fixed state on octets |
| `Hash.OneOctetChangesDigest` | src/detail/hash.hpp:29-42 | two streams of equal length that differ in exactly one octet always hash differently |
| `Hash.Fnv1a.U64` | src/detail/hash.hpp:49-55 | folds in the eight little-endian octets of a number |
| `Hash.Fnv1a.Field` | src/detail/hash.hpp:42-47 | folds in a string behind its length |
| `SchemaId.CheckedTypeIsExact` | src/schema.cpp:12-37 | the check accepts exactly the well-formed type references, each as its own type |
| `SchemaId.CheckedFieldsIsExact` | src/schema.cpp:90-104 | the constructor accepts exactly the fields with non-empty distinct names and well-formed types, and changes nothing about them |
| `SchemaId.MadeIsBuilt` | src/schema.cpp:90-104 | every schema that can be constructed carries its own content id and is well formed at every depth |
| `SchemaId.StreamDeterminesSchema` | src/schema.cpp:42-68 | the octets folded into an id determine the name, the version, and every field's name, flag and type down to nested ids, and nothing else enters them |
| `SchemaId.OneChangeChangesId` | src/schema.cpp:56-68 | flipping one required flag, or changing one scalar kind at any list depth, always changes the content id |
| `SchemaId.HashType` | src/schema.cpp:42-54 | folds in the specified octets of a type |
| `SchemaId.ComputeContentId` | src/schema.cpp:56-68 | the running hash over name, version and fields is the content id |
| `SchemaId.BuildSchema` | src/schema.cpp:90-104 | one pass with the set of names seen builds the schema or throws, as specified |
| `WorkedExample.PlayerId` | README.md:152-163 | the content id of the worked example, folded octet by octet, is the one the repository prints |
| `WorkedExample.PlayerIsMade` | src/schema.cpp:90-104 | the constructor makes that schema of those two fields |
| `WorkedExample.AmiSerialized` | README.md:152-163 | its value is written as these 34 octets |
| `WorkedExample.AmiAsText` | README.md:152-163 | its JSON text is the one the repository prints, character for character |
| `WorkedExample.OopsIsRefused` | README.md:152-163 | the corrupted candidate is refused as malformed at hp, and in full mode also for the name it lacks |
| `Registry.PublishedIsFrozen` | src/registry.cpp:27-49 | whatever is registered later, every known name and version keeps its schema, and a new one gets the first schema offered |
| `Registry.RegistrationDecides` | src/registry.cpp:27-49 | a second registration under a known key succeeds if and only if the content ids agree, and then hands back the schema already there |
| `Registry.NamedAdmission` | src/serialize.cpp:848-859 | bytes admitted by the name they claim are canonical, conform to the registered schema, and are admitted alike after any later registration |
| `Registry.Registry.RegisterSchema` | src/registry.cpp:27-49 | returns the existing schema, the conflict, or the new entry, and swaps in the grown map only in the last case |
| `Registry.Registry.Lookup` | src/registry.cpp:51-58 | finds the schema of a name and version, or nothing |
| `SchemaCodec.MetaSchemasAreBuilt` | include/zen/kernel/schema_codec.hpp:34-66 | the four meta-schemas are themselves built schemas |
| `SchemaCodec.DescriptorConforms` | include/zen/kernel/schema_codec.hpp:96-114 | the descriptor of every schema passes the gate of the meta-schema |
| `SchemaCodec.DecodeOfType` | include/zen/kernel/schema_codec.hpp:136-167 | the tokens of a type, wherever they stand in a list, are read as that type and no further, exactly when its reference resolves |
| `SchemaCodec.DecodeOfSchema` | include/zen/kernel/schema_codec.hpp:169-189 | decoding a descriptor rebuilds name, version and fields with references answered by the registry, exactly when they all resolve |
| `SchemaCodec.RebuiltKeepsId` | include/zen/kernel/schema_codec.hpp:169-189 | when references resolve to equal content ids, the rebuilt schema has the content id of the one described |
| `SchemaCodec.VersionsAreCut` | include/zen/kernel/schema_codec.hpp:171 | every descriptor whose 64-bit version differs from a schema's by a multiple of 2^32, either way, rebuilds the same schema, and encoding that does not give the descriptor back |
| `Descriptors.EncodeOfType` | include/zen/kernel/schema_codec.hpp:136-167 | encoding the type read from a run of tokens gives those tokens back if and only if every Message token refers to a version of 32 bits and no other token carries a reference |
| `Descriptors.EncodeOfSchema` | include/zen/kernel/schema_codec.hpp:96-189 | encoding what a descriptor rebuilds gives the descriptor back if and only if it claims the very meta-schemas, its version is one of 32 bits and all its tokens are plain |
| `Descriptors.PlainDescriptorsDetermined` | include/zen/kernel/schema_codec.hpp:169-189 | two plain descriptors that rebuild the same schema are the same descriptor |
| `Descriptors.DescriptorBytesReturn` | include/zen/kernel/schema_codec.hpp:96-189 | bytes admitted as a descriptor are the bytes of the re-encoded schema if and only if the descriptor is plain |
| `Counterexamples.CutVersion` | include/zen/kernel/schema_codec.hpp:171 | descriptors with a version past 32 bits and with a negative one rebuild a schema that is encoded otherwise |
| `Counterexamples.CutReference` | include/zen/kernel/schema_codec.hpp:154-155 | so does one whose Message token refers to a version past 32 bits |
| `Counterexamples.StrayReference` | include/zen/kernel/schema_codec.hpp:162-165 | so does one whose scalar token carries a reference |
| `SchemaTransport.DescriptorFits` | include/zen/kernel/schema_codec.hpp:96-114 | a descriptor is within the caps of the wire format if and only if the schema's names, field count and type depths are |
| `SchemaTransport.SchemaRoundTrip` | include/zen/kernel/schema_codec.hpp:71-189 | a schema that fits survives describe, gate, serialize, parse, admit and rebuild with its name, version, fields and content id |
| `SchemaTransport.ManifestRoundTrip` | include/zen/kernel/schema_codec.hpp:116-128 | a manifest listed in dependency order rebuilds every accepted schema and the state schema with equal content ids |
| `SchemaCodecRun.EncodeTypeInto` | include/zen/kernel/schema_codec.hpp:81-94 | pushes exactly the tokens of the type |
| `SchemaCodecRun.EncodeSchemaValue` | include/zen/kernel/schema_codec.hpp:96-114 | fills in the specified descriptor slot by slot |
| `SchemaCodecRun.DecodeTypeAt` | include/zen/kernel/schema_codec.hpp:136-167 | consumes the specified tokens through its moving index, or fails as specified |
| `SchemaCodecRun.DecodeSchemaValue` | include/zen/kernel/schema_codec.hpp:169-189 | rebuilds the specified schema, or fails as specified |
| `ManifestRun.ReconstructManifest` | src/kernel/kernel.cpp:265-288 | rebuilds and registers the schemas of a manifest one by one, as specified |
| `Grant.RuleAdds` | include/zen/switchboard/grant.hpp:96-118 | an empty grant permits nothing and each rule adds exactly what it says |
| `Grant.Grant.Allow` | include/zen/switchboard/grant.hpp:99-103 | widens by one shape to one target and by nothing else |
| `Grant.Grant.AllowToAny` | include/zen/switchboard/grant.hpp:104-108 | widens by one shape to any target |
| `Grant.Grant.AllowAnyTo` | include/zen/switchboard/grant.hpp:109-113 | widens by any shape to one target |
| `Grant.Grant.AllowAny` | include/zen/switchboard/grant.hpp:114-118 | permits everything |
| `Grant.PermitsBy` | include/zen/switchboard/grant.hpp:146-156 | the first-match scan decides whether some rule permits the send |
| `BusRuns.EveryRunKeeps` | src/switchboard/switchboard.cpp:94-455 | every state of every run of registrations, sends, publishes, pumps, stops, kills, reloads and swaps satisfies the bus invariant |
| `BusGuarantees.DeliveryOrder` | src/switchboard/switchboard.cpp:145-172 | tickets are numbered without gaps, the queue holds the latest ones in order, and precisely those are pending |
| `BusGuarantees.HandledExactlyOnce` | src/switchboard/switchboard.cpp:195-207 | handlers are called in ticket order, once for every delivered ticket and for no other; every decision is announced once, in order, with the journal's outcome |
| `BusGuarantees.HandledWasAuthorized` | src/switchboard/switchboard.cpp:238-252 | a gated envelope that was handled carries as sender whoever its ticket was issued for, registered at that moment, whose registration-time grant permits it |
| `BusGuarantees.HandedValuesConform` | src/switchboard/switchboard.cpp:265-287 | everything handed to a handler conforms to the one published schema of its name and version, and everything handed to a shard's revive to the state schema that shard was registered with, which its record keeps |
| `BusGuarantees.NothingIsTakenBack` | src/switchboard/switchboard.cpp:195-199 | over any continuation of a run a decided outcome never changes, history only grows, and published schemas and grants stay |
| `BusDecisions.DeliveryDecides` | src/switchboard/switchboard.cpp:209-274 | a delivery is refused for the first of: no such target, target dead, sender gone or without a rule for this shape and target, shape not accepted, payload not conforming; and is delivered when none applies |
| `BusDecisions.PublishReaches` | src/switchboard/switchboard.cpp:152-172 | a publish is queued for exactly the live shards that accept the name and version of its payload |
| `BusDecisions.HandlerQueues` | src/switchboard/switchboard.cpp:145-193 | what a handler sends and publishes is queued behind what was there, in order, with the target it named or one copy per recipient, stamped and gated; nothing else of the bus changes but a stop it asks for |
| `BusDecisions.HostQueues` | src/switchboard/switchboard.cpp:145-193 | the same for the host, and no operation but a send, a publish or a pump touches the queue |
| `BusDecisions.StopIsHeeded` | src/switchboard/switchboard.cpp:289-301 | a stop asked for by a handler ends the dispatch with that delivery, whatever is queued |
| `BusDecisions.PumpStartsAfresh` | src/switchboard/switchboard.cpp:289-301 | a stop asked for outside a pump has no effect on the next one, which delivers at least once when anything is queued |
| `BusDecisions.RegisterDecides` | src/switchboard/switchboard.cpp:94-133 | registration succeeds if and only if no schema is in conflict and the snapshot conforms; the record is the next id with the accept-set, state and grant offered; everything else stays |
| `BusDecisions.UnregisterDecides` | src/switchboard/switchboard.cpp:135-143 | the record is gone; every other record, the queue, the journal, the registry and the announcements are unchanged |
| `BusDecisions.UnregisteredIsGone` | src/switchboard/switchboard.cpp:135-143 | over every run after an unregistration the id is on no bus, is never handled to nor handed a state, and every delivery to it is NoSuchTarget |
| `BusDecisions.KillDecides` | src/switchboard/switchboard.cpp:333-345 | one record is marked dead and announced |
| `BusDecisions.ReloadDecides` | src/switchboard/switchboard.cpp:347-416 | each outcome of a reload under exactly one condition, and the precise state handed over, last-known-good, budget and announcement that go with it |
| `BusDecisions.SwapDecides` | src/switchboard/switchboard.cpp:418-455 | a swap goes through if and only if the candidate is admitted; then revive is handed precisely that value, which becomes the last-known-good, off the budget; a refused one changes no record |
| `BusDecisions.LastGoodIsLastHanded` | src/switchboard/switchboard.cpp:380-455 | over every run a shard's last-known-good is the last state its revive was handed, or the one it had |
| `BusGuarantees.SamePayloadSameVerdict` | src/switchboard/switchboard.cpp:152-172 | every copy of a payload that reaches the gate, whenever and at whichever shard, gets the same verdict |
| `BusGuarantees.SwapSpendsNothing` | src/switchboard/switchboard.cpp:418-455 | a deliberate swap never touches the revival budget |
| `BusGuarantees.RecipientsAreExact` | src/switchboard/switchboard.cpp:152-172 | a publish reaches exactly the live shards that accept its shape, each once, in registration order |
| `BusGuarantees.PublishQueues` | src/switchboard/switchboard.cpp:152-172 | the copies of a publish are queued in that order under consecutive tickets |
| `BusGuarantees.DispatchEnds` | src/switchboard/switchboard.cpp:289-301 | a dispatch that returned found the queue empty or was asked to stop; until then every further pump is nothing |
| `BusGuarantees.ResumeGoesOn` | src/switchboard/switchboard.cpp:289-301 | leaving a dispatch open and going on with it is the same as having scripted it whole |
| `BusGuarantees.RevivalsAreBudgeted` | src/switchboard/switchboard.cpp:347-416 | over any run the revivals of a shard never exceed the most its policy allowed |
| `Bus.PolicyFields` | src/switchboard/switchboard.cpp:355-363 | reading a gated policy never meets an absent or mistyped field |
| `Switchboard.Switchboard.RegisterShard` | src/switchboard/switchboard.cpp:94-133 | accept-set, state schema, gated snapshot and record as specified; what was published before a conflict stays |
| `Switchboard.Switchboard.UnregisterShard` | src/switchboard/switchboard.cpp:135-143 | removes the record and nothing else, as UnregisterDecides says |
| `Switchboard.Switchboard.EnqueueDirected` | src/switchboard/switchboard.cpp:145-150 | issues the next ticket as pending and queues the envelope last |
| `Switchboard.Switchboard.FanOut` | src/switchboard/switchboard.cpp:152-172 | the ascending loop queues one copy per recipient and returns their number |
| `Switchboard.Switchboard.SendAs` | src/switchboard/switchboard.cpp:185-188 | stamps the sender over whatever the message claims and queues it gated |
| `Switchboard.Switchboard.DeliverOne` | src/switchboard/switchboard.cpp:209-287 | existence, life, authority, accept-set and gate in that order; the handler runs only past all five |
| `Switchboard.Switchboard.Pump` | src/switchboard/switchboard.cpp:289-301 | the dispatch loop takes the state where the transition system says, and is nothing while one runs |
| `Switchboard.Switchboard.OutcomeOf` | src/switchboard/switchboard.cpp:303-308 | reads the journal; unknown tickets are pending |
| `Switchboard.Switchboard.Kill` | src/switchboard/switchboard.cpp:333-345 | marks a shard dead and announces it |
| `Switchboard.Switchboard.Reload` | src/switchboard/switchboard.cpp:347-416 | policy gate, budget, candidate gate and fallback in that order |
| `Switchboard.Switchboard.SwapState` | src/switchboard/switchboard.cpp:418-455 | a gated swap off the budget, with no fallback, as SwapDecides says |
| `Switchboard.ShardBus.Send` | src/switchboard/switchboard.cpp:276-281 | what a handler sends is stamped with the id its bus was made for |
| `Switchboard.ShardBus.Publish` | src/switchboard/switchboard.cpp:276-281 | the same for what it publishes |
| `Framing.DeframeOfStream` | include/zen/isolation/protocol.hpp:37-51 | frames written in front of anything come out first, unchanged |
| `Framing.DeframeAppend` | src/isolation/channel.cpp:96-117 | however a stream is cut, deframing what arrived and then the rest is deframing it all |
| `Framing.EmittedIsExact` | src/isolation/shard_host_main.cpp:97-107 | the payload of a child's output and its reader are inverse on all bytes |
| `Framing.DeliveryIsExact` | src/isolation/host.cpp:644-655 | the payload of a delivery and its reader are inverse on all bytes |
| `Framing.HelloReadsBack` | include/zen/isolation/protocol.hpp:48-51 | a handshake is read back as it was sent |
| `FramingRun.Cursor.Number` | include/zen/isolation/protocol.hpp:66-85 | the bounds-checked cursor reads a little-endian number or refuses |
| `FramingRun.Cursor.Octets` | include/zen/isolation/protocol.hpp:86-94 | reads a length-prefixed string or refuses |
| `FramingRun.TakeEmitted` | src/isolation/host.cpp:670-684 | takes an Emit frame apart as specified |
| `FramingRun.TakeHello` | src/isolation/host.cpp:411-417 | takes the three strings of a handshake apart as specified, or refuses |
| `FramingRun.WriteDelivery` | src/isolation/host.cpp:648-653 | builds the specified Deliver payload |
| `Channel.FramesArriveOnceInOrder` | src/isolation/channel.cpp:30-117 | over any interleaving of queue, flush and poll and any answers of the socket, delivered frames are a prefix of queued ones; while neither end failed those delivered and those still in transit are together exactly the queued ones; and once nothing is in transit every queued frame was delivered |
| `Channel.FlushIsExact` | src/isolation/channel.cpp:46-68 | a flush parts with precisely the octets the socket's answers accept, and fails if and only if a send broke with octets still to go |
| `Channel.PollIsExact` | src/isolation/channel.cpp:70-117 | a poll delivers precisely the frames completed by the octets the socket's answers give, keeps the rest, and fails if and only if the socket broke, gave more than the backlog or sent a length over the cap |
| `Channel.QueueFits` | src/isolation/channel.cpp:30-44 | queueing fails if and only if the backlog with the frame and its header exceeds the cap, so a payload within four octets of the frame cap never fits |
| `Counterexamples.CapIsNotReached` | include/zen/isolation/protocol.hpp:31 | a payload of exactly the documented cap fails even an idle channel |
| `Channel.LengthsAreHonest` | src/isolation/channel.cpp:96-117 | on a link the receiver fails only when the socket breaks or more than the backlog arrives unread, never on a length |
| `Channel.Channel.QueueFrame` | src/isolation/channel.cpp:30-44 | buffers the frame or fails the channel, as specified |
| `Channel.Channel.FlushTo` | src/isolation/channel.cpp:46-68 | hands the socket precisely what its answers accept and keeps the rest, whatever it takes |
| `Channel.Channel.PollFrom` | src/isolation/channel.cpp:70-117 | appends precisely what the socket gave and yields every complete frame |
| `Channel.BlockingSocket.ReadExact` | src/isolation/shard_host_main.cpp:55-70 | succeeds if and only if enough octets arrive before the end, and takes no more |
| `Channel.BlockingSocket.ReadFrame` | src/isolation/shard_host_main.cpp:72-91 | the blocking reader agrees with the buffered deframer frame by frame |
| `Channel.BlockingSocket.SendFrame` | src/isolation/shard_host_main.cpp:47-53 | writes the whole frame, or as much as the parent lived to take |
| `SupervisorRuns.EveryRunKeeps` | src/isolation/host.cpp:783-832 | every state of every run of mounts, unmounts, host steps and bus traffic satisfies the supervision invariant |
| `SupervisorGuarantees.CrashLoopIsBounded` | src/isolation/host.cpp:724-740 | with a policy of m reloads a child is spawned at most 1 + max(0, m) times, each revival was paid for, and deaths never outnumber successful spawns |
| `SupervisorGuarantees.SnapshotIsReady` | src/isolation/host.cpp:491-498 | the host's copy of the state is always canonical and re-admits, so recovery never falls back to the last-known-good |
| `HostDecisions.FrameDecides` | src/isolation/host.cpp:670-722 | a Snapshot frame changes the link if and only if it is admitted, and then the host's copy is exactly that value and those bytes; no other frame changes the link, and only an Emit the bus |
| `HostDecisions.FramesDecide` | src/isolation/host.cpp:791-796 | every frame is handled in order: each emission reaches the bus, and the copy becomes the last admitted snapshot |
| `HostDecisions.EmissionDecides` | src/isolation/host.cpp:670-706 | an emission is put on the bus if and only if it is well formed and admitted under a published schema, sent or published as it says, gated, under the connection's id |
| `HostDecisions.RevivalHandsOverTheLast` | src/isolation/host.cpp:658-740 | over every run the host's copy is the last admitted snapshot heard since the mount, or the handshake's; and a revival hands precisely that value to revive and queues precisely those bytes for the new child |
| `HostDecisions.DeliveriesAreShipped` | src/isolation/host.cpp:644-656 | each child is queued precisely the deliveries its shard handled, in order, behind what was unsent; its channel fails if and only if they do not fit |
| `HostDecisions.ShipmentReads` | src/isolation/host.cpp:644-656 | the child reads a shipment back as the sender, reply address, correlation and value handled |
| `HostDecisions.HandshakeDecides` | src/isolation/host.cpp:460-499 | a handshake is cached if and only if policy, manifest and snapshot are each admitted under the schema they must be of |
| `HostDecisions.MountDecides` | src/isolation/host.cpp:614-642 | a mount goes through if and only if the name is free, a child came up, its handshake was accepted and no schema is in conflict; then there is one more link and shard as handed over, and all others stay |
| `HostDecisions.UnmountDecides` | src/isolation/host.cpp:820-832 | the one link of the name is forgotten and its shard is off the bus; every other stays |
| `HostDecisions.StepDecides` | src/isolation/host.cpp:783-818 | what a step makes of each live link, from the link and the socket's answers alone: kept while its channel works, and otherwise dead once more and respawned, or quarantined if and only if no child came up or no revival was left |
| `SupervisorGuarantees.QuarantineIsAbsorbing` | src/isolation/host.cpp:805-807 | a quarantined link never changes again until it is unmounted, nor does its shard's record or death count |
| `SupervisorGuarantees.ChildOutputIsGated` | src/isolation/host.cpp:670-706 | a child's output reaches the bus only as a conforming, canonically encoded value of a published schema, gated and stamped with its connection's id |
| `SupervisorRuns.SuperviseDecides` | src/isolation/host.cpp:805-818 | a live link is left alone; a dead one is announced once and then spends one revival or is quarantined, and is quarantined yet alive on the bus exactly when budget was left but no child came up |
| `Counterexamples.QuarantinedButAlive` | src/isolation/host.cpp:725-729 | a run from a new host: a child with a revival left hangs up, none can be started, and its quarantined link's shard is alive on the bus |
| `SupervisorRuns.ReloadFromHost` | src/isolation/host.cpp:731 | reloading from the host's copy revives with that copy while budget is left and otherwise changes nothing |
| `IsolationHost.IsolationHost.HandleChildFrame` | src/isolation/host.cpp:670-722 | an Emit, Snapshot or other frame has the specified effect on bus and link |
| `IsolationHost.IsolationHost.RecoverLink` | src/isolation/host.cpp:724-740 | tear down, reload, respawn, and quarantine what did not come back |
| `IsolationHost.IsolationHost.Step` | src/isolation/host.cpp:783-818 | one iteration exchanges with every child, pumps, and supervises every link, as specified |
| `IsolationHost.IsolationHost.ReconstructAndCache` | src/isolation/host.cpp:460-499 | what a child says about itself is cached only once all of it passed the gate |
| `IsolationHost.IsolationHost.MountLink` | src/isolation/host.cpp:606-642 | mounts exactly what the specification mounts |
| `IsolationHost.IsolationHost.UnmountLink` | src/isolation/host.cpp:820-832 | takes the shard off the bus and forgets the link |
| `Libraries.NothingAfterTheEnd` | src/kernel/kernel.cpp:165-183 | in a safe trace an instance is destroyed at most once and never used afterwards, and a library is closed at most once |
| `Libraries.CallsRunInOpenLibraries` | src/kernel/kernel.cpp:408-422 | in a safe trace every call and destruction of an instance comes before its library is closed |
| `KernelRuns.LibrariesAreSafe` | src/kernel/kernel.cpp:290-422 | over every run of loads, reloads, unloads, detachments and bus traffic, with any step failing, the trace of what was done to libraries is safe |
| `KernelDecisions.LoadDecides` | src/kernel/kernel.cpp:290-338 | a load goes through if and only if all it needs is there; then the name runs a fresh instance of a fresh library behind a fresh shard, and otherwise no name, shard, instance or open library changes |
| `KernelDecisions.ReloadHandsOver` | src/kernel/kernel.cpp:340-406 | a reload that went through handed the new instance the very value the old one gave as its snapshot, off the budget, and changed nothing else of the bus |
| `KernelDecisions.UnloadDecides` | src/kernel/kernel.cpp:408-422 | the name, its shard and its adapter are gone, the instance destroyed and the library closed; every other stays |
| `KernelDecisions.UnloadedIsNeverReached` | src/kernel/kernel.cpp:408-422 | over every run after an unload or detachment the id is not on the bus, is never handled to nor handed a state, and every delivery to it is NoSuchTarget |
| `KernelDecisions.TrafficCalls` | src/kernel/kernel.cpp:165-183 | bus traffic calls into the instance behind each loaded shard it reaches, and changes nothing else of the kernel |
| `KernelDecisions.LoadedStaysBacked` | src/kernel/kernel.cpp:290-422 | over every run a loaded shard on the bus has a live instance of an open library behind it |
| `KernelLeaks.ThrewWhen` | src/kernel/kernel.cpp:340-402 | a reload throws if and only if the name is loaded and on the bus, its snapshot is admitted and written, the new library opens, has the ABI, makes an instance and rebuilds the same state identity, and revive throws |
| `KernelLeaks.LeakStep` | src/kernel/kernel.cpp:394-402 | a throwing reload leaks precisely the library it was replacing, and no other step of the kernel leaks anything |
| `KernelLeaks.NothingElseLeaks` | src/kernel/kernel.cpp:394-402 | over every run the open libraries are the loaded ones and, disjoint from them, one for each reload that threw; so every open library is a loaded one if and only if no reload threw |
| `Counterexamples.ALeakingRun` | src/kernel/kernel.cpp:394-402 | a run that loads a shard and reloads it with a throwing revive: the first library stays open under no name |
| `KernelRuns.ReloadKeepsIdentity` | src/kernel/kernel.cpp:340-406 | a reload never changes which shard a name is; a refused one leaves everything as it was; one that went through runs the new library with the old one closed |
| `KernelRuns.SwapIsAdmitted` | src/kernel/kernel.cpp:394-404 | the swap of a reload is always admitted, so its refusal branch is never taken |
| `KernelRun.Kernel.Load` | src/kernel/kernel.cpp:290-338 | every step of a load is safe and the outcome is the specified one |
| `KernelRun.Kernel.ReloadFrom` | src/kernel/kernel.cpp:340-406 | the same for a hot reload |
| `KernelRun.Kernel.Rebind` | src/kernel/kernel.cpp:177-183 | destroys the old instance while its library is open and puts the new one in its place |
| `KernelRun.Kernel.Unload` | src/kernel/kernel.cpp:408-422 | destroys the instance, then closes the library |

## Left out

- Error texts: an error is its kind and its path; expected, actual and detail texts, labels and `message()` are not modelled.
- Error paths of JSON lists in full mode: failed elements are skipped, so later indices shift in the gate's part of the report; the model does what the code does and nothing is claimed about those paths.
- Sharing: values are mathematical, so two messages holding the same `Value` pointer, and moving out of one, cannot be observed.
- Decimal text of doubles: `to_chars` and `from_chars` are the parameter `FloatText`; cross-format results assume it prints JSON numbers that read back exactly (`CompatDocs.Faithful`).
- Widths of counters: tickets, shard ids, reload counts and handles are unbounded; the original's 64-bit counters would have to wrap.
- Bit operations: shifts, masks and xor are written as arithmetic on integers, with the bit-level facts proved (`Bytes.SetBitIsOr`, `Hash.XorUndone`).
- Switchboard.Switchboard.Pump: takes what each handler does as a script and stops between two deliveries when the script ends, so an endless pump is modelled by all of its finite prefixes.
- Exceptions out of handlers, observers, thunks or `serialize` during a pump, and observers that call back into the bus: handlers return, observers are the event log. A throw would leave `in_dispatch_` set.
- Observer registration, and the payload pointer an event carries.
- The shard objects: what `handle` and `revive` are handed is recorded; what `snapshot` and `policy` return is a parameter of the operation that asks.
- Supervisor.HandsOff: the supervision results are for runs in which nobody else kills, reloads, swaps or unregisters a hosted shard.
- SupervisorRuns.EmitIsQuiet: says only that a child's output touches no record and no lifecycle event; `SupervisorGuarantees.ChildOutputIsGated` says what it does do.
- IsolationHost.IsolationHost.MountLink: starts after the capability resolution, which decides only whether to spawn at all.
- Links hold their channel as a value; `Channel.Channel` is the same channel as an object.
- The handshake wait: frames arriving together with the first Hello, and its timeout, are part of "a child came up or did not".
- KernelRun.Loader: every successful open is its own reference; the loader's sharing of one library between opens, and code run by opening or closing, are not modelled.
- A host that takes a loaded shard off the bus and keeps the object: `Kernel.Detach` drops it at once, since an object kept past `unload` would outlive its library.
- KernelRun.Kernel.Load: asks for the snapshot where registration does, after the accept-set; the thunks themselves are one event each.
- Grants for operating-system capabilities, file systems and resources: recorded by the original and never consulted by the bus.
- Namespaces, cgroups, mount plans, process reaping and the C ABI.
- Registry locking and the gate's call counter.
- The authoring templates, the control surface, the example shards and the convenience schema builders: they only assemble what is modelled here.
- Freedom from collisions of content ids: 64 bits cannot give it; what the id commits to is stated instead.
