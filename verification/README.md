# Verified models of the native code under ios/Pods

Dafny models of the vendored C and C++ that does the work below this app, with proofs of what
that code is for: a protobuf codec, the DTLS handshake transport, the TLS 1.2 handshake, the TLS
write path, the session serialization and a reference count. Code that works in place is modelled
in place, by classes and loops, and each method is proved against a specification function; the
properties are then proved of the specification for all inputs and all runs.

| directory | models | main results |
|---|---|---|
| `nanopb/` | pb_encode.c, pb_decode.c, pb_common.c | round trip and schema evolution, sizing equals writing, concatenation is merge, arbitrary input stays in storage, what absent fields hold, the documented bytes |
| `dtls/` | d1_both.cc, dtls_record.cc, dtls_method.cc | delivery in order and byte for byte as in the sender's transcript over a lossy, reordering channel; a flight that can be sealed is sent whole and handed over once its records have come; fragment tiling; replay window |
| `tls/` | s3_pkt.cc, s3_both.cc, ssl_buffer.cc, cipher choice of handshake_server.cc | conservation of sealed bytes over partial writes and retries; completion when the transport takes them |
| `session/` | ssl_asn1.cc and the byte string code it uses | round trip of sessions, exactly when it holds; any accepted bytes are a session in range; one DER form |
| `handshake/` | handshake_client.cc, handshake_server.cc, handshake.cc | the two machines together: agreement on the transcript and on what the configurations call for, no deadlock, completion |
| `crypto/` | refcount_c11.c, refcount_lock.c | the CAS loops are linearizable to the locked operations |
| `machine/` | | bits, shifts and big-endian numbers |

`dafny verify dfyconfig.toml` checks everything.

Some places where the code does not do what one might expect; each is proved:

- pb_decode_noinit checks only the first 64 required fields (`Required.RequiredFieldsChecked`).
- A string that fills its buffer without a terminator is encoded but not decoded (`RoundTrip.UnterminatedStringFails`); `RoundTrip.MessageRoundTrip` gives the exact condition.
- The replay window forgets when the 16-bit epoch wraps; it never repeats a record if and only if there are fewer than 2^16 epoch changes (`DtlsRecord.NoRepeatsUnlessWrapped`).
- A DTLS fragment exactly seven messages ahead is an error, though those further ahead are ignored (`DtlsReceive.BeyondTheWindow`).
- A retry of SSL_write on an open connection with fewer bytes than the progress remembered from the failed call (`wnum`, without the record still pending) fails and forgets that progress (`WriteRuns.ShortRetryForgets`, `WriteRuns.ProgressForgotten`); every other failing call keeps the account (`WritePath.Writer.WriteAppData`, `WriteRuns.Drive`).
- If the last cipher of the server's list is flagged as inside a group, that group never closes and its ciphers are never chosen (`CipherChoice.ChooseCipher`, `CipherChoice.NoneCommon`).
- A session with a negative verification result does not survive serialization (`SessionRoundTrip.SessionRoundTrips`).

## Model

| member | source | states |
|---|---|---|
| `Varint.Varint64RoundTrip` | ios/Pods/nanopb/pb_decode.c:250-270 | pb_decode_varint gives back every 64-bit value pb_encode_varint wrote and leaves what follows |
| `Varint.Varint64InRange` | ios/Pods/nanopb/pb_decode.c:250-270 | whatever the bytes, the 64-bit reader never stores more than 64 bits |
| `Varint.EncVarintAtMostTen` | ios/Pods/nanopb/pb_encode.c:574-594 | a 64-bit value never overruns the ten-byte buffer of pb_encode_varint |
| `Varint.Varint32RoundTrip` | ios/Pods/nanopb/pb_decode.c:182-242 | the 32-bit reader gives back every value below 2^32 |
| `Varint.Varint32SignExtended` | ios/Pods/nanopb/pb_decode.c:182-242 | the sign-extended ten-byte form of a negative int32 is read as its low 32 bits |
| `Varint.Varint32RejectsLarge` | ios/Pods/nanopb/pb_decode.c:182-242 | the canonical form of every value in [2^32, 2^63) is refused |
| `Varint.Varint32IsLowHalf` | ios/Pods/nanopb/pb_decode.c:182-242 | on any encoding of at most ten bytes, canonical or not, an accepted value is the 64-bit reading modulo 2^32, ending at the same byte |
| `Varint.ZigZagInverse` | ios/Pods/nanopb/pb_decode.c:1240-1252 | zigzag coding is a bijection between int64 and uint64, in both directions, and is 2v or -2v-1 |
| `Varint.FixedRoundTrip` | ios/Pods/nanopb/pb_encode.c:607-616 | little-endian 4- and 8-byte values survive the round trip |
| `RoundTrip.MessageRoundTrip` | ios/Pods/nanopb/pb_decode.c:1051-1063 | for every well-formed schema and typed message, decoding its encoding succeeds exactly when strings are terminated in their buffers and length prefixes fit 32 bits; then every byte is consumed and every field comes back |
| `RoundTrip.SchemaEvolution` | ios/Pods/nanopb/pb_decode.c:901-962 | decoding under one schema what was encoded under a compatible other one succeeds exactly when everything sent fits, consumes all bytes and yields the projection of the message on the shared tags |
| `RoundTrip.UnterminatedStringFails` | ios/Pods/nanopb/pb_decode.c:1428-1461 | the exception is real: a character buffer without its terminator is encoded but cannot be decoded |
| `RoundTrip.StructProjected` | ios/Pods/nanopb/pb_decode.c:884-895 | a message merged into the defaults becomes its projection exactly when it fits, field by field and through submessages |
| `MergeProof.StructRead` | ios/Pods/nanopb/pb_decode.c:901-1049 | decoding an encoded message onto any destination is, failure included, the same as merging the message into it |
| `MergeProof.FieldRead` | ios/Pods/nanopb/pb_decode.c:401-475 | the bytes of one field change the destination as merging that field does, and mark it as seen, whatever bytes follow |
| `MergeProof.ValueRead` | ios/Pods/nanopb/pb_decode.c:401-475 | one encoded value is read back as what it merges to, nested submessages included |
| `MergeProof.PackedRead` | ios/Pods/nanopb/pb_decode.c:419-450 | a packed payload is read to its end as its entries, unless the array is full; then bytes are left over |
| `MergeProof.ItemSkipped` | ios/Pods/nanopb/pb_decode.c:919-962 | an item whose tag the reader does not know is passed over by exactly its own bytes |
| `MergeProof.ValueSkipped` | ios/Pods/nanopb/pb_decode.c:316-326 | pb_skip_field consumes exactly the encoding of one value of the wire type, or fails if its length prefix exceeds 32 bits |
| `MergeProof.AllSeen` | ios/Pods/nanopb/pb_decode.c:1006-1046 | after an encoded message of a compatible schema every required field has been seen |
| `Concat.ConcatIsMerge` | ios/Pods/nanopb/pb_decode.c:901-1049 | without required fields, if `a` decodes without a zero tag, pb_decode_noinit of a + b has the outcome and the destination of decoding a and then b, for arbitrary bytes b |
| `Concat.LoopConcat` | ios/Pods/nanopb/pb_decode.c:919-997 | the decoding loop on a + b is the loop on b from where a left the struct and the seen fields, for every schema |
| `Concat.EncodedConcat` | ios/Pods/nanopb/pb_decode.c:901-1049 | two encoded messages in a row are merged one after the other into any destination |
| `Concat.MergePointwise` | ios/Pods/nanopb/pb_decode.c:401-475 | merging a message changes each field outside a oneof by its own merge alone, once, and leaves unsent fields as they are |
| `Concat.LastOneWins` | ios/Pods/nanopb/pb_decode.c:1051-1063 | of two messages in a row, each scalar, string or bytes field shows the last value sent and each repeated one the entries of both in order (Protocol Buffers Encoding guide, "Last One Wins") |
| `Concat.FieldsMerge` | ios/Pods/nanopb/pb_decode.c:1051-1063 | the same for every field outside a oneof, submessages included, at any depth: the first message is merged into the default and the second into the result, and a submessage sent twice is the merge of both |
| `Concat.LastMemberWins` | ios/Pods/nanopb/pb_decode.c:401-475 | of a oneof the last member sent wins: the union holds the member the second message sends, with its value; if the second sends none, the one the first sends; nothing if neither does |
| `Defaults.AbsentIsDefault` | ios/Pods/nanopb/pb_decode.c:812-895 | a field not on the wire holds its declared default or zeros of its type, submessages likewise, has_ false, the array empty, the oneof 0; from the descriptors alone |
| `Defaults.HasIsOnWire` | ios/Pods/nanopb/pb_decode.c:414-417 | after pb_decode a has_ flag is true exactly if the field was on the wire |
| `Defaults.EmptyIsAbsent` | ios/Pods/nanopb/pb_decode.c:460-470 | after pb_decode a oneof is empty exactly if none of its tags was on the wire |
| `Defaults.UnmetKept` | ios/Pods/nanopb/pb_decode.c:919-997 | onto any struct, fields whose tags are not met keep their content |
| `Defaults.MetIsOnWire` | ios/Pods/nanopb/pb_decode.c:919-997 | what is on the wire does not depend on the struct it is read into |
| `WireFormat.KeyOfField` | ios/Pods/nanopb/pb_encode.c:641-672 | the key of a field is eight times its tag plus 0, 1, 2 or 5 by its type, and the value follows it |
| `WireFormat.DocumentedVarints` | ios/Pods/nanopb/pb_encode.c:574-605 | the varint and zigzag examples of the Encoding guide, byte for byte |
| `WireFormat.DocumentedFixed` | ios/Pods/nanopb/pb_encode.c:607-632 | fixed32 and fixed64 have the lowest byte first |
| `WireFormat.DocumentedStrings` | ios/Pods/nanopb/pb_encode.c:674-680 | strings and bytes: key, length, data |
| `WireFormat.DocumentedMessage` | ios/Pods/nanopb/pb_encode.c:682-730 | the embedded message example |
| `WireFormat.DocumentedPacked` | ios/Pods/nanopb/pb_encode.c:139-181 | the packed example |
| `WireInput.IntegersAccepted` | ios/Pods/nanopb/pb_decode.c:1289-1358 | which varints each integer width takes and as what value: unsigned by range, signed up to 32 bits by the low half, zigzag by parity |
| `WireInput.BlocksAccepted` | ios/Pods/nanopb/pb_decode.c:1391-1508 | which blocks byte arrays, strings and fixed-length bytes take, and as what |
| `WireInput.ZeroKeyEnds` | ios/Pods/nanopb/pb_decode.c:293-314 | a zero key ends the message, whatever follows |
| `WireInput.GroupsRefused` | ios/Pods/nanopb/pb_decode.c:316-326 | groups and unassigned wire types of an unknown field are refused |
| `WireInput.LongVarintSkipped` | ios/Pods/nanopb/pb_decode.c:272-283 | an unknown varint is skipped to its first byte below 128, however long |
| `WireInput.UnpackedAccepted` | ios/Pods/nanopb/pb_decode.c:448-458 | a packable array is read unpacked as well, while there is room |
| `WireOutput.EncodableValues` | ios/Pods/nanopb/pb_encode.c:734-868 | of what a C struct can hold only a byte array that exceeds its buffer cannot be encoded |
| `WireOutput.EncodableArrays` | ios/Pods/nanopb/pb_encode.c:126-137 | an array can be encoded exactly if it is within its capacity and its entries can |
| `WireOutput.EncodableMessages` | ios/Pods/nanopb/pb_encode.c:494-516 | a message can be encoded exactly if each of its fields can |
| `WireOutput.OmittedIsEmpty` | ios/Pods/nanopb/pb_encode.c:215-303 | a proto3 field is left out exactly if its number is zero, its bytes are none, or its submessage encodes to nothing |
| `WireOutput.DefaultIsEmpty` | ios/Pods/nanopb/pb_encode.c:215-303 | a submessage counts as default exactly if it encodes to nothing |
| `AnyInput.AnyDecodeIsStored` | ios/Pods/nanopb/pb_decode.c:1051-1063 | whatever the bytes are, a decoded struct keeps arrays, strings, byte arrays and numbers within their storage |
| `AnyInput.DecodedStays` | ios/Pods/nanopb/pb_decode.c:901-1049 | the same from any destination that is within its storage |
| `AnyInput.DecodeEncodeDecode` | ios/Pods/nanopb/pb_decode.c:1051-1063 | any bytes that decode give a struct that encodes, and decoding that encoding (if shorter than 2^32) gives the same fields again |
| `AnyInput.Encodable` | ios/Pods/nanopb/pb_encode.c:494-516 | a struct within its storage always has an encoding |
| `Required.RequiredFieldsChecked` | ios/Pods/nanopb/pb_decode.c:1006-1046 | pb_decode_noinit succeeds exactly when the loop gets through and each of the first 64 required tags was met; later required fields are not checked |
| `Required.AllRequiredMet` | ios/Pods/nanopb/pb_decode.c:1006-1046 | with at most 64 required fields, an accepted message had all of them |
| `Required.SeenIsMet` | ios/Pods/nanopb/pb_decode.c:988-993 | the bits set in fields_seen are exactly the required fields whose tags were met |
| `PbCommon.FieldIter.Begin` | ios/Pods/nanopb/pb_common.c:8-18 | the iterator starts on the first field |
| `PbCommon.FieldIter.Next` | ios/Pods/nanopb/pb_common.c:20-76 | steps to the next field and reports whether there is one, or wraps to the start; position, data offset and required index stay those of a walk from the start |
| `PbCommon.FieldIter.Find` | ios/Pods/nanopb/pb_common.c:78-95 | from any position, succeeds exactly when some field has the tag and then stands on one, in the state a walk from the start has there; otherwise the position is unchanged |
| `PbCommon.UnionMembersCoincide` | ios/Pods/nanopb/pb_common.c:39-57 | all members of a oneof are found at one offset, with one which_ field beside it, as the first member places them |
| `PbCommon.FieldsDisjoint` | ios/Pods/nanopb/pb_common.c:39-57 | a field outside a oneof never overlaps any later field, unions in between or not; a member of a oneof overlaps no later field outside its union if the field behind the oneof leaves room for it, and for that field exactly then |
| `PbEncode.EncodeIntoBuffer` | ios/Pods/nanopb/pb_encode.c:533-542 | sizing agrees with writing: pb_encode into n bytes succeeds exactly when pb_get_encoded_size gives a size of at most n, fills exactly that many bytes with the encoding and leaves the rest of the buffer alone |
| `PbEncode.GetEncodedSize` | ios/Pods/nanopb/pb_encode.c:533-542 | the size is the length of the encoding and fails exactly when there is none |
| `PbEncode.Encode` | ios/Pods/nanopb/pb_encode.c:494-516 | on any stream, succeeds exactly when the message has an encoding and the stream has room, and then appends exactly that; on failure nothing outside the stream is touched |
| `PbEncode.EncodeSubmessage` | ios/Pods/nanopb/pb_encode.c:682-730 | size pass, prefix and second pass together append exactly the length-prefixed encoding; so the length is always right and "submsg size changed" cannot be reported |
| `PbEncode.EncodeWindow` | ios/Pods/nanopb/pb_encode.c:705-729 | the second pass fills the window of the announced size exactly |
| `PbEncode.WindowStep` | ios/Pods/nanopb/pb_encode.c:705-729 | encoding into a window of exactly the right size succeeds and is one step of the parent stream |
| `PbEncode.Sized` | ios/Pods/nanopb/pb_encode.c:101-119 | a sizing stream never fails for lack of room and counts exactly the bytes |
| `PbEncode.EncodeField` | ios/Pods/nanopb/pb_encode.c:307-392 | a field appends its items by its rule: nothing for absent optional, empty repeated, other oneof member or proto3 default |
| `PbEncode.EncodeArray` | ios/Pods/nanopb/pb_encode.c:126-211 | an array is packed or unpacked by its type, bounded by its capacity, as the wire format says |
| `PbEncode.EncodePackedArray` | ios/Pods/nanopb/pb_encode.c:139-181 | tag, exact byte length and entries of a packed array |
| `PbEncode.PackedSize` | ios/Pods/nanopb/pb_encode.c:145-165 | the precomputed length of a packed array is the length of its payload, fixed-size shortcut included |
| `PbEncode.EncodePacked` | ios/Pods/nanopb/pb_encode.c:173-180 | the loop over packed entries appends exactly the payload |
| `PbEncode.EncodeUnpacked` | ios/Pods/nanopb/pb_encode.c:184-207 | the loop over unpacked entries appends exactly the keyed items |
| `PbEncode.EncodeItem` | ios/Pods/nanopb/pb_encode.c:376-385 | a key and its value |
| `PbEncode.EncodeValue` | ios/Pods/nanopb/pb_encode.c:734-868 | the encoder the table lists for the type appends exactly the encoding of the value, or fails if it has none |
| `PbEncode.EncodeString` | ios/Pods/nanopb/pb_encode.c:674-680 | a length-prefixed block |
| `PbEncode.EncodeVarint` | ios/Pods/nanopb/pb_encode.c:574-594 | appends the base 128 form of any 64-bit value |
| `PbEncode.VarintBytes` | ios/Pods/nanopb/pb_encode.c:576-593 | the loop over the ten-byte buffer computes the base 128 form |
| `PbEncode.EncodeTag` | ios/Pods/nanopb/pb_encode.c:635-639 | a key with its wire type in the low three bits |
| `PbEncode.EncodeFixed` | ios/Pods/nanopb/pb_encode.c:619-632 | little-endian fixed-size values |
| `PbEncode.OStream.Write` | ios/Pods/nanopb/pb_encode.c:101-119 | appends all the data within the bound, or fails without changing anything; a sizing stream only counts |
| `PbEncode.OStream.BufWrite` | ios/Pods/nanopb/pb_encode.c:72-82 | copies the data at the write position and changes no other byte |
| `PbEncode.CheckDefaultStruct` | ios/Pods/nanopb/pb_encode.c:215-303 | a submessage counts as default exactly when all its fields do |
| `PbEncode.CheckDefaultSlot` | ios/Pods/nanopb/pb_encode.c:215-303 | exactly which fields implicit presence leaves out |
| `PbDecode.Decode` | ios/Pods/nanopb/pb_decode.c:1051-1063 | the in-place decoder reads exactly as the specification reader from the defaults: same outcome, same struct, same bytes left |
| `PbDecode.DecodeNoInit` | ios/Pods/nanopb/pb_decode.c:901-1049 | the same onto any destination, with the check of the required fields |
| `PbDecode.DecodeNext` | ios/Pods/nanopb/pb_decode.c:919-997 | one turn of the loop is one step of the specification loop: end, zero tag, known and unknown fields, and the seen bits |
| `PbDecode.DecodeField` | ios/Pods/nanopb/pb_decode.c:401-475 | storing one field by its rule equals the specification, failures included: capacity, packed payloads, presence flags, oneof reset |
| `PbDecode.DecodePackedField` | ios/Pods/nanopb/pb_decode.c:419-450 | the packed branch reads whole entries until the substream is empty or the array is full |
| `PbDecode.DecodeValue` | ios/Pods/nanopb/pb_decode.c:1289-1508 | the decoder the table lists for the type reads exactly one value, or fails as the specification does |
| `PbDecode.DecodeInteger` | ios/Pods/nanopb/pb_decode.c:1289-1324 | an integer of each width is read in place with its range check |
| `PbDecode.DecodeData` | ios/Pods/nanopb/pb_decode.c:1391-1426 | bytes, strings and fixed-length bytes with their buffer checks |
| `PbDecode.SetToDefaults` | ios/Pods/nanopb/pb_decode.c:884-895 | walking the iterator gives every field its default, submessages recursively |
| `PbDecode.DefaultSlot` | ios/Pods/nanopb/pb_decode.c:812-882 | the default of one field by its rule |
| `PbDecode.MakeSubstream` | ios/Pods/nanopb/pb_decode.c:367-380 | the substream covers exactly the block, and what is left to the parent is exactly what follows it |
| `PbDecode.CloseSubstream` | ios/Pods/nanopb/pb_decode.c:382-395 | closing moves the parent behind the block whatever was read of it |
| `PbDecode.DecodeVarint32Eof` | ios/Pods/nanopb/pb_decode.c:182-242 | the loop with its 32-bit register and 8-bit counter refines the specification reader; eof exactly at the end |
| `PbDecode.DecodeVarint` | ios/Pods/nanopb/pb_decode.c:250-270 | the loop refines the 64-bit specification reader |
| `PbDecode.DecodeTag` | ios/Pods/nanopb/pb_decode.c:293-314 | splits a key, and tells end of stream and zero key from a broken key |
| `PbDecode.SkipField` | ios/Pods/nanopb/pb_decode.c:316-326 | skips one value by wire type as the specification does |
| `PbDecode.SkipVarint` | ios/Pods/nanopb/pb_decode.c:273-282 | skips one varint |
| `PbDecode.SkipString` | ios/Pods/nanopb/pb_decode.c:284-291 | skips one length-prefixed block |
| `PbDecode.IStream.Read` | ios/Pods/nanopb/pb_decode.c:100-132 | delivers exactly the next bytes, or fails if there are too few |
| `PbDecode.IStream.ReadByte` | ios/Pods/nanopb/pb_decode.c:136-152 | delivers the next byte, or fails at the end and changes nothing |
| `PbDecode.CheckSeen` | ios/Pods/nanopb/pb_decode.c:1027-1045 | comparing whole and partial 32-bit words finds exactly whether all expected bits are set |
| `PbDecode.MarkRequired` | ios/Pods/nanopb/pb_decode.c:988-993 | setting a bit in the right word marks exactly that required field |
| `PbDecode.CountRequired` | ios/Pods/nanopb/pb_decode.c:1012-1025 | the count of required fields to check, at most 64 |
| `PbDecode.SetSeen` | ios/Pods/nanopb/pb_decode.c:988-993 | setting bit k of the word pair adds k to the set it stands for |
| `Replay.DiscardsSeenOrStale` | ios/Pods/BoringSSL-GRPC/ssl/dtls_record.cc:140-150 | with a window that tracks the accepted numbers, exactly those accepted before and those 64 or more behind the highest are discarded |
| `Replay.RecordedTracks` | ios/Pods/BoringSSL-GRPC/ssl/dtls_record.cc:155-175 | after recording a number that is not stale the window tracks it too, whether it shifts the map or sets a bit |
| `Replay.EpochBytes` | ios/Pods/BoringSSL-GRPC/ssl/dtls_record.cc:128-136 | the first two bytes of the eight are the epoch of the 64-bit number |
| `Replay.ToU64` | ios/Pods/BoringSSL-GRPC/ssl/dtls_record.cc:128-136 | the loop computes the big-endian number |
| `Replay.Bitmap.ShouldDiscard` | ios/Pods/BoringSSL-GRPC/ssl/dtls_record.cc:140-150 | the query on the 64-bit map equals the specification |
| `Replay.Bitmap.Record` | ios/Pods/BoringSSL-GRPC/ssl/dtls_record.cc:155-175 | the update of map and max_seq_num equals the specification |
| `DtlsRecord.AcceptedOnce` | ios/Pods/BoringSSL-GRPC/ssl/dtls_record.cc:225-259 | over every run, epoch changes included, no epoch and sequence number is accepted twice while the epoch has not wrapped (RFC 6347, section 4.1.2.6) |
| `DtlsRecord.NoRepeatsUnlessWrapped` | ios/Pods/BoringSSL-GRPC/ssl/dtls_method.cc:81-95 | the exact condition: runs with k epoch changes never repeat a record if and only if k < 2^16 |
| `DtlsRecord.WrapForgets` | ios/Pods/BoringSSL-GRPC/ssl/dtls_method.cc:81-95 | after 2^16 epoch changes there is a run that accepts one record twice |
| `DtlsRecord.AcceptedWhenFresh` | ios/Pods/BoringSSL-GRPC/ssl/dtls_record.cc:225-259 | an authentic record of the current epoch is accepted if and only if it is new and less than 64 behind every record accepted in this epoch |
| `DtlsRecord.StepSound` | ios/Pods/BoringSSL-GRPC/ssl/dtls_record.cc:225-259 | each record or epoch change keeps the window equal to the accepted numbers of this epoch |
| `DtlsRecord.RecordReader.OpenRecord` | ios/Pods/BoringSSL-GRPC/ssl/dtls_record.cc:177-262 | hands out a plaintext exactly when header, version, epoch, replay check and AEAD all pass, and then takes exactly that step of the run; otherwise changes nothing |
| `DtlsRecord.RecordReader.SetReadState` | ios/Pods/BoringSSL-GRPC/ssl/dtls_method.cc:81-95 | refused with unprocessed handshake data; otherwise the next epoch with an empty window |
| `Reassembly.RangeSets` | ios/Pods/BoringSSL-GRPC/ssl/d1_both.cc:203-205 | bit_range has exactly the bits from start up to end |
| `Reassembly.LowBits` | ios/Pods/BoringSSL-GRPC/ssl/d1_both.cc:238-247 | comparing with bit_range(0, n) tests exactly whether the low n bits are set |
| `Reassembly.SetRange` | ios/Pods/BoringSSL-GRPC/ssl/d1_both.cc:211-251 | marking sets exactly the bits of the range, across whole and partial bytes |
| `Reassembly.AllSet` | ios/Pods/BoringSSL-GRPC/ssl/d1_both.cc:238-250 | the completeness check finds exactly whether all bits of the message are set |
| `Reassembly.HmFragment.New` | ios/Pods/BoringSSL-GRPC/ssl/d1_both.cc:152-199 | a new entry holds the header, no body byte, and a mask exactly if there is a body |
| `Reassembly.HmFragment.Mark` | ios/Pods/BoringSSL-GRPC/ssl/d1_both.cc:211-251 | the received bytes become the union with the range, no bit past the message is ever set, and the mask goes exactly when the union is everything |
| `Reassembly.HmFragment.Fill` | ios/Pods/BoringSSL-GRPC/ssl/d1_both.cc:399-402 | the copied body and its mark add exactly the fragment to the known bytes |
| `Reassembly.HmFragment.Raw` | ios/Pods/BoringSSL-GRPC/ssl/d1_both.cc:408-424 | the stored header and body are the message as if it had come in one fragment (RFC 6347, section 4.2.6) |
| `Reassembly.HeaderFormat` | ios/Pods/BoringSSL-GRPC/ssl/d1_both.cc:459-473 | type, length, number, offset and fragment length, each with its high byte first (RFC 6347, section 4.2.2) |
| `DtlsReceive.HandledInRing` | ios/Pods/BoringSSL-GRPC/ssl/d1_both.cc:265-295 | every fragment keeps the ring: slot i holds a message with seq mod 7 = i and read_seq <= seq < read_seq + 7; so the assertion on the sequence number never fails |
| `DtlsReceive.TakenInRing` | ios/Pods/BoringSSL-GRPC/ssl/d1_both.cc:426-438 | taking a message keeps the ring, also where handshake_read_seq wraps at 16 bits |
| `DtlsReceive.BeyondTheWindow` | ios/Pods/BoringSSL-GRPC/ssl/d1_both.cc:380-385 | fragments of the past or the far future change nothing, and only seq = read_seq + 7 is reported as an error |
| `DtlsReceive.FragmentRefused` | ios/Pods/BoringSSL-GRPC/ssl/d1_both.cc:352-388 | any fragment, honest or not, is refused, with its alert and without a change, exactly if it reaches beyond its message, announces too long a message, comes in epoch 1 for another message, is seven ahead, or contradicts the type or length known of its message |
| `DtlsReceive.FragmentTaken` | ios/Pods/BoringSSL-GRPC/ssl/d1_both.cc:385-403 | any other fragment of the next seven messages adds exactly its bytes to that message, unless all of it is known, and changes nothing else |
| `DtlsReceive.Receiver.GetIncoming` | ios/Pods/BoringSSL-GRPC/ssl/d1_both.cc:265-295 | finds or creates the entry of the fragment, or reports the alert the code does, and touches no other slot |
| `DtlsReceive.Receiver.HandleOne` | ios/Pods/BoringSSL-GRPC/ssl/d1_both.cc:352-403 | one turn of the loop equals the specification of handling one fragment |
| `DtlsReceive.Receiver.FillSlot` | ios/Pods/BoringSSL-GRPC/ssl/d1_both.cc:399-402 | filling one slot leaves the six others alone |
| `DtlsReceive.Receiver.OpenRecord` | ios/Pods/BoringSSL-GRPC/ssl/d1_both.cc:350-405 | the loop over the fragments of a record stops at the first error, as specified |
| `DtlsReceive.Receiver.OpenHandshake` | ios/Pods/BoringSSL-GRPC/ssl/d1_both.cc:297-406 | which records are handled, refused or ignored by type, epoch and ChangeCipherSpec, and what they leave behind; `DtlsRuns.Arrive` says when over any run |
| `DtlsReceive.Receiver.TakeChangeCipherSpec` | ios/Pods/BoringSSL-GRPC/ssl/d1_both.cc:475-490 | consumes a remembered ChangeCipherSpec |
| `DtlsReceive.Receiver.GetMessage` | ios/Pods/BoringSSL-GRPC/ssl/d1_both.cc:408-424 | hands out the awaited message exactly when it is complete |
| `DtlsReceive.Receiver.NextMessage` | ios/Pods/BoringSSL-GRPC/ssl/d1_both.cc:426-438 | frees the slot and awaits the next number modulo 2^16 |
| `DtlsReceive.Receiver.HasUnprocessed` | ios/Pods/BoringSSL-GRPC/ssl/d1_both.cc:440-457 | whether anything but the message just read is buffered |
| `DtlsSend.FragmentsTile` | ios/Pods/BoringSSL-GRPC/ssl/d1_both.cc:644-734 | whatever records lead from one cursor to another, the fragments of each message joined are exactly its bytes between the cursors: contiguous, without overlap or gap |
| `DtlsSend.WholeFlight` | ios/Pods/BoringSSL-GRPC/ssl/d1_both.cc:782-827 | a flight sent from the start to the end carries every body whole |
| `DtlsSend.ChainHonest` | ios/Pods/BoringSSL-GRPC/ssl/d1_both.cc:644-734 | every fragment sent is a piece of a queued message under that message's header |
| `DtlsSend.ChainAdvances` | ios/Pods/BoringSSL-GRPC/ssl/d1_both.cc:782-827 | every record moves the cursor forward, which is why sending ends |
| `DtlsSend.BuildMessage` | ios/Pods/BoringSSL-GRPC/ssl/d1_both.cc:525-537 | the fixed-up message has the header of a single whole fragment |
| `DtlsSend.Sender.AddOutgoing` | ios/Pods/BoringSSL-GRPC/ssl/d1_both.cc:555-594 | queues the message with the current epoch, starts a new flight after a flushed one, enters it into the transcript once as unfragmented, and refuses an eighth |
| `DtlsSend.Sender.SetWriteState` | ios/Pods/BoringSSL-GRPC/ssl/dtls_method.cc:97-107 | next epoch modulo 2^16, the old state kept for retransmission, sequence numbers from zero |
| `DtlsSend.Sender.SealRecord` | ios/Pods/BoringSSL-GRPC/ssl/dtls_record.cc:294-351 | a record of the right epoch with the next sequence number of that state, within the space asked for; it fails only if the 48-bit sequence is used up or the record can outgrow its 16-bit length, and the sequence moves on even then |
| `DtlsSend.Sender.SealNextMessage` | ios/Pods/BoringSSL-GRPC/ssl/d1_both.cc:644-734 | seals the fragment that starts at the cursor: the rest of the message, or else exactly as much as fits; no progress exactly when not even one byte would fit, and on failure the cursor is untouched |
| `DtlsSend.Sender.SealNextPacket` | ios/Pods/BoringSSL-GRPC/ssl/d1_both.cc:739-780 | one datagram within the MTU, from the cursor on, behind which nothing more of the flight fits; too small an MTU leaves the cursor where it was |
| `DtlsSend.Sender.SendFlight` | ios/Pods/BoringSSL-GRPC/ssl/d1_both.cc:782-827 | every datagram the BIO took fits the MTU and the cursor stands exactly behind them, after a failed write too; on a BIO that takes every write it succeeds, with the whole flight out, whenever the rest of the flight can be sealed; and success means that all of it could |
| `DtlsSend.Sender.FlushFlight` | ios/Pods/BoringSSL-GRPC/ssl/d1_both.cc:829-834 | marks the flight complete and sends the rest of it in datagrams within the MTU, to the end if the BIO takes them and they can be sealed |
| `DtlsSend.Sender.Retransmit` | ios/Pods/BoringSSL-GRPC/ssl/d1_both.cc:836-845 | sends the whole flight again from its first byte, in datagrams within whatever MTU holds now; if the BIO takes them and they can be sealed it succeeds, and on success every message body went out whole |
| `DtlsSend.Sender.MtuSuffices` | ios/Pods/BoringSSL-GRPC/ssl/d1_both.cc:615-632 | with the minimal MTU and any AEAD overhead up to 202 bytes there is always progress |
| `DtlsSend.FlightSealable` | ios/Pods/BoringSSL-GRPC/ssl/d1_both.cc:619-636 | a flight of the current and previous epoch can be sealed for any MTU from 228 bytes up to the size of a record, any overhead up to 202 bytes, and record sequences with 7 * 2^24 numbers left |
| `DtlsSend.ChainCovers` | ios/Pods/BoringSSL-GRPC/ssl/d1_both.cc:782-827 | every byte of a message, and an empty message too, is in some fragment sent between the two cursors |
| `DtlsEndToEnd.DeliveredIsTranscriptPrefix` | ios/Pods/BoringSSL-GRPC/ssl/d1_both.cc:297-438 | for an honest sender and any schedule of loss, duplication, reordering, retransmission and changing cuts, the messages taken are the first messages sent, in order, with the bytes the specification of the transcript has for them (`DtlsRuns.Exchange` ties it to the sender) |
| `DtlsEndToEnd.StepKeeps` | ios/Pods/BoringSSL-GRPC/ssl/d1_both.cc:297-438 | each single event keeps the invariant behind it |
| `DtlsEndToEnd.ReachableRing` | ios/Pods/BoringSSL-GRPC/ssl/d1_both.cc:265-295 | the ring invariant in every reachable state |
| `DtlsEndToEnd.SentIsOnWire` | ios/Pods/BoringSSL-GRPC/ssl/d1_both.cc:782-845 | whatever the sender puts out under any MTU and after any failures is one of the records the schedule may deliver, if its flight is made of the messages sent, which `DtlsRuns.Exchange` proves of every run |
| `DtlsEndToEnd.PieceHandled` | ios/Pods/BoringSSL-GRPC/ssl/d1_both.cc:352-403 | an honest fragment is handled without error if and only if it is not seven ahead and, in epoch 1, of the awaited message |
| `DtlsEndToEnd.CoverCompletes` | ios/Pods/BoringSSL-GRPC/ssl/d1_both.cc:387-402 | once fragments that together cover a message the receiver takes have arrived, in any order, with any overlaps and among any others of the sender, the message is complete |
| `DtlsEndToEnd.FlightDelivered` | ios/Pods/BoringSSL-GRPC/ssl/d1_both.cc:352-438 | once the records cover the next messages, up to seven, these are taken one after the other, byte for byte as in the sender's transcript, whatever the order, the cuts and the other records |
| `DtlsEndToEnd.RetransmissionArrives` | ios/Pods/BoringSSL-GRPC/ssl/d1_both.cc:836-847 | a flight sent whole hands over its messages once its records have arrived, in any order |
| `DtlsEndToEnd.FlightCovers` | ios/Pods/BoringSSL-GRPC/ssl/d1_both.cc:782-827 | the records of a whole flight cover each of its messages |
| `DtlsEndToEnd.FragmentsInTurn` | ios/Pods/BoringSSL-GRPC/ssl/d1_both.cc:347-403 | the fragments of a record are handled one after the other; the first error ends it |
| `DtlsEndToEnd.BrokenRecordRefused` | ios/Pods/BoringSSL-GRPC/ssl/d1_both.cc:352-356 | a record that breaks off in a header or fragment is refused with decode_error |
| `DtlsEndToEnd.NothingLeftBehind` | ios/Pods/BoringSSL-GRPC/ssl/d1_both.cc:440-457 | unprocessed handshake data is reported exactly if a ChangeCipherSpec waits or something is held of a message other than the one just read |
| `DtlsEndToEnd.CompleteIsRaw` | ios/Pods/BoringSSL-GRPC/ssl/d1_both.cc:408-424 | a complete message is the one sent under its number |
| `DtlsEndToEnd.ParsesBack` | ios/Pods/BoringSSL-GRPC/ssl/d1_both.cc:459-473 | the receiver reads exactly the header and body the sender wrote, whatever follows |
| `DtlsRuns.Exchange` | ios/Pods/BoringSSL-GRPC/ssl/d1_both.cc:297-845 | over any run of both sides (building, queuing, flushing, retransmitting under any MTU, failures, new write epochs; records lost, repeated, reordered), the flight holds messages sent under their numbers, the sequence number counts them, the sender's transcript is all of them unfragmented, and what the receiver has taken is a beginning of it byte for byte; application data may arrive at any time, and a record is refused exactly if one was forbidden when it came |
| `DtlsRuns.SendMessage` | ios/Pods/BoringSSL-GRPC/ssl/d1_both.cc:511-594 | a message built by init_message and finish_message and queued is the next one of the account, in flight and transcript, or nothing changes when the flight is full |
| `DtlsRuns.SendOther` | ios/Pods/BoringSSL-GRPC/ssl/d1_both.cc:600-602 | a ChangeCipherSpec or clearing the flight keeps that account |
| `DtlsRuns.PutFlight` | ios/Pods/BoringSSL-GRPC/ssl/d1_both.cc:782-845 | every datagram put out, now or again, holds only ChangeCipherSpecs and pieces of the messages sent |
| `DtlsRuns.PutOut` | ios/Pods/BoringSSL-GRPC/ssl/d1_both.cc:782-845 | the datagrams of a chain of records add only such pieces to what may arrive |
| `DtlsRuns.SentOneMore` | ios/Pods/BoringSSL-GRPC/ssl/d1_both.cc:555-594 | one more message keeps flight, number and transcript those of the messages sent, whether or not the flight was emptied before |
| `DtlsRuns.Arrive` | ios/Pods/BoringSSL-GRPC/ssl/d1_both.cc:297-403 | any record put out, and any of another type, may arrive at any time, again or late: the receiver stays faithful to what was sent, and refuses it exactly if it is application data in the clear, a ChangeCipherSpec that is encrypted or not [1], of an unknown type, or a fragment seven ahead or, in epoch 1, not of the awaited message; encrypted application data is discarded |
| `DtlsRuns.TakeMessage` | ios/Pods/BoringSSL-GRPC/ssl/d1_both.cc:408-438 | what the receiver hands out next is the next message sent |
| `DtlsRuns.TranscriptGrows` | ios/Pods/BoringSSL-GRPC/ssl/d1_both.cc:579-594 | fewer messages have a transcript that is a beginning of the transcript of more |
| `SslBuffer.Transport.Write` | ios/Pods/BoringSSL-GRPC/ssl/ssl_buffer.cc:239-252 | the transport accepts a nonempty prefix or fails |
| `SslBuffer.Buffer.EnsureCap` | ios/Pods/BoringSSL-GRPC/ssl/ssl_buffer.cc:47-81 | makes room exactly when the capacity is at most 0xffff, and keeps the contents |
| `SslBuffer.Buffer.Append` | ios/Pods/BoringSSL-GRPC/ssl/ssl_buffer.cc:83-88 | the contents grow by exactly the data |
| `SslBuffer.Buffer.Consume` | ios/Pods/BoringSSL-GRPC/ssl/ssl_buffer.cc:90-97 | the contents lose exactly their first bytes |
| `SslBuffer.Buffer.DiscardConsumed` | ios/Pods/BoringSSL-GRPC/ssl/ssl_buffer.cc:99-103 | frees an empty buffer and loses nothing |
| `SslBuffer.Buffer.Flush` | ios/Pods/BoringSSL-GRPC/ssl/ssl_buffer.cc:239-252 | what the transport accepted followed by what is left is unchanged, over any partial writes; success means nothing is left |
| `WritePath.Writer.AddRecordToFlight` | ios/Pods/BoringSSL-GRPC/ssl/s3_both.cc:135-165 | one more sealed record at the end of the pending flight, or nothing, which only a failing seal causes; conservation holds after it |
| `WritePath.Writer.AddMessage` | ios/Pods/BoringSSL-GRPC/ssl/s3_both.cc:184-205 | the handshake message is sealed once, in order, in exactly as many records as the fragment size asks for, at least one; only a failing seal makes it fail, and leaves a prefix |
| `WritePath.Writer.WriteFlight` | ios/Pods/BoringSSL-GRPC/ssl/s3_both.cc:257-269 | the write loop keeps conservation and ends with the whole flight accepted |
| `WritePath.Writer.FlushFlight` | ios/Pods/BoringSSL-GRPC/ssl/s3_both.cc:231-279 | the write buffer goes first; on success everything ever sealed has been accepted in seal order; without a flight it succeeds at once, on a closed connection or beyond INT_MAX it fails and writes nothing, and with a transport that takes everything it succeeds exactly if the BIO is flushed |
| `WritePath.Writer.FlushBuffer` | ios/Pods/BoringSSL-GRPC/ssl/ssl_buffer.cc:273-284 | keeps conservation; success empties the buffer |
| `WritePath.Writer.WritePending` | ios/Pods/BoringSSL-GRPC/ssl/s3_pkt.cc:202-218 | a bad retry is refused; otherwise the pending record is reported, once, when the buffer is empty |
| `WritePath.Writer.DoWrite` | ios/Pods/BoringSSL-GRPC/ssl/s3_pkt.cc:221-289 | while a record is pending nothing new is sealed; otherwise exactly one record of the given bytes is sealed, and it is either reported or left pending; it fails without sealing anything if the data is too long, bytes wait in the buffer or the buffer cannot hold it, and refuses a retry of another type, shorter or elsewhere |
| `WritePath.Writer.SealIntoBuffer` | ios/Pods/BoringSSL-GRPC/ssl/s3_pkt.cc:237-285 | the rest of the flight enters the buffer before the new record; a failure seals nothing |
| `WritePath.Writer.MoveFlight` | ios/Pods/BoringSSL-GRPC/ssl/s3_pkt.cc:254-266 | moving the flight into the write buffer keeps all bytes in order |
| `WritePath.Writer.WriteChunk` | ios/Pods/BoringSSL-GRPC/ssl/s3_pkt.cc:177-198 | one record of the loop: the sealed application bytes stay the start of the data |
| `WritePath.Writer.WriteChunks` | ios/Pods/BoringSSL-GRPC/ssl/s3_pkt.cc:162-199 | the loop seals each byte once, in order and within the fragment size, over failures and partial-write mode |
| `WritePath.Writer.WriteAppData` | ios/Pods/BoringSSL-GRPC/ssl/s3_pkt.cc:129-200 | for a caller that retries with the same bytes, what is sealed is exactly what was reported plus what is in progress; a failing call keeps what counts as reported if and only if the write side is closed or the data is at least as long as the progress remembered; a retry between that and the bytes in progress is a bad retry that changes nothing; a refused write remembers exactly the full fragments the transport took; with nothing in the way it succeeds |
| `WritePath.Writer.Resume` | ios/Pods/BoringSSL-GRPC/ssl/s3_pkt.cc:159-199 | the same from the remembered progress on, which a failure never forgets |
| `WritePath.Writer.WriteTurn` | ios/Pods/BoringSSL-GRPC/ssl/s3_pkt.cc:175-199 | one turn of the loop keeps the account of what is sealed, reported and in progress |
| `WriteRuns.Drive` | ios/Pods/BoringSSL-GRPC/ssl/s3_pkt.cc:129-289 | over any run of writes and retries of any length, alerts, handshake messages, flushes, partial writes and shutdown: all sealed bytes in seal order are accepted bytes, then write buffer, then unsent flight; and the application bytes sealed are the stream up to what was reported and is in progress, each once, if and only if no write on the open connection was shorter than the progress remembered |
| `WriteRuns.Offer` | ios/Pods/BoringSSL-GRPC/ssl/s3_pkt.cc:129-200 | one call of any length extends the sealed stream without gap or repetition, unless the data is shorter than the progress remembered; then exactly that progress is forgotten |
| `WriteRuns.Complete` | ios/Pods/BoringSSL-GRPC/ssl/s3_pkt.cc:129-289 | on an open connection whose transport takes what it is given, any messages and then a whole stream get through: every call succeeds, and what was accepted is all that was sealed |
| `WriteRuns.AddMessages` | ios/Pods/BoringSSL-GRPC/ssl/s3_both.cc:184-207 | any number of messages is queued without a failure, one after the other, within a known size |
| `WriteRuns.WriteAlert` | ios/Pods/BoringSSL-GRPC/ssl/s3_pkt.cc:405-423 | an alert in between changes neither the application bytes nor their progress |
| `WriteRuns.ShortRetryForgets` | ios/Pods/BoringSSL-GRPC/ssl/s3_pkt.cc:143-157 | a retry shorter than the progress remembered fails but also forgets that progress, so those bytes count as reported though the caller was told nothing |
| `WriteRuns.ProgressForgotten` | ios/Pods/BoringSSL-GRPC/ssl/s3_pkt.cc:143-157 | this is reachable: two writes on a fresh connection after which a byte counts as reported that neither call reported |
| `CipherChoice.ChooseCipher` | ios/Pods/BoringSSL-GRPC/ssl/handshake_server.cc:357-424 | with server preference the client's most preferred usable cipher of the first server group that has one, otherwise the client's first usable one; none exactly when no usable cipher is in a group that closes |
| `CipherChoice.Scan` | ios/Pods/BoringSSL-GRPC/ssl/handshake_server.cc:384-421 | the loop with group_min computes the best of the first group with a usable cipher |
| `CipherChoice.NoneCommon` | ios/Pods/BoringSSL-GRPC/ssl/handshake_server.cc:357-424 | if the last cipher ends its group, none is returned exactly when no cipher is common and supported |
| `CipherChoice.Singletons` | ios/Pods/BoringSSL-GRPC/ssl/handshake_server.cc:384-421 | without group flags the choice is the first usable cipher of the preferred list |
| `Refcount.Linearizable` | ios/Pods/BoringSSL-GRPC/crypto/refcount_c11.c:37-65 | for any number of threads, any interleaving and any spurious failures, the count and every result are those of the locked operations in the order they took effect |
| `Refcount.CountBelowSaturation` | ios/Pods/BoringSSL-GRPC/crypto/refcount_lock.c:29-51 | as long as the count has never been saturated it is the start plus increments minus decrements, however many there were |
| `Refcount.SaturatedForever` | ios/Pods/BoringSSL-GRPC/crypto/refcount_lock.c:29-51 | from the first moment a run saturates the count it never changes again, and no later decrement returns one or aborts |
| `Refcount.OneLastRelease` | ios/Pods/BoringSSL-GRPC/crypto/refcount_lock.c:37-51 | in a history without use after release in which the count never saturates, exactly one decrement returns one if the count reaches zero, and it is the last operation; otherwise none |
| `Refcount.LockedCount.Increment` | ios/Pods/BoringSSL-GRPC/crypto/refcount_lock.c:29-35 | adds one unless saturated |
| `Refcount.LockedCount.DecrementAndTestZero` | ios/Pods/BoringSSL-GRPC/crypto/refcount_lock.c:37-51 | the new count and the result: abort at zero, unchanged when saturated, one exactly at the last reference |
| `Refcount.AtomicCount.CompareExchange` | ios/Pods/BoringSSL-GRPC/crypto/refcount_c11.c:37-65 | a successful exchange is one locked operation; a failure reports the current value and may be spurious |
| `Refcount.AtomicCount.Increment` | ios/Pods/BoringSSL-GRPC/crypto/refcount_c11.c:37-47 | the CAS loop ends and takes effect as one locked increment between call and return, whatever other threads do meanwhile |
| `Refcount.AtomicCount.DecrementAndTestZero` | ios/Pods/BoringSSL-GRPC/crypto/refcount_c11.c:49-65 | the CAS loop takes effect as one locked decrement with the same result |
| `Der.TlvReads` | ios/Pods/BoringSSL-GRPC/crypto/bytestring/cbs.c:243-322 | a DER element is read back whole, with its contents and what follows, for every length form (ITU-T X.690, sections 8.1.3 and 10.1) |
| `Der.UintReads` | ios/Pods/BoringSSL-GRPC/crypto/bytestring/cbs.c:391-426 | every 64-bit INTEGER is read back |
| `Der.OtherTag` | ios/Pods/BoringSSL-GRPC/crypto/bytestring/cbs.c:444-459 | an element under another tag is absent and nothing is consumed |
| `Bytestring.Cbs.GetBase128` | ios/Pods/BoringSSL-GRPC/crypto/bytestring/cbs.c:186-208 | the loop refuses padded and overlong numbers and reads all others |
| `Bytestring.Cbs.GetTag` | ios/Pods/BoringSSL-GRPC/crypto/bytestring/cbs.c:210-241 | low and high tag number forms, the latter only when needed |
| `Bytestring.Cbs.GetAnyElement` | ios/Pods/BoringSSL-GRPC/crypto/bytestring/cbs.c:243-322 | minimal definite lengths up to four bytes, and exactly the element's bytes are consumed |
| `Bytestring.Cbs.GetTagged` | ios/Pods/BoringSSL-GRPC/crypto/bytestring/cbs.c:350-371 | an element of exactly the given tag |
| `Bytestring.Cbs.GetOptionalTagged` | ios/Pods/BoringSSL-GRPC/crypto/bytestring/cbs.c:444-459 | absent exactly when the tag does not come next; a broken element of the tag is an error |
| `Bytestring.Cbs.GetUint64` | ios/Pods/BoringSSL-GRPC/crypto/bytestring/cbs.c:391-426 | the loop accepts exactly the minimal nonnegative INTEGERs of at most 64 bits |
| `Bytestring.Cbb.AddAsn1` | ios/Pods/BoringSSL-GRPC/crypto/bytestring/cbb.c:359-390 | the element with its shortest length form; fails exactly when the contents are too long |
| `Bytestring.Cbb.AddUint64` | ios/Pods/BoringSSL-GRPC/crypto/bytestring/cbb.c:473-506 | the loop over eight bytes writes the minimal INTEGER |
| `Bytestring.Cbb.AddOctets` | ios/Pods/BoringSSL-GRPC/crypto/bytestring/cbb.c:508-517 | an OCTET STRING |
| `Bytestring.Cbb.AddBool` | ios/Pods/BoringSSL-GRPC/crypto/bytestring/cbb.c:519-528 | a BOOLEAN in its DER form |
| `Bytestring.StartedIsMinimal` | ios/Pods/BoringSSL-GRPC/crypto/bytestring/cbb.c:473-506 | skipping leading zero bytes and padding the sign bit gives the minimal form |
| `Session.SplitFlat` | ios/Pods/BoringSSL-GRPC/ssl/ssl_asn1.cc:593-757 | optional fields written in ascending order of their tags are read back, the absent ones as absent |
| `SessionRoundTrip.SessionRoundTrips` | ios/Pods/BoringSSL-GRPC/ssl/ssl_asn1.cc:830-844 | the bytes of a session parse back to it, up to the documented changes (certificates dropped when their hash is kept), exactly when version and cipher are known, the verification result is not negative and the certificates are single DER elements the X.509 method takes |
| `SessionRoundTrip.PlaceholderRejected` | ios/Pods/BoringSSL-GRPC/ssl/ssl_asn1.cc:767-793 | the bytes written for a session that must not be resumed are never parsed as a session |
| `SessionRoundTrip.ElementsOfSingles` | ios/Pods/BoringSSL-GRPC/ssl/ssl_asn1.cc:698-713 | certificates that are single elements are found again in their concatenation |
| `SessionRoundTrip.ElementsAreSingles` | ios/Pods/BoringSSL-GRPC/ssl/ssl_asn1.cc:698-713 | and only such certificates can be found |
| `SessionRoundTrip.WholeIsSingle` | ios/Pods/BoringSSL-GRPC/crypto/bytestring/cbs.c:243-322 | the bytes of an element cut off the front are by themselves that one element |
| `SessionRoundTrip.HeadReads` | ios/Pods/BoringSSL-GRPC/ssl/ssl_asn1.cc:527-591 | the mandatory fields come back exactly when version and cipher are known; otherwise an error |
| `SessionRoundTrip.FieldsRead` | ios/Pods/BoringSSL-GRPC/ssl/ssl_asn1.cc:593-757 | the twenty optional fields are interpreted as the session they came from exactly when its certificates survive and its verification result is not negative |
| `SessionFormat.IdentifierBytes` | ios/Pods/BoringSSL-GRPC/ssl/ssl_asn1.cc:153-190 | INTEGER, OCTET STRING, BOOLEAN and SEQUENCE have the identifier bytes 2, 4, 1 and 0x30 (ITU-T X.690, section 8.1) |
| `SessionFormat.DocumentedElements` | ios/Pods/BoringSSL-GRPC/crypto/bytestring/cbb.c:473-506 | short and long lengths, padded and unpadded integers, byte for byte |
| `SessionFormat.DocumentedHead` | ios/Pods/BoringSSL-GRPC/ssl/ssl_asn1.cc:111-118 | the mandatory fields of the ASN.1 definition, in order and with their tags; in a ticket the id is empty |
| `SessionFormat.DocumentedPeerFields` | ios/Pods/BoringSSL-GRPC/ssl/ssl_asn1.cc:119-128 | fields [3] to [15] of a session that has all but the hash, with the tags of the definition |
| `SessionFormat.DocumentedStateFields` | ios/Pods/BoringSSL-GRPC/ssl/ssl_asn1.cc:129-140 | fields [16] to [26] likewise |
| `SessionFormat.HashInsteadOfCerts` | ios/Pods/BoringSSL-GRPC/ssl/ssl_asn1.cc:225-236 | with a hash of the certificate neither it nor the chain is written |
| `SessionFormat.DefaultsLeftOut` | ios/Pods/BoringSSL-GRPC/ssl/ssl_asn1.cc:111-140 | a session of which everything is at its default has no optional field but its id context |
| `SessionFormat.KnownVersions` | ios/Pods/BoringSSL-GRPC/ssl/ssl_versions.cc:28-53 | exactly which protocol versions a session may name |
| `SessionInput.AcceptedInRange` | ios/Pods/BoringSSL-GRPC/ssl/ssl_asn1.cc:527-757 | whatever the bytes, an accepted session is within its C types, with known version and cipher, and single certificates |
| `SessionInput.ParsedAgain` | ios/Pods/BoringSSL-GRPC/ssl/ssl_asn1.cc:527-757 | an accepted session written and parsed again is the same, up to certificates beside their hash, exactly if the method takes what is left |
| `SessionInput.ElementIsTlv` | ios/Pods/BoringSSL-GRPC/crypto/bytestring/cbs.c:243-322 | an element that is read is, byte for byte, the element as it would be written: no other length form is accepted |
| `SessionInput.UintIsMinimal` | ios/Pods/BoringSSL-GRPC/crypto/bytestring/cbs.c:391-426 | only minimal nonnegative INTEGERs are accepted |
| `SessionInput.BooleansAccepted` | ios/Pods/BoringSSL-GRPC/crypto/bytestring/cbs.c:501-529 | a BOOLEAN is 0 or 0xFF |
| `SessionInput.OtherVersionsRefused` | ios/Pods/BoringSSL-GRPC/ssl/ssl_asn1.cc:535-550 | no session version but 1 is accepted |
| `SessionInput.TrailingBytesRefused` | ios/Pods/BoringSSL-GRPC/ssl/ssl_asn1.cc:830-844 | nothing may follow a session |
| `SessionCodec.Serialize` | ios/Pods/BoringSSL-GRPC/ssl/ssl_asn1.cc:200-399 | the appending code writes exactly the specified bytes and fails exactly when they are too long |
| `SessionCodec.WriteHead` | ios/Pods/BoringSSL-GRPC/ssl/ssl_asn1.cc:206-223 | the mandatory fields, without the session id in a ticket |
| `SessionCodec.WritePeerFields` | ios/Pods/BoringSSL-GRPC/ssl/ssl_asn1.cc:225-305 | the fields peer to signedCertTimestampList, each only when it differs from its default, or one of them is too long |
| `SessionCodec.WriteStateFields` | ios/Pods/BoringSSL-GRPC/ssl/ssl_asn1.cc:307-397 | the fields ocspResponse to earlyALPN likewise |
| `SessionCodec.Deserialize` | ios/Pods/BoringSSL-GRPC/ssl/ssl_asn1.cc:527-757 | the parser accepts exactly the inputs the specification accepts and builds the same session |
| `SessionCodec.ParseHead` | ios/Pods/BoringSSL-GRPC/ssl/ssl_asn1.cc:527-591 | the mandatory fields with their checks |
| `SessionCodec.ParseFields` | ios/Pods/BoringSSL-GRPC/ssl/ssl_asn1.cc:593-757 | the optional fields in order, each with its default and its checks, and nothing after them |
| `SessionCodec.ParseOctets` | ios/Pods/BoringSSL-GRPC/ssl/ssl_asn1.cc:436-486 | an optional OCTET STRING; anything but one element of it is an error |
| `SessionCodec.ParseUint` | ios/Pods/BoringSSL-GRPC/ssl/ssl_asn1.cc:488-525 | an optional INTEGER with its default and range |
| `SessionCodec.ParseChain` | ios/Pods/BoringSSL-GRPC/ssl/ssl_asn1.cc:698-713 | the loop over the certificate chain finds all elements or fails |
| `SessionCodec.ParseCerts` | ios/Pods/BoringSSL-GRPC/ssl/ssl_asn1.cc:669-721 | the leaf and the chain together, and the check of the X.509 method, also when there is none |
| `Protocol.ScriptIsTheFlow` | ios/Pods/BoringSSL-GRPC/ssl/handshake_client.cc:1707-1789 | the script both machines are proved against is the message flow of RFC 5246 (section 7.3, figures 1 and 2) with the messages of RFC 5077, OCSP stapling, NPN and Channel ID, each Finished, CertificateVerify and Channel ID covering exactly the messages before it |
| `Protocol.Skip` | ios/Pods/BoringSSL-GRPC/ssl/handshake.cc:491-628 | a side may pass a point where the negotiation leaves a message out |
| `Protocol.Send` | ios/Pods/BoringSSL-GRPC/ssl/handshake.cc:176-184 | a side whose turn it is sends the script's item; nothing can be on its way to it then |
| `Protocol.Receive` | ios/Pods/BoringSSL-GRPC/ssl/handshake.cc:215-222 | what is on the way to a side that receives is the script's item |
| `Client.ClientSide.DoStartConnect` | ios/Pods/BoringSSL-GRPC/ssl/handshake_client.cc:385-452 | sends the ClientHello and waits for the flush |
| `Client.ClientSide.DoEnterEarlyData` | ios/Pods/BoringSSL-GRPC/ssl/handshake_client.cc:454-489 | goes on to the ServerHello |
| `Client.ClientSide.DoReadServerHello` | ios/Pods/BoringSSL-GRPC/ssl/handshake_client.cc:535-759 | an honest ServerHello passes the checks of cipher, session and old cipher, and what the client adopts is what was negotiated |
| `Client.ClientSide.DoReadServerCertificate` | ios/Pods/BoringSSL-GRPC/ssl/handshake_client.cc:771-819 | reads Certificate exactly when the suite has one |
| `Client.ClientSide.DoReadCertificateStatus` | ios/Pods/BoringSSL-GRPC/ssl/handshake_client.cc:821-869 | takes CertificateStatus if it was promised and is there; a server that promised it and sends something else is passed without hashing |
| `Client.ClientSide.DoVerifyServerCertificate` | ios/Pods/BoringSSL-GRPC/ssl/handshake_client.cc:871-889 | waits, fails or goes on as the verification does |
| `Client.ClientSide.DoReadServerKeyExchange` | ios/Pods/BoringSSL-GRPC/ssl/handshake_client.cc:891-1071 | reads ServerKeyExchange when it is there and never misses one that ECDHE needs |
| `Client.ClientSide.DoReadCertificateRequest` | ios/Pods/BoringSSL-GRPC/ssl/handshake_client.cc:1073-1143 | reads CertificateRequest exactly when there is one and knows then whether one came |
| `Client.ClientSide.DoReadServerHelloDone` | ios/Pods/BoringSSL-GRPC/ssl/handshake_client.cc:1145-1167 | reads ServerHelloDone |
| `Client.ClientSide.DoSendClientCertificate` | ios/Pods/BoringSSL-GRPC/ssl/handshake_client.cc:1169-1215 | answers a request with a certificate, possibly empty, and may be retried before sending |
| `Client.ClientSide.DoSendClientKeyExchange` | ios/Pods/BoringSSL-GRPC/ssl/handshake_client.cc:1220-1371 | sends ClientKeyExchange |
| `Client.ClientSide.DoSendClientCertificateVerify` | ios/Pods/BoringSSL-GRPC/ssl/handshake_client.cc:1373-1455 | signs exactly the transcript so far, which is still buffered; a retry sends nothing twice |
| `Client.ClientSide.DoSendClientFinished` | ios/Pods/BoringSSL-GRPC/ssl/handshake_client.cc:1457-1512 | ChangeCipherSpec, NextProtocol, Channel ID and Finished in order, each over the transcript before it; a retry sends nothing twice |
| `Client.ClientSide.DoFinishFlight` | ios/Pods/BoringSSL-GRPC/ssl/handshake_client.cc:1538-1564 | after a resumption the client is finished, otherwise it awaits the server |
| `Client.ClientSide.DoReadSessionTicket` | ios/Pods/BoringSSL-GRPC/ssl/handshake_client.cc:1566-1647 | reads NewSessionTicket exactly when it was announced |
| `Client.ClientSide.OpenChangeCipherSpec` | ios/Pods/BoringSSL-GRPC/ssl/handshake.cc:508-546 | takes the server's ChangeCipherSpec when it is there; nothing else can be |
| `Client.ClientSide.DoProcessChangeCipherSpec` | ios/Pods/BoringSSL-GRPC/ssl/handshake_client.cc:1649-1656 | from here on records are opened under the new keys |
| `Client.ClientSide.DoReadServerFinished` | ios/Pods/BoringSSL-GRPC/ssl/handshake_client.cc:1658-1672 | the MAC of the server's Finished is over exactly the client's transcript |
| `Client.ClientSide.DoFinishClientHandshake` | ios/Pods/BoringSSL-GRPC/ssl/handshake_client.cc:1674-1705 | ends the handshake |
| `Client.ClientSide.Step` | ios/Pods/BoringSSL-GRPC/ssl/handshake_client.cc:1707-1789 | each state keeps the client in step with the server; it moves on, waits, or leaves everything as it was, and never blames the server |
| `Client.ClientSide.RunStates` | ios/Pods/BoringSSL-GRPC/ssl/handshake_client.cc:1707-1789 | the loop ends, at the end of the handshake or where something has to be waited for |
| `Client.ClientSide.Run` | ios/Pods/BoringSSL-GRPC/ssl/handshake.cc:491-628 | one turn of the loop: resolves a pending flush or ChangeCipherSpec first; a retried turn repeats no message; if every operation succeeds the turn moves on or is blocked on the server |
| `Client.ClientSide.AddMessage` | ios/Pods/BoringSSL-GRPC/ssl/handshake.cc:176-184 | a message joins flight and transcript together |
| `Client.ClientSide.TakeMessage` | ios/Pods/BoringSSL-GRPC/ssl/handshake.cc:215-222 | a message leaves the wire and enters the transcript together |
| `Client.ClientSide.FlushFlight` | ios/Pods/BoringSSL-GRPC/ssl/handshake.cc:500-506 | the flight reaches the wire whole and in order |
| `Client.StatusHere` | ios/Pods/BoringSSL-GRPC/ssl/handshake_client.cc:833-838 | behind the Certificate comes CertificateStatus if the server sends it, and otherwise a message that is not CertificateStatus |
| `Client.HelloIsLegal` | ios/Pods/BoringSSL-GRPC/ssl/handshake_client.cc:535-759 | a negotiated ServerHello passes all the client's checks and makes it know the negotiation |
| `Client.FirstLinked` | ios/Pods/BoringSSL-GRPC/ssl/handshake_client.cc:1707-1789 | what is on the way to a side starts with the first item of the rest of the script |
| `Server.ServerSide.DoStartAccept` | ios/Pods/BoringSSL-GRPC/ssl/handshake_server.cc:426-430 | goes on to the ClientHello |
| `Server.ServerSide.DoReadClientHello` | ios/Pods/BoringSSL-GRPC/ssl/handshake_server.cc:432-510 | looks at the ClientHello, which stays unread; extensions are settled |
| `Server.ServerSide.DoSelectCertificate` | ios/Pods/BoringSSL-GRPC/ssl/handshake_server.cc:512-560 | settles the cipher suite; a retry changes nothing |
| `Server.ServerSide.DoSelectParameters` | ios/Pods/BoringSSL-GRPC/ssl/handshake_server.cc:572-684 | settles resumption, ticket and certificate request as negotiated, and hashes the ClientHello |
| `Server.ServerSide.DoSendServerHello` | ios/Pods/BoringSSL-GRPC/ssl/handshake_server.cc:686-752 | the ServerHello says exactly what was negotiated |
| `Server.ServerSide.DoSendServerCertificate` | ios/Pods/BoringSSL-GRPC/ssl/handshake_server.cc:754-840 | Certificate and CertificateStatus exactly as announced |
| `Server.ServerSide.DoSendServerKeyExchange` | ios/Pods/BoringSSL-GRPC/ssl/handshake_server.cc:842-912 | sends ServerKeyExchange exactly for ECDHE or a PSK hint; a retry sends nothing twice |
| `Server.ServerSide.DoSendServerHelloDone` | ios/Pods/BoringSSL-GRPC/ssl/handshake_server.cc:914-947 | CertificateRequest if negotiated, then ServerHelloDone |
| `Server.ServerSide.DoReadClientCertificate` | ios/Pods/BoringSSL-GRPC/ssl/handshake_server.cc:949-1040 | reads the client's Certificate exactly when requested; an empty one is refused exactly if a certificate is required |
| `Server.ServerSide.DoVerifyClientCertificate` | ios/Pods/BoringSSL-GRPC/ssl/handshake_server.cc:1042-1056 | waits, fails or goes on as the verification does |
| `Server.ServerSide.DoReadClientKeyExchange` | ios/Pods/BoringSSL-GRPC/ssl/handshake_server.cc:1058-1267 | hashes the message once, after any retries of the decryption |
| `Server.ServerSide.DoReadClientCertificateVerify` | ios/Pods/BoringSSL-GRPC/ssl/handshake_server.cc:1269-1363 | the signature is over exactly the server's transcript |
| `Server.ServerSide.DoReadChangeCipherSpec` | ios/Pods/BoringSSL-GRPC/ssl/handshake_server.cc:1365-1368 | waits for the client's ChangeCipherSpec |
| `Server.ServerSide.OpenChangeCipherSpec` | ios/Pods/BoringSSL-GRPC/ssl/handshake.cc:508-546 | takes it when it is there; nothing else can be |
| `Server.ServerSide.DoProcessChangeCipherSpec` | ios/Pods/BoringSSL-GRPC/ssl/handshake_server.cc:1370-1377 | from here on records are opened under the new keys |
| `Server.ServerSide.DoReadNextProto` | ios/Pods/BoringSSL-GRPC/ssl/handshake_server.cc:1379-1413 | reads NextProtocol exactly when negotiated |
| `Server.ServerSide.DoReadChannelId` | ios/Pods/BoringSSL-GRPC/ssl/handshake_server.cc:1415-1437 | reads Channel ID exactly when negotiated; its signature is over the server's transcript |
| `Server.ServerSide.DoReadClientFinished` | ios/Pods/BoringSSL-GRPC/ssl/handshake_server.cc:1439-1461 | the MAC of the client's Finished is over exactly the server's transcript |
| `Server.ServerSide.DoSendServerFinished` | ios/Pods/BoringSSL-GRPC/ssl/handshake_server.cc:1463-1509 | NewSessionTicket if announced, ChangeCipherSpec, and Finished over the transcript before it |
| `Server.ServerSide.DoFinishServerHandshake` | ios/Pods/BoringSSL-GRPC/ssl/handshake_server.cc:1511-1537 | ends the handshake |
| `Server.ServerSide.Step` | ios/Pods/BoringSSL-GRPC/ssl/handshake_server.cc:1539-1621 | each state keeps the server in step with the client; it moves on, waits, or leaves everything as it was, and never blames the client |
| `Server.ServerSide.RunStates` | ios/Pods/BoringSSL-GRPC/ssl/handshake_server.cc:1539-1621 | the loop ends, at the end of the handshake or where something has to be waited for |
| `Server.ServerSide.Run` | ios/Pods/BoringSSL-GRPC/ssl/handshake.cc:491-628 | as on the client; if every operation succeeds the only failure left is a missing required certificate |
| `Server.ServerSide.AddMessage` | ios/Pods/BoringSSL-GRPC/ssl/handshake.cc:176-184 | a message joins flight and transcript together |
| `Server.ServerSide.TakeMessage` | ios/Pods/BoringSSL-GRPC/ssl/handshake.cc:215-222 | a message leaves the wire and enters the transcript together |
| `Server.ServerSide.FlushFlight` | ios/Pods/BoringSSL-GRPC/ssl/handshake.cc:500-506 | the flight reaches the wire whole and in order |
| `Server.ServerHelloFacts` | ios/Pods/BoringSSL-GRPC/ssl/handshake_server.cc:686-752 | the ServerHello built from the server's fields is the negotiated one |
| `Server.ParameterFacts` | ios/Pods/BoringSSL-GRPC/ssl/handshake_server.cc:572-684 | choosing the parameters gives exactly what was negotiated |
| `Handshake.ScriptIsAsConfigured` | ios/Pods/BoringSSL-GRPC/ssl/handshake_server.cc:559-668 | from the configurations alone: when CertificateRequest, client Certificate, CertificateVerify, CertificateStatus, ServerKeyExchange, NextProtocol, Channel ID and NewSessionTicket are sent, what the ServerHello says, and who finishes first |
| `Handshake.RefusesInVain` | ios/Pods/BoringSSL-GRPC/ssl/handshake_server.cc:1018-1030 | the server gives up by itself exactly if it requires a certificate it asked for and the client has none |
| `Handshake.Connect` | ios/Pods/BoringSSL-GRPC/ssl/handshake.cc:491-628 | two fitting peers, any schedule of calls with any outcomes, then successful operations: nobody is ever blamed, and both finish with the transcript of the standard's message flow unless an operation refused or a required certificate is missing; that transcript holds exactly the messages the two configurations call for, each counted, with the ServerHello they call for |
| `Handshake.Converse` | ios/Pods/BoringSSL-GRPC/ssl/handshake.cc:491-628 | in every run with any number of retries neither side meets an unexpected message, a wrong MAC or a bad signature; a finished side has hashed the whole script (RFC 5246, section 7.4.9), and the sides never both wait for each other |
| `Handshake.Conclude` | ios/Pods/BoringSSL-GRPC/ssl/handshake.cc:491-628 | from every state of every run without a failure, successful operations bring both sides to the end if and only if no required client certificate is missing |
| `Handshake.StillMeansDone` | ios/Pods/BoringSSL-GRPC/ssl/handshake.cc:491-628 | no deadlock: when both sides stand still with empty flights, both are done |
| `Handshake.FirstIsOfTurn` | ios/Pods/BoringSSL-GRPC/ssl/handshake_client.cc:1707-1789 | whichever optional messages are left out, the next message comes from the side whose turn it is |
| `Handshake.EndIsWhole` | ios/Pods/BoringSSL-GRPC/ssl/handshake.cc:491-628 | at the end of the script nothing is on the way and the transcript is the whole script |
| `Handshake.DoneIsWhole` | ios/Pods/BoringSSL-GRPC/ssl/handshake.cc:491-628 | a finished side has hashed the whole script, and when both have finished the channels are empty |
| `Handshake.SameParameters` | ios/Pods/BoringSSL-GRPC/ssl/handshake_server.cc:572-684 | at the end both sides have the negotiated cipher suite and agree on resumption |
| `Handshake.StartIsLegal` | ios/Pods/BoringSSL-GRPC/ssl/handshake_server.cc:572-684 | what two fitting configurations negotiate is acceptable to both sides |

## Left out

nanopb:

- Fixed-count arrays, pointer fields and pb_release, user callbacks, custom streams, extensions, the delimited and null-terminated forms, and the error message strings.
- Build choices: the 32-bit field descriptor build (pb_size_t of 32 bits, a 4-byte header before bytes) with an 8-bit uint_fast8_t; other widths are not modelled.
- A destination struct is a value passed to and returned from the decoder; the address arithmetic of the iterator is modelled (`PbCommon`), writing through it is not. The bytes of a character buffer behind its terminator are not modelled.
- PbEncode.Encode, PbEncode.GetEncodedSize and PbEncode.EncodeIntoBuffer: only for messages whose encoding is shorter than 2^63 bytes, which is what `size_t` arithmetic on real buffers allows.
- RoundTrip.MessageRoundTrip and RoundTrip.SchemaEvolution: likewise below 2^63 bytes.

DTLS:

- Timers, a closed write side and path MTU discovery: a retransmission may happen at any time under any MTU. BIO callbacks, message callbacks, alert text and allocation failure.
- The AEAD: opening a record is an outcome given from outside; sealing adds at most the declared overhead or fails.
- DtlsRuns.Exchange: for fewer than 2^16 messages, none longer than the receiver's limit; a send beyond that is passed over.
- DtlsEndToEnd.DeliveredIsTranscriptPrefix: for fewer than 2^16 messages, so that a handshake number stands for one message; the ring itself is proved across the wrap (`DtlsReceive.TakenInRing`).

TLS write path:

- TLS 1.0 record splitting, early data limits, key updates and `int` lengths of more than 2^31 bytes. The transport accepts a prefix or fails; what is behind it is not modelled.

Reference count:

- Memory orderings: the atomic operations are sequentially consistent steps. `abort` is a result value.

Session:

- The X.509 method's cache is a predicate on the certificate list, the cipher table a set. Allocation failure, and DTLS against TLS as a property of the connection, are not modelled.
- A session is a value that the parser returns; its in-place filling is modelled by the parts each helper returns.

Handshake:

- TLS 1.3, early data, SSL 3.0, renegotiation, False Start, handoff, DTLS HelloVerifyRequest, and extended master secret; the messages' cryptographic contents. A signature or MAC is represented by the messages it covers, so a check is a comparison of transcripts; keys are the fact that records are sealed or opened under them.
- An honest peer is a premise of each state's contract (the wire holds what the other machine has sent); the branches for other peers are there, and the contracts say that between these two machines they are not taken. A server that announces CertificateStatus and then leaves it out is within the client's contracts; handshake_server.cc is not such a server.
- Certificate, key exchange, ticket and callback operations are outcomes (succeed, retry, refuse) chosen freely at each call.
- Server.ServerSide.DoSelectCertificate: takes the cipher suite as given by the configuration; `CipherChoice` models how it is chosen.
- One call of ssl_run_handshake is as many turns (`Client.ClientSide.Run`, `Server.ServerSide.Run`) as it takes until something is missing; a partial flush is a flush in a later turn.
- Version negotiation and the parsing of extensions are not part of this model.
