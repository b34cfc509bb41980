# Verified models of the codecs and protocols of airhass

A Dafny project that models the parts of the repository in which a mistake is silent: the protobuf encoder and decoder,
the streamer's packet buffer and HTTP cache, the AirPlay client's state machine and retransmit backlog, the raw ALAC
writer and the ALAC decoder, AES with its two modes, and the binary property list. `dafny verify dfyconfig.toml` checks
all of it.

The C and C++ code changes things in place, and so do the models: a stream, a context, an iterator, a ring, a client, a
bit reader, a property list is a `class`; a loop over a buffer is a method over an `array`. Each such method is proved
against a function of its inputs and of the old state, and what the code is for is then proved about that function:

- **Protobuf** (`Pb*.dfy`). `PbVarint`, `PbStream`, `PbEncode`, `PbDecodeSpec` and `PbDecode` hold the wire format, the
  streams and the two recursive code paths; `PbRoundTrip` proves that decoding undoes encoding for every message,
  `PbUnknown` and `PbForward` that unknown fields are ignored and that decoded data stays in its memory. What other
  writers may send and this encoder does not is the subject of `PbArrays`, `PbAccepted` and `PbComplete`: arrays in any
  pieces, padded and oversized numbers, fields twice, records cut short, fields missing. `PbOmission` says which fields
  stand in the bytes, and `PbWire` holds the byte strings of the encoding guide. `PbDescriptor`, `PbIterator` and
  `PbLookup` prove the packed descriptor words and the circular search; `PbGenerator` proves the size bound that the
  Python generator writes into headers against what the C encoder emits, and `PbTight` that it is attained.
- **AES** (`Aes*.dfy`, `BlockModes`, `CounterMode`). The table-driven rounds and the transformed key schedule are the
  cipher and the equivalent inverse cipher of FIPS 197. They are proved for any field and substitution,
  `AesStandard` builds the standard ones, and `AesVectors` proves the values that the standard prints. CBC and CTR as
  the packets use them come on top.
- **Streamer** (`JitterModel`, `JitterDelivery`, `JitterBuffer`, `StreamCache`). A model on unbounded packet numbers, on
  which whole runs are reasoned about: nothing is played wrong or out of order, and every packet in time is held and
  played unless one of a few listed things happens. The 2048-slot ring with 16-bit pointers refines it. The wrapping
  HTTP cache and the metadata blocks between the audio bytes, against what a player makes of them.
- **Client** (`ClientLog`, `RaopClient`, `RaopResume`). A monitor that says which logs of events the protocol allows,
  theorems about every log it accepts, and the client, every locked section of which keeps its log acceptable and its
  backlog sound; what a resume sends, and when.
- **ALAC** (`Alac*.dfy`). The byte-wise writer and the bit-wise reader undo each other at bit offset 7; the adaptive
  predictor and the adaptive Rice decoder undo the mirrored encoder, with their arithmetic in range. A mirror proves
  nothing about the rule it mirrors, so `AlacAdaptation` and `AlacCoding` say what the adaptation and the codes do.
- **Property list** (`Bplist`, `BplistLayout`). Writer and reader, exactly when the one undoes the other, and the bytes.

Threads are modelled as the sections they run under the mutex; the clock, the network, random numbers and the success of
an allocation are parameters.

## Where the code does not do what it seems meant to

Each of these is stated as an exact condition, with both directions proved:

- A streamer in RTP_STREAM with an announced packet past the last one written never leaves the loop that discards up
  to it (`JitterModel.DiscardStopsExactly`), and a run of three steps leads there (`JitterBuffer.RunIntoLoop`): the
  packet that would end the loop is stored only after it.
- The static assertions of the descriptor formats let through fields that the formats cannot hold
  (`PbDescriptor.UnpackPack`): an array size other than 1 in one word, a size offset past a byte in the long ones;
  `PbDescriptor.ArraySizeLost` and `PbDescriptor.SizeOffsetLost` are such fields.
- The size estimate of a bytes field with an odd declared size can be exceeded by one byte (`PbGenerator.BytesBound`,
  `PbGenerator.OversizedBytes`), because the padding of the structure is not subtracted.
- Resuming after a pause stays clear of its own packets exactly below 512 slots (`RaopClient.ApartExactly`); at 512 the
  first packet to send again is freed (`RaopClient.FirstLost`, `RaopClient.LoseFirst`).
- The Rice decoder writes past the block exactly when a zero run read is not shorter than what is left of it
  (`AlacRice.WritesExactly`), by at most 65534 values (`AlacRice.RiceWritesAtMost`), and a stream of 26 bits makes it do
  so (`AlacRice.WritesPastTheEnd`).
- Metadata blocks keep their places exactly for encoded blocks no longer than the interval (`StreamCache.HeardExactly`).
- The property list reads its own sizes back exactly below 65536 (`Bplist.CountBackExactly`) and its own pairs exactly
  when the keys ascend (`Bplist.RoundTripExactly`); the format wants the logarithm of the width where the writer puts
  the width less one, and the reader takes the values in the order of the sorted keys.

## Model

| member | source | states |
|---|---|---|
| `PbVarint.VarintRoundTrip` | airhass/nanopb/pb_decode.c:230-250 | Every 64-bit value is read back from its canonical base-128 form, with exactly its length, whatever bytes follow. |
| `PbVarint.Varint32RoundTrip` | airhass/nanopb/pb_decode.c:171-220 | The narrow reader accepts the canonical form of every value below 2^32 and of every value at or above 2^64 - 2^31, and gives its low 32 bits and its length. |
| `PbVarint.NarrowAgreesWithWide` | airhass/nanopb/pb_decode.c:171-250 | Whatever the 32-bit reader accepts the 64-bit reader accepts, with the same length and the same low 32 bits. |
| `PbVarint.ZigZagBijection` | airhass/nanopb/pb_decode.c:1391-1403 | Zigzag is undone in both directions, and maps exactly the signed 64-bit range onto the unsigned one. |
| `PbAccepted.VarintAccepted` | airhass/nanopb/pb_decode.c:230-250 | A varint is read exactly when it ends within ten bytes and denotes a 64-bit number; the value is the number that its groups denote. |
| `PbAccepted.PaddedReads` | airhass/nanopb/pb_decode.c:171-250 | Any 64-bit number is read from each of its forms of up to ten bytes, leading zero groups and all, and a 32-bit number from each of them by the narrow reader too. |
| `PbStream.OStream.Write` | airhass/nanopb/pb_encode.c:84-105 | Either all bytes are written at the position and counted, or the stream fails because they do not fit; nothing outside the room left changes, and a sizing stream only counts. |
| `PbStream.EncodeVarint32` | airhass/nanopb/pb_encode.c:573-605 | The split into two 32-bit halves, without 64-bit shifts, emits the canonical form of the 64-bit number. |
| `PbStream.EncodeVarint` | airhass/nanopb/pb_encode.c:607-623 | Emits the canonical form of any 64-bit value, also by the short cut for one byte. |
| `PbStream.EncodeSvarint` | airhass/nanopb/pb_encode.c:625-635 | Emits the canonical form of the zigzag image of any signed 64-bit value. |
| `PbStream.EncodeFixed64` | airhass/nanopb/pb_encode.c:654-672 | Emits the eight bytes of the number, least significant first. |
| `PbStream.EncodeString` | airhass/nanopb/pb_encode.c:716-722 | Emits the length as a varint and then the bytes, in room for both, or fails. |
| `PbStream.IStream.Read` | airhass/nanopb/pb_decode.c:81-120 | Gives the next count bytes and moves past them, or fails and changes nothing when fewer are left. |
| `PbStream.DecodeVarint` | airhass/nanopb/pb_decode.c:230-250 | Byte by byte, reads what the wire format says stands at the position, rejects a number of more than 64 bits, and moves past exactly its bytes. |
| `PbStream.DecodeVarint32` | airhass/nanopb/pb_decode.c:171-220 | The loop with its fifth-byte and sign-extension checks accepts exactly the varints whose further bits are zeros or sign extension. |
| `PbStream.DecodeSvarint` | airhass/nanopb/pb_decode.c:1391-1403 | Reads a varint and undoes zigzag; the result is a signed 64-bit number. |
| `PbStream.LeRoundTrip` | airhass/nanopb/pb_decode.c:1405-1452 | The little-endian bytes of a number that fits give the number back. |
| `PbStream.DecodeFixed64` | airhass/nanopb/pb_decode.c:1428-1452 | Reads the number of eight little-endian bytes, or fails when fewer are left. |
| `PbStream.TagRoundTrip` | airhass/nanopb/pb_decode.c:278-316 | A tag is read back with its number and wire type, whatever follows. |
| `PbStream.DecodeTag` | airhass/nanopb/pb_decode.c:278-316 | Reads a tag; the end of the input is reported apart from an error and leaves the stream as it was. |
| `PbStream.SkipField` | airhass/nanopb/pb_decode.c:318-333 | Moves past exactly the extent of a field of that wire type; wire types 3, 4, 6 and 7 and a field that is cut off fail. |
| `PbStream.BlockRoundTrip` | airhass/nanopb/pb_decode.c:383-396 | A length-prefixed block below 2^32 bytes is read back, with exactly its extent, whatever follows. |
| `PbStream.MakeStringSubstream` | airhass/nanopb/pb_decode.c:383-396 | The substream holds exactly the announced block, the parent gives those bytes up, and fails when it does not have them. |
| `PbStream.CloseStringSubstream` | airhass/nanopb/pb_decode.c:398-411 | Closing puts the parent right behind the block, however much of it was read. |
| `PbEncode.EncodeBasicField` | airhass/nanopb/pb_encode.c:362-403 | Emits the tag and the value of any static type as the wire format has them, or fails as it does. |
| `PbEncode.EncodeSubmessage` | airhass/nanopb/pb_encode.c:724-777 | The sizing pass and the writing pass together emit the length-prefixed encoding; the two never disagree on the length. |
| `PbEncode.EncodeArray` | airhass/nanopb/pb_encode.c:128-240 | Emits a packed array under one length, computed by formula or by a sizing pass, and any other array element by element; an empty one emits nothing and one over its array size fails. |
| `PbEncode.PackedSize` | airhass/nanopb/pb_encode.c:151-172 | The length announced for a packed array is the number of bytes its elements take. |
| `PbEncode.EncodeField` | airhass/nanopb/pb_encode.c:418-469 | Emits the field if it is required, present, chosen in its union or not at its proto3 default, and otherwise nothing. |
| `PbEncode.CheckDefault` | airhass/nanopb/pb_encode.c:244-358 | Says whether a field is left out under proto3, which `PbOmission` states on the bytes: zero numbers, empty strings and bytes, absent optionals and submessages of which all fields are so. |
| `PbEncode.Encode` | airhass/nanopb/pb_encode.c:512-534 | Emits the concatenation of the fields, in descriptor order, at every nesting depth, or fails without touching bytes past the limit. |
| `PbEncode.GetEncodedSize` | airhass/nanopb/pb_encode.c:557-566 | Succeeds exactly when the message can be encoded, with the length of its encoding. |
| `PbEncode.SizingAgreesWithWriting` | airhass/nanopb/pb_encode.c:84-105 | When a sizing pass over a message counts n bytes, writing it succeeds exactly if n bytes are free, writes those n bytes, and otherwise fails without changing anything past the limit. |
| `PbEncode.MeasureAndWrite` | airhass/nanopb/pb_encode.c:557-566 | pb_get_encoded_size and then pb_encode to a buffer: writing succeeds exactly when the count fits the room, writes as many bytes as counted, and leaves the rest of the buffer alone. |
| `PbWire.SimpleMessage` | airhass/nanopb/pb_encode.c:362-403 | Field 1 with the number 150 is 08 96 01. |
| `PbWire.TestingString` | airhass/nanopb/pb_encode.c:362-403 | Field 2 with the string testing is 12 07 and its seven characters. |
| `PbWire.Submessage` | airhass/nanopb/pb_encode.c:724-777 | Field 3 with the first of these as a submessage is 1A 03 08 96 01. |
| `PbWire.PackedRepeated` | airhass/nanopb/pb_encode.c:128-200 | Field 4 with 3, 270 and 86942, packed, is 22 06 03 8E 02 9E A7 05. |
| `PbWire.Negative` | airhass/nanopb/pb_encode.c:607-623 | -2 in an int32 field takes ten bytes, FE FF FF FF FF FF FF FF FF 01. |
| `PbWire.ZigZags` | airhass/nanopb/pb_encode.c:625-635 | -1, 1 and -2 in a sint32 field are 1, 2 and 3. |
| `PbWire.Fixed` | airhass/nanopb/pb_encode.c:637-672 | Numbers of 32 and 64 bits are little endian, under the tags 0D and 09. |
| `PbWire.Others` | airhass/nanopb/pb_encode.c:678-714 | true in field 15 is 78 01; the largest uint32 in field 16 has a tag of two bytes and a value of five. |
| `PbAccepted.RefusedExactly` | airhass/nanopb/pb_encode.c:512-534 | A message is encoded exactly when all that is in it fits, at every depth: bytes their buffer, strings with their terminator, arrays their size. |
| `PbOmission.TagsOfEncoding` | airhass/nanopb/pb_encode.c:418-469 | The field numbers that stand in the bytes of an encoding, in order: a required field once, an optional one or a union member if it is there, unpacked elements each once, a packed array once unless it is empty, a field without presence unless it is zero or empty. |
| `PbOmission.WrittenUnlessBlank` | airhass/nanopb/pb_encode.c:244-358 | A field without a presence member is among the fields of the bytes exactly when its value is not 0, not empty and, for a submessage, does not itself encode to nothing. |
| `PbOmission.ZerosAreSilent` | airhass/nanopb/pb_encode.c:244-358 | A cleared message encodes to nothing exactly when no field, at any depth, is required, of fixed count, of bytes of a fixed length, or in a message with default values. |
| `PbDecode.SetToDefaults` | airhass/nanopb/pb_decode.c:988-1021 | Every field is reset to its default, absent optionals and unions included, and submessages to theirs. |
| `PbDecode.DecVarint` | airhass/nanopb/pb_decode.c:1460-1530 | Accepts a varint exactly when its value survives the conversion to the field's width and sign. |
| `PbDecode.DecodeBasicField` | airhass/nanopb/pb_decode.c:417-486 | Decodes a value when the wire type is that of the field, or inside a packed block, and moves past exactly its bytes. |
| `PbDecode.DecSubmessage` | airhass/nanopb/pb_decode.c:1622-1672 | Decodes the block into the structure as it stands, within a substream that ends with the block; the parent ends up behind it. |
| `PbDecode.DecodePacked` | airhass/nanopb/pb_decode.c:501-530 | Appends the elements of a packed block to the array until the block ends; a full array or a bad element fails. |
| `PbDecode.DecodeStaticField` | airhass/nanopb/pb_decode.c:488-576 | For each of required, optional, singular, repeated, fixed-count and union fields: the slot, its presence flag or count, and what happens to the other members of a union. |
| `PbDecode.DecodeInner` | airhass/nanopb/pb_decode.c:1027-1196 | The loop over tags decodes known fields and skips unknown ones until the input ends, then asks for required fields and full fixed arrays; it succeeds with the result of the recursive specification exactly when that does, and uses the input up. |
| `PbDecode.DecodeMessage` | airhass/nanopb/pb_decode.c:1226-1229 | pb_decode: the same from a structure first set to its defaults. |
| `PbAccepted.SignedRead` | airhass/nanopb/pb_decode.c:1485-1530 | A number for a field of up to 32 bits is the signed value of the low 32 bits sent, so that a negative one may come in five bytes; it is refused exactly when it does not fit the field. |
| `PbAccepted.UnsignedRead` | airhass/nanopb/pb_decode.c:1462-1484 | An unsigned number is taken exactly when it is below 2 to the width of its field. |
| `PbAccepted.ZigZagRead` | airhass/nanopb/pb_decode.c:1485-1530 | 0, 1, 2, 3 are taken as 0, -1, 1, -2, and a number exactly when it fits its field. |
| `PbAccepted.BoolRead` | airhass/nanopb/pb_decode.c:1381-1389 | Any number but 0 is true. |
| `PbAccepted.BytesRead` | airhass/nanopb/pb_decode.c:1532-1570 | Bytes are taken as they are when they fit the buffer, and else refused. |
| `PbAccepted.StringRead` | airhass/nanopb/pb_decode.c:1572-1620 | A string is taken up to its first NUL exactly when all that was sent fits with a terminator. |
| `PbAccepted.FixedLengthRead` | airhass/nanopb/pb_decode.c:1674-1695 | Bytes of a fixed length are taken in that length, or in none, which stands for zeros, and otherwise refused. |
| `PbAccepted.SingleTaken` | airhass/nanopb/pb_decode.c:488-576 | In any state, a record of a field that is no array sets its value and presence, unchooses the other members of its union and changes nothing else; so the last one counts. |
| `PbAccepted.SubmessageTaken` | airhass/nanopb/pb_decode.c:543-571 | A submessage is decoded over what the structure holds, or over defaults when it newly becomes the chosen member of its union; it fails exactly when the decoding of its block does. |
| `PbAccepted.MergesInTurn` | airhass/nanopb/pb_decode.c:1027-1196 | Without required fields and arrays of fixed count, decoding one input after another into the same structure is decoding them joined. |
| `PbAccepted.WrongWireType` | airhass/nanopb/pb_decode.c:417-486 | A known field under another wire type than its own, or that of a packed array, makes decoding fail. |
| `PbAccepted.ZeroTag` | airhass/nanopb/pb_decode.c:1067-1078 | Field number 0 makes decoding fail. |
| `PbAccepted.UnknownRefused` | airhass/nanopb/pb_decode.c:318-333 | An unknown field under wire type 3, 4, 6 or 7 makes decoding fail. |
| `PbAccepted.CutOffFails` | airhass/nanopb/pb_decode.c:1065-1091 | A record cut short anywhere, known or not, makes decoding fail. |
| `PbArrays.NumbersAppended` | airhass/nanopb/pb_decode.c:500-541 | In any state, one record of a repeated field of numbers, a packed block of any length or a single element, appends exactly its elements and changes nothing else, or fails exactly when there is no room for all. |
| `PbArrays.AnySplitRoundTrip` | airhass/nanopb/pb_decode.c:500-556 | However a writer splits the elements of each array, packable or not, into packed blocks and single elements, in order, decoding gives the message back, as it does from the encoder. |
| `PbComplete.AcceptedExactly` | airhass/nanopb/pb_decode.c:1141-1193 | An input that the loop gets through is accepted exactly when the tag of each of the first 64 required fields is among its fields and the last array of fixed count is complete. |
| `PbComplete.IncompleteFails` | airhass/nanopb/pb_decode.c:1117-1163 | An array of fixed count of which some records but not all elements have come makes decoding fail, at the end of the input and at the first record of another such array. |
| `PbRoundTrip.MessageRoundTrip` | airhass/nanopb/pb_decode.c:1027-1196 | Whatever the destination held, decoding the encoding of a message gives an equal message, with the fields it lacks as the defaults leave them: for every descriptor with ascending tags, all static types, arrays packed and not, unions and submessages. |
| `PbRoundTrip.ValueRoundTrip` | airhass/nanopb/pb_decode.c:417-486 | One value of any static type is read back from what was written for it, whatever follows. |
| `PbRoundTrip.PackedRoundTrip` | airhass/nanopb/pb_decode.c:501-530 | A packed block gives all its elements back, in order, merged into what the array held. |
| `PbRoundTrip.ElementsRoundTrip` | airhass/nanopb/pb_decode.c:532-541 | The elements of an array, packable or not, sent one by one under their own tags, are gathered again over several turns of the tag loop. |
| `PbUnknown.UnknownIsSkipped` | airhass/nanopb/pb_decode.c:1111-1114 | A field that the descriptor does not have leaves the decoder in the state it was in. |
| `PbUnknown.UnknownIsTransparent` | airhass/nanopb/pb_decode.c:1065-1150 | Inserting such a field between fields, even inside a run of fixed-array elements, changes neither the success of decoding nor its result. |
| `PbForward.StepWithin` | airhass/nanopb/pb_decode.c:1065-1150 | A whole field on the wire is decoded, or rejected, the same whatever follows it, and taken whole. |
| `PbForward.UnknownFieldsIgnored` | airhass/nanopb/pb_decode.c:1065-1150 | For any input made of whole fields, decoding with and without those the descriptor does not have is the same, in success and in result, however many there are and wherever they stand. |
| `PbForward.ForwardCompatible` | airhass/nanopb/pb_decode.c:1065-1150 | A reader gets every field it knows from an encoding with any unknown fields among its fields and array elements. |
| `PbForward.EncodingIsFields` | airhass/nanopb/pb_encode.c:512-534 | What the encoder writes is made of whole fields of its descriptor, so the results above apply to it. |
| `PbUnknown.LoopSplits` | airhass/nanopb/pb_decode.c:1065-1150 | Decoding a run of whole fields and then the rest is decoding the concatenation. |
| `PbUnknown.DecodeStaysInBounds` | airhass/nanopb/pb_decode.c:488-576 | Whatever bytes arrive, every array count, string, byte array and integer of a decoded structure stays within the memory and the width of its field, and a union has at most one member chosen. |
| `PbDescriptor.UnpackPack` | airhass/nanopb/pb.h:787-836 | Unpacking the one, two, four or eight words of a field that passes its static assertion gives the field back exactly when the format can hold its array size and size offset, which the assertions do not quite ask for. |
| `PbDescriptor.ArraySizeLost` | airhass/nanopb/pb.h:787-789 | A one-word field with array size 0 passes its assertion and comes back with array size 1. |
| `PbDescriptor.SizeOffsetLost` | airhass/nanopb/pb.h:795-803 | A field of four or eight words with a size offset of 256 passes its assertion and comes back with 0. |
| `PbIterator.FieldIter.LoadDescriptorValues` | airhass/nanopb/pb_common.c:8-120 | Loads the declared field at the position: tag, type, offsets, pointers and submessage descriptor; false past the last field, with nothing changed. |
| `PbIterator.FieldIter.AdvanceIterator` | airhass/nanopb/pb_common.c:122-154 | Steps to the words of the next declared field, whatever their widths, with the counters of required fields and submessages right, and after the last to the first. |
| `PbIterator.FieldIter.Begin` | airhass/nanopb/pb_common.c:156-164 | Starts on the first declared field, loaded; false for a message without fields. |
| `PbIterator.FieldIter.Next` | airhass/nanopb/pb_common.c:188-193 | Visits the declared fields in order; false exactly when it wraps around. |
| `PbIterator.FieldIter.Find` | airhass/nanopb/pb_common.c:195-244 | From any field, ends; succeeds exactly when a field has the tag and is no extension, or the current one has it, and is then on it; else it is back where it was. |
| `PbIterator.FieldIter.FindExtension` | airhass/nanopb/pb_common.c:246-275 | From any field, ends on an extension field, the current one if it is one, exactly when there is one; else it is back where it was. |
| `PbLookup.MatchesIsFound` | airhass/nanopb/pb_common.c:195-244 | Under ascending tags the field the packed words lead to is the one the decoder's specification looks up. |
| `PbLookup.FindField` | airhass/nanopb/pb_decode.c:1078-1081 | The search over packed words gives, from any position, the field or absence that the decoder's specification uses. |
| `PbGenerator.ComputeVarintMaxSize` | airhass/nanopb/generator/nanopb_generator.py:240-252 | The loop gives the number of bytes of the varint; a negative number is taken to 2^64 and its magnitude, and one too large fails. |
| `PbGenerator.ComputeMessageSize` | airhass/nanopb/generator/nanopb_generator.py:1620-1631 | Adds up the estimates of all fields, with none if one has none. |
| `PbGenerator.ComputeOneOfSize` | airhass/nanopb/generator/nanopb_generator.py:1256-1272 | The largest estimate of the members, with none if one has none. |
| `PbGenerator.ComputeFieldSize` | airhass/nanopb/generator/nanopb_generator.py:1007-1079 | Tag, length prefix, repetition and the allowance for one packed item, for every field type. |
| `PbGenerator.ValueBound` | airhass/nanopb/generator/nanopb_generator.py:1007-1064 | No value of a field is encoded in more bytes than estimated, submessages included. |
| `PbGenerator.EnumBound` | airhass/nanopb/generator/nanopb_generator.py:410-411 | Every declared enum value, negative ones of ten bytes too, is within the estimate for the enum. |
| `PbGenerator.BytesBound` | airhass/nanopb/generator/nanopb_generator.py:721-735 | A bytes value is within its estimate exactly when it is no longer than declared; the padded structure lets one byte more through when the declared size is odd. |
| `PbGenerator.OversizedBytes` | airhass/nanopb/generator/nanopb_generator.py:721-735 | Two bytes in a field declared for one are encoded, in one byte more than estimated. |
| `PbGenerator.PackedBound` | airhass/nanopb/generator/nanopb_generator.py:1066-1077 | A packed array is within the estimate made for the unpacked one, with the allowance for a single item. |
| `PbGenerator.OneOfCovers` | airhass/nanopb/generator/nanopb_generator.py:1256-1272 | The estimate of a union covers each member. |
| `PbGenerator.MessageBound` | airhass/nanopb/generator/nanopb_generator.py:1620-1631 | Where the estimate is a number, no message of static fields with declared enum values and no oversized bytes is encoded by the C encoder in more bytes. |
| `PbTight.ScalarTight` | airhass/nanopb/generator/nanopb_generator.py:78-125 | Every row of the table of scalar types, with every int_size, is attained by a value of its C type. |
| `PbTight.EnumTight` | airhass/nanopb/generator/nanopb_generator.py:410-411 | A declared value attains the estimate of its enum. |
| `PbTight.BlockTight` | airhass/nanopb/generator/nanopb_generator.py:709-735 | The longest bytes value attains its estimate; the longest string does too, except where the declared size is the first to need a longer length, and there by one byte. |
| `PbTight.OthersTight` | airhass/nanopb/generator/nanopb_generator.py:1031-1058 | -1 attains the estimate for an enum of another file; a submessage is estimated at its own estimate and the length of that. |
| `PbTight.FieldTight` | airhass/nanopb/generator/nanopb_generator.py:1066-1066 | A value that attains the estimate of its type attains, with its tag, the estimate of its field. |
| `PbTight.ArrayTight` | airhass/nanopb/generator/nanopb_generator.py:1068-1077 | As many of them as an array that is not packed can hold attain the estimate of the array. |
| `PbTight.PackedTight` | airhass/nanopb/generator/nanopb_generator.py:1066-1077 | A packed array of one item attains its estimate with the allowance of one byte. |
| `PbTight.OneOfTight` | airhass/nanopb/generator/nanopb_generator.py:1256-1272 | The estimate of a union is that of one of its members. |
| `PbTight.MessageTight` | airhass/nanopb/generator/nanopb_generator.py:1620-1631 | A message of required fields in their order of declaration, each of which attains its estimate, attains the estimate of the message. |
| `AesCipher.EqInvCipherIsInvCipher` | common/libraop/src/aes.c:678-712 | The equivalent inverse cipher (FIPS 197, section 5.3.5) on the transformed key schedule is the inverse cipher of section 5.3. |
| `AesCipher.DecryptionUndoesEncryption` | common/libraop/src/aes.c:588-712 | It undoes the cipher of section 5.1 for any key schedule of two round keys or more. |
| `AesField.Field.InvMixColOfMixCol` | common/libraop/src/aes.c:106-136 | InvMixColumns undoes MixColumns on every column. |
| `AesTables.ForwardWordIs` | common/libraop/src/aes.c:588-612 | One table-driven forward round word is ShiftRows, SubBytes, MixColumns and the round key on that column. |
| `AesTables.ReverseWordIs` | common/libraop/src/aes.c:678-702 | The same for a reverse round with the inverse tables. |
| `AesTables.KTWordIs` | common/libraop/src/aes.c:533-574 | A word through the KT tables is InvMixColumns of that column. |
| `AesTables.CoreWordIs` | common/libraop/src/aes.c:472-476 | The first word of a key group has the rotation, the S-box and the round constant of section 5.2. |
| `Aes.AesContext.Expand` | common/libraop/src/aes.c:457-527 | The three unrolled loops fill erk with the key expansion of section 5.2 for 128, 192 and 256 bits. |
| `Aes.AesContext.InvertKeys` | common/libraop/src/aes.c:531-581 | drk holds the round keys in reverse order, the middle ones through InvMixColumns. |
| `Aes.AesContext.SetKey` | common/libraop/src/aes.c:437-584 | Returns 0 with both schedules right for 128, 192 and 256 bits, and else 1 with nothing changed. |
| `Aes.AesContext.Encrypt` | common/libraop/src/aes.c:588-622 | The block written is the cipher of section 5.1 of the block read, also in place; nothing else changes. |
| `Aes.AesContext.Decrypt` | common/libraop/src/aes.c:678-712 | The block written is the inverse cipher of the block read, also in place; nothing else changes. |
| `Aes.DecryptEncryptBlock` | common/libraop/src/aes.c:588-712 | For every key and block, decryption undoes encryption. |
| `AesStandard.InverseIs` | common/libraop/src/aes.c:73-79 | The inverse used by the S-box is the multiplicative inverse of section 4.2, with 0 for 0. |
| `AesStandard.SubTwice` | common/libraop/src/aes.c:88-107 | The S-box and its inverse undo each other on all 256 bytes. |
| `AesStandard.StandardGenerated` | common/libraop/src/aes.c:66-137 | The ten tables built as aes_gen_tables builds them hold the columns that all results above ask for. |
| `AesStandard.StandardRoundTrip` | common/libraop/src/aes.c:588-712 | With the S-box of FIPS 197, for every 128, 192 and 256-bit key and every block, decryption undoes encryption. |
| `AesStandard.EncryptAndDecrypt` | common/libraop/src/aes.c:437-712 | aes_set_key, aes_encrypt and aes_decrypt on those tables, in place: the bytes between are the cipher's, and the array comes back as it was. |
| `AesVectors.SubValues` | common/libraop/src/aes.c:88-105 | The first row of the S-box that FIPS 197 prints, its example 0x53 to 0xED, and others. |
| `AesVectors.RconValues` | common/libraop/src/aes.c:81-86 | The ten round constants of appendix A.1 of FIPS 197. |
| `AesVectors.Words128` | common/libraop/src/aes.c:467-482 | Words 4, 5, 42 and 43 of the expansion that appendix A.1 prints. |
| `AesVectors.Words192` | common/libraop/src/aes.c:484-503 | Words 6 to 11 of the expansion that appendix A.2 prints. |
| `AesVectors.Words256` | common/libraop/src/aes.c:505-527 | Words 8 to 15 of the expansion that appendix A.3 prints, with the substitution in the middle of the group. |
| `AesVectors.RoundsByKey` | common/libraop/src/aes.c:588-622 | The cipher is the one of 10, 12 or 14 rounds by the key, and its round keys are the words of the expansion, four by four. |
| `AesVectors.AppendixB` | common/libraop/src/aes.c:588-622 | The key, the block and the ciphertext of appendix B, byte for byte. |
| `BlockModes.PacketRoundTrip` | common/libraop/src/raop_streamer.c:401-414 | For every packet length, the receiver's CBC decryption of the whole blocks undoes the sender's encryption, and the tail stays clear. |
| `BlockModes.StandardPacketRoundTrip` | common/libraop/src/raop_client.c:315-342 | The same with AES under one key and the S-box of FIPS 197. |
| `BlockModes.PacketEncrypt` | common/libraop/src/raop_client.c:315-342 | In place: the packet becomes its CBC encryption, what lies behind it does not change, and the count returned is that of the whole blocks. |
| `BlockModes.CbcBlock` | common/libraop/src/raop_client.c:320-327 | Each block of ciphertext is the encryption of the plaintext block plus the block of ciphertext before it, the first with the initialization vector. |
| `BlockModes.CbcTail` | common/libraop/src/raop_client.c:321-341 | What is left over after the last whole block is not encrypted. |
| `CounterMode.IncrementCounts` | common/libraop/src/aes_ctr.c:40-60 | The byte-wise increment, in either byte order and in the layout with a 32-bit counter, counts one more modulo the size of the counter and keeps the rest of the block. |
| `CounterMode.IncrementRfc3686` | common/libraop/src/aes_ctr.c:40-60 | In that layout, 00 00 00 FF at the end of the block is followed by 00 00 01 00, and the rest stays. |
| `CounterMode.IncrementLittle` | common/libraop/src/aes_ctr.c:40-60 | In the other order, FF 00 at the start of the block is followed by 00 01. |
| `CounterMode.AdvanceCounts` | common/libraop/src/aes_ctr.c:40-60 | n increments count n more modulo 2^128, or 2^32 in the layout of section 4 of RFC 3686. |
| `CounterMode.KeystreamAt` | common/libraop/src/aes_ctr.c:63-89 | Byte i of the keystream is byte i mod 16 of the encryption of counter block i / 16. |
| `CounterMode.CtrTwice` | common/libraop/src/aes_ctr.c:75-89 | Encrypting twice gives the data back. |
| `CounterMode.CtrSplits` | common/libraop/src/aes_ctr.c:75-89 | Splitting the data at a multiple of 16 bytes changes neither the output nor the counter. |
| `CounterMode.AesCtr.IncrementCounter` | common/libraop/src/aes_ctr.c:40-60 | In place, the counter block becomes the next one of its mode. |
| `CounterMode.AesCtr.Encrypt` | common/libraop/src/aes_ctr.c:75-89 | In place, the data is masked with the keystream from the counter block on, and the counter moves on by the number of blocks, a part block counting as one. |
| `JitterModel.SeqOrderIs` | common/libraop/src/raop_streamer.c:395-398 | On numbers at most half the range apart, seq_order on 16 bits is the order of the unbounded numbers. |
| `JitterDelivery.RecordIs` | common/libraop/src/raop_streamer.c:368-372 | A RECORD with a number starts a session at the first packet that is not before it; without one, the first packet is held until a number is announced. |
| `JitterDelivery.AnswerAgain` | common/libraop/src/raop_streamer.c:1150-1157 | When the audio sent before is sent again, no silence is owed. |
| `JitterModel.PutValid` | common/libraop/src/raop_streamer.c:417-558 | A packet within reach keeps the window right: fewer than BUFFER_FRAMES live frames, a fill that is never negative, and every packet held inside it. |
| `JitterModel.GetValid` | common/libraop/src/raop_streamer.c:824-916 | Playing keeps the window right; what is played is silence or exactly the received packet at the read position, which is then passed. |
| `JitterModel.PlayedInOrder` | common/libraop/src/raop_streamer.c:417-916 | Over every run of a session, from before its first packet, the packets played have strictly increasing numbers across any 16-bit wrap, and each was received and is unchanged. |
| `JitterDelivery.ArrivalHeld` | common/libraop/src/raop_streamer.c:493-556 | A packet within reach that is neither before an announced number nor before the place where playing goes on is held, with its contents, after it has arrived; only silence before the first sound may go at once. |
| `JitterDelivery.LateIgnored` | common/libraop/src/raop_streamer.c:417-558 | A packet that comes later than that changes nothing that is held or played. |
| `JitterDelivery.HeldStays` | common/libraop/src/raop_streamer.c:417-916 | A packet held stays held through every step, unless it is the one played, or passed for a reason that the step gives, or another of its number arrives. |
| `JitterDelivery.HeldIsPlayed` | common/libraop/src/raop_streamer.c:417-916 | Over every run, a packet held is played with its contents, or still held at the end, or there was a reason: the hold beyond the delay, a removed frame, silence before the first sound, a flush, a new session or a duplicate. |
| `JitterDelivery.ArrivedIsPlayed` | common/libraop/src/raop_streamer.c:417-916 | The same from the arrival of the packet on. |
| `JitterDelivery.FetchIs` | common/libraop/src/raop_streamer.c:824-916 | A packet whose turn it is is played, early or not; a missing one is waited for until its time, and then silence takes its place; each fetch moves the read position by one or not at all. |
| `JitterDelivery.FetchHeldBack` | common/libraop/src/raop_streamer.c:824-832 | Nothing is played before a session, before the clocks are in step or during a pause, and the silence that is owed comes first. |
| `JitterDelivery.Drained` | common/libraop/src/raop_streamer.c:824-916 | As many fetches as a packet held is ahead of the read position, and one more, play it. |
| `JitterDelivery.HoldBounded` | common/libraop/src/raop_streamer.c:499-521 | A packet that leaves a gap does not find more packets than the delay waiting in front of it. |
| `JitterDelivery.SilenceMakesRoom` | common/libraop/src/raop_streamer.c:544-547 | Before the first sound, every silent packet in sequence makes room for itself. |
| `JitterDelivery.SoundEndsSilence` | common/libraop/src/raop_streamer.c:544-552 | The first packet that is not silent ends that while playing, and nothing else does. |
| `JitterDelivery.RemovedOnce` | common/libraop/src/raop_streamer.c:727-731 | Each frame removed for drift is passed at once or owed, and no other. |
| `JitterDelivery.FetchPaysDebt` | common/libraop/src/raop_streamer.c:824-916 | A fetch pays the frames owed, as far as there are any, and goes on from there. |
| `JitterDelivery.AnnouncedFirst` | common/libraop/src/raop_streamer.c:428-432 | Packets before an announced number change nothing. |
| `JitterDelivery.SessionOpens` | common/libraop/src/raop_streamer.c:434-450 | The first packet at or after an announced number opens the session at its own number; without an announcement, playing waits for one. |
| `JitterDelivery.AnnouncementPlays` | common/libraop/src/raop_streamer.c:451-462 | The announcement lets playing go on at the first packet held at or after it. |
| `JitterDelivery.FlushIs` | common/libraop/src/raop_streamer.c:335-360 | A flush while playing empties the buffer and waits for the number announced; a silent one only pauses; before playing it only announces. |
| `JitterDelivery.PauseEnds` | common/libraop/src/raop_streamer.c:490-491 | A pause ends with the first packet after the announced one, and with no other. |
| `JitterDelivery.AnswerFillsUp` | common/libraop/src/raop_streamer.c:972-979 | When nothing has been sent, the silence still to come and the frames there make up the delay, or are more. |
| `JitterModel.DiscardStopsExactly` | common/libraop/src/raop_streamer.c:451-461 | The loop that discards up to an announced packet ends exactly when that packet is not past the last one written. |
| `JitterBuffer.DiscardEndsExactly` | common/libraop/src/raop_streamer.c:451-461 | The same, from the ring of slots and the packets it holds. |
| `JitterBuffer.RunIntoLoop` | common/libraop/src/raop_streamer.c:417-466 | Packet 100, FLUSH 101, packet 101: the streamer is left in a state in which that loop never ends. |
| `JitterBuffer.Streamer.PutPacket` | common/libraop/src/raop_streamer.c:417-558 | The 2048-slot ring with 16-bit pointers does what the unbounded model does, in every state: first packet, announced packet, in sequence, ahead, late, too late. |
| `JitterBuffer.Streamer.Discard` | common/libraop/src/raop_streamer.c:451-461 | Stops at the first packet received at or after the announced one. |
| `JitterBuffer.Streamer.GetFrame` | common/libraop/src/raop_streamer.c:824-916 | The frame returned and the new state are those of the model: null while waiting, silence, or the packet at the read position. |
| `JitterBuffer.Streamer.Flush` | common/libraop/src/raop_streamer.c:335-360 | In every state, what is dropped and announced is what the model says, and the result says whether playing stopped. |
| `JitterBuffer.Streamer.Record` | common/libraop/src/raop_streamer.c:368-372 | On an empty buffer, the number announced becomes the first to play, unless both arguments are 0. |
| `JitterBuffer.Streamer.RemoveFrame` | common/libraop/src/raop_streamer.c:725-731 | The drift step drops one frame, or owes it to the reader when there is none to drop. |
| `JitterBuffer.Streamer.Answer` | common/libraop/src/raop_streamer.c:972-979 | Answering a GET sets the number of silent frames still to be sent as the model says, in every state. |
| `StreamCache.CachedMore` | common/libraop/src/raop_streamer.c:1006-1012 | Copying a block in two parts keeps the last CACHE_SIZE stream bytes at their place modulo CACHE_SIZE. |
| `StreamCache.ListenSplits` | common/libraop/src/raop_streamer.c:1014-1057 | A player that stands between metadata blocks goes on from there with what follows. |
| `StreamCache.HeardExactly` | common/libraop/src/raop_streamer.c:1014-1057 | Audio sent right after a block is heard unchanged exactly when it is no longer than the interval. |
| `StreamCache.HttpStream.MakeBlock` | common/libraop/src/raop_streamer.c:1018-1039 | The block is a length byte and sixteen times as many bytes: new text padded with zeros to the next multiple of sixteen, or one zero byte. |
| `StreamCache.BlocksOfSixteen` | common/libraop/src/raop_streamer.c:1018-1039 | A text of sixteen bytes makes a block of length byte 1, and one of seventeen needs length byte 2. |
| `StreamCache.HttpStream.Encoded` | common/libraop/src/raop_streamer.c:1006-1057 | Each encoded block goes to the cache and to the player, who hears all of it and nothing else between metadata blocks; a block is sent exactly when the data reaches past its place, and carries the text if it is new. |
| `StreamCache.HttpStream.AnswerGet` | common/libraop/src/raop_streamer.c:1152-1181 | A new player hears the stream from its start when the cache still has all of it, and else nothing yet; the metadata blocks resent are empty. |
| `StreamCache.HttpStream.EncodeAll` | common/libraop/src/raop_streamer.c:1006-1057 | The same over any run of blocks: new text goes out with the first metadata block due, and only there. |
| `StreamCache.Run` | common/libraop/src/raop_streamer.c:1006-1181 | Blocks encoded before and after a player connects: the cache holds the last of them, and the player hears exactly the resent and the live audio, in order, and sees the text once. |
| `ClientLog.AudioOnlyWhileStreaming` | common/libraop/src/raop_client.c:603-619 | In every log the monitor accepts, audio is sent only inside an episode of streaming that was entered from RAOP_FLUSHED and whose one first sync came before. |
| `ClientLog.MarkerOnFirstPacket` | common/libraop/src/raop_client.c:519-557 | The marker bit is on exactly the first packet built after an entry. |
| `ClientLog.EntryThenSync` | common/libraop/src/raop_client.c:519-524 | Streaming is entered only from RAOP_FLUSHED, and the next event is its first sync. |
| `RaopClient.Client.Allowed` | common/libraop/src/raop_client.c:350-619 | In every state the invariant allows, the log of what was done is one the monitor accepts, and the flags say what may come next; every section keeps that invariant. |
| `RaopClient.Client.SendAudio` | common/libraop/src/raop_client.c:603-619 | The gate: the packet goes out exactly when the socket is open and the state is RAOP_STREAMING. |
| `RaopClient.Client.SendChunk` | common/libraop/src/raop_client.c:499-584 | The packet gets the next number and the stream time, goes into its backlog slot and alone there, and the log shows what was sent; a send allowed by an accept leaves head_ts no later than that time. |
| `RaopClient.Client.AcceptFrames` | common/libraop/src/raop_client.c:394-496 | Accepts exactly when no flush is still being waited for and there is time for a chunk; after a flush the stream restarts at the right time, with the packets up to a pause sent again under new numbers and stamps. |
| `RaopResume.WaitsIs` | common/libraop/src/raop_client.c:404-413 | Frames are held back exactly while a flush is pending and not done, unless the start time is no further away than the latency. |
| `RaopResume.ChunksFit` | common/libraop/src/raop_client.c:429-429 | As many packets are sent again as fit the latency, which is the one of the player and 11025 frames more. |
| `RaopClient.Client.Resume` | common/libraop/src/raop_client.c:452-482 | The packets in the last chunks slots up to the pause move, in order, to the slots of the next numbers, under consecutive stamps, and no buffer ends up in two slots. |
| `RaopClient.ApartExactly` | common/libraop/src/raop_client.c:441-482 | The slots read and written never meet exactly when fewer than 512 packets are looked back on and sent again. |
| `RaopResume.LookbackIs` | common/libraop/src/raop_client.c:444-447 | The search ends at the first packet, from the newest back, that is not later than the pause, or after 512. |
| `RaopResume.PauseAtTheLast` | common/libraop/src/raop_client.c:350-362 | A pause taken at the stream time after the last packet is found at that packet. |
| `RaopResume.FirstIs` | common/libraop/src/raop_client.c:418-432 | The stream restarts at the start time if there is one, else now, or after a pause as long ago as the player buffers. |
| `RaopResume.ResumeSends` | common/libraop/src/raop_client.c:441-482 | From a full backlog, a resume sends exactly the packets up to the one that the pause is at, and that one last; the k-th goes out under the k-th number after the last, k chunks after the restart, and stands in the slot of that number. |
| `RaopResume.ResumeCatchesUp` | common/libraop/src/raop_client.c:427-482 | Without a start time, the stream then stands where one new chunk is due by the clock that was read, and not two. |
| `RaopClient.StoresApart` | common/libraop/src/raop_client.c:466-473 | Between two different slots, the stores for a packet sent again, in the order of the source, move it and free what the new slot held. |
| `RaopClient.FirstLost` | common/libraop/src/raop_client.c:466-473 | At 512 slots the first packet to send again is itself freed, and its slot is left empty. |
| `RaopClient.LoseFirst` | common/libraop/src/raop_client.c:441-473 | A sound backlog on which that happens. |
| `RaopClient.Client.Pause` | common/libraop/src/raop_client.c:350-362 | pause_ts is the stream time, and a flush is pending. |
| `RaopClient.Client.StartAt` | common/libraop/src/raop_client.c:365-378 | Sets the start time and keeps every invariant. |
| `RaopClient.Client.Stop` | common/libraop/src/raop_client.c:381-391 | Drops the pause, with a flush pending. |
| `RaopClient.Client.FlushBegin` | common/libraop/src/raop_client.c:1104-1117 | The state is RAOP_FLUSHING; the number and time taken are those of the stream. |
| `RaopClient.Client.FlushEnd` | common/libraop/src/raop_client.c:1119-1128 | The state is RAOP_FLUSHED. |
| `RaopClient.Client.Connected` | common/libraop/src/raop_client.c:1080-1085 | Connecting makes the state RAOP_FLUSHED only from RAOP_DOWN. |
| `RaopClient.Client.Disconnect` | common/libraop/src/raop_client.c:1132-1142 | The state is RAOP_DOWN; the protocol and the backlog stay sound, whatever was going on. |
| `RaopClient.Client.Sanitize` | common/libraop/src/raop_client.c:1208-1222 | All times are 0, the state is RAOP_DOWN, no marker is due and a flush is pending. |
| `RaopClient.Client.PeriodicSync` | common/libraop/src/raop_client.c:1235-1257 | Sends a sync with the stream time, which the protocol allows in every state, because the test of the state is made before the section. |
| `RaopClient.Client.Retransmit` | common/libraop/src/raop_client.c:1405-1445 | Of the packets asked for, exactly those still stored are sent again, in order, and no others. |
| `RaopClient.RequestedOnly` | common/libraop/src/raop_client.c:1407-1412 | Whatever the backlog holds, only requested numbers are sent. |
| `RaopResume.RequestedAll` | common/libraop/src/raop_client.c:1407-1443 | Every packet asked for that its slot still holds is sent again, each once, in order, and no other. |
| `AlacBits.BitReader.ReadBits` | common/libraop/src/alac.c:155-168 | Gives the next bits, up to 32, as a number and moves on by as many; it looks at no byte past the fifth from the cursor. |
| `AlacCoding.BitsOfByte` | common/libraop/src/alac.c:171-188 | The bits of a byte are read from the highest on. |
| `AlacBits.BitReader.ReadBits16` | common/libraop/src/alac.c:123-152 | The same for up to 16 bits, from three bytes. |
| `AlacBits.BitReader.UnreadBits` | common/libraop/src/alac.c:191-200 | Moves the cursor back over any number of bits. |
| `AlacRaw.PcmToAlacRaw` | common/libcodecs/addons/alac_wrapper.cpp:81-136 | Writes 4 * bsize + 8 bytes: the header, the frames half-byte shifted, silence up to bsize, and the end marker. |
| `AlacRaw.OnePair` | common/libcodecs/addons/alac_wrapper.cpp:81-136 | The twelve bytes of the frame of one sample pair. |
| `AlacRaw.SplitReads` | common/libcodecs/addons/alac_wrapper.cpp:102-123 | A 16-bit sample across three bytes at bit offset 7 is what its parts say. |
| `AlacDecoder.DecodeRawFrame` | common/libraop/src/alac.c:885-1068 | Gives the sample pairs of an uncompressed stereo frame, with or without a size field. |
| `AlacDecoder.Recode` | common/libcodecs/addons/alac_wrapper.cpp:81-136 | Writer and reader together: the same samples, then silence, for every block; the reader looks at none of the bytes after those written. |
| `AlacFir.Lossless` | common/libraop/src/alac.c:416-554 | For every block in range, starting coefficients and setting, the decoder reproduces the samples from the residuals of the mirrored predictor, with the coefficients in lockstep. |
| `AlacFir.DecompressFirAdapt` | common/libraop/src/alac.c:416-554 | In place, output and coefficient tables become what the sample-by-sample definition gives, for all three orders: none, running sum, adaptive. |
| `AlacFir.Adapt` | common/libraop/src/alac.c:510-550 | The coefficient loop stops when the error is used up and adapts each coefficient as the definition says, of which `AlacAdaptation` says what it does. |
| `AlacAdaptation.StepAdapts` | common/libraop/src/alac.c:512-549 | After a residual, the coefficients from some m on have each moved by the sign of their sample difference towards it, by at most 1, and no other has moved; m is the first at which, from the last coefficient on, the costs reach the residual. |
| `AlacAdaptation.StepKeeps` | common/libraop/src/alac.c:512-549 | A residual of 0, and one among the first samples, moves no coefficient. |
| `AlacAdaptation.SumMovesTowardsResidual` | common/libraop/src/alac.c:499-549 | Over the same window the sum moves towards the residual by the differences of the coefficients that moved: never away from it, and strictly when the first coefficient looked at has a difference. |
| `AlacAdaptation.SampleIs` | common/libraop/src/alac.c:499-510 | The sample is the first of the window plus the rounded quotient of the sum plus the residual, wrapped to the sample width. |
| `AlacAdaptation.WithoutCoefficients` | common/libraop/src/alac.c:426-467 | Without coefficients residuals are samples; with 31, and among the first ones, each sample is the one before plus the residual. |
| `AlacAdaptation.PredictsNearest` | common/libraop/src/alac.c:505-507 | The prediction is the quotient to the nearest number. |
| `AlacAdaptation.FourSamples` | common/libraop/src/alac.c:416-554 | Residuals 10, 2, 3, 0 and coefficient 2 give 10, 12, 15, 17 and coefficient 3. |
| `AlacRice.KInRange` | common/libraop/src/alac.c:350-365 | On the normal path k is in [1, rice_kmodifier] and at most 16, and leading zeros are not counted of 0. |
| `AlacRice.RunKInRange` | common/libraop/src/alac.c:379-388 | On the zero-run path k is in [2, 7]. |
| `AlacRice.HistoryInRange` | common/libraop/src/alac.c:369-377 | The history stays between 1 and 512 * 65535, and its product fits 32 bits. |
| `AlacCoding.ParameterIs` | common/libraop/src/alac.c:358-361 | k is the number of bits of history / 512 + 3 after the first, but no more than the modifier. |
| `AlacCoding.RunParameterIs` | common/libraop/src/alac.c:389-389 | The parameter of a run, for each history from 1 to 127. |
| `AlacCoding.HistoryIsMean` | common/libraop/src/alac.c:375-380 | The history is a weighted mean of itself and of 512 times the value, rounded up; a value above 65535 sets it to 65535. |
| `AlacCoding.SignsAre` | common/libraop/src/alac.c:366-371 | The values 0, 1, 2, 3 are 0, -1, 1, -2. |
| `AlacRice.EntropyDecodeValue` | common/libraop/src/alac.c:295-337 | Reads one adaptive Rice code: prefix, escape, and suffix with its unread bit. |
| `AlacCoding.UnaryRead` | common/libraop/src/alac.c:301-335 | With parameter 1, up to eight ones and a zero are the number of the ones. |
| `AlacCoding.CodeRead` | common/libraop/src/alac.c:301-335 | With parameter k, the ones are worth 2^k - 1 each, masked, and k bits follow; from 2 on they add one less than they say, and below 2 they add nothing and the last of them is not used up. |
| `AlacCoding.ZeroRead` | common/libraop/src/alac.c:324-335 | k - 1 zeros after the prefix add nothing, whatever the next code begins with. |
| `AlacCoding.EscapeRead` | common/libraop/src/alac.c:308-319 | After nine ones the value stands as it is. |
| `AlacRice.EntropyRiceDecode` | common/libraop/src/alac.c:339-407 | The values and the bit position are those of the definition, over any bit stream. |
| `AlacCoding.ValueTurn` | common/libraop/src/alac.c:358-383 | A value, with 1 added after a run, gives a sample and the next history; the turn ends there unless the history is below 128 and the block goes on. |
| `AlacCoding.RunTurn` | common/libraop/src/alac.c:382-405 | Otherwise a run of zeros follows, of the length read; the history becomes 0 and the next value counts from 1. |
| `AlacCoding.FiveValues` | common/libraop/src/alac.c:339-407 | 18 bits and the five values they stand for, with the usual settings. |
| `AlacRice.WritesExactly` | common/libraop/src/alac.c:379-403 | Exactly outputSize values are written when every zero run read is shorter than what is left of the block, the guard that the memset lacks, and more otherwise. |
| `AlacRice.WritesPastTheEnd` | common/libraop/src/alac.c:379-403 | With every setting and every history below 128, a stream of one 0 bit and then ones makes the decoder write 65534 values past a block of two. |
| `AlacRice.RiceWritesAtMost` | common/libraop/src/alac.c:379-403 | Never more than 65534 values past the end of the block, which the stream above reaches. |
| `AlacRice.RiceLossless` | common/libraop/src/alac.c:339-407 | Residuals whose folded form fits the sample width are decoded to themselves from the bits of the mirrored encoder, and the next code starts where they end. |
| `AlacDecoder.ChannelLossless` | common/libraop/src/alac.c:975-994 | Both stages: every block that fits the width comes back from a compressed channel. |
| `AlacDecoder.DecodeChannel` | common/libraop/src/alac.c:975-994 | entropy_rice_decode and then the predictor, on arrays, give the channel's samples. |
| `Bplist.CountBackExactly` | common/libraop/src/bplist.cpp:88-98 | readCount undoes insertObject exactly for sizes below 65536; from there the writer announces more bytes than it writes. |
| `Bplist.Writer.InsertObject` | common/libraop/src/bplist.cpp:144-153 | Appends the head of an object: one byte below size 15, else the marker, the width and the size. |
| `Bplist.Writer.Add` | common/libraop/src/bplist.cpp:159-219 | Appends the dictionary, its indexes, keys and values, and puts the offset of every object into the place reserved for it. |
| `Bplist.Writer.ToData` | common/libraop/src/bplist.cpp:221-253 | Objects, the offset table of the width needed, and the trailer. |
| `BplistLayout.StringHead` | common/libraop/src/bplist.cpp:144-153 | The head of a string of up to 14 bytes is one byte, of up to 255 three, of up to 65535 four, and what they are. |
| `BplistLayout.SmallData` | common/libraop/src/bplist.cpp:159-253 | All the bytes of the property list of two entries: magic, objects, offsets and trailer. |
| `BplistLayout.LessIs` | common/libraop/src/bplist.cpp:82-84 | A key is before another when it is its beginning or when the first byte in which they differ is smaller. |
| `BplistLayout.InsertPresent` | common/libraop/src/bplist.cpp:82-82 | A key that is there already keeps its entry. |
| `Bplist.Reader.constructor` | common/libraop/src/bplist.cpp:55-86 | init: ends with the entries the parsing function gives. |
| `Bplist.Reader.ReadKeys` | common/libraop/src/bplist.cpp:82-82 | readKey and map insertion for each key. |
| `Bplist.Reader.ReadValues` | common/libraop/src/bplist.cpp:84-84 | readValue for each entry, in key order. |
| `Bplist.InitReads` | common/libraop/src/bplist.cpp:55-142 | Parsing one add gives the keys sorted and the values in the order written, for every offset width. |
| `Bplist.RoundTrip` | common/libraop/src/bplist.cpp:55-253 | With ascending keys, parsing toData() gives exactly the pairs written. |
| `Bplist.RoundTripExactly` | common/libraop/src/bplist.cpp:55-253 | With distinct keys and values the pairs come back exactly when the keys ascend. |
| `Bplist.WriteAndRead` | common/libraop/src/bplist.cpp:55-253 | One writer and then one reader: the entries read are the pairs written. |

## Left out

Protobuf

- PbRoundTrip.MessageRoundTrip: for encodings below 2^32 bytes, because lengths are decoded with 32 bits; a comment in pb.h (line 829) expects no message above 2 GB.
- PbGenerator.MessageBound: for messages whose bytes values are no longer than declared; `PbGenerator.BytesBound` says why. Symbolic sizes, which the C compiler adds up, are left out, and so are the other sums of `EncodedSize`.
- PbGenerator.ComputeMessageSize: numeric sizes only, without the symbols that `EncodedSize` may carry for messages of other files.
- PbGenerator.ComputeOneOfSize: likewise, without the `sizeof` of a union of symbolic sizes.
- PbTight.MessageTight: for required fields in their order of declaration; for other messages the parts are attained one by one.
- PbAccepted.MergesInTurn: without required fields and arrays of fixed count, which the end of each input asks for.
- PbDecode.DecodeInner: `fields_seen` is a set and not words of bits; the decoder looks fields up with a function that `PbLookup` connects to the iterator.
- PbDecode.SetToDefaults: the default of a field is a value in its descriptor and not the `default_value` stream that is decoded for it.
- PbLookup.FindField: tags are words on one side and numbers on the other; the lemma holds for any reading of words as numbers that tells them apart.
- The memory of a message is a sequence of slots with typed values: what lies in an array past its count, in the unused part of a buffer or in a member of a union not chosen is not modelled, nor is the layout of the structure.
- Callbacks, extensions as fields of a message, pointer fields and `malloc`, null-terminated and delimited input, floating point values, custom streams and error strings.
- `size_t` is unbounded where a C program could not hold the object.

AES and its modes

- The loops of `aes_gen_tables` over logarithms and powers: the tables are built with multiplication in the field, and the inverse is a table proved to be one. The tables of the FIXED_TABLES build are not compared.
- The RSA exchange of the packet key; only the symmetric part of the packets is modelled.

Streamer

- JitterModel.PlayedInOrder: for runs in which packets are within half the number range and fewer than BUFFER_FRAMES apart (`JitterModel.CanPut`), with no drift step that adds a frame, no RECORD on a buffer in use and no announced packet past the last one written; the source keeps no order otherwise.
- JitterDelivery.HeldIsPlayed: for runs in which packets are within reach in the same sense (`JitterModel.CanPut`).
- JitterBuffer.Streamer.PutPacket: the reset after an overrun and its skipped slots are outside `JitterModel.CanPut`.
- JitterBuffer.Streamer.Record: on an empty buffer only.
- JitterBuffer.Streamer.GetFrame: whether clocks are in step and whether it is too early are parameters; time stamps of requests for packets change but are not used in any result.
- StreamCache.HttpStream.Encoded: for blocks no longer than what fits before the block after next; `StreamCache.HeardExactly` says why. Sends take everything.
- StreamCache.HttpStream.EncodeAll: for blocks no longer than the interval, for the same reason.
- StreamCache.Run: likewise.
- StreamCache.HttpStream.AnswerGet: without a range, and from a stream that has not filled the cache; the source sends a range from a wrapped cache at the wrong place.
- Chunked framing, HTTP headers, the text of the metadata, and `http_count` being set to 0 by a first packet while the connection stays open.

Client

- RaopClient.Client.AcceptFrames: after a pause, for a pause that is found fewer than 512 packets back counting those to be sent again; `RaopClient.ApartExactly` says why.
- RaopClient.Client.Resume: under the same condition; the old slot is emptied before the new one is filled, which `RaopClient.StoresApart` shows to be the same under it.
- RaopResume.ResumeSends: from a backlog without empty slots among those to be sent again; `RaopClient.Client.Resume` covers the others.
- RaopClient.Client.SendChunk: for a payload that has been converted and encrypted; `AlacRaw` and `BlockModes` model that.
- RaopClient.Client.Retransmit: the loop over requested numbers, not the parsing of the request; as in the source it is not gated by the state, and numbers past 65535 match nothing.
- The RTSP exchange around a flush.

ALAC

- AlacDecoder.DecodeRawFrame: 16-bit stereo frames; 20, 24 and 32-bit samples and mono are left out.
- AlacDecoder.ChannelLossless: one channel of a compressed frame from its first code on; the header of a compressed frame, uncompressed low bytes and the weighted interlacing of two channels are left out. The source has no encoder, so the encoder of residuals and codes is a mirror image of the decoder, written for this proof.
- AlacFir.DecompressFirAdapt: between distinct arrays, as `decode_frame` calls it, and for blocks longer than the predictor's order; products wrap at 32 bits as in the source.
- AlacRice.EntropyRiceDecode: from a memory without end, so a truncated frame reads whatever lies behind it.

Property list

- Bplist.InitReads: for one add of at most 127 entries and sizes below 65536, the sizes that indexes of one byte and `readCount` allow.
- Bplist.Writer.Add: keys and strings are given with their lengths; the source takes them up to the first NUL byte, so theirs hold none.
- Bplist.Reader.constructor: for data that does not make the reader look outside its vectors or take a size of more than 128 bytes; elsewhere the source reads what lies there and the parsing function gives None.
- INTEGER values, which the reader takes from the wrong place.

Not modelled at all: configuration, logging, the web and RTSP servers, mDNS, pairing, the encoders behind `encoder.c`,
the cross-platform wrappers, and the rest of the generator.
