# nanopb's wire codec and Alamofire's multipart encoder

This project models two pieces of code the reservation app depends on and proves what they are for.

**nanopb** (`Reservation/Pods/nanopb`) prints and parses Protocol Buffers messages driven by tables of
field descriptors. The model follows the build the app uses: `PB_FIELD_32BIT` (so `pb_size_t` has 32 bits
and a bytes header takes 4), `PB_ENABLE_MALLOC`, 64-bit `size_t`, packed arrays written packed. It
implements the Protocol Buffers "Encoding" specification, sections "Base 128 Varints", "Signed Integers",
"Length-Delimited Records", "Packed Repeated Fields" and "Last One Wins".

**MultipartFormData** (`Reservation/Pods/Alamofire/Source`) writes `multipart/form-data` bodies, in one
piece or streamed; its framing is that of section 5.1.1 of RFC 2046.

## How the model is organised

- `Bits`, `Varint`, `Schema`, `Wrappers`: machine words written out as arithmetic, varints, descriptor
  tables. A program's message types are a sequence of tables; a table names a submessage type by position,
  so recursive types through pointers are expressible.
- `EncodeSpec`, `DecodeSpec`: what the encoder writes and what the decoder computes, as functions. A
  `Parse` is a value with the number of bytes taken, or an error.
- `Encoder`, `Input`, `FieldIterator`, `FieldsSeen`, `Allocation`, `Decoder`: the code as it runs, with
  stream objects over byte arrays, the cyclic field iterator, the two-word bitset, substreams, sizing
  passes, loops over growing blocks and a struct filled in place. Every method is proved against the
  specification functions. `DecodeSteps` unfolds those functions for it.
- `Ownership`, `FreshStructs`, `StrayPointers`, `OwnedDecoder`: the decoder and `pb_release` once more, over
  storage made of heap blocks, null pointers and pointers nobody has set, with an allocator that may refuse
  any request and may move any block. It is proved to keep exact ownership and, unless a request is refused,
  to compute the same specification; and it is shown which tables keep it from freeing a pointer nobody set.
- `Messages`: the messages the format can carry (`Good`), what a round trip gives back (`Norm`) and what it
  should (`Ideal`).
- `Placement`: the same message with its numbers at other addresses.
- `WireNumbers`, `WireFormat`: what the bytes of numbers, words, payloads and whole messages are, in the
  numbers of the Encoding specification and without reference to the codec.
- `Scalars`, `Prefix`, `ImplicitPresence`, `RoundTrip`, `Reencoding`, `Merge`, `RequiredFields`, `Absence`,
  `Repeats`, `FixedRuns`, `FixedQueues`, `Framing`: theorems about the specification.
- `Exchange`: sizing, encoding and decoding one after the other, as the code runs.
- `Multipart`, `MultipartFraming`: form, part and stream objects of the multipart encoder, and a receiver
  for what they write.

Termination is proved throughout: every turn of a decoding loop uses up bytes, and every nested decode runs
on strictly fewer bytes than its parent, also for tables that refer to themselves.

## Where the code does less than one might expect

- A member with implicit presence that holds zero is not written. If its default is not zero it comes back
  as the default (`RoundTrip.ForgottenZero`).
- A submessage with implicit presence is not written when all its members pass for default. For a pointer to
  a number `pb_encode.c:311-336` compares only as many bytes of the pointer as the number has, so a `true`
  at an address whose low byte is zero is lost with its submessage (`RoundTrip.DroppedBool`). The message
  therefore holds the addresses of such numbers, lowest byte first. `RoundTrip.MessageRoundTrip` says that a
  message comes back as itself if and only if neither of the two has happened in it, at any depth, and
  `RoundTrip.PlainRoundTrip` names the tables for which neither can. Since the allocator chooses the
  addresses, a decoded message may be lost when it is sent on (`Reencoding.LostOnTheWay`);
  `Reencoding.DecodedRoundTrip` covers every choice.
- Decoding two inputs one after the other and decoding their concatenation differ when the second input
  starts the same fixed-count array the first one was filling last (`Merge.TwiceTheSame`);
  `Merge.ConcatIsMerge` is an equivalence, and its condition can be read off the two inputs.
- A null pointer to bytes or a string in a place that is written comes back as an empty value.
- Defaulting leaves the elements of static arrays alone, as `pb_decode.c:865-872` says, and `pb_decode.c:460`
  counts an element before it is set. If its length turns out to be wrong, the release after the failure
  frees whatever pointers lay there (`OwnedDecoder.FreeStray` runs into one). `StrayPointers.TrapsExactly`
  says for which tables this can happen: those with a static array of submessages with pointers, in place
  and outside unions. For all others, and for all memory without such pointers, `OwnedDecoder.DecodeMessage`
  promises that it does not.
- An element of a fixed-count array of submessages is set to its defaults before it is decoded, and nothing
  it held is released (`pb_decode.c:1533-1534`). When the array is delivered again, with another fixed-count
  field in between, the blocks behind its pointers are lost (`FixedQueues.StringLost`).
  `FixedQueues.LostElements` says exactly when, and `FixedQueues.OneRunLosesNothing` what a sender has to
  avoid.
- A which_ member that names a field outside its union makes the decoder release that field
  (`pb_decode.c:1144-1149`); `DecodeSpec.Cleared` and `Decoder.ReleaseUnion` do the same.
- A multipart body that begins with two dashes and the boundary is taken for a delimiter although no
  delimiter occurs in it (`MultipartFraming.BodyOpensWithBoundary`).
- The streamed multipart encoder drops the rest of a chunk when the output stream reports no space, reports
  success, and may go on with later chunks. What has been written is the whole form if and only if the stream
  has never reported no space while bytes were left (`Multipart.MultipartFormData.WriteEncodedData`).
- Encoding a form a second time writes parts with empty bodies: their streams have been read
  (`Multipart.MultipartFormData.Encode` states the state it leaves).
- A static array that overflows keeps a count one above its size on the failing path, as in
  `pb_decode.c:460`; `OwnedDecoder.DecodeStaticItem` says so.
- In an empty table tag 0 counts as found (`pb_common.c:83`); `FieldIterator.FieldIter.Find` and the
  decoders follow the code.

## Model

| member | source | states |
|---|---|---|
| Varint.EncSizes | Reservation/Pods/nanopb/pb_encode.c:608-628 | a 64-bit value takes at most the 10 bytes of the writer's buffer, a 32-bit one at most 5 |
| Varint.EncMinimal | Reservation/Pods/nanopb/pb_encode.c:608-628 | no byte string the 64-bit reader accepts for a value is shorter than the one written |
| Varint.RoundTrip64 | Reservation/Pods/nanopb/pb_encode.c:608-628 | for every 64-bit value, reading back what was written gives the value and leaves any suffix |
| Varint.RoundTrip32 | Reservation/Pods/nanopb/pb_decode.c:187-253 | the same for the 32-bit reader and every 32-bit value |
| Varint.ShortVarint32 | Reservation/Pods/nanopb/pb_decode.c:187-247 | on varints of at most five bytes the 32-bit reader succeeds exactly when the value is below 2^32, and yields it |
| Varint.ReadersAgree | Reservation/Pods/nanopb/pb_decode.c:187-275 | when both readers accept the same bytes they take equally many and the 32-bit result is the other modulo 2^32 |
| Varint.NegativeInt32 | Reservation/Pods/nanopb/pb_decode.c:205-231 | the ten-byte form of every negative int32 is accepted as its 32-bit two's complement, whatever follows |
| Varint.Local32 | Reservation/Pods/nanopb/pb_decode.c:187-253 | an accepted varint reads the same whatever follows it |
| WireNumbers.VarintBytes | Reservation/Pods/nanopb/pb_encode.c:608-628 | byte i of a varint carries bits 7i to 7i+6 of the value, and its top bit says whether another byte follows |
| WireNumbers.GroupBits | Reservation/Pods/nanopb/pb_decode.c:255-275 | bits 7i to 7i+6 of what any byte string stands for are the low bits of its byte i |
| WireNumbers.LongReader | Reservation/Pods/nanopb/pb_decode.c:255-275 | the 64-bit reader takes up to ten bytes, the last being the first below 128, and what they stand for modulo 2^64 |
| WireNumbers.LongForm32 | Reservation/Pods/nanopb/pb_decode.c:205-240 | a varint of six to 36 bytes is accepted by the 32-bit reader exactly when each byte from the sixth on is zero in its low bits or the sign of a negative number, and stands for its first five bytes modulo 2^32 |
| WireNumbers.WordBytes | Reservation/Pods/nanopb/pb_encode.c:641-667 | byte i of a written word is bits 8i to 8i+7 of the value |
| WireNumbers.BytesOfWord | Reservation/Pods/nanopb/pb_decode.c:1293-1326 | and the word read has byte i in these bits |
| WireNumbers.ZigZagCounts | Reservation/Pods/nanopb/pb_encode.c:630-639 | zigzag counts 0, -1, 1, -2, 2 and so on |
| WireNumbers.NumberMeans | Reservation/Pods/nanopb/pb_decode.c:1339-1422 | a varint field accepts exactly the varints that mean a number of its member: plain signed fields look at the low 32 bits, or 64 if they have as many, as two's complement; unsigned and zigzag fields at the whole number |
| WireNumbers.FiveByteNegative | Reservation/Pods/nanopb/pb_decode.c:1347-1356 | the five-byte form of a negative int32 is read as that number by every narrow signed field that can hold it |
| WireNumbers.NumberWritten | Reservation/Pods/nanopb/pb_encode.c:776-833 | a number is written so that a 64-bit field of its type reads it, whatever the width it was written from |
| WireNumbers.OddWidth | Reservation/Pods/nanopb/pb_encode.c:776-833 | integers that are not 1, 2, 4 or 8 bytes wide are neither written nor read |
| WireNumbers.BoolMeans | Reservation/Pods/nanopb/pb_decode.c:1328-1337 | every number but zero is true |
| WireNumbers.PayloadMeans | Reservation/Pods/nanopb/pb_decode.c:1441-1564 | a length-prefixed payload is accepted exactly when the member has room, four bytes for a count and one for a terminator included, and an empty one stands for zeros in fixed-length bytes |
| WireNumbers.PayloadWritten | Reservation/Pods/nanopb/pb_encode.c:852-913 | bytes and strings are written behind their length, and only bytes and fixed lengths that do not fit are refused |
| WireNumbers.StringEnds | Reservation/Pods/nanopb/pb_encode.c:875-899 | the length of a string is up to the first zero byte, the bound or the end |
| Scalars.UnZigZagZigZag | Reservation/Pods/nanopb/pb_encode.c:630-639 | zigzag is undone, and maps exactly the int64 range into 64 bits |
| Scalars.ZigZagUnZigZag | Reservation/Pods/nanopb/pb_decode.c:1279-1291 | every unsigned number is the zigzag of the number it decodes to |
| Scalars.WireIntegerInverse | Reservation/Pods/nanopb/pb_encode.c:776-833 | for widths 1, 2, 4 and 8 the number written for a value of that width denotes the value again, signed, unsigned and zigzag |
| Scalars.NumberRoundTrip | Reservation/Pods/nanopb/pb_decode.c:1339-1422 | the varint, uvarint and svarint field encoders and decoders invert each other on every value of the member's width |
| Scalars.BlobRoundTrip | Reservation/Pods/nanopb/pb_encode.c:852-913 | bytes, strings and fixed-length bytes that fit their member come back, leaving any suffix |
| Scalars.BasicRoundTrip | Reservation/Pods/nanopb/pb_decode.c:1328-1564 | every scalar, bytes or string value its member can hold is written and read back |
| Schema.FindUnique | Reservation/Pods/nanopb/pb_common.c:78-95 | with distinct tags, searching for a field's tag gives that field |
| FieldIterator.OffsetIdentifiesSlot | Reservation/Pods/nanopb/pb_common.c:44-75 | two fields have the same address exactly when they are members of one union |
| FieldIterator.OffsetIsLayout | Reservation/Pods/nanopb/pb_common.c:40-75 | the running sum is the offset of the member in a struct laid out by extents: eight bytes for a pointer, all elements of a static array, one value otherwise, and one place for a union |
| FieldIterator.PointeeSizes | Reservation/Pods/nanopb/pb_common.c:58-63 | tables that differ only in the sizes of what pointers point to have the same offsets |
| FieldIterator.SizeIsLayout | Reservation/Pods/nanopb/pb_common.c:72-73 | the address of a flag, count or which_ member is that of the struct member the table records |
| FieldIterator.FieldIter.Begin | Reservation/Pods/nanopb/pb_common.c:8-18 | stands on the first field with data and size addresses of that field; false exactly for empty tables |
| FieldIterator.FieldIter.Next | Reservation/Pods/nanopb/pb_common.c:20-76 | moves to the next field, wrapping after the last; address and required-field index are those of the closed form |
| FieldIterator.FieldIter.Find | Reservation/Pods/nanopb/pb_common.c:78-95 | ends within one lap, succeeds exactly when a field has the tag, and is back at its starting field when it fails |
| RoundTrip.MessageRoundTrip | Reservation/Pods/nanopb/pb_encode.c:240-426 | for every table and every message that fits it (static and dynamic storage, unions, fixed-count and packed arrays, nested and recursive types) encoding succeeds and decoding the output takes all of it; the result is the message itself, absent flagged fields at their defaults, if and only if no implicit member at any depth is a forgotten zero or a submessage dropped for the address of a number |
| RoundTrip.FieldsRoundTrip | Reservation/Pods/nanopb/pb_decode.c:946-1024 | the main loop over the encoding of the remaining fields fills exactly their members and marks their required bits, with the same condition for giving the message itself |
| RoundTrip.PlainRoundTrip | Reservation/Pods/nanopb/pb_encode.c:240-426 | nothing is ever lost with tables whose implicit members have no default but zero and whose implicit submessages have no optional pointer to a number of less than eight bytes |
| RoundTrip.ForgottenZero | Reservation/Pods/nanopb/pb_decode.c:882-893 | a concrete table where 0 is not written and comes back as 5 |
| RoundTrip.DroppedBool | Reservation/Pods/nanopb/pb_encode.c:311-336 | a concrete message holding a true behind a pointer of which nothing is written, and the pointer comes back null |
| RoundTrip.ItemsRoundTrip | Reservation/Pods/nanopb/pb_encode.c:151-197 | a packed payload comes back item by item |
| WireFormat.EncodedRecords | Reservation/Pods/nanopb/pb_encode.c:341-426 | to any reader of the format what pb_encode writes is the records of the fields that are present, in the order of the table, with wire type 0 for integers and bools, 1 and 5 for words of eight and four bytes, and 2 for everything with a length |
| WireFormat.RecordSkipped | Reservation/Pods/nanopb/pb_encode.c:675-707 | every record written is skipped whole by a decoder without its tag |
| WireFormat.MessageSkipped | Reservation/Pods/nanopb/pb_decode.c:960-989 | a whole message is passed over by a decoder whose table has none of its tags |
| ImplicitPresence.ImplicitKept | Reservation/Pods/nanopb/pb_encode.c:240-340 | an implicit member comes back as it was if and only if it is neither a zero whose default is not zero nor a submessage in which all members pass for default although it has a number behind a pointer |
| ImplicitPresence.OmittedSubmessage | Reservation/Pods/nanopb/pb_encode.c:281-336 | a submessage left out for being default is the one decoding nothing gives if and only if it has no number behind a pointer |
| ImplicitPresence.DefaultIsUnwritten | Reservation/Pods/nanopb/pb_encode.c:240-340 | a member passes for default exactly when nothing would be written for it, a union exactly when it has no member, and a number behind a pointer exactly when its address is a multiple of 256 to the size of the number |
| ImplicitPresence.EmptyTextUnwritten | Reservation/Pods/nanopb/pb_encode.c:240-280 | bytes and strings in place are left out exactly when an empty payload would be written |
| ImplicitPresence.LeftOutExactly | Reservation/Pods/nanopb/pb_encode.c:281-336 | a submessage with implicit presence is left out exactly when that holds of all its members |
| ImplicitPresence.NormIsIdeal | Reservation/Pods/nanopb/pb_encode.c:240-340 | what a round trip gives is the message itself if and only if no member at any depth is forgotten or dropped |
| Reencoding.DecodedGood | Reservation/Pods/nanopb/pb_decode.c:928-1076 | a message the decoder produced is one the encoder is meant for if and only if its strings hold no NUL, its nested and packed encodings fit a 32-bit length, and no required pointer or element was left unset |
| Reencoding.MessageDecoded | Reservation/Pods/nanopb/pb_decode.c:928-1076 | decoding over decoded contents leaves decoded contents: numbers in range, payloads within their members, counts within arrays, which_ naming a member of its union |
| Reencoding.DecodedRoundTrip | Reservation/Pods/nanopb/pb_decode.c:1078-1090 | whatever was accepted, if so, can be encoded again, at whatever addresses its numbers lie, and decoding that gives the same message if and only if nothing in it, at these addresses, is forgotten or dropped |
| Reencoding.DecodedPlainRoundTrip | Reservation/Pods/nanopb/pb_decode.c:1078-1090 | with tables for which nothing is ever lost, the same message in any case |
| Reencoding.LostOnTheWay | Reservation/Pods/nanopb/pb_encode.c:311-336 | four bytes that are decoded to a true behind a pointer; at an address with a zero low byte the message is encoded as nothing |
| Placement.GoodStays | Reservation/Pods/nanopb/pb_encode.c:240-426 | moving numbers to other addresses keeps a message within what the format can carry |
| Placement.MessageShrinks | Reservation/Pods/nanopb/pb_encode.c:240-426 | its encoding can only become shorter by it, where a submessage is dropped |
| Exchange.Transmit | Reservation/Pods/nanopb/pb_encode.c:528-576 | pb_get_encoded_size announces what pb_encode writes into any buffer with room for it, no other byte changes, and pb_decode of those bytes gives the message back |
| Prefix.CutFields | Reservation/Pods/nanopb/pb_decode.c:946-1024 | the main loop on a fully consumed prefix and then on what follows is the main loop on both |
| Prefix.LocalField | Reservation/Pods/nanopb/pb_decode.c:734-760 | what an accepted field decodes to does not depend on the bytes after it |
| Merge.ConcatIsMerge | Reservation/Pods/nanopb/pb_decode.c:928-1076 | if b1 and then b2 are accepted, b1+b2 is accepted with the same struct if and only if the last fixed-count tag in b1 and the first one in b2 are not of the same field |
| Merge.TwiceTheSame | Reservation/Pods/nanopb/pb_decode.c:991-1009 | a concrete table and a message that can be decoded twice in a row but not when repeated in one input |
| Merge.ConcatWithoutFixed | Reservation/Pods/nanopb/pb_decode.c:928-1076 | without fixed-count fields concatenation is always merging |
| Absence.AbsentKeeps | Reservation/Pods/nanopb/pb_decode.c:946-1024 | a member none of whose fields is in the input keeps what it held |
| Absence.AbsentIsDefault | Reservation/Pods/nanopb/pb_decode.c:839-922 | decoded from defaults it holds them: no flag, no count, no union member, null pointers, and the value in the table or zero |
| Repeats.LastOneWins | Reservation/Pods/nanopb/pb_decode.c:406-483 | of two occurrences of a value or of a submessage behind a pointer the first leaves no trace |
| Repeats.SubmessagesMerge | Reservation/Pods/nanopb/pb_decode.c:1519-1541 | two occurrences of a submessage in place are one with both payloads |
| Repeats.UnionSubmessagesMerge | Reservation/Pods/nanopb/pb_decode.c:466-483 | the same for the selected member of a union |
| Repeats.UnionTakesOver | Reservation/Pods/nanopb/pb_decode.c:466-483 | a member of a union that takes over from another is decoded from its defaults, as is a second occurrence behind a pointer |
| Repeats.UnknownWhich | Reservation/Pods/nanopb/pb_decode.c:1131-1162 | a which_ member that names no field makes the occurrence fail |
| Repeats.StrayWhich | Reservation/Pods/nanopb/pb_decode.c:1164-1253 | one that names a field outside the union has that field released: null pointers, empty dynamic arrays, and nothing else changed |
| Repeats.StrayWhichUnion | Reservation/Pods/nanopb/pb_decode.c:1131-1162 | one that names a field of another union has that field released if it is the selected one, and leaves the union alone otherwise |
| Repeats.ReleasedMember | Reservation/Pods/nanopb/pb_decode.c:1164-1253 | releasing a struct changes pointers only: flags, counts, which_ members and scalars stay |
| Repeats.ReleasedHollow | Reservation/Pods/nanopb/pb_decode.c:1164-1270 | and leaves no pointer, however deep it lies |
| Repeats.ArrayGrows | Reservation/Pods/nanopb/pb_decode.c:415-464 | an occurrence of a counted array adds its items behind those that are there, if there is room for all of them, and otherwise fails |
| Repeats.PackedOrNot | Reservation/Pods/nanopb/pb_decode.c:415-464 | numbers in records of their own give the same array as the packed payload |
| Repeats.WireTypeIgnored | Reservation/Pods/nanopb/pb_decode.c:406-483 | only arrays of numbers look at the wire type of their tag |
| Repeats.SkipByNumber | Reservation/Pods/nanopb/pb_decode.c:321-331 | what a payload of wire types 0, 1, 2 and 5 takes up, and that no other can be skipped |
| Repeats.NumberZero | Reservation/Pods/nanopb/pb_decode.c:298-319 | only a zero tag ends a message, not a field number zero |
| Repeats.NumberZeroEmpty | Reservation/Pods/nanopb/pb_decode.c:946-1024 | in a table without fields it is read as a bool |
| Repeats.Refused | Reservation/Pods/nanopb/pb_encode.c:149-162 | more elements than a static array has and null required members are refused |
| Framing.UnknownFieldsAreTransparent | Reservation/Pods/nanopb/pb_decode.c:960-989 | unknown fields inserted at field boundaries change neither success nor the struct |
| Framing.EncodedUnknown | Reservation/Pods/nanopb/pb_decode.c:278-331 | any tag outside the table with a payload of wire type 0, 1, 2 or 5 is such an unknown field |
| Framing.DelimitedRoundTrip | Reservation/Pods/nanopb/pb_encode.c:552-555 | a length-delimited message comes back and leaves any suffix, itself if and only if nothing is forgotten or dropped |
| Framing.DelimitedTakesAll | Reservation/Pods/nanopb/pb_decode.c:1107-1120 | a delimited message is decoded from its own bytes and all of them are taken, also when it ends early |
| Framing.SequenceRoundTrip | Reservation/Pods/nanopb/pb_decode.c:1107-1120 | any number of delimited messages come back one by one, ending right behind the last, all of them themselves if and only if nothing is forgotten or dropped in any |
| Framing.TerminatedRoundTrip | Reservation/Pods/nanopb/pb_encode.c:557-565 | a zero-terminated message comes back whatever follows and leaves exactly what follows, with the same condition |
| FixedRuns.FixedCountDiscipline | Reservation/Pods/nanopb/pb_decode.c:991-1031 | in every accepted message each maximal run of one fixed-count field, packed or not, delivers exactly the array's size |
| FixedQueues.ArrayIsQueue | Reservation/Pods/nanopb/pb_decode.c:991-1031 | a fixed-count array is a queue: the elements an accepted message overwrites, followed by those the array holds in the end, are those it held at the beginning, followed by those delivered |
| FixedQueues.LostElements | Reservation/Pods/nanopb/pb_decode.c:1531-1536 | decoding overwrites no element that holds a block if and only if none does that is delivered before the last ones, as many as fit the array |
| FixedQueues.OneRunLosesNothing | Reservation/Pods/nanopb/pb_decode.c:994-1013 | an array whose tags form a single run among those of fixed-count fields loses nothing |
| FixedQueues.StringLost | Reservation/Pods/nanopb/pb_decode.c:1533-1534 | nine bytes and a table for which a string is allocated and lost |
| Encoder.OStream.BufWrite | Reservation/Pods/nanopb/pb_encode.c:74-84 | copies the bytes to where the stream stands and moves it on |
| Encoder.OStream.Write | Reservation/Pods/nanopb/pb_encode.c:103-124 | succeeds exactly when the bytes fit, then writes exactly those and nothing else; a sizing stream only counts |
| Encoder.EncodeVarint | Reservation/Pods/nanopb/pb_encode.c:608-628 | the shift loop fills its 10-byte buffer with the specified bytes, within bounds |
| Encoder.EncodeSvarint | Reservation/Pods/nanopb/pb_encode.c:630-639 | writes the varint of the zigzag |
| Encoder.EncodeFixed32 | Reservation/Pods/nanopb/pb_encode.c:641-651 | writes four bytes, least significant first |
| Encoder.EncodeFixed64 | Reservation/Pods/nanopb/pb_encode.c:653-667 | writes eight bytes, least significant first |
| Encoder.EncodeTag | Reservation/Pods/nanopb/pb_encode.c:669-673 | writes the varint of field number and wire type |
| Encoder.EncodeString | Reservation/Pods/nanopb/pb_encode.c:709-715 | writes length and bytes |
| Encoder.MeasureString | Reservation/Pods/nanopb/pb_encode.c:875-899 | the loop stops at the terminator or at the member's size |
| Encoder.EncodeBlob | Reservation/Pods/nanopb/pb_encode.c:852-899 | writes bytes and strings, refusing bytes longer than their member |
| Encoder.EncodeNumber | Reservation/Pods/nanopb/pb_encode.c:769-850 | writes a number of any width as specified |
| Encoder.EncodePacked | Reservation/Pods/nanopb/pb_encode.c:164-204 | writes tag, payload length and payload; the measured length is that of the payload |
| Encoder.PackedSize | Reservation/Pods/nanopb/pb_encode.c:170-191 | computed or measured, the size is the length of what will be written |
| Encoder.EncodeArray | Reservation/Pods/nanopb/pb_encode.c:149-234 | packed or one record per element, refusing counts beyond a static array |
| Encoder.EncodeSubmessage | Reservation/Pods/nanopb/pb_encode.c:717-765 | writes length and body; "submsg size changed" cannot happen |
| Encoder.CheckDefault | Reservation/Pods/nanopb/pb_encode.c:240-340 | the walk over members and bytes answers whether the member passes for default |
| Encoder.EncodeSlot | Reservation/Pods/nanopb/pb_encode.c:341-426 | writes a member exactly when it is present |
| Encoder.Encode | Reservation/Pods/nanopb/pb_encode.c:528-550 | succeeds exactly when the message has an encoding that fits, writes exactly it and leaves the rest of the buffer alone |
| Encoder.GetEncodedSize | Reservation/Pods/nanopb/pb_encode.c:567-576 | the length of what pb_encode writes |
| Encoder.EncodeNullTerminated | Reservation/Pods/nanopb/pb_encode.c:557-565 | writes the message and a zero byte |
| Encoder.SizingPredictsWriting | Reservation/Pods/nanopb/pb_encode.c:103-124 | writing succeeds exactly when sizing does and the size fits; it writes that many bytes and touches no other |
| Input.IStream.Read | Reservation/Pods/nanopb/pb_decode.c:102-139 | yields the next bytes or fails within the stream's bounds |
| Input.IStream.SkipBytes | Reservation/Pods/nanopb/pb_decode.c:102-121 | the 16-byte loop is one skip |
| Input.DecodeVarint32 | Reservation/Pods/nanopb/pb_decode.c:187-253 | the shift loop with its 8-bit counter computes the specified reader |
| Input.DecodeVarint | Reservation/Pods/nanopb/pb_decode.c:255-275 | the 64-bit loop computes the specified reader |
| Input.DecodeTag | Reservation/Pods/nanopb/pb_decode.c:298-319 | splits a tag; end of message for a zero tag |
| Input.SkipField | Reservation/Pods/nanopb/pb_decode.c:321-331 | skips a payload of any wire type or fails as specified |
| Input.MakeSubstream | Reservation/Pods/nanopb/pb_decode.c:372-385 | the substream stands before exactly the announced bytes and the parent no longer counts them |
| Input.CloseSubstream | Reservation/Pods/nanopb/pb_decode.c:387-400 | the parent goes on where the substream ends |
| Input.SubstreamConservation | Reservation/Pods/nanopb/pb_decode.c:372-400 | however much the inner reader took, the parent is behind the substream with position plus bytes left unchanged |
| Allocation.AllocateField | Reservation/Pods/nanopb/pb_decode.c:490-533 | refuses zero sizes and exactly the products that exceed SIZE_MAX |
| Allocation.DivisionTest | Reservation/Pods/nanopb/pb_decode.c:509-521 | the division test is the overflow test |
| Allocation.Grow | Reservation/Pods/nanopb/pb_decode.c:621-641 | makes room for the next item, keeps the others, and stays within pb_size_t; the room is for as many items as the bytes left make up, rounded up, or for one |
| FieldsSeen.MarkSeen | Reservation/Pods/nanopb/pb_decode.c:1015-1020 | ORing the bit in adds the index to the set the words stand for and nothing else |
| FieldsSeen.WordFull | Reservation/Pods/nanopb/pb_decode.c:1063-1071 | the partial mask compares equal exactly when the low bits are all set |
| FieldsSeen.CountRequired | Reservation/Pods/nanopb/pb_decode.c:1038-1052 | from any position, the count is the number of required fields |
| FieldsSeen.CheckRequired | Reservation/Pods/nanopb/pb_decode.c:1033-1073 | accepts exactly when each of the first 64 required fields has occurred |
| RequiredFields.RequiredPresent | Reservation/Pods/nanopb/pb_decode.c:1033-1073 | once the loop has succeeded and fixed-count arrays are full, the message is accepted if and only if each of the first 64 REQUIRED fields has its tag among the records of the input |
| Decoder.DecodeNumber | Reservation/Pods/nanopb/pb_decode.c:1339-1422 | rejects exactly the values that do not survive the member's width |
| Decoder.DecodeBlob | Reservation/Pods/nanopb/pb_decode.c:1441-1564 | accepts exactly the payloads that fit, with 32-bit wrap-around of a string's size |
| Decoder.PackedStatic | Reservation/Pods/nanopb/pb_decode.c:424-451 | the items of the payload, if they use it up within the array |
| Decoder.PackedPointer | Reservation/Pods/nanopb/pb_decode.c:603-655 | the old items followed by those of the payload, every write inside the block |
| Decoder.MessageDefaults | Reservation/Pods/nanopb/pb_decode.c:839-922 | the walk over the table sets the specified defaults, nested messages included |
| Decoder.ReleaseUnion | Reservation/Pods/nanopb/pb_decode.c:1131-1162 | succeeds exactly when the field that which_ names is in the table; a field outside the union has been released, and the iterator is back at the new member |
| Decoder.ReleaseField | Reservation/Pods/nanopb/pb_decode.c:1164-1253 | releases the field the iterator stands at, but not the members of another union that are not selected |
| Decoder.DecodeField | Reservation/Pods/nanopb/pb_decode.c:734-760 | one occurrence changes the struct and the fixed-count counter as specified |
| Decoder.DecodeKnown | Reservation/Pods/nanopb/pb_decode.c:991-1023 | fixed-count tracking with the redirected size address and the required bit |
| Decoder.DecodeNoinit | Reservation/Pods/nanopb/pb_decode.c:928-1076 | computes the specified struct or fails, and stays within its bytes |
| Decoder.DecodeMessage | Reservation/Pods/nanopb/pb_decode.c:1078-1090 | the same from defaults |
| Decoder.DecodeSubmessage | Reservation/Pods/nanopb/pb_decode.c:1519-1541 | a nested message is decoded inside its declared length |
| Decoder.DecodeDelimited | Reservation/Pods/nanopb/pb_decode.c:1107-1120 | a delimited message is decoded and the stream stands right behind it |
| Ownership.OneOwner | Reservation/Pods/nanopb/pb_decode.c:490-533 | while the invariant holds, a block is live exactly when one reachable pointer owns it |
| Ownership.OwnedIsThere | Reservation/Pods/nanopb/pb_decode.c:1164-1253 | what storage owns is what it holds a pointer to, whatever its flags, counts and which_ members say |
| Ownership.Heap.Realloc | Reservation/Pods/nanopb/pb_decode.c:523-532 | on failure nothing changes; on success the pointer owns one block, moved or not |
| Ownership.Heap.Free | Reservation/Pods/nanopb/pb_decode.c:1244-1251 | only a live block can be freed, and then it is not live |
| Ownership.ReleaseField | Reservation/Pods/nanopb/pb_decode.c:1164-1253 | afterwards the member owns nothing, each block it owned has been freed once, and a pointer nobody set has been freed if and only if one was within reach |
| Ownership.ReleaseStruct | Reservation/Pods/nanopb/pb_decode.c:1255-1270 | leaves none of the struct's blocks live; frees a pointer nobody set if and only if one is within reach; changes nothing when there is nothing to free |
| OwnedDecoder.DecodeMessage | Reservation/Pods/nanopb/pb_decode.c:1078-1090 | from any block-free memory: a failure leaves no block, success leaves exactly those the struct owns, and unless an allocation is refused the result and the bytes taken are the specified ones; no pointer nobody set is freed for tables without static arrays of submessages with pointers or memory without such pointers, and one is freed on the inputs called trapped |
| OwnedDecoder.DecodeNoinit | Reservation/Pods/nanopb/pb_decode.c:928-1076 | every live block is owned once after every field, whether decoding succeeds or not; the message and the bytes taken are those of the specified merge |
| OwnedDecoder.DecodeField | Reservation/Pods/nanopb/pb_decode.c:734-760 | the same for one occurrence |
| OwnedDecoder.ReleaseUnion | Reservation/Pods/nanopb/pb_decode.c:1131-1162 | what the old member owned is released before another takes its place |
| OwnedDecoder.DecodeStatic | Reservation/Pods/nanopb/pb_decode.c:406-483 | the same for storage in place, including submessages in unions |
| OwnedDecoder.DecodeStaticItem | Reservation/Pods/nanopb/pb_decode.c:453-464 | the next element is filled and counted; one element too many is counted and fails |
| OwnedDecoder.DecodeTarget | Reservation/Pods/nanopb/pb_decode.c:564-601 | a second occurrence of a submessage releases the first |
| OwnedDecoder.DecodeItem | Reservation/Pods/nanopb/pb_decode.c:657-671 | a half-decoded element is owned by the array |
| OwnedDecoder.DecodePacked | Reservation/Pods/nanopb/pb_decode.c:603-655 | a failing payload keeps the elements before the failure, and the capacity stays within pb_size_t |
| OwnedDecoder.DecodeText | Reservation/Pods/nanopb/pb_decode.c:1441-1517 | the pointer owns one block holding the payload |
| OwnedDecoder.FreeStray | Reservation/Pods/nanopb/pb_decode.c:1519-1541 | two bytes decoded into memory nobody has cleared, after which a pointer nobody has set has been freed |
| FreshStructs.BlankFresh | Reservation/Pods/nanopb/pb_decode.c:536-550 | cleared storage set to defaults is a struct of its table and owns nothing; without fixed-count arrays it holds the default message |
| FreshStructs.ResetFresh | Reservation/Pods/nanopb/pb_decode.c:839-922 | any block-free memory set to defaults is a block-free struct; without fixed-count arrays, which keep what they held, it is the default message and no pointer nobody set is within reach of pb_release |
| StrayPointers.DefaultsTidy | Reservation/Pods/nanopb/pb_decode.c:860-893 | for tables without static arrays of submessages with pointers, defaulting leaves no pointer unset anywhere, whatever the memory held |
| StrayPointers.WildIfUntidy | Reservation/Pods/nanopb/pb_decode.c:1164-1253 | where no static array holds more than its count says, pb_release reaches every pointer nobody set |
| StrayPointers.TrapsExactly | Reservation/Pods/nanopb/pb_decode.c:453-464 | the other tables are exactly those with memory and an input whose first field fails before an element of a static array has been set, leaving a pointer nobody set within reach |
| StrayPointers.SampleTrapped | Reservation/Pods/nanopb/pb_decode.c:1525-1534 | the smallest such table, memory and input: one counted element, announced with 127 bytes of which none follows |
| Multipart.EncodeHeaders | Reservation/Pods/Alamofire/Source/MultipartFormData.swift:421-430 | the loop over the headers writes one line each and an empty one |
| Multipart.InputStream.Read | Reservation/Pods/Alamofire/Source/MultipartFormData.swift:439-441 | some of the bytes left, at least one while there are any |
| Multipart.OutputStream.Write | Reservation/Pods/Alamofire/Source/MultipartFormData.swift:519-523 | accepts a nonempty beginning of the buffer |
| Multipart.WriteBuffer | Reservation/Pods/Alamofire/Source/MultipartFormData.swift:517-533 | however the writes are cut, a beginning of the buffer is written in order, and all of it if and only if no space was never reported; it fails only on a stream error |
| Multipart.WriteRefused | Reservation/Pods/Alamofire/Source/MultipartFormData.swift:520-532 | a stream that reports no space once: all bytes are lost and success is reported |
| Multipart.BodyPart.EncodeBodyStream | Reservation/Pods/Alamofire/Source/MultipartFormData.swift:432-455 | however the reads are cut, the result is the whole body; it fails only on a stream error |
| Multipart.BodyPart.Encode | Reservation/Pods/Alamofire/Source/MultipartFormData.swift:402-419 | boundary, header block, body, and the final boundary of the last part |
| Multipart.BodyPart.WriteBodyStream | Reservation/Pods/Alamofire/Source/MultipartFormData.swift:476-500 | for any reads and writes the body is written whole if and only if no space was never reported |
| Multipart.BodyPart.WritePart | Reservation/Pods/Alamofire/Source/MultipartFormData.swift:459-506 | the same bytes as encoding the part in memory if and only if no space was never reported |
| Multipart.MultipartFormData.MarkParts | Reservation/Pods/Alamofire/Source/MultipartFormData.swift:355-356 | the first part gets the initial and the last the final boundary, also when they are one |
| Multipart.MultipartFormData.Encode | Reservation/Pods/Alamofire/Source/MultipartFormData.swift:348-364 | the concatenation of the framed parts; the bodies have been read; it fails only on a stored error or a stream error |
| Multipart.MultipartFormData.WriteEncodedData | Reservation/Pods/Alamofire/Source/MultipartFormData.swift:374-398 | for every schedule of partial reads and writes the same bytes as encoding an equal form in memory if and only if no space was never reported, and no failures but stored and stream errors |
| MultipartFraming.FramingRecoverable | Reservation/Pods/Alamofire/Source/MultipartFormData.swift:62-75 | splitting the first encoding at delimiters gives exactly the parts if and only if none of them, as framed, contains a delimiter |
| MultipartFraming.FormLines | Reservation/Pods/Alamofire/Source/MultipartFormData.swift:62-75 | the bytes of a form: two hyphens and the boundary in front, carriage return, line feed, two hyphens, boundary, carriage return and line feed between parts, and two more hyphens behind the last boundary |
| MultipartFraming.ExtendedForm | Reservation/Pods/Alamofire/Source/MultipartFormData.swift:348-364 | a form encoded, extended and encoded again ends in the middle: the part that was last keeps its final boundary |
| MultipartFraming.ClearMeans | Reservation/Pods/Alamofire/Source/MultipartFormData.swift:402-430 | that condition in terms of header block and body |
| MultipartFraming.BodyOpensWithBoundary | Reservation/Pods/Alamofire/Source/MultipartFormData.swift:402-430 | absence of delimiters from header block and body alone is not enough |
| MultipartFraming.PartRecoverable | Reservation/Pods/Alamofire/Source/MultipartFormData.swift:421-430 | header lines and body are recovered if and only if every header line is clean |
| MultipartFraming.FormRecoverable | Reservation/Pods/Alamofire/Source/MultipartFormData.swift:348-364 | a receiver gets exactly the list of parts, header by header, if and only if every part is clear and its headers are clean |
| MultipartFraming.SplitChain | Reservation/Pods/Alamofire/Source/MultipartFormData.swift:62-75 | no delimiter is found across the join of a body and the delimiter after it |

## Left out

- Encoder.OStream.Write: a user's callback that fails, and the `bytes_written` of a sizing stream passing 2^64; where there is a limit, a sum that wraps is beyond it anyway.
- Encoder.Encode: asks that every nested encoding has a length below 2^64, since the wrap-around of `bytes_written` in the sizing pass at `size_t` width is not modelled.
- Input.IStream.Read: a user's callback that fails before the bytes run out.
- Decoder.DecodeNoinit: says nothing about the struct after a failure; what it then owns is the subject of `OwnedDecoder`.
- Decoder.DecodeMessage: the same; the release after a failure is part of `OwnedDecoder.DecodeMessage`.
- Decoder.DecodeDelimited: the same, and nothing about where the stream then stands.
- Decoder.MessageDefaults: a fixed-count array holds zeros after defaulting, where the code leaves whatever was there behind the zero it writes over the first four bytes.
- OwnedDecoder.DecodeMessage: tables without fixed-count arrays only. Defaulting such an array writes a count over the first bytes of its first element, which may be half of a pointer; which elements a second delivery loses is the subject of `FixedQueues`, and `Ownership` does release them. The count of a static array is not wrapped at 2^32 after that many failed decodes into one struct, and raw memory in which a null array pointer lies next to a count that is not zero is not considered.
- OwnedDecoder.DecodeNoinit: tables without fixed-count arrays only, for the same reason.
- OwnedDecoder.DecodeField: tables without fixed-count arrays only, for the same reason.
- FreshStructs.ResetFresh: the count written over the first bytes of a fixed-count array.
- FixedQueues.LostElements: one message; the arrays inside its submessages are those of the nested decode.
- Decoder.ReleaseField: the nested walk of pb_release is taken from a function here; `Ownership.ReleaseStruct` runs it.
- Reencoding.DecodedRoundTrip: asks that the defaults in the tables fit their fields and that arrays of bytes have room for their size, which the generator sees to.
- StrayPointers.TrapsExactly: message types numbered below 2^28; a longer chain of nested types need not fit a 32-bit length prefix.
- RoundTrip.MessageRoundTrip: asks that strings hold no NUL, numbers fit their member, and submessages and packed payloads are shorter than 2^32, which is what a 32-bit length prefix can carry. Addresses are those of a machine that stores the lowest byte first.
- User callbacks, extensions and custom extension handlers: foreign functions.
- Build variants without 64-bit integers, without malloc, with unpacked arrays or old-style callbacks, and error texts.
- Raw memory: padding, alignment, the representation of bool, and the bytes of unions no member is selected from; offsets appear only in the iterator. Floats are words of four or eight bytes.
- Decoding an empty table writes the terminator's bool into a struct that has no member for it; only the bytes taken are modelled.
- Streams with user callbacks other than the buffer reader, except for the 16-byte skip loop.
- `pb_decode_delimited_noinit` and `pb_decode_nullterminated`, which forward to members above.
- Multipart: file and MIME checks, random boundaries, content lengths, opening and closing of streams, and the iteration order of a header dictionary, which is a parameter.
- The rest of the repository: network plumbing, reactive libraries, views and services.
