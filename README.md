# Satori Video SDK core, modelled in Dafny

This project models the sequential core of the Satori Video SDK for C++. The
SDK moves video between bots, the RTM messaging service and files. The model
covers:

- **Encodings.** The base64 codec (section 4 of RFC 4648). The JSON to CBOR
  converter and its inverse (sections 2.1 and 2.2 of RFC 7049). The
  JSON-like text dump of CBOR items.
- **Video on the network.** Frames are split into base64 chunks of at most
  65000 characters. Three receivers put them back together: the packet
  visitor of `decode_network_stream`, `frame_aggregator` and
  `flow_rtm_aggregator`. The chunk buffer of `flow_json_decoder` is a fourth.
- **Result types.** `deferred<T>` is a value that arrives later and tells one
  callback about it. `error_or<T>` is a value or an error condition.
- **Reactive streams.** The demand counters of the pull-drained source behind
  `of` and `range`, the `take`, `take_while` and `repeat_if` operators, and
  merge's completion test.
- **RTM client.** `secure_client`'s running state, request ids, subscription
  table and publish confirmations, and what it does with each message the
  server sends. Also the printing and parsing of `channel_position`.
- **Command-line checks.** `configuration::validate` and its helpers, and the
  input resolution fallback.
- **Bots and sinks.** A bot's outgoing message buffer: id stamping and control
  message filtering. The segmentation rule of the video file sink.
- **Pools.** A pool node's heartbeat, shutdown note and command routing.
- **FFmpeg names.** The codec names, pixel formats, image sizes and codec ids
  of `avutils`.
- **Packaging.** The two conan recipes: the dependencies, build commands,
  copied files and exported libraries that each picks from its options.

There is one module per source file. Three shared modules sit beside them:

- `Octets`: `std::string` as a sequence of 8-bit characters, with decimal and
  big-endian renderings.
- `Json`: `nlohmann::json` values. An object keeps its members in ascending key
  order, with no key twice.
- `Cbor`: CBOR items and their bytes.

Code that works step by step on fields is modelled as a class. Examples are
the aggregators, `deferred`, `secure_client`, the stream operators, the bot,
the sink, the pool node and the recipes. Each method is proved to leave the
state where a pure step function says, and the properties are proved about
that function.

Fixed-width counters, casts and `size_t` arithmetic are written out where they
change the outcome. Examples are the `uint8_t` chunk counters, the
`int16_t` image sizes, the `uint64_t` cast of bot frame ids and the spare
capacity of a pool node.

Some source checks end the process: `CHECK`, `ABORT`, or a library exception
nobody catches. When a caller misuses an API this way, for instance resolving
a deferred twice, the check is a `requires` clause. When the data comes from
outside, for instance malformed CBOR from the network, the model has an
explicit aborted outcome.

Values the program gets from outside are parameters of the model:

- the network: whether a connection succeeds, and the messages that arrive;
- the clock;
- random draws;
- FFmpeg's answers;
- callbacks into bot code;
- the success of build commands.

Where the code and its tests disagree, the model follows the code. Two groups
of tests expect byte strings to travel as base64 text:

- test/json_to_cbor_test.cpp:263-276;
- test/cbor_to_json_test.cpp:327-358.

The code does otherwise. `json_to_cbor` writes every JSON string as a CBOR
text string (src/cbor_json.cpp:16-17). `cbor_to_json` aborts on a byte string
(src/cbor_json.cpp:111-113).

## Model

| member | source | states |
|---|---|---|
| Base64.SextetCharRoundTrip | src/base64.cpp:16-22 | the decoding iterator reads every alphabet character back as the 6-bit value it encodes |
| Base64.Sextets | src/base64.cpp:35-38 | the 6-bit groups cover exactly the input's bits: 8·n ≤ 6·groups < 8·n + 6 |
| Base64.Padding | src/base64.cpp:39 | at most two '=' are appended, and they bring the byte count to a multiple of three |
| Base64.Encode | src/base64.cpp:35-40 | the encoding is four characters for every three input bytes, padding included |
| Base64.EncodeShape | src/base64.cpp:35-40 | every output character is in the alphabet or '=', and the '=' characters are exactly the padding at the end |
| Base64.Lookup | src/base64.cpp:17-26 | the character lookup fails exactly when some character is outside the alphabet and '=', and otherwise yields each character's value |
| Base64.Join | src/base64.cpp:17-22 | joining 6-bit values yields every complete byte their bits fill: 8·bytes ≤ 6·n < 8·bytes + 8; a lone last value, for which the iterator reads past the end, never reaches it (`Decode` rejects that text first) |
| Base64.Find | src/base64.cpp:28 | `find('=')` is the first index of '=', or the length when there is none |
| Base64.PrefixWrapped | src/base64.cpp:32 | `substr(0, count)` clamps a count to the length, and a negative size_t difference wraps to a huge count that keeps everything |
| Base64.Decode | src/base64.cpp:16-33 | decoding fails with EBADMSG exactly when a character is outside the alphabet and '=' or the length is 4k+1 (the iterator then reads the terminating NUL past the end, which throws); otherwise it yields the bytes of the characters less the bytes from the first '=' on |
| Base64.EncodeWholeGroups | src/base64.cpp:35-40 | `encode`'s output length is a multiple of four, so `decode` never meets a lone last character in it |
| Base64.GroupRoundTrip | src/base64.cpp:16-40 | joining the four 6-bit groups of three bytes gives the three bytes back |
| Base64.JoinGroupCons | src/base64.cpp:16-40 | joining the groups of a byte string, whatever follows them, yields its first three bytes first |
| Base64.JoinSextets | src/base64.cpp:16-40 | joining the groups of a byte string followed by the pads' zero groups gives the bytes followed by one zero byte per pad |
| Base64.LookupPads | src/base64.cpp:17-22 | the pad characters read as zero groups |
| Base64.LookupAlphabet | src/base64.cpp:16-40 | looking up the characters `encode` writes gives back the groups, and zeros for the pads |
| Base64.RoundTrip | src/base64.cpp:16-40 | `decode(encode(s)) == s` for every byte string |
| Base64.H264GroupChars | test/encoding_test.cpp:9-14 | each three-byte group of the test's H.264 sample encodes to the four characters the test expects |
| Base64.EncodeH264Sample | test/encoding_test.cpp:9-14 | the 25-byte sample, NUL included, encodes to "AAAAAWdNACmAS3AQEBogQURUAAAAAWg8AA==" |
| ErrorOr.StreamErrorCode | src/streams/stream_error.h:16-21 | the stream error codes are 1 to 4 |
| ErrorOr.StreamErrorCodesDistinct | src/streams/stream_error.h:16-21 | different stream errors have different codes |
| ErrorOr.ErrorOr.FromValue | src/streams/error_or.h:46-50 | a value-constructed error_or is ok and holds the value |
| ErrorOr.ErrorOr.FromError | src/streams/error_or.h:52 | an error-constructed error_or CHECKs that the condition is an error, and is not ok |
| ErrorOr.ErrorOr.Get | src/streams/error_or.h:86-89 | `get()` CHECKs ok and yields the stored value |
| ErrorOr.ErrorOr.Move | src/streams/error_or.h:91-95 | `move()` CHECKs ok, yields the stored value and leaves the object not ok with VALUE_WAS_MOVED |
| ErrorOr.ErrorOr.Condition | src/streams/error_or.h:99-102 | `error_condition()` CHECKs not ok and yields the error |
| ErrorOr.ErrorOr.Assign | src/streams/error_or.h:72-78 | copy assignment copies the condition, and the value only when the source is ok |
| ErrorOr.ErrorOr.Snapshot | src/streams/error_or.h:80 | the object is ok exactly when its condition is no error, and then holds a value |
| ErrorOr.MoveLeavesNotOk | test/error_or_test.cpp:20-31 | after a move the value is handed out and the object reports VALUE_WAS_MOVED |
| Cbor.MinimalWidth | src/cbor_json.cpp:70-82 | the width libcbor gives a length or count is the narrowest of 1, 2, 4 and 8 bytes that holds it |
| Cbor.HeadBytes | src/cbor_json.cpp:196 | an item head is one byte holding the major type and additional information, followed by at most eight argument bytes |
| Cbor.HeadInfo | src/cbor_json.cpp:196 | the additional information written is below 28 and announces the argument's width |
| Cbor.ShortestHead | src/cbor_json.cpp:196 | a length head is the value itself below 24, else additional information 24 to 27 followed by the value in the fewest of 1, 2, 4 or 8 big-endian bytes |
| Cbor.Serialize | src/cbor_json.cpp:196 | `cbor_serialize_alloc` writes at least one byte for every well-formed item |
| Cbor.ReadHead | src/cbor_json.cpp:207-209 | reading a head consumes at least its head byte, yields a major type below 8, and fails only for missing bytes or reserved additional information |
| Cbor.ParseItem | src/cbor_json.cpp:207-209 | decoding an item that succeeds consumes at least one byte and stays inside the buffer; as libcbor 0.5.0 does, the unassigned simple values 0xe0 to 0xf3 and 0xf8 are malformed |
| Cbor.Load | src/cbor_json.cpp:206-209 | `cbor_load` of an empty buffer fails with "no data"; a success consumes a non-empty prefix of the buffer |
| Cbor.UnassignedSimpleMalformed | src/cbor_json.cpp:206-209 | `cbor_load` of a buffer starting with an unassigned simple value, 0xe0 to 0xf3 or 0xf8 with its argument byte, fails as malformed |
| Cbor.ReadHeadBytes | src/cbor_json.cpp:196-209 | a written head reads back as its major type, width and argument |
| Cbor.FirstByteNotBreak | src/cbor_json.cpp:196 | no serialized item starts with the break byte 0xff |
| Cbor.ParseSerialized | src/cbor_json.cpp:196-209 | decoding the bytes of a serialized item, wherever they sit in a buffer, gives the item back and stops right after them; the simple values that read back are false, true, null and undefined only |
| Cbor.ParseArraySerialized | src/cbor_json.cpp:70-75 | a serialized array, definite or indefinite, decodes to the same array |
| Cbor.ParseMapSerialized | src/cbor_json.cpp:78-84 | a serialized map, definite or indefinite, decodes to the same entries in the same order |
| Cbor.ParseTagSerialized | src/cbor_json.cpp:207-209 | a serialized tag decodes to the same tag and content |
| Cbor.LoadSerialized | src/cbor_json.cpp:188-209 | `cbor_load` of what `cbor_serialize_alloc` wrote gives the item back and reads every byte, for every item whose simple values are false, true, null or undefined |
| Cbor.ParseItemExt | src/cbor_json.cpp:207-209 | a successful decode depends only on the bytes it consumed |
| Cbor.LoadTruncated | src/cbor_json.cpp:206-245 | `cbor_load` of any strict prefix of a serialized item fails |
| CborJson.Cons | src/cbor_json.cpp:142-149 | an element list converts when its head and its rest do, and aborts when either aborts |
| CborJson.CString | src/cbor_json.cpp:17 | `cbor_build_string(s.c_str())` sees the bytes of `s` before its first NUL |
| CborJson.SignedItem | src/cbor_json.cpp:22-47 | a signed 64-bit number becomes a well-formed unsigned or negative integer item |
| CborJson.AsInt64 | src/cbor_json.cpp:22 | `get<int64_t>()` yields a signed 64-bit value, congruent modulo 2^64 to an unsigned number it reads |
| CborJson.IntegerItemAsWritten | src/cbor_json.cpp:19-48 | the integer branch as written yields a well-formed item for every integer, unsigned ones included |
| CborJson.IntegerItem | src/cbor_json.cpp:19-65 | the integer branches as intended yield a well-formed item for every integer |
| CborJson.ElementsToItems | src/cbor_json.cpp:69-76 | an array's elements convert one for one |
| CborJson.JsonToItem | src/cbor_json.cpp:15-95 | as intended for unsigned numbers, objects become definite maps and arrays definite arrays of the same length, null and booleans simple values, numbers integers and strings text strings, and nothing else |
| CborJson.MembersToEntries | src/cbor_json.cpp:77-85 | an object's members convert one for one |
| CborJson.JsonToItemWellFormed | src/cbor_json.cpp:15-95 | every item built for a document fits the CBOR heads and can be serialized |
| CborJson.JsonToCbor | src/cbor_json.cpp:188-204 | as intended for unsigned numbers, `json_to_cbor` yields at least one byte |
| CborJson.ItemsToJson | src/cbor_json.cpp:142-149 | a converted array has one element per item |
| CborJson.ItemToJson | src/cbor_json.cpp:97-184 | tags and byte strings abort, a negative integer aborts exactly when it does not fit `int64_t`, and a converted item is an object exactly for a map, an array exactly for an array and a string exactly for a text string |
| CborJson.KeyOf | src/cbor_json.cpp:151-157 | only a string converts to an object key; any other key makes the JSON library throw |
| CborJson.EntriesToPairs | src/cbor_json.cpp:151-157 | converted map entries give one pair per entry |
| CborJson.CborToJson | src/cbor_json.cpp:205-246 | a load error of any kind becomes the EBADMSG condition |
| CborJson.IntegerRoundTrip | src/cbor_json.cpp:19-109 | an integer written by the intended branches reads back as the same number |
| CborJson.RoundTrip | src/cbor_json.cpp:15-184 | as intended for unsigned numbers, a NUL-free document converted to a CBOR item and back is the same document, up to the signedness of non-negative numbers |
| CborJson.RoundTripElements | src/cbor_json.cpp:69-76 | an array's elements round-trip one for one |
| CborJson.RoundTripMembers | src/cbor_json.cpp:77-85 | an object's members round-trip one for one, keys unchanged |
| CborJson.JsonThroughCbor | src/cbor_json.cpp:188-246 | as intended for unsigned numbers, `cbor_to_json(json_to_cbor(j))` is `j` again, up to the signedness of its numbers |
| CborJson.TruncatedIsBadMessage | src/cbor_json.cpp:205-246 | any strict prefix of `json_to_cbor`'s output is a bad message |
| CborJson.IntegerHead | src/cbor_json.cpp:22-44 | an integer is written with the shortest head: major type 0 and the number, or major type 1 and `-1 - i` |
| CborJson.UnsignedDecodes | src/cbor_json.cpp:99-101 | an unsigned head of any width decodes to its argument |
| CborJson.NegativeDecodes | src/cbor_json.cpp:103-109 | a negative head with argument `v` decodes to `-1 - v` when `v` fits an int64_t, and fails the CHECK otherwise |
| CborJson.UnsignedAsWrittenFlipsSign | src/cbor_json.cpp:19-22 | as written, an unsigned number of 2^63 or more is written as a negative integer and reads back negative |
| CborJson.UnsignedReencodes | src/cbor_json.cpp:49-65 | with the unsigned branch reached, an unsigned number read from CBOR is written back as the same number in its shortest head |
| CborJson.ItemsInOrder | src/cbor_json.cpp:142-149 | an array converts when every element does, aborts when one does, and keeps the elements in order |
| CborJson.PairsInOrder | src/cbor_json.cpp:151-157 | a map converts when every entry does, aborts when one does, and keeps the pairs in order |
| CborJson.MapToObject | src/cbor_json.cpp:151-157 | a map becomes an object in key order with exactly its entries' keys, each with the value of the first entry that has it |
| CborJson.ItemToJsonValid | src/cbor_json.cpp:97-184 | what `cbor_item_to_json` returns is a value the JSON library can hold |
| CborJson.SimpleValueBytes | src/cbor_json.cpp:86-91 | null, false and true are the single bytes 0xf6, 0xf4 and 0xf5 |
| CborJson.Int24Bytes | src/cbor_json.cpp:23-27 | 24 is written as 0x18 0x18 |
| CborJson.Int65536Bytes | src/cbor_json.cpp:28-29 | 2^16 is written with four argument bytes |
| CborJson.IntMinus4294967297Bytes | src/cbor_json.cpp:33-43 | -2^32 - 1 is written with major type 1 and eight argument bytes |
| CborJson.StringBytes | src/cbor_json.cpp:16-17 | "abcd" is written as 0x64 followed by its bytes |
| CborJson.ShortStringBytes | src/cbor_json.cpp:16-17 | a string shorter than 24 bytes is its length in the head byte, then its bytes |
| CborJson.ArrayItem | src/cbor_json.cpp:69-76 | ["a","b","c"] becomes a definite array of three text strings |
| CborJson.ArrayBytes | src/cbor_json.cpp:69-76 | ["a","b","c"] is written as 0x83 0x61 'a' 0x61 'b' 0x61 'c' |
| CborJson.IndefiniteStringReads | src/cbor_json.cpp:122-136 | an indefinite-length text string reads as its chunks joined |
| CborJson.MissingElementIsBadMessage | src/cbor_json.cpp:205-246 | an array head announcing one element with nothing after it is a bad message |
| CborJson.UnassignedSimpleIsBadMessage | src/cbor_json.cpp:205-246 | the unassigned simple values [0xe0] and [0xf8, 0x14] are bad messages, not a crash and not `false` |
| CborTools.Quoted | src/cbor_tools.cpp:34-37 | a definite text string is written between double quotes exactly as it is, with no escaping |
| CborTools.Separator | src/cbor_tools.cpp:43-45 | a comma is written before every element but the first |
| CborTools.DumpItemsStatus | src/cbor_tools.cpp:40-48 | writing an array aborts exactly when one of its elements aborts, and writes text exactly when all of them do |
| CborTools.Dump | src/cbor_tools.cpp:7-78 | as intended for negative integers and booleans: tags and byte strings abort and floats are not modelled |
| CborTools.Delimited | src/cbor_tools.cpp:40-61 | a written array stands between brackets and a written map between braces |
| CborTools.ArrayText | src/cbor_tools.cpp:40-48 | an array is written as its elements' texts joined by commas, between brackets, whether definite or not |
| CborTools.DumpEntriesStatus | src/cbor_tools.cpp:50-61 | writing a map aborts exactly when one of its entries aborts, and writes text exactly when all of them do |
| CborTools.MapText | src/cbor_tools.cpp:50-61 | a map is written as its entries' texts joined by commas, between braces |
| CborTools.EntryText | src/cbor_tools.cpp:56-58 | an entry is written as its key's text, a colon, and its value's text |
| CborTools.UnsignedText | src/cbor_tools.cpp:12-14 | an unsigned integer is written as decimal digits whose value is the integer |
| CborTools.NegativeAsWrittenOffByOne | src/cbor_tools.cpp:9-11 | as written, a negative integer with argument `v` is written as `-v`, one more than its value `-1 - v`; -1 is written "-0" |
| CborTools.NegativeText | src/cbor_tools.cpp:9-11 | as intended, a negative integer with argument `v` is written as the decimal text of `-1 - v` |
| CborTools.NegativeTextValue | src/cbor_tools.cpp:9-11 | as intended, a negative integer is written as a minus sign and digits whose value is `v + 1` |
| CborTools.BoolAsWrittenIsNumber | src/cbor_tools.cpp:71-74 | as written, a boolean is written as the digit 1 or 0 rather than a JSON literal |
| CborTools.LiteralText | src/cbor_tools.cpp:67-74 | as intended, null, true and false are written as the JSON literals `null`, `true` and `false` |
| CborTools.AbortedItems | src/cbor_tools.cpp:15-18 | tags, byte strings and simple values other than null and the booleans abort |
| CborTools.ConfigureEntryText | test/cbor_tools_test.cpp:7-9 | the entry "action" to "configure" is written `"action":"configure"` |
| CborTools.ConfigureMapText | test/cbor_tools_test.cpp:6-20 | the indefinite map of that one entry is written `{"action":"configure"}` |
| Json.KeyLessIrreflexive | src/cbor_json.cpp:152-157 | no object key is ordered before itself |
| Json.KeyLessTransitive | src/cbor_json.cpp:152-157 | the order of object keys is transitive |
| Json.KeyLessTotal | src/cbor_json.cpp:152-157 | two different keys are ordered one way or the other |
| Json.Keys | src/cbor_json.cpp:152-157 | the keys of an object are exactly its members' keys |
| Json.Find | src/pool_controller.cpp:85 | `find(key)` finds a value exactly when the object has the key |
| Json.EmplaceKeys | src/cbor_json.cpp:155 | after `emplace` the key is present and no other key was added |
| Json.Emplace | src/cbor_json.cpp:155 | `emplace` keeps every member and adds at most one |
| Json.EmplaceNew | src/cbor_json.cpp:155 | `emplace` of a new key stores the given value and grows the object by one member |
| Json.EmplacePresent | src/cbor_json.cpp:155 | `emplace` of a key already present leaves the object unchanged: it does not overwrite |
| Json.EmplaceSorted | src/cbor_json.cpp:155 | `emplace` keeps an object in key order |
| Json.EmplaceAbove | src/cbor_json.cpp:155 | emplacing a key above every present key appends it |
| Json.EmplaceMembers | src/cbor_json.cpp:155 | `emplace` adds no member other than the one it is given |
| Json.EmplaceFindOther | src/cbor_json.cpp:155 | `emplace` under one key leaves the value under every other key as it was |
| Json.EmplaceAllSorted | src/cbor_json.cpp:154-156 | emplacing pairs one after another keeps the object in key order |
| Json.EmplaceAllMembers | src/cbor_json.cpp:154-156 | every member of the result was already there or is one of the pairs |
| Json.EmplaceAllFind | src/cbor_json.cpp:154-156 | after emplacing pairs in turn, each key holds its old value if it had one, else the value of the first pair that has it |
| Json.EmplaceAllAscending | src/cbor_json.cpp:154-156 | pairs in ascending key order above every present key are appended as they are |
| Json.EmplaceAllInOrder | src/cbor_json.cpp:152-157 | an object built from pairs already in ascending key order holds exactly those pairs |
| Octets.Decimal | src/pool_controller.cpp:17 | `std::to_string` of a non-negative number is non-empty decimal digits with no leading zero |
| Octets.DecimalValue | src/pool_controller.cpp:17 | the digits `std::to_string` writes read back as the number |
| Octets.SignedDecimal | src/cbor_tools.cpp:9-14 | a number is written with a leading minus sign exactly when it is negative |
| Octets.BigEndian | src/cbor_json.cpp:188-204 | a number written big-endian in `k` bytes takes exactly `k` bytes |
| Octets.BigEndianRoundTrip | src/cbor_json.cpp:188-246 | a number written big-endian and read back is the number |
| Octets.Repeat | src/base64.cpp:25-26 | `append(n, c)` adds `n` copies of `c` |
| Data.Narrow | src/frame_aggregator.h:25-26 | a chunk number kept in a `uint8_t` counter is reduced modulo 256; in a wide counter it is kept |
| Data.NarrowSmall | src/frame_aggregator.h:25-26 | a chunk number below 256 fits either counter |
| Data.MetadataToNetwork | src/data.cpp:52-61 | `encoded_metadata::to_network` keeps the codec name and leaves the text empty exactly when there are no codec parameters |
| Data.MetadataRoundTrip | src/data.cpp:52-61 | decoding the metadata's text gives back the codec parameters |
| Data.Substr | src/data.cpp:72 | `substr(pos, n)` takes at most `n` characters from `pos`, fewer at the end |
| Data.Payloads | src/data.cpp:70-79 | the payloads of a list of chunks, one per chunk, in order |
| Data.ChunkCount | src/data.cpp:68 | the chunk count `ceil(len / 65000)` covers the text and leaves no chunk empty |
| Data.PrefixStep | src/data.cpp:72 | the text sent so far plus the next piece is the next prefix of the text |
| Data.ConcatPayloadsPrefix | src/data.cpp:70-79 | the payloads of one more chunk join to the payloads so far plus its payload |
| Data.Split | src/data.cpp:67-81 | the loop of `encoded_frame::to_network` cuts the text into `ceil(len / 65000)` chunks numbered from 1, each with the count, id and time, all full but the last, and joining to the text |
| Data.ToNetwork | src/data.cpp:63-82 | `encoded_frame::to_network` yields no chunk exactly for an empty frame, and the chunks' payloads join to the base64 text that decodes back to the frame's bytes |
| FrameAggregator.FeedPrefix | src/frame_aggregator.cpp:10-30 | feeding one chunk more is one `send_frame` more |
| FrameAggregator.Send | src/frame_aggregator.cpp:10-30 | `send_frame` leaves the aggregator reset or holding the chunk's frame; a ready aggregator ignores chunks of its frame; it becomes ready only at the chunk numbered `chunks`; and otherwise the payload is appended to what the frame had collected, or starts afresh for another frame |
| FrameAggregator.FirstChunk | src/frame_aggregator.cpp:20-29 | the first chunk of a frame, sent to a reset aggregator, records the frame's id and count, stores its payload, and is ready only for a one-chunk frame |
| FrameAggregator.NextChunk | src/frame_aggregator.cpp:20-29 | the expected next chunk appends its payload, advances the counter, and makes the aggregator ready exactly at the last chunk |
| FrameAggregator.InOrderPrefix | src/frame_aggregator.cpp:10-30 | after the first `k` of `n` chunks sent in order the aggregator holds their payloads joined and is ready exactly when `k == n`, for every `n` with wide counters and `n < 256` with 8-bit ones |
| FrameAggregator.ReadyExactlyAtLast | src/frame_aggregator.cpp:10-30 | with wide counters, a frame's chunks in order make the aggregator ready exactly at the last one, holding the whole text and the frame's id |
| FrameAggregator.ReadyIgnoresChunks | src/frame_aggregator.cpp:13 | once ready, more chunks of the same frame change nothing |
| FrameAggregator.OtherFrameDiscards | src/frame_aggregator.cpp:11 | a chunk of another frame discards what was collected and is taken as by a reset aggregator |
| FrameAggregator.UnexpectedChunkResets | src/frame_aggregator.cpp:15-18 | a chunk other than the expected one resets the aggregator and is dropped |
| FrameAggregator.ReadyTooEarlyAsWritten | src/frame_aggregator.h:25-26 | as written, with `uint8_t` counters, chunk 1 of a 257-chunk frame makes the aggregator ready at once, holding only that chunk's payload |
| FrameAggregator.ReassemblesSentFrame | src/frame_aggregator.cpp:10-30 | the chunks `to_network` makes of a frame, fed in order, leave the aggregator ready with text that decodes to the frame's bytes |
| FrameAggregator.Aggregator.constructor | src/frame_aggregator.cpp:6 | a new aggregator is reset: not ready, expecting chunk 1 of one, no frame, no data |
| FrameAggregator.Aggregator.Reset | src/frame_aggregator.cpp:38-44 | `reset` restores that initial state |
| FrameAggregator.Aggregator.SendFrame | src/frame_aggregator.cpp:10-30 | `send_frame` moves the fields to the state the step function gives, with counters wide enough for every chunk number |
| FlowRtmAggregator.OnMetadata | src/flow_rtm_aggregator.cpp:15-20 | `on_metadata` hands the sinks the codec name unchanged with the decoded parameters |
| FlowRtmAggregator.OnFrame | src/flow_rtm_aggregator.cpp:22-43 | `on_frame` hands out at most one frame, then with the chunk's frame id and the time at zero and the aggregator reset; otherwise it is reset or holds the chunk's frame with the payload appended to what that frame had collected |
| FlowRtmAggregator.MetadataReachesSinks | src/flow_rtm_aggregator.cpp:15-20 | metadata made by `encoded_metadata::to_network` reaches the sinks with the codec name and parameters that were sent |
| FlowRtmAggregator.FeedLast | src/flow_rtm_aggregator.cpp:22-43 | the last chunk is handled after all the chunks before it, and what it hands out comes after theirs |
| FlowRtmAggregator.FeedPrefix | src/flow_rtm_aggregator.cpp:22-43 | feeding one chunk more is one `on_frame` more, and what goes out accumulates |
| FlowRtmAggregator.FirstChunk | src/flow_rtm_aggregator.cpp:30-42 | chunk 1 at a reset aggregator records the id and count and stores its payload; for a one-chunk frame it sends the decoded frame at once and resets |
| FlowRtmAggregator.NextChunk | src/flow_rtm_aggregator.cpp:30-42 | the expected next chunk appends its payload; the last one sends the decoded join and resets |
| FlowRtmAggregator.CollectsPrefix | src/flow_rtm_aggregator.cpp:22-43 | while the first `k < n` chunks of a frame arrive in order nothing goes out and the payloads are collected, for every `n` with wide counters and `n < 256` with 8-bit ones |
| FlowRtmAggregator.LastChunk | src/flow_rtm_aggregator.cpp:37-42 | nothing goes out before the last chunk, and the last chunk sends the collected frame and resets |
| FlowRtmAggregator.EmitsOnceAtLast | src/flow_rtm_aggregator.cpp:22-43 | a whole frame in order makes exactly one frame go out, the decoded join of its payloads with its id, and leaves the aggregator reset |
| FlowRtmAggregator.ChangedFrameResets | src/flow_rtm_aggregator.cpp:23-28 | a chunk of another frame is taken as by a reset aggregator, and an unexpected chunk resets and sends nothing |
| FlowRtmAggregator.CountFromFirstChunk | src/flow_rtm_aggregator.cpp:31-34 | the chunk count is taken from chunk 1 only |
| FlowRtmAggregator.EmitsTooEarlyAsWritten | src/flow_rtm_aggregator.h:33-34 | as written, with `uint8_t` counters, chunk 1 of a 257-chunk frame sends a frame of that chunk alone at once |
| FlowRtmAggregator.Aggregator.constructor | src/flow_rtm_aggregator.cpp:7 | a new aggregator is reset |
| FlowRtmAggregator.Aggregator.Reset | src/flow_rtm_aggregator.cpp:45-50 | `reset` restores the initial state |
| FlowRtmAggregator.Aggregator.OnFrameUpdate | src/flow_rtm_aggregator.cpp:22-43 | `on_frame` moves the fields and hands out the frames the step function gives, with counters wide enough for every chunk number |
| FlowJsonDecoder.Processed | src/flow_json_decoder.cpp:77-84 | `process_frame` hands out the frame with the given id, and the decoded bytes are at most three quarters of the text |
| FlowJsonDecoder.FramePart | src/flow_json_decoder.cpp:59-75 | `process_frame_part` hands out at most one frame, with the given id, exactly for a one-chunk frame or the chunk numbered `chunks`; a one-chunk frame leaves the buffer alone, a frame of several empties it when it goes out and otherwise appends the text, after clearing it at chunk 1 |
| FlowJsonDecoder.OnFrame | src/flow_json_decoder.cpp:86-89 | `on_frame` hands out at most one frame, with the chunk's id, exactly for a one-chunk frame or the last chunk |
| FlowJsonDecoder.SingleChunkAtOnce | src/flow_json_decoder.cpp:62-65 | a frame of one chunk is decoded at once, whatever its chunk number, and the buffer is left untouched |
| FlowJsonDecoder.FirstChunkClears | src/flow_json_decoder.cpp:67-71 | chunk 1 of a frame of several chunks clears the buffer before appending its text |
| FlowJsonDecoder.NothingBeforeLast | src/flow_json_decoder.cpp:70-71 | nothing goes out exactly until the chunk numbered `chunks`; until then the text is appended |
| FlowJsonDecoder.EmptyAfterLast | src/flow_json_decoder.cpp:73-74 | after a frame of several chunks goes out, exactly one frame went out and the buffer is empty |
| FlowJsonDecoder.LastChunkTakesBuffer | src/flow_json_decoder.cpp:70-74 | there is no order check: a last chunk is decoded together with whatever the buffer held |
| FlowJsonDecoder.FeedPrefix | src/flow_json_decoder.cpp:86-89 | feeding one chunk more is one `on_frame` more, and what goes out accumulates |
| FlowJsonDecoder.CollectsPrefix | src/flow_json_decoder.cpp:59-75 | while the first `k < n` chunks of a frame arrive in order nothing goes out and the buffer holds their text, whatever it held before |
| FlowJsonDecoder.EmitsOnceAtLast | src/flow_json_decoder.cpp:59-75 | a whole frame of several chunks in order makes exactly one frame go out, the decoded join of its payloads, and empties the buffer |
| FlowJsonDecoder.ReceivesSentFrame | src/flow_json_decoder.cpp:59-89 | the chunks a sender makes of a frame become, at the receiver, the frame's bytes with its id |
| FlowJsonDecoder.ChunkBuffer.constructor | src/flow_json_decoder.cpp:12 | a new decoder starts with an empty chunk buffer |
| FlowJsonDecoder.ChunkBuffer.ProcessFramePart | src/flow_json_decoder.cpp:59-75 | `process_frame_part` updates the buffer in place and hands out what the step function gives |
| FlowJsonDecoder.ChunkBuffer.OnNetworkFrame | src/flow_json_decoder.cpp:86-89 | `on_frame` passes the chunk's text, number and count to `process_frame_part` |
| VideoStreams.Fresh | src/video_streams.cpp:111-119 | a fresh or reset visitor expects chunk 1 and holds no text |
| VideoStreams.MetadataPassesThrough | src/video_streams.cpp:77-82 | metadata passes through as exactly one packet with its codec name, whatever chunks are being collected; its parameters fail to decode exactly when the text holds a character outside the alphabet or its length is 4k+1 |
| VideoStreams.MetadataReceived | src/video_streams.cpp:77-82 | metadata as `encoded_metadata::to_network` puts it comes out with the parameters that were sent |
| VideoStreams.MismatchResets | src/video_streams.cpp:85-91 | a chunk other than the expected one resets the collection and passes nothing on |
| VideoStreams.ResetAfterEmission | src/video_streams.cpp:98-105 | a frame is passed on only by the expected chunk numbered `chunks`, and afterwards chunk 1 is expected and nothing is collected |
| VideoStreams.Packets | src/video_streams.cpp:124-127 | the chunks as network packets, one for one |
| VideoStreams.FeedPrefix | src/video_streams.cpp:124-127 | feeding one packet more is one visit more, and what is passed on accumulates |
| VideoStreams.NextChunk | src/video_streams.cpp:93-108 | the expected next chunk appends its text and advances the counter; the last one passes on the decoded join with the id of chunk 1 and its own time |
| VideoStreams.FirstChunk | src/video_streams.cpp:93-108 | chunk 1 takes the frame's id and starts the text; a one-chunk frame is passed on at once |
| VideoStreams.FeedNothing | src/video_streams.cpp:124-127 | no packet changes nothing and passes nothing on |
| VideoStreams.VisitPacket | src/video_streams.cpp:77-127 | a packet passes on at most one packet; metadata always one and the state kept; a frame chunk exactly at the last expected chunk; an unexpected chunk resets to chunk 1 with nothing collected; an expected chunk before the last appends its text |
| VideoStreams.Reassembled | src/video_streams.cpp:98-104 | the frame passed on carries the id of chunk 1 and the time of the last chunk |
| VideoStreams.Start | src/video_streams.cpp:93-108 | the state after the first chunk of a frame |
| VideoStreams.Advance | src/video_streams.cpp:93-108 | each further chunk in order moves to the state after it, while the counter holds the chunk number |
| VideoStreams.CollectsPrefix | src/video_streams.cpp:84-109 | while the first `k < n` chunks of a frame arrive in order nothing is passed on, the text is collected and the id is that of chunk 1, with an 8-bit counter only while chunk numbers stay below 256 |
| VideoStreams.EmitsOnceAtLast | src/video_streams.cpp:84-109 | a whole frame in order makes exactly one frame go out, at the last chunk, and then chunk 1 is expected with nothing collected |
| VideoStreams.NeverEmitsAsWritten | src/video_streams.cpp:117 | as written, with the `uint8_t` counter, a frame of 256 chunks is never passed on: the counter wraps to 0 before chunk 256 |
| VideoStreams.PacketVisitor.constructor | src/video_streams.cpp:117-119 | a new visitor expects chunk 1 and holds no text; its id is indeterminate |
| VideoStreams.PacketVisitor.Reset | src/video_streams.cpp:112-115 | `reset` expects chunk 1 and clears the text, keeping the id |
| VideoStreams.PacketVisitor.Visit | src/video_streams.cpp:77-109 | the visitor's `operator()` updates its fields in place and passes on what the step function gives, with a counter wide enough for every chunk number |
| Deferred.Cell.Unresolved | src/streams/deferred.h:255 | a new deferred is unresolved, has no callback, and holds the NotInitialized error |
| Deferred.Cell.Failed | src/streams/deferred.h:319 | a deferred made from an error condition CHECKs that it is an error and is resolved with it |
| Deferred.Cell.Resolved | src/streams/deferred.h:257 | a deferred made from a value is resolved with it |
| Deferred.Cell.Ok | src/streams/deferred.h:262-265 | `ok()` CHECKs that the value is known and says whether it is a value rather than an error |
| Deferred.Cell.On | src/streams/deferred.h:268-277 | `on(f)` CHECKs that no callback is registered; a value already known is handed to the callback at once, otherwise nothing is delivered yet |
| Deferred.Cell.MarkResolvedAndNotify | src/streams/deferred.h:297-304 | marking resolved CHECKs that it was not, and calls a registered callback once with the value |
| Deferred.Cell.Resolve | src/streams/deferred.h:285-288 | `resolve(t)` makes the value known, at most once, and a registered callback receives it |
| Deferred.Cell.Fail | src/streams/deferred.h:279-283 | `fail(ec)` CHECKs that `ec` is an error and resolves with it, at most once |
| Deferred.CallbackBeforeResolve | test/deferred_test.cpp:8-16 | a callback registered before the value is known is called exactly once, with the value |
| Deferred.CallbackAfterResolve | test/deferred_test.cpp:98-105 | a callback registered after the value is known is called exactly once, at registration |
| Deferred.CallbackOnFailed | test/deferred_test.cpp:115-124 | a deferred made from an error hands the error to the callback at registration |
| Deferred.Map | src/streams/deferred.h:388-404 | `map(f)` resolves when this one does: with `f` of the value, or with the same error and `f` not applied |
| Deferred.Then | src/streams/deferred.h:406-423 | `then(f)` stays pending while this one is, and forwards an error without calling `f` |
| Deferred.ThenWaitsForInner | src/streams/deferred.h:413-418 | `then` resolves exactly when this one resolves with an error or the inner deferred resolves, and then with the inner outcome |
| Deferred.MapWellFormed | src/streams/deferred.h:338-356 | `map` keeps outcomes well formed: an error forwarded is still an error |
| Deferred.MapFunctor | src/streams/deferred.h:388-404 | `map` of the identity changes nothing, and two maps are one map of the composition |
| Deferred.ThenOfResolvedIsMap | src/streams/deferred.h:406-423 | `then` whose inner deferred is already resolved with a value is `map` |
| Deferred.ThenAssociative | src/streams/deferred.h:406-423 | chaining `then` twice is one `then` of the chained inner deferreds |
| Deferred.Discard | src/streams/deferred.h:237-240 | the conversion to `deferred<void>` keeps only success or the error, resolving when this one does |
| ChannelPosition.Str | src/rtm_client.h:50 | `str()` prints digits and one ':' only, at least three characters, with no NUL |
| ChannelPosition.StrParts | src/rtm_client.h:50 | `str()` is the generation in decimal, ':', then the position in decimal |
| ChannelPosition.CString | src/rtm_client.h:54 | `c_str()` read as a C string is the text up to its first NUL |
| ChannelPosition.SkipSpace | src/rtm_client.h:54 | `strtoll` first skips the leading white space, and only that |
| ChannelPosition.DigitRun | src/rtm_client.h:54 | the digits `strtoll` reads are the longest run of digits after the sign |
| ChannelPosition.StrToLL | src/rtm_client.h:54 | `strtoll` ends either where it started (nothing converted) or after the digit run, and its value saturates to the signed 64-bit range |
| ChannelPosition.StrToULL | src/rtm_client.h:59 | `strtoull` ends either where it started or after the digit run, and its value is within the unsigned 64-bit range |
| ChannelPosition.Parse | src/rtm_client.h:52-65 | `parse` yields a position within `uint32_t` and `uint64_t` whenever it does not fail the CHECK |
| ChannelPosition.StrToLLNumber | src/rtm_client.h:54 | `strtoll` of the decimal digits of a number, followed by a non-digit, reads that number and stops after the digits |
| ChannelPosition.StrToULLNumber | src/rtm_client.h:59 | `strtoull` of the decimal digits of a number, followed by a non-digit, reads that number and stops after the digits |
| ChannelPosition.ParsePrinted | src/rtm_client.h:50-65 | `parse(p.str())` is `p` for every position |
| ChannelPosition.NoLeadingDigits | src/rtm_client.h:56-58 | text that does not start with white space, a sign or a digit parses as {0, 0} |
| ChannelPosition.MissingColon | src/rtm_client.h:56-58 | a generation not followed by ':' parses as {0, 0} |
| ChannelPosition.TrailingCharacters | src/rtm_client.h:61-63 | anything but the end of the string after the position makes it {0, 0} |
| ChannelPosition.EmptyPositionAccepted | src/rtm_client.h:59-64 | a missing position after the ':' is read as 0: "5:" is {5, 0} |
| ChannelPosition.LargeGenerationAborts | src/rtm_client.h:55 | a generation above `uint32_t`'s range fails the CHECK |
| ChannelPosition.NegativeGenerationWraps | src/rtm_client.h:55-64 | a negative generation passes the CHECK and is cast: "-1:0" is {4294967295, 0} |
| RtmTable.Find | src/rtm_client.cpp:663 | `find(key)` finds a subscription exactly when some entry has the key |
| RtmTable.FindAt | src/rtm_client.cpp:663 | in the sorted table, `find` of an entry's key gives that entry's subscription |
| RtmTable.EmplaceEntries | src/rtm_client.cpp:445-448 | `emplace` keeps every old entry, adds none but the new one, and adds it unless its key was present |
| RtmTable.Emplace | src/rtm_client.cpp:445-448 | `emplace` keeps the table or adds one entry, and an added entry is the new one |
| RtmTable.EmplaceSorted | src/rtm_client.cpp:445-448 | `emplace` keeps the table in key order |
| RtmTable.EmplaceFind | src/rtm_client.cpp:445-448 | after `emplace` of a new channel it is found with its subscription, and every other channel as before |
| RtmTable.FirstPending | src/rtm_client.cpp:700-708 | the confirmation loops stop at the first entry in key order whose pending request id matches, or find none |
| RtmTable.FirstOfSub | src/rtm_client.cpp:483-487 | the unsubscribe loop stops at the first entry in key order for the caller's subscription, or finds none |
| RtmTable.RemoveAt | src/rtm_client.cpp:725 | `erase(it)` removes exactly one entry |
| RtmTable.RemoveAtSorted | src/rtm_client.cpp:725 | erasing keeps the table in key order |
| RtmTable.RemoveAtFind | src/rtm_client.cpp:725 | after erasing, the erased channel is gone and every other channel is found as before |
| RtmTable.UpdateAt | src/rtm_client.cpp:705-706 | updating an entry in place keeps the table's size |
| RtmTable.UpdateAtFind | src/rtm_client.cpp:705-706 | updating an entry keeps the table sorted; its channel finds the new subscription and every other channel the old one |
| RtmClient.SubscribeRequest | src/rtm_client.cpp:185-207 | `subscribe_request::to_json` is an object of three members: action, body and id |
| RtmClient.UnsubscribeRequest | src/rtm_client.cpp:215-225 | `unsubscribe_request::to_json` is an object of three members: action, body and id |
| RtmClient.PublishRequest | src/rtm_client.cpp:403-413 | the publish document is an object of three members: action, body and id |
| RtmClient.HistoryFind | src/rtm_client.cpp:195-205 | the history holds "age" exactly when an age is given and "count" exactly when a count is given, in key order |
| RtmClient.SubscribeRequestFinds | src/rtm_client.cpp:185-207 | the subscribe request carries the request id and the subscribe body |
| RtmClient.SubscribeBodyFinds | src/rtm_client.cpp:185-207 | the subscribe body names the channel as channel and as subscription id, and has "history" exactly when an age or a count is given |
| RtmClient.SubscribeHistory | src/rtm_client.cpp:185-207 | the subscribe request names the channel as channel and as subscription id, carries the request id, and has "history" exactly when an age or a count is given |
| RtmClient.RequestsSorted | src/rtm_client.cpp:185-225 | the request documents are objects in key order, as the JSON library keeps them |
| RtmClient.BodiesSorted | src/rtm_client.cpp:191-204 | the request bodies are in key order too |
| RtmClient.IdOf | src/rtm_client.cpp:698-699 | an "id" read as `uint64_t` is a number below 2^64 or the unsigned number the PDU holds |
| RtmClient.ClassifyData | src/rtm_client.cpp:657-662 | the body of a data PDU is either a data PDU with its subscription id or malformed |
| RtmClient.Classify | src/rtm_client.cpp:647-700 | a PDU that is not an object, or has no string "action", is malformed; confirmations and responses carry the PDU's "id", and a publish confirmation fails exactly for "rtm/publish/error" |
| RtmClient.Extends | src/rtm_client.cpp:647-768 | what handling input may change: subscriptions and publish times only go, deliveries and errors are only appended to, and the state, request counter and sent requests stay |
| RtmClient.Publish | src/rtm_client.cpp:394-430 | `publish` ends the process exactly when stopped and does nothing while stopping; while running it takes the next request id, appends one request to what was written, leaves the subscriptions and state alone, and adds the id to the publish times without changing the others |
| RtmClient.Subscribe | src/rtm_client.cpp:436-468 | `subscribe_channel` ends the process exactly when stopped and does nothing while stopping; while running it takes the next request id, appends one request, leaves the publish times alone, and grows the table by at most one entry, which is then the channel pending subscribe with the new id |
| RtmClient.Unsubscribe | src/rtm_client.cpp:476-510 | `unsubscribe` does nothing while stopping, and ends the process exactly when stopped or when no entry has the caller's subscription; otherwise it takes the next request id, appends one request, and keeps the table's size and the publish times |
| RtmClient.Start | src/rtm_client.cpp:304-367 | `start` fails its CHECK exactly unless stopped; it runs and reads exactly when the connection is made, and otherwise returns an error; the table and what was written stay |
| RtmClient.Stop | src/rtm_client.cpp:370-391 | `stop` fails its CHECK exactly unless running; it moves to pending stop and returns an error exactly when the timer cancel or the close fails; the table and what was written stay |
| RtmClient.ReadFailed | src/rtm_client.cpp:528-544 | a failed read ends the process exactly when it was cancelled outside a pending stop; a cancelled read stops the client with an empty table; another error is reported once while running and ignored otherwise; no further read is asked for and nothing is written or delivered |
| RtmClient.Apply | src/rtm_client.cpp:647-768 | a malformed PDU ends the process; any other outcome extends the client, and only data delivers messages |
| RtmClient.Answered | src/rtm_client.cpp:697-761 | a response no entry waits for ends the process; otherwise the client is extended, only a confirmed subscribe keeps every entry, and nothing is delivered or confirmed |
| RtmClient.Process | src/rtm_client.cpp:647-768 | `process_input` ends the process on a PDU that is not an object and otherwise only extends the client |
| RtmClient.OnMessage | src/rtm_client.cpp:546-575 | a message that does not parse is dropped and no further read is asked for; a parsed one only extends the client |
| RtmClient.Deliveries | src/rtm_client.cpp:681-685 | the data callback receives every message of the PDU, in order, with the caller's subscription |
| RtmClient.FreshInv | src/rtm_client.cpp:770-783 | a new client satisfies the table invariant |
| RtmClient.PublishInv | src/rtm_client.cpp:394-430 | `publish` keeps the table invariant |
| RtmClient.SubscribeInv | src/rtm_client.cpp:436-468 | `subscribe_channel` keeps the table invariant |
| RtmClient.UnsubscribeInv | src/rtm_client.cpp:476-510 | `unsubscribe` keeps the table invariant |
| RtmClient.StartInv | src/rtm_client.cpp:304-367 | `start` keeps the table invariant |
| RtmClient.StopInv | src/rtm_client.cpp:370-391 | `stop` keeps the table invariant |
| RtmClient.ReadFailedInv | src/rtm_client.cpp:528-544 | a failed read keeps the table invariant |
| RtmClient.AnsweredInv | src/rtm_client.cpp:697-761 | handling a subscribe or unsubscribe response keeps the table invariant |
| RtmClient.ProcessInv | src/rtm_client.cpp:647-768 | `process_input` keeps the table invariant |
| RtmClient.OnMessageInv | src/rtm_client.cpp:546-575 | handling a read message keeps the table invariant |
| RtmClient.PublishTakesNextId | src/rtm_client.cpp:412-413 | while running, `publish` writes one request with the next request id |
| RtmClient.SubscribeTakesNextId | src/rtm_client.cpp:445-448 | while running, `subscribe_channel` writes one request with the next request id |
| RtmClient.UnsubscribeTakesNextId | src/rtm_client.cpp:490 | while running, `unsubscribe` that does not abort writes one request with the next request id |
| RtmClient.RequestsWhileNotRunning | src/rtm_client.cpp:397-401 | while pending stop, publish, subscribe and unsubscribe change nothing; while stopped they fail the CHECK |
| RtmClient.SubscribeEnters | src/rtm_client.cpp:445-448 | subscribing to a channel not in the table enters it as pending subscribe with the new request id, other channels unchanged; one already there leaves the table unchanged |
| RtmClient.PendingFound | src/rtm_client.cpp:700-703 | under the invariant, the first entry awaiting an entry's pending id is that entry |
| RtmClient.Reply | src/rtm_client.cpp:651-653 | a server response of just an action and an id is an object of two members |
| RtmClient.ReplyFields | src/rtm_client.cpp:651-699 | a response's action and id are read back as sent |
| RtmClient.ReplyClassified | src/rtm_client.cpp:651-761 | a response is dispatched on its action, with its id |
| RtmClient.Awaiting | src/rtm_client.cpp:697-761 | every response kind expects an entry in a pending status, never a current one |
| RtmClient.Reported | src/rtm_client.cpp:713-761 | a response reports at most one error |
| RtmClient.ResponseReachesEntry | src/rtm_client.cpp:697-761 | a response for an entry's pending request reaches exactly that entry: subscribe/ok makes it current and idle, the other responses remove it and report their error, and any other status fails the CHECK; other channels are unchanged |
| RtmClient.UnexpectedResponse | src/rtm_client.cpp:697-761 | a response for a request no entry awaits ends the process |
| RtmClient.PublishConfirmed | src/rtm_client.cpp:631-645 | a publish confirmation forgets exactly its id, an error one also reporting a publish error; an id not awaited fails the CHECK |
| RtmClient.PublishThenConfirm | src/rtm_client.cpp:394-430 | a publish followed by its confirmation leaves the awaited publishes as they were |
| RtmClient.DataPdu | src/rtm_client.cpp:656-662 | a data PDU is an object of an action and a body |
| RtmClient.DataPduClassified | src/rtm_client.cpp:656-676 | a data PDU is dispatched as data with its subscription id and messages |
| RtmClient.DataDelivered | src/rtm_client.cpp:656-686 | data for a current subscription reaches its callback, message by message in order; for one pending unsubscribe it is dropped; otherwise the CHECK fails |
| RtmClient.OnlyCurrentDelivers | src/rtm_client.cpp:656-686 | only a data PDU for a current subscription reaches a data callback, whatever the PDU |
| RtmClient.ResubscribeAbortsOnConfirmation | src/rtm_client.cpp:445-448 | subscribing again to a channel in the table writes a request no entry awaits, so its confirmation ends the process |
| RtmClient.UnsubscribeMarks | src/rtm_client.cpp:476-510 | `unsubscribe` marks the first entry for the caller's subscription pending unsubscribe with the new id and names its channel in the request; other channels are unchanged; an unknown subscription fails the CHECK |
| RtmClient.StopThenCancelledRead | src/rtm_client.cpp:370-391 | stopping and then the cancelled read leave the client stopped with no subscriptions; a cancelled read while running fails the CHECK |
| RtmClient.BadMessageStopsReading | src/rtm_client.cpp:560-567 | a message that does not parse is dropped and no further read is asked for |
| RtmSecureClient.SecureClient.constructor | src/rtm_client.cpp:770-783 | a new client is stopped, with request id 0, no subscriptions and no publish awaiting confirmation |
| RtmSecureClient.SecureClient.Start | src/rtm_client.cpp:304-367 | `start` (CHECKed to be called stopped) moves the fields as the state machine's `Start` does: running on a connection, otherwise an ASIO error |
| RtmSecureClient.SecureClient.Stop | src/rtm_client.cpp:370-391 | `stop` (CHECKed to be called running) moves to pending stop and reports a failure to cancel the timer or close |
| RtmSecureClient.SecureClient.Publish | src/rtm_client.cpp:394-430 | `publish` updates the fields as the state machine's `Publish` does |
| RtmSecureClient.SecureClient.Subscribe | src/rtm_client.cpp:436-468 | `subscribe_channel` updates the fields as the state machine's `Subscribe` does |
| RtmSecureClient.SecureClient.FindSub | src/rtm_client.cpp:483-487 | the unsubscribe loop finds the first entry in key order for the caller's subscription |
| RtmSecureClient.SecureClient.FindPending | src/rtm_client.cpp:700-703 | the confirmation loops find the first entry in key order awaiting the request id |
| RtmSecureClient.SecureClient.Unsubscribe | src/rtm_client.cpp:476-510 | `unsubscribe` updates the fields as the state machine's `Unsubscribe` does, or reports that the process ends |
| RtmSecureClient.SecureClient.ReadFailed | src/rtm_client.cpp:528-544 | a failed read updates the fields as the state machine says, or reports that the process ends |
| RtmSecureClient.SecureClient.Respond | src/rtm_client.cpp:697-761 | a subscribe or unsubscribe response, handled by walking the table, updates the fields as the state machine's `Answered` does |
| RtmSecureClient.SecureClient.Receive | src/rtm_client.cpp:546-575 | a message read from the socket updates the fields as the state machine's `OnMessage` does |
| AvUtils.ToAvCodecName | src/avutils.cpp:23-28 | "vp9" becomes FFmpeg's encoder name "libvpx-vp9"; every other name passes unchanged |
| AvUtils.ToAvCodecNameIdempotent | src/avutils.cpp:23-28 | mapping a name twice is mapping it once |
| AvUtils.ToAvPixelFormat | src/avutils.cpp:135-145 | BGR and RGB0 convert, to FFmpeg formats the inverse knows; every other format throws |
| AvUtils.ToImagePixelFormat | src/avutils.cpp:147-157 | BGR24 and RGB0 convert back; every other FFmpeg format throws |
| AvUtils.PixelFormatsInverse | src/avutils.cpp:135-157 | the two pixel-format mappings undo each other on the formats they know |
| AvUtils.Int16 | src/avutils.cpp:475 | the cast to `int16_t` lands in [-2^15, 2^15) and is congruent to the value modulo 2^16 |
| AvUtils.Int16Small | src/avutils.cpp:475 | a value within `int16_t` is kept by the cast |
| AvUtils.ParseImageSize | src/avutils.cpp:462-476 | "original" is the original size; other text FFmpeg cannot parse is a bad-message error |
| AvUtils.ParsedSizeKept | test/avutils_test.cpp:125-135 | a size FFmpeg parses within `int16_t`, such as "137x245", is kept as it is |
| AvUtils.WideSizeWraps | src/avutils.cpp:475 | a width beyond `int16_t` wraps: 40000 becomes -25536 |
| AvUtils.CodecIdOf | src/avutils.cpp:493-504 | a codec id exists exactly for "vp8", "vp9" and "h264"; any other name ends the process |
| AvUtils.CodecIdOfName | src/avutils.cpp:493-504 | each codec's name maps back to its id |
| AvUtils.CodecName | src/avutils.cpp:493-504 | each codec's name is one `codec_id` maps back to that codec |
| CliStreams.Count | src/cli_streams.cpp:117-139 | `vm.count(name)` is 1 exactly when the option was given, else 0 |
| CliStreams.ValidateRtmArgs | src/cli_streams.cpp:142-165 | `validate_rtm_args` accepts exactly when endpoint, appkey and port are given, an input channel or pool when RTM input is enabled, and an output channel when RTM output is enabled; otherwise it names one missing option |
| CliStreams.InputFileArgsNeverRejectedAsWritten | src/cli_streams.cpp:167-174 | as written (`count(...) > 9`), `validate_input_file_args` accepts every map, both files given included |
| CliStreams.ValidateInputFileArgs | src/cli_streams.cpp:167-174 | as intended, `validate_input_file_args` rejects only for the two files excluding each other |
| CliStreams.ValidateInputFileArgsAsWritten | src/cli_streams.cpp:167-174 | as written, a rejection is only ever for the two files, and only when both are given |
| CliStreams.Validate | src/cli_streams.cpp:329-407 | as intended for the input files: more than one source is rejected for that reason; an accepted map does not give both input files, and gives an output resolution that parses when output options are enabled |
| CliStreams.InputFileArgsExclusive | src/cli_streams.cpp:167-174 | the intended check rejects exactly the maps that give both the video file and the replay file |
| CliStreams.SourceCount | src/cli_streams.cpp:330-337 | at most three input sources are counted |
| CliStreams.MoreThanOneSource | src/cli_streams.cpp:337-341 | more than one input source among RTM, file and camera is rejected |
| CliStreams.NoSourceGiven | src/cli_streams.cpp:343-350 | with input groups enabled and no source given, the map is rejected exactly when URL input is not offered |
| CliStreams.AcceptedMeans | src/cli_streams.cpp:329-407 | as intended for the input files, an accepted map has at most one source, complete RTM options for the RTM side in use, the two input files not both, at most one output and one unless in pool mode, not RTM on both sides, and resolutions that parse |
| CliStreams.RtmAndFileOutput | src/cli_streams.cpp:363-366 | RTM output together with file output is rejected |
| CliStreams.RtmInputAndRtmOutput | src/cli_streams.cpp:382-385 | RTM input together with RTM output is rejected |
| CliStreams.InputResolution | src/cli_streams.cpp:466-470 | the input resolution is "input-resolution" if given, else "output-resolution", else "original" |
| CliStreams.AcceptedResolutionParses | src/cli_streams.cpp:390-405 | an accepted configuration whose input resolution comes from a checked option has a resolution that parses |
| StreamsImpl.Pull | src/streams/streams_impl.h:104-114 | for a demand, the drain delivers at most that many items and completes exactly when it delivers fewer |
| StreamsImpl.GeneratorSource.constructor | src/streams/streams_impl.h:345-346 | a generator subscription starts from the generator's initial state with nothing requested or delivered |
| StreamsImpl.GeneratorSource.Request | src/streams/streams_impl.h:163-169 | `request(n)` with n > 0 adds n to the demand, then delivers what `Pull` gives for it, completing the subscription when the generator ends |
| StreamsImpl.GeneratorSource.Drain | src/streams/streams_impl.h:86-115 | the drain loop delivers exactly `Pull` of the outstanding demand; the delivered count matches the `on_next` events and the demand is met unless the subscription ended |
| StreamsImpl.GeneratorSource.DrainOnce | src/streams/streams_impl.h:122-128 | one generator call either delivers one item counted against the demand or completes the subscription |
| StreamsImpl.GeneratorSource.Cancel | src/streams/streams_impl.h:152-160 | `cancel` ends the subscription and changes nothing else |
| StreamsImpl.OfPull | src/streams/streams_impl.h:291-309 | `of` delivers the remaining values in order and completes once the demand outlasts them |
| StreamsImpl.OfThreeValues | test/streams_test.cpp:62-65 | `of({3, 1, 2})` yields "3", "1", "2", "." |
| StreamsImpl.RangePull | src/streams/streams_impl.h:312-324 | `range(from, to)` with from <= to delivers from..to-1 in order and completes once the demand outlasts them |
| StreamsImpl.RangePastEndNeverCompletes | src/streams/streams_impl.h:315 | with from > to the equality test never fires, so the range counts upwards without completing |
| StreamsImpl.RangeZeroToThree | test/streams_test.cpp:67-70 | `range(0, 3)` yields "0", "1", "2", "." |
| StreamsImpl.TakeForward | src/streams/streams_impl.h:1037-1043 | `take(n)` passes on min(m, n - requested), never more than asked for nor beyond n, and passes on something exactly when m > 0 and fewer than n were requested |
| StreamsImpl.TakeZeroForwardsNothing | src/streams/streams_impl.h:1038-1039 | `take(0)` never requests anything upstream |
| StreamsImpl.Take.constructor | src/streams/streams_impl.h:1001 | a take stage starts with nothing received or requested |
| StreamsImpl.Take.Request | src/streams/streams_impl.h:1037-1043 | `request` forwards `TakeForward` of the request and records it |
| StreamsImpl.Take.OnNext | src/streams/streams_impl.h:1008-1018 | each item is forwarded; after the n-th the source is cancelled and the stream completes |
| StreamsImpl.Take.OnComplete | src/streams/streams_impl.h:1025-1030 | completion is passed on |
| StreamsImpl.Take.OnError | src/streams/streams_impl.h:1020-1023 | an error is passed on |
| StreamsImpl.TakeWhileStopsAtFirstFailure | src/streams/streams_impl.h:951-959 | items before the first failing one are forwarded, that one is not, and the stream completes there |
| StreamsImpl.TakeWhileAllPass | src/streams/streams_impl.h:951-959 | when every item passes, all are forwarded and nothing completes |
| StreamsImpl.TakeWhileBelowTen | test/streams_test.cpp:96-101 | `range(2, ...) >> take_while(i < 10)` yields "2" to "9", "." |
| StreamsImpl.TakeWhile.constructor | src/streams/streams_impl.h:947-948 | a take_while stage starts with nothing fed |
| StreamsImpl.TakeWhile.OnNext | src/streams/streams_impl.h:951-959 | a passing item is forwarded; a failing one cancels the source and completes, and then the output is `TakeWhileEvents` of everything fed |
| StreamsImpl.TakeWhile.OnComplete | src/streams/streams_impl.h:966-969 | completion is passed on |
| StreamsImpl.TakeWhile.OnError | src/streams/streams_impl.h:961-964 | an error is passed on |
| StreamsImpl.LastMatch | src/streams/streams_impl.h:1298-1300 | the remembered element satisfies the predicate and was fed; there is none exactly when no fed element satisfied it |
| StreamsImpl.RepeatIf.constructor | src/streams/streams_impl.h:1289-1295 | `repeat_if` starts with no last element and a zero packet count |
| StreamsImpl.RepeatIf.OnData | src/streams/streams_impl.h:1297-1310 | a non-matching element at least n packets after the last match is preceded by a repeat of that match, which is the last fed element satisfying the predicate; the count resets on a match or a repeat |
| StreamsImpl.IsComplete | src/streams/streams_impl.h:587-601 | merge is complete exactly when every expected upstream subscribed, none is active and no item is buffered |
| BotInstance.Lookup | src/cbor_tools.h:10-45 | `cbor::map(m).get(key)` and `get_str(key, "")` find the value of the first entry whose key is the given text, and the default exactly when no entry has that key |
| BotInstance.Uint64 | src/bot_instance.cpp:201-202 | `static_cast<uint64_t>` keeps non-negative 64-bit ids and adds 2^64 to negative ones |
| BotInstance.Stamp | src/bot_instance.cpp:196-209 | a stamped payload keeps its entries and gains one entry when the first id is not negative and one when the bot has an id |
| BotInstance.StampedFields | src/bot_instance.cpp:196-209 | for a map payload that entries can be added to: "i" is present exactly when the effective first id is not negative and holds both ids as 64-bit unsigned; "from" is present exactly when the bot has an id and holds it |
| BotInstance.SecondIdFallback | src/bot_instance.cpp:197 | a message without a second id takes the frame's first id as its second id |
| BotInstance.ControlFlushWrapsSecondId | src/bot_instance.cpp:174 | a message with first id 7 and no second id, flushed by a control message, carries [7, 2^64 - 1] |
| BotInstance.StampAll | src/bot_instance.cpp:178-210 | every buffered message is stamped, in order |
| BotInstance.Send | src/bot_instance.cpp:177-212 | `send_messages` hands exactly one batch to the environment, keeps earlier batches and empties the buffer |
| BotInstance.ControlSendsPerAddressed | src/bot_instance.cpp:139-175 | a control message sends one batch per map addressed to the bot, arrays included, and nothing for anything else |
| BotInstance.ControlSendsPerAddressedAll | src/bot_instance.cpp:145-149 | the elements of an array send one batch per addressed map among them |
| BotInstance.Answer | src/bot_instance.cpp:161-174 | an addressed control map sends exactly one batch, the old buffer plus the response if there is one, and empties the buffer |
| BotInstance.ControlEffect | src/bot_instance.cpp:139-175 | a control item leaves the outbox as it was or leaves it with an empty buffer |
| BotInstance.NoIdIgnoresControl | src/bot_instance.cpp:157-159 | a bot without an id ignores every control message |
| BotInstance.NoIdIgnoresControlAll | src/bot_instance.cpp:145-159 | a bot without an id ignores every element of a control array |
| BotInstance.ControlResponseSent | src/bot_instance.cpp:161-174 | a response to an addressed request goes out last in its batch as CONTROL with id {0, 0}, with the request's request_id and the bot's id and no "i" |
| BotInstance.NextMetadata | src/bot_instance.cpp:115-120 | the recorded image size follows the frame's width and is replaced, height and strides included, only when the width changed |
| BotInstance.HeightOnlyChangeIgnored | src/bot_instance.cpp:115 | a frame that changes only the height leaves the recorded height as it was |
| BotInstance.Messages | src/bot_instance.cpp:100-107 | each queue_message call becomes one buffered message with its data, kind and id |
| BotInstance.Bot.constructor | src/bot_instance.cpp:56-63 | a bot starts with its id, an empty buffer and a zero image size |
| BotInstance.Bot.QueueMessage | src/bot_instance.cpp:100-107 | `queue_message` appends one message with the given kind and id |
| BotInstance.Bot.SendMessages | src/bot_instance.cpp:177-212 | `send_messages` leaves the outbox as `Send` of the old one |
| BotInstance.Bot.ProcessFrame | src/bot_instance.cpp:111-137 | the frame visitor updates the image size by `NextMetadata` and sends the buffer, with the callback's messages, stamped with the frame's id |
| BotInstance.Bot.ProcessControl | src/bot_instance.cpp:139-175 | the control visitor leaves the outbox as `ControlEffect` of the message |
| VideoFileSink.Millis | src/video_file_sink.cpp:277-282 | `duration_cast<milliseconds>` truncates toward zero: the floor for non-negative ticks and the negated floor of the magnitude for negative ones |
| VideoFileSink.CurrentFilename | src/video_file_sink.cpp:272-275 | without a segment duration the file keeps the output path |
| VideoFileSink.SegmentName | src/video_file_sink.cpp:277-289 | a segment is named parent/stem-<first ms>-<last ms>.ext from its first and last timestamps, with a single separator after the parent folder: none after a parent that already ends in '/' and none for an empty parent |
| VideoFileSink.RootOutputPath | src/video_file_sink.cpp:272-289 | the output path "/out.mkv" in the root folder keeps its name unsegmented, and its segments are "/out-<first ms>-<last ms>.mkv" with one '/' |
| VideoFileSink.WriteFrame | src/video_file_sink.cpp:154-159 | the first frame written fixes the start timestamp, every frame moves the last one, and the frame is appended to the file |
| VideoFileSink.WriteFrameOk | src/video_file_sink.cpp:154-159 | writing a frame keeps the writer's timestamps those of its first and latest frame |
| VideoFileSink.MetadataStep | src/video_file_sink.cpp:218-224 | only the first metadata creates the decoder; later ones change nothing |
| VideoFileSink.Release | src/video_file_sink.cpp:260-270 | `release_writer` closes the file and records exactly one rename, from the file's name |
| VideoFileSink.FrameStep | src/video_file_sink.cpp:226-257 | without a decoder nothing changes; a frame renames at most one file; a key frame once the size is known leaves a file open |
| VideoFileSink.SegmentDue | src/video_file_sink.cpp:241-244 | only a key frame, with a segment duration and an open file, closes a segment, and only once at least the duration has passed since the file's start |
| VideoFileSink.NoSizeNoWrite | src/video_file_sink.cpp:232-239 | a frame that leaves the image size unknown is dropped and opens no file |
| VideoFileSink.NoKeyFrameNoFile | src/video_file_sink.cpp:241-256 | until a key frame opened a file, frames are not written and nothing is renamed |
| VideoFileSink.DueKeyFrameStartsSegment | src/video_file_sink.cpp:241-256 | a key frame at least one segment duration after the file's start closes that file under its segment name and starts a new file holding this frame |
| VideoFileSink.FrameExtendsFile | src/video_file_sink.cpp:254-256 | a frame that does not start a segment is written to the current file |
| VideoFileSink.NoSegmentOneFile | src/video_file_sink.cpp:242-243 | without a segment duration a stream never renames a file, and an open file stays the one written |
| VideoFileSink.OnFrameKeepsWriterOk | src/video_file_sink.cpp:226-257 | every frame keeps the writer's timestamps those of its first and latest frame |
| VideoFileSink.Sink.constructor | src/video_file_sink.cpp:203-210 | a sink starts with no decoder, no file and nothing renamed |
| VideoFileSink.Sink.OnMetadata | src/video_file_sink.cpp:218-224 | the metadata visitor leaves the state as `MetadataStep` |
| VideoFileSink.Sink.ReleaseWriter | src/video_file_sink.cpp:260-270 | `release_writer` closes the file and renames it to `current_filename` |
| VideoFileSink.Sink.OnFrame | src/video_file_sink.cpp:226-257 | the frame visitor leaves the state as `FrameStep` |
| VideoFileSink.Sink.Close | src/video_file_sink.cpp:212-216 | the destructor releases an open file and changes nothing otherwise |
| PoolController.Capacity | src/pool_controller.cpp:59 | the spare capacity is `max - running` in 64-bit `size_t`: exact while the node is within capacity, wrapped around 2^64 beyond it |
| PoolController.OverCapacityWraps | src/pool_controller.cpp:59 | a node of capacity 1 running 2 jobs advertises 2^64 - 1 |
| PoolController.Heartbeat | src/pool_controller.cpp:58-64 | the heartbeat is a JSON object whose keys are in order |
| PoolController.HeartbeatMembers | src/pool_controller.cpp:58-64 | the heartbeat has three members, in key order |
| PoolController.HeartbeatFields | src/pool_controller.cpp:58-64 | the heartbeat has exactly "from" (the node id), "active_jobs" (the listed jobs) and "available_capacity" (the job type mapped to the spare capacity) |
| PoolController.ShutdownNote | src/pool_controller.cpp:71-75 | the shutdown note is a JSON object whose keys are in order |
| PoolController.ShutdownNoteFields | src/pool_controller.cpp:71-75 | the shutdown note has exactly "from", "job_type", "reason" = "shutdown" and "stopped_jobs" |
| PoolController.DispatchAsWritten | src/pool_controller.cpp:84-96 | as written, a message not addressed to the node (no "to", or another id) is ignored |
| PoolController.AddressedTo | src/pool_controller.cpp:84-92 | a message is addressed to the node exactly when it is an object that has "to" and whose `msg["to"]` is the node id |
| PoolController.Subscript | src/pool_controller.cpp:84-92 | `msg[key]` is the value of a member with that key when there is one, and null otherwise |
| PoolController.Dispatch | src/pool_controller.cpp:84-96 | as intended, an addressed message with "start_job" starts that job, one without it but with "stop_job" stops that job, and anything else not addressed is ignored |
| PoolController.DispatchersAgreeOnStart | src/pool_controller.cpp:85-90 | the code as written and the corrected dispatch agree on every message except addressed stop commands |
| PoolController.StopJobIgnoredAsWritten | src/pool_controller.cpp:91-92 | as written, {"to": id, "stop_job": job} is reported as an unknown command where the corrected dispatch stops the job |
| PoolController.StobJobStopsNullAsWritten | src/pool_controller.cpp:91-92 | as written, a message with the key "stob_job" stops the job null |
| PoolController.PoolJobController.constructor | src/pool_controller.cpp:12-33 | a controller keeps its pool, job type and capacity, its node id is the decimal text of a 64-bit number, and it has not yet joined the pool |
| PoolController.PoolJobController.Start | src/pool_controller.cpp:41-47 | `start` subscribes to the pool channel, arms the timer and publishes one heartbeat |
| PoolController.PoolJobController.OnHeartbeat | src/pool_controller.cpp:49-68 | `on_heartbeat` re-arms the timer and publishes the heartbeat for the listed jobs |
| PoolController.PoolJobController.Shutdown | src/pool_controller.cpp:70-80 | `shutdown` posts one publication of the shutdown note and publishes nothing directly |
| PoolController.PoolJobController.OnData | src/pool_controller.cpp:82-106 | as intended, `on_data` adds the job of a start command or removes the job of a stop command, as `Dispatch` decides, and nothing else |
| PoolController.PoolJobController.Close | src/pool_controller.cpp:35-39 | the destructor leaves the pool channel when the controller was started |
| Conan.Executed | conanfile.py:50-52 | the commands run are a prefix of the build's commands, all but the last succeeded, and a shorter prefix ends with the one that failed |
| Conan.ExecutedAll | conanfile.py:50-52 | every command runs when none fails; otherwise the last one run failed |
| Conan.FailureStopsTheRest | conanfile.py:50-52 | nothing after a failing command runs |
| Conan.PathTextEndsWith | conanfile.py:59-60 | a path spelled with '/' between its components ends with its file name |
| Conan.RelativePath | conanfile.py:59-60 | the path of a file below a rule's source folder, relative to that folder, ends with the file's name |
| Conan.Relative | conanfile.py:59-60 | the directories kept from a file below a rule's source folder |
| Conan.LiteralMatches | conanfile.py:57 | a pattern that starts with literal characters matches exactly the texts that start with them and go on as the rest of the pattern does |
| Conan.LiteralMatchesOnly | conanfile.py:57 | a pattern without '*', such as "opencv", matches only the identical relative path |
| Conan.StarMatchesAll | conanfile.py:59-65 | '*' alone matches every text, '/' included |
| Conan.StarSkips | conanfile.py:59-65 | a leading '*' passes over any text before what the rest of the pattern matches |
| Conan.StarFinds | conanfile.py:59-65 | a text a leading '*' matches has a suffix that the rest of the pattern matches |
| Conan.StarSuffix | conanfile.py:59-65 | `*<suffix>` (no '*' in the suffix) matches every text that ends with the suffix |
| Conan.NameMatches | conanfile.py:59-65 | a rule `*.h`, `*.lib` and so on matches a relative path whose file name ends with the extension, whatever its folders |
| Conan.SuffixRuleSelects | conanfile.py:59-65 | a rule `*<suffix>` selects every file below its source folder whose name ends with the suffix and that no exclude matches |
| Conan.PathTextSnoc | conanfile.py:59-60 | one more component adds '/' and that component to the text |
| Conan.PathTextAppendLast | conanfile.py:59-60 | the text of two paths ends with '/' and the last component of the second |
| Conan.PathTextSplit | conanfile.py:59-60 | the text of two paths one after the other is the two texts joined by '/' |
| Conan.SeparatorInside | conanfile.py:59-60 | a text that covers the '/' before a path's last component contains '/' |
| Conan.OccursInComponent | conanfile.py:59-60 | a text without '/' that occurs in a path's text occurs within one of its components |
| Conan.DirectoryExcludes | conanfile.py:55-60 | the folder patterns are two: `<name>/*` directly below `src` and `*/<name>/*` further down |
| Conan.HeadDirectoryMatches | conanfile.py:55-60 | a file in a folder `<name>` directly below `src` matches `<name>/*` |
| Conan.InnerDirectoryMatches | conanfile.py:55-60 | a file in a folder `<name>` further down matches `*/<name>/*` |
| Conan.DirectoryMatches | conanfile.py:55-60 | every file with a folder named `<name>` on its relative path matches one of the two folder patterns |
| Conan.DirectoryExcludesOccur | conanfile.py:55-60 | a text either folder pattern matches contains `<name>` |
| Conan.DirectoryExcludesUnused | conanfile.py:55-60 | the folder patterns match no file none of whose components contains `<name>` |
| Conan.LibraryRulesKeepOut | conanfile.py:61-65 | the library rules flatten into `lib` and `bin`, so no other folder name appears in their destinations |
| Conan.Destination | conanfile.py:59-65 | a copied file lands below `dst` under its own name, keeping its directories below `src` with `keep_path` and flattened without it |
| Conan.CopyFiles | conanfile.py:59-65 | one `self.copy` copies exactly the listed files the rule selects, each to its destination |
| Conan.Selected | conanfile.py:59-65 | a rule selects only files strictly below its source folder whose path relative to it matches its pattern, and none that an exclude pattern matches |
| Conan.Collect | conanfile.py:54-65 | no rules copy nothing |
| Conan.CollectFrom | conanfile.py:54-65 | every packaged copy comes from a listed file that one of the rules selects, at that rule's destination |
| Conan.CollectHas | conanfile.py:54-65 | every listed file a rule selects is packaged at that rule's destination |
| Conan.CollectSnoc | conanfile.py:54-65 | one more `self.copy` appends its copies to the package |
| Conan.Directories | conanfile.py:55-57 | the directories of a path are all its components but the last |
| Conan.NoCopyInDirectory | conanfile.py:55-60 | rules that keep a name out of their destinations, and exclude the patterns `<name>/*` and `*/<name>/*` where they keep paths, package nothing in a directory of that name |
| Conan.DestinationKeepsOut | conanfile.py:55-60 | a file selected by a rule that keeps a name out lands in no directory of that name |
| Conan.CollectAppend | conanfile.py:54-65 | two groups of copy rules package the concatenation of their copies |
| Conan.ExcludedNotCopied | conanfile.py:59-60 | a file whose path relative to `src` an exclude pattern matches is not copied |
| Conan.UnusedExcludeChangesNothing | conanfile.py:55-60 | exclude patterns that match no listed file below `src` leave the rule's copies as they were |
| Conan.LibrariesFlattened | conanfile.py:61-65 | every packaged library lands directly in `lib` or `bin` under its own name |
| SatoriVideoRecipe.DefaultOptions | conanfile.py:24-25 | OpenCV is on and no sanitizer is set by default |
| SatoriVideoRecipe.DependenciesStaticAndPic | conanfile.py:26-35 | every default option of the native dependencies turns `shared` off or `fPIC` on |
| SatoriVideoRecipe.Requires | conanfile.py:12-20 | the nine pinned requirements always come first, and OpenCV is added exactly when `with_opencv` is set |
| SatoriVideoRecipe.Definitions | conanfile.py:46-47 | `CMAKE_CXX_SANITIZER` is defined, to the sanitizer, exactly when one is set, and nothing else is defined |
| SatoriVideoRecipe.BuildCommands | conanfile.py:49-52 | `build` runs three commands: configure first, with `CMAKE_CXX_SANITIZER` exactly when a sanitizer is set, and the tests last |
| SatoriVideoRecipe.HeaderExcludesAsWritten | conanfile.py:55-57 | as written, the header rules exclude nothing with OpenCV and the single pattern "opencv" without it |
| SatoriVideoRecipe.HeaderExcludes | conanfile.py:55-57 | as intended, the header rules exclude nothing exactly when OpenCV is on |
| SatoriVideoRecipe.CopyRulesAsWritten | conanfile.py:54-65 | as written, `package` applies the two header rules with the written excludes, then the five library rules |
| SatoriVideoRecipe.CopyRules | conanfile.py:54-65 | as intended, `package` applies the two header rules with the folder patterns, then the five library rules |
| SatoriVideoRecipe.HeaderRules | conanfile.py:59-60 | both header copies take `*.h`, keep paths and share the same excludes |
| SatoriVideoRecipe.OpencvHeaderPackagedAsWritten | conanfile.py:55-59 | as written, include/satorivideo/opencv/opencv_utils.h is packaged at its own path without OpenCV: "opencv" does not match "satorivideo/opencv/opencv_utils.h" |
| SatoriVideoRecipe.NoOpencvDirectoryWithoutOpencv | conanfile.py:55-60 | as intended, without OpenCV no packaged file lies in an "opencv" directory |
| SatoriVideoRecipe.HeadersKeptWithOpencv | conanfile.py:59 | with OpenCV every public header is packaged at its own path |
| SatoriVideoRecipe.HeaderRulesCollect | conanfile.py:59-60 | the header rules package the first rule's copies, then the second's |
| SatoriVideoRecipe.HeaderExcludesUnused | conanfile.py:55-60 | the intended folder patterns match no file none of whose folder or file names contains "opencv" |
| SatoriVideoRecipe.OpencvOptionOnlyDropsOpencv | conanfile.py:55-57 | as intended, `with_opencv` changes the package only through files with "opencv" in a folder or file name |
| SatoriVideoRecipe.Recipe.constructor | conanfile.py:12-20 | a recipe starts with the base requirements and has run, logged, packaged and exported nothing |
| SatoriVideoRecipe.Recipe.Requirements | conanfile.py:40-42 | `requirements` leaves the requirements as `Requires` of the options |
| SatoriVideoRecipe.Recipe.Run | conanfile.py:50-52 | `self.run` records the command and reports its success |
| SatoriVideoRecipe.Recipe.Build | conanfile.py:44-52 | `build` logs the configure command and runs configure, compile and test until one fails, succeeding exactly when all do |
| SatoriVideoRecipe.Recipe.CopyMatching | conanfile.py:59-65 | one `self.copy` appends the copies of its rule to the package |
| SatoriVideoRecipe.Recipe.Package | conanfile.py:54-65 | as intended, `package` packages exactly `Collect` of the recipe's copy rules |
| SatoriVideoRecipe.Recipe.CopyHeaders | conanfile.py:59-60 | the two header copies package `Collect` of the header rules |
| SatoriVideoRecipe.Recipe.CopyLibraries | conanfile.py:61-65 | the five library copies package `Collect` of the library rules |
| SatoriVideoRecipe.Recipe.PackageInfo | conanfile.py:67-68 | the package exports the library "rtmvideo" |
| DecoderRecipe.FfmpegOptions | decoder/conanfile.py:18-21 | FFmpeg's `emcc` and `shared` follow this package's `emcc`, `fPIC` is on, and its other options are kept |
| DecoderRecipe.BuildCommands | decoder/conanfile.py:23-27 | `build` configures with only `CMAKE_VERBOSE_MAKEFILE`, then compiles, and runs no tests |
| DecoderRecipe.HeadersPackaged | decoder/conanfile.py:30 | every header below librtmvideo/include is packaged at its path below `include` |
| DecoderRecipe.HeaderRule | decoder/conanfile.py:30 | the header rule copies `*.h` from librtmvideo/include into include, keeping paths, with nothing excluded |
| DecoderRecipe.Recipe.constructor | decoder/conanfile.py:12-13 | a recipe starts from the requirement's default options and has run, packaged and exported nothing |
| DecoderRecipe.Recipe.Requirements | decoder/conanfile.py:18-21 | `requirements` leaves FFmpeg's options as `FfmpegOptions` |
| DecoderRecipe.Recipe.Run | decoder/conanfile.py:25-27 | `self.run` records the command and reports its success |
| DecoderRecipe.Recipe.Build | decoder/conanfile.py:23-27 | `build` configures, then compiles unless configuring failed, succeeding exactly when both do |
| DecoderRecipe.Recipe.CopyMatching | decoder/conanfile.py:30-35 | one `self.copy` appends the copies of its rule to the package |
| DecoderRecipe.Recipe.Package | decoder/conanfile.py:29-35 | `package` packages exactly `Collect` of the recipe's copy rules |
| DecoderRecipe.Recipe.CopyLibraries | decoder/conanfile.py:31-35 | the five library copies package `Collect` of the library rules |
| DecoderRecipe.Recipe.PackageInfo | decoder/conanfile.py:37-38 | the package exports the library "rtmvideo-decoder" |

## Left out

- Floating point: CBOR half, single and double floats are carried as bit patterns. Widening a half or single float to a JSON double is the outcome `NotModelled`, and so is the dump text of a float.
- CborJson: JSON objects are kept in `std::map` key order. The comparison is bytewise, as `std::string`'s `operator<` compares.
- CborJson.JsonToCbor: unsigned numbers are serialized through `JsonToItem`, whose corrected `IntegerItem` writes them as unsigned integers; the branch as written is `IntegerItemAsWritten` (see Findings). `cbor_serialize_alloc`'s buffer growth and libcbor's reference counts are not modelled; only the bytes are.
- Data: the CBOR forms of the network packets (`to_cbor`) and the JSON field reading of `flow_json_decoder`'s `decode_metadata_frame` and `decode_network_frame` are not modelled. The latter reads rapidjson documents.
- FlowJsonDecoder: the decoded frame's timestamp is kept at 0, since the clock is not modelled, and the FFmpeg decoding of the frame is left out.
- FlowRtmAggregator and FrameAggregator: `empty`, `init` and `start` only connect the source to its sinks.
- VideoStreams: `report_frame_dynamics` only updates metrics.
- Deferred: the sharing of one `deferred_impl` between copies of a `deferred` is not modelled. The callback's effect is recorded as the list of outcomes it was called with.
- ErrorOr: the union storage and the placement construction of the value are not modelled. The state is a value or an error condition, and `move` leaves the condition VALUE_WAS_MOVED.
- RtmClient:
  - the websocket, SSL, DNS and timer I/O of `start`, `stop`, `ask_for_read` and the ping are not modelled;
  - their results are the parameters `connected`, `timerCancelled`, `closed` and `parsed`;
  - `position`, `is_up` and subscriptions with a filter are not modelled: the source aborts in each of them (src/rtm_client.cpp:470-473 and 512-518);
  - publish times are recorded but the latency metrics are not.
- ChannelPosition.EmptyPositionAccepted and ChannelPosition.NegativeGenerationWraps describe the code as written. "5:" reads as {5, 0}, and "-1:0" passes the range `CHECK` and is cast. Whether the authors meant to accept these is not clear, so they are not listed as findings.
- CliStreams: the option descriptions, `to_boost`, the configuration-file handling and the construction of sources and sinks are not modelled.
- CliStreams.AcceptedResolutionParses: FFmpeg's parsing of a size is the parameter `avParsed`, read through `AvUtils.ParseImageSize`.
- AvUtils: the rest of `avutils.cpp` is FFmpeg calls, and FFmpeg's size parser is the parameter `avParsed`.
- StreamsImpl:
  - the `map`, `flat_map`, `head`, `lift`, `do_finally` and async publishers are not modelled;
  - neither are merge's buffering and subscription plumbing, nor the worker and channel operators, which need threads;
  - the re-entrant `_drain_requested` path of `drain` is not modelled, because a generator's `drain_impl` always returns true.
- StreamsImpl.RepeatIf.OnData: the `uint64_t` packet counter is unbounded here; it would need 2^64 packets to wrap.
- StreamsImpl.Take.Request: the `long` demand arithmetic is unbounded here, so a request overflowing `long` is not modelled.
- BotInstance:
  - the image callback is modelled by the messages it queues (`calls`);
  - the control callback is the parameter `respond`;
  - the metrics, and the plane data handed to the callback, are not modelled;
  - the environment's `send_messages` is recorded as a list of batches.
- VideoFileSink:
  - FFmpeg decoding and muxing are left out;
  - the image size the stream decoder finds is the parameter `decoded`;
  - temporary file names are the parameter `tempName`;
  - a failed rename, which `CHECK`s, is not modelled;
  - `mkv_sink.cpp` repeats the same segmentation rule and is not part of this model. There, names use raw clock ticks rather than milliseconds.
- PoolController:
  - the job controller's `list_jobs`, `add_job` and `remove_job` are parameters or recorded lists;
  - the heartbeat period and the event-loop `post` are recorded, not timed;
  - the node id's random number is the constructor parameter `nodeNumber`.
- Conan:
  - `fnmatch` patterns are modelled for literal characters and '*', matched against the '/'-joined path relative to `src`; '?' and '[...]' are not modelled, since neither recipe uses them;
  - some releases of the tool also skip a folder whose relative path an exclude matches. The model applies excludes to files only. For "opencv" such a skip could drop only files below `include/opencv`, `src/opencv` or a deeper "opencv" folder. The tree has src/opencv/, but it holds only `.cpp` files, which the header rules' `*.h` pattern does not select. The intended folder patterns already match every file such a skip would drop;
  - the `cmake` command line is the tool's and is not spelled out;
  - whether a command succeeds is a parameter;
  - option validation and the recipes' metadata attributes (name, version, url, license, settings, generators) belong to the tool.
- Base64.Decode: reading past the end of the text is undefined behaviour in C++. The model takes what happens in practice: the iterator reads the terminating NUL, the conversion throws, and `decode` fails with EBADMSG.
- VideoStreams.VisitPacket: src/video_streams.cpp:80 and :100 call `decode64`, which base64.h does not declare. The model takes it to be `base64::decode`, and a failure to decode is carried as the EBADMSG outcome in the packet.
- Data.MetadataToNetwork: src/data.cpp:57 calls `encode64`, which base64.h does not declare (it declares `encode` and `decode`). The model takes it to be `base64::encode`.
- Data.ToNetwork: src/data.cpp:67 calls `encode64`, taken to be `base64::encode` as for `Data.MetadataToNetwork`.
- FlowRtmAggregator.OnMetadata: src/flow_rtm_aggregator.cpp:16 calls `decode64`, which base64.h does not declare. The model takes it to be `base64::decode`; `decode64` returns a `std::string`, and what it gives for text that does not decode is unknown, so the model carries the EBADMSG outcome instead.
- FlowRtmAggregator.Aggregator.OnFrameUpdate: src/flow_rtm_aggregator.cpp:39 calls `decode64`, taken as for `FlowRtmAggregator.OnMetadata`; a join that does not decode goes out as a frame holding the EBADMSG outcome.
- FlowJsonDecoder.Processed: src/flow_json_decoder.cpp:80 calls `decode64` (and :18 for the metadata, whose JSON reading is not modelled), taken as for `FlowRtmAggregator.OnMetadata`; text that does not decode gives a frame holding the EBADMSG outcome.
- FrameAggregator.ReassemblesSentFrame, FlowJsonDecoder.ReceivesSentFrame and FlowRtmAggregator.MetadataReachesSinks: these round trips rest on `encode64` and `decode64` being `base64::encode` and `base64::decode`, as the lines above take them.
- CborJson.JsonToItem: unsigned numbers are built by the corrected `IntegerItem`; the branch as written, which makes a negative integer of an unsigned number of 2^63 or more, is `IntegerItemAsWritten` (see Findings and `CborJson.UnsignedAsWrittenFlipsSign`).
- CborJson.RoundTrip: stated about the corrected `IntegerItem` (see Findings); `IntegerItemAsWritten` flips the sign of unsigned numbers from 2^63 on.
- CborJson.JsonThroughCbor: stated about the corrected `IntegerItem`, as `CborJson.RoundTrip` is.
- CborTools.Dump: writes negative integers by `NegativeText` and booleans by `BoolText`, the intended texts (see Findings); the as-written texts are `NegativeAsWrittenOffByOne` and `BoolAsWrittenIsNumber`.
- CliStreams.Validate: uses the intended `ValidateInputFileArgs` (see Findings); as written, that check accepts every map.
- CliStreams.AcceptedMeans: stated about `Validate`, so it holds for the intended file check only.
- PoolController.PoolJobController.OnData: dispatches by the corrected `Dispatch` (see Findings); as written, a stop command is reported as unknown.
- SatoriVideoRecipe.Recipe.Package: packages by the intended `CopyRules` (see Findings); as written, the OpenCV headers are packaged without OpenCV.
- Deferred.Map: a pure function of the resolution. The source's `map` registers its callback with `on`, taking the deferred's single callback slot (a second `on` fails its `CHECK`). That slot is not modelled.
- Deferred.Then: a pure function of the resolution, as `Deferred.Map` is. The source's `then` takes the callback slot of this deferred and of the inner one.
- BotInstance.Bot.QueueMessage: the payload is the entries of a CBOR map. The source queues any CBOR item; the OpenCV debug logger queues a definite array. Payloads other than maps are not modelled.
- BotInstance.Stamp: appends "i" and "from" to the entries whatever the map is. `cbor_map_add` leaves a full definite map unchanged and is undefined on an item that is not a map; neither case is modelled.
- BotInstance.Stamp: "from" is built from `_bot_id.c_str()`, which ends at the first NUL byte; the model uses the whole id.
- BotInstance.StampedFields: stated for a map payload that entries can be added to, as `BotInstance.Stamp` assumes.
- BotInstance.ControlResponseSent: the response is a map, as the `CHECK` at src/bot_instance.cpp:164 demands. Its capacity as a definite map is not modelled: "request_id" and "from" are always appended.
- BotInstance.Lookup: the bodies of `cbor::map_get` and `cbor::map_get_str` (declared at src/cbor_tools.h:10-23) are not part of this model. The model takes them to do what the header says: the value of the first entry whose key is a definite text string equal to the name, else the default. `get_str` then compares a definite text string value; an indefinite string value under "to" is not modelled.
- RtmClient: the `uint64_t` request counter `_request_id` is unbounded here; it would need 2^64 requests to wrap.
- RtmSecureClient.SecureClient.Publish: takes no callbacks. The source's `publish` `CHECK`s that its callbacks are null (src/rtm_client.cpp:395), so a call with callbacks, which aborts, is not modelled.
- The test recipe under test_package/, the player and recorder programs, the decoders built on FFmpeg, the OpenCV helpers, the metrics, the threaded workers and the RTM sinks and sources are outside this model.

## Findings

| source | as written | input that shows it | evidently intended | confidence | as-written member | corrected member |
|---|---|---|---|---|---|---|
| src/cbor_json.cpp:19-22 | `is_number_integer()` is also true for unsigned numbers, so `get<int64_t>()` reinterprets them; an unsigned number of 2^63 or more becomes a negative integer, and the unsigned branch at lines 49-65 is never reached | the JSON unsigned number 2^63 encodes as major type 1 and reads back as -2^63 | unsigned numbers take the unsigned branch and round-trip | not executed | CborJson.UnsignedAsWrittenFlipsSign | CborJson.IntegerRoundTrip |
| src/cbor_tools.cpp:9-11 | a negative integer prints '-' followed by the raw CBOR argument v, whose value is -1-v | the CBOR item -1 (argument 0) prints "-0" | the text of -1-v | not executed | CborTools.NegativeAsWrittenOffByOne | CborTools.NegativeTextValue |
| src/cbor_tools.cpp:71-74 | `out << cbor_ctrl_is_bool(item)` writes a `bool` without `boolalpha` | the CBOR item true prints "1" | the JSON literals "true" and "false" | not executed | CborTools.BoolAsWrittenIsNumber | CborTools.LiteralText |
| src/frame_aggregator.h:25-26 | `_chunks` and `_expected_chunk` are `uint8_t`, so a chunk count above 255 is kept modulo 256 | chunk 1 of a frame of 257 chunks makes the aggregator ready at once | ready only after the last chunk, for any chunk count | not executed | FrameAggregator.ReadyTooEarlyAsWritten | FrameAggregator.ReadyExactlyAtLast |
| src/flow_rtm_aggregator.h:33-34 | `_chunks` and `_expected_chunk` are `uint8_t`, so a chunk count above 255 is kept modulo 256 | chunk 1 of a frame of 257 chunks is decoded and sent to the sinks on its own | a frame goes out once, after its last chunk | not executed | FlowRtmAggregator.EmitsTooEarlyAsWritten | FlowRtmAggregator.EmitsOnceAtLast |
| src/video_streams.cpp:117 | the expected chunk `_chunk` is `uint8_t` and wraps from 255 to 0 | a frame of 256 chunks in order is never emitted: chunk 256 is compared with 0 and the frame is dropped | a frame of any chunk count is emitted at its last chunk | not executed | VideoStreams.NeverEmitsAsWritten | VideoStreams.EmitsOnceAtLast |
| src/cli_streams.cpp:167-174 | the exclusion of the video and replay files tests `count(...) > 9`; a `variables_map` is a `std::map`, so `count` is 0 or 1 and the files are never rejected together | --input-video-file a --input-replay-file b is accepted | rejected when both are given (`> 0`) | not executed | CliStreams.InputFileArgsNeverRejectedAsWritten | CliStreams.InputFileArgsExclusive |
| conanfile.py:55-60 | `excludes="opencv"` is an `fnmatch` pattern on the path relative to `src`; without '*' it matches only the path "opencv" | without OpenCV, include/satorivideo/opencv/opencv_utils.h is still packaged at include/satorivideo/opencv/opencv_utils.h | no header in an "opencv" folder is packaged without OpenCV, for example with the patterns "opencv/*" and "*/opencv/*" | not executed | SatoriVideoRecipe.OpencvHeaderPackagedAsWritten | SatoriVideoRecipe.NoOpencvDirectoryWithoutOpencv |
| src/pool_controller.cpp:91-92 | the stop branch tests the key "stob_job" but reads "stop_job" | {"to": id, "stop_job": j} is reported as an unknown command; {"to": id, "stob_job": j} stops the job null | the stop branch tests "stop_job" | not executed | PoolController.StopJobIgnoredAsWritten | PoolController.Dispatch |
