# C110PSerial in Dafny

C110PSerial is a framed, acknowledged serial protocol written twice: a C++
Arduino library (`lib/C110PSerial`) and a Python port
(`python/lib/C110PSerial`). A frame on the wire is
`START (0xAA) | LEN | PAYLOAD | CRC-8`. The payload is a protobuf-encoded
`Command`: an id, a source, a target and one of ack, led, move or sound. A
sender keeps its messages in a bounded history of 25 entries and keeps a
pending-ack table keyed by message id. Unacknowledged messages are resent
after a timeout. The Python port gives up on a message once its retry
limit is reached. In the C++ port every resend puts the count back at 0,
so the limit is never reached. A receiver drops duplicates, acks every
message that decodes and dispatches it to a callback.

This project models both ports separately. The models cover:

- the CRC-8 checksum objects (`Crc8Cpp`, `Crc8Py`), proved against one
  bit-at-a-time definition (`Crc8Spec`);
- the two ring buffers (`RingBufferCpp`, `RingBufferPy`), proved to keep
  the window described by `History`;
- the hand-written Python protobuf codec (`ProtoEncode`, `ProtoDecode`),
  with its round trips in `ProtoRoundTrip`;
- the two frame engines, each with the `send`/`processQueue` glue of its
  `C110PSerial` class (`ProtoFrameCpp`, `ProtoFramePy`).

Each engine is a class whose fields are those of the source object. Every
method is proved to take the object's abstract state to a specification
function of the old state, such as `SendSpec`, `ReadFrameSpec` or
`RetrySpec`. What the source promises is then proved about those functions
in `ProtoFrameCppProps` and `ProtoFramePyProps`. The protocol-level
statements are also there: frames written by `send` are read back by
`readFrame`, acks clear pending entries, duplicates are dispatched once,
and the retry sweep resends due entries, leaves the others alone and (in
Python) erases exhausted ones.

The environment becomes part of the state:

- the stream is the sequence of unread input bytes, the log of written
  bytes, and a script of write outcomes (a stream with no script left
  accepts every write);
- the clock is a function from the index of a reading to its value;
- callbacks are a log of the calls made;
- the C++ nanopb encoder and decoder are functions in the engine's
  configuration.

The ports differ in the following ways, and each model keeps its own
behaviour:

- C++ `send` books the message before writing, with a retry count reset
  to 0. Python books it only after a write succeeds, and counts a resend
  as one more retry.
- C++ `sendAck` leaves the acked id pending. Python removes it.
- C++ drops a payload that does not decode. Python NACKs it when it
  carries an id.
- C++ measures time with 32-bit and 64-bit wrapping subtraction. Python
  uses unbounded integers.
- C++ writes stop at the first write that returns 0. Python fails only
  when all four writes return a falsy value.

## Model

| member | source | states |
|---|---|---|
| Crc8Cpp.Crc8.CalculateByte | lib/C110PSerial/CRC8.h:19-34 | eight shift-and-XOR-0x07 rounds give the bit-at-a-time CRC of the byte |
| Crc8Cpp.Crc8.constructor | lib/C110PSerial/CRC8.h:13-16 | after construction the table is built and entry i is the CRC of i |
| Crc8Cpp.Crc8.BuildTable | lib/C110PSerial/CRC8.h:37-47 | fills every entry with the CRC of its index and sets the flag; when the flag is already set the table is left unchanged |
| Crc8Cpp.Crc8.Calculate | lib/C110PSerial/CRC8.h:50-58 | the table-driven loop over the first len bytes returns the checksum of those bytes |
| Crc8Py.Crc8.CalculateByte | python/lib/C110PSerial/CRC8.py:10-18 | the masked rounds give the CRC of the byte, a value in 0..255 |
| Crc8Py.Crc8.BuildTable | python/lib/C110PSerial/CRC8.py:20-24 | the list has 256 entries and entry i is the CRC of i |
| Crc8Py.Crc8.constructor | python/lib/C110PSerial/CRC8.py:7-8 | the object holds a correct table |
| Crc8Py.Crc8.Calculate | python/lib/C110PSerial/CRC8.py:26-30 | returns the same checksum as the C++ `calculate`, for every byte sequence |
| Crc8Spec.ChecksumSnoc | lib/C110PSerial/CRC8.h:52-57 | fold equation: checksum(d ++ [b]) is the CRC of checksum(d) XOR b |
| Crc8Spec.ChecksumEmpty | lib/C110PSerial/CRC8.h:9-11 | the empty buffer checks to INIT ^ XOROUT = 0x00 |
| Crc8Spec.ChecksumSingle | lib/C110PSerial/CRC8.h:50-58 | a one-byte buffer checks to the CRC of that byte |
| Crc8Spec.ChecksumAllZero | lib/C110PSerial/CRC8.h:50-58 | an all-zero buffer of any length checks to 0x00 |
| Crc8Spec.ByteCrcKnownValues | lib/C110PSerial/CRC8.h:19-34 | 0x00, 0xFF, 0xA5 and 0x01 map to 0x00, 0xF3, 0x72 and 0x07 |
| Crc8Spec.ChecksumCounting | lib/C110PSerial/CRC8.h:50-58 | 01 02 03 04 checks to 0xE3 |
| Crc8Spec.ChecksumAllOnes | lib/C110PSerial/CRC8.h:50-58 | eight 0xFF bytes check to 0xD7 |
| Crc8Spec.ChecksumSequence | lib/C110PSerial/CRC8.h:50-58 | the bytes 00..0F check to 0x41 |
| Crc8Spec.ChecksumAlternating | lib/C110PSerial/CRC8.h:50-58 | four repetitions of AA 55 check to 0x3F |
| Crc8Spec.FoldAppend | lib/C110PSerial/CRC8.h:52-57 | folding a concatenation folds the second part from where the first stopped |
| History.AddSize | lib/C110PSerial/RingBuffer.h:32-53 | the window never exceeds 25; a new id grows it by one while there is room; when full its size stays 25; a known id leaves it unchanged |
| History.AddKeepsUnique | lib/C110PSerial/RingBuffer.h:32-53 | ids in the window stay pairwise distinct |
| History.AddHas | lib/C110PSerial/RingBuffer.h:40-52 | after add, an id is stored iff it is the new id, or it was stored and was not the evicted oldest entry |
| History.AddHasNew | lib/C110PSerial/RingBuffer.h:32-53 | after add, the message's id is stored, whether it was new or a duplicate |
| History.AddIdempotent | lib/C110PSerial/RingBuffer.h:34-38 | adding the same message twice is the same as adding it once |
| History.AddThenGet | lib/C110PSerial/RingBuffer.h:50-82 | after adding a new id, the current value is that message and get finds it |
| History.FindSpec | lib/C110PSerial/RingBuffer.h:56-71 | get answers iff the id is stored, and returns a stored message with that id |
| History.FindUnique | lib/C110PSerial/RingBuffer.h:56-71 | with distinct ids, get of the id at position i returns that message |
| History.AddAllKeepsLatest | lib/C110PSerial/RingBuffer.h:32-53 | after messages with distinct ids are added, the window is the last 25 of them, in arrival order |
| History.RingAdd | lib/C110PSerial/RingBuffer.h:40-52 | writing at head (and advancing tail when full) is add on the window of stored messages |
| History.RingIndices | lib/C110PSerial/RingBuffer.h:40-52 | head == (tail + size) % 25 holds again after add, with and without eviction |
| History.IndexAfterAdd | lib/C110PSerial/RingBuffer.h:44-51 | erasing the evicted id and inserting the new one keeps the map's keys equal to the stored ids |
| History.RingAddInv | lib/C110PSerial/RingBuffer.h:32-53 | the slot, index and map updates of add keep the ring invariant |
| RingBufferCpp.RingBuffer.constructor | lib/C110PSerial/RingBuffer.h:13-20 | a new buffer has an empty window |
| RingBufferCpp.RingBuffer.Reset | lib/C110PSerial/RingBuffer.h:23-29 | the window is emptied, indices are zero and the map is cleared |
| RingBufferCpp.RingBuffer.Add | lib/C110PSerial/RingBuffer.h:32-53 | keeps the invariant; the new window is History.Add of the old one |
| RingBufferCpp.RingBuffer.Insert | lib/C110PSerial/RingBuffer.h:40-52 | for an absent id, the eviction and write are History.Add of the window |
| RingBufferCpp.RingBuffer.Contains | lib/C110PSerial/RingBuffer.h:56-59 | true iff a stored message has the id |
| RingBufferCpp.RingBuffer.Get | lib/C110PSerial/RingBuffer.h:62-71 | the oldest-first scan returns the oldest stored message with the id, or none |
| RingBufferCpp.RingBuffer.GetCurrentValue | lib/C110PSerial/RingBuffer.h:74-82 | returns the newest message, or `T{}` when empty |
| RingBufferCpp.RingBuffer.Size | lib/C110PSerial/RingBuffer.h:89-92 | returns the number of stored messages, at most 25 |
| RingBufferPy.LiftAdd | python/lib/C110PSerial/RingBuffer.py:28-47 | add on the `None`-initialised slots is add on the stored messages |
| RingBufferPy.RingBuffer.constructor | python/lib/C110PSerial/RingBuffer.py:6-11 | a new buffer has an empty window |
| RingBufferPy.RingBuffer.Reset | python/lib/C110PSerial/RingBuffer.py:22-26 | the window is emptied, indices are zero and the dict is cleared |
| RingBufferPy.RingBuffer.Add | python/lib/C110PSerial/RingBuffer.py:28-47 | `None` changes nothing; otherwise the new window is History.Add of the old one |
| RingBufferPy.RingBuffer.Insert | python/lib/C110PSerial/RingBuffer.py:37-47 | for an absent id, the eviction and write are History.Add of the window |
| RingBufferPy.RingBuffer.Contains | python/lib/C110PSerial/RingBuffer.py:49-50 | true iff a stored message has the id (also `in`) |
| RingBufferPy.RingBuffer.Get | python/lib/C110PSerial/RingBuffer.py:52-57 | returns the oldest stored message with the id, or `None` (also `[]`) |
| RingBufferPy.RingBuffer.GetCurrentValue | python/lib/C110PSerial/RingBuffer.py:59-63 | returns the newest message, or `None` when empty |
| RingBufferPy.RingBuffer.Size | python/lib/C110PSerial/RingBuffer.py:68-69 | returns the number of stored messages, at most 25 (also `len`) |
| ProtoEncode.EncodeVarint | python/lib/C110PSerial/proto_encode.py:4-10 | the loop emits the base-128 varint of the value |
| ProtoEncode.Key | python/lib/C110PSerial/proto_encode.py:13-14 | the key is at least one byte, and for a field number below 16 it is the single byte field·8 + wire type |
| ProtoEncode.LengthDelimited | python/lib/C110PSerial/proto_encode.py:17-20 | the field ends with the payload after at least a key and a length byte; for a field below 16 and a payload under 128 bytes it is exactly key byte, length byte, payload |
| ProtoEncode.EncodeAckAsWritten | python/lib/C110PSerial/proto_encode.py:24-30 | empty iff not acknowledged and no reason; starts with 08 01 when acknowledged; ends with the UTF-8 bytes of a reason, preceded (under 128 characters) by the number of characters |
| ProtoEncode.EncodeAck | python/lib/C110PSerial/proto_encode.py:24-30 | the same layout, except that the byte before the reason's UTF-8 bytes is their number |
| ProtoEncode.EncodeLed | python/lib/C110PSerial/proto_encode.py:33-41 | empty iff start, end and duration are all 0; a non-zero start comes first, under key 0x08 |
| ProtoEncode.EncodeMove | python/lib/C110PSerial/proto_encode.py:44-54 | empty iff target, x, y and z are all 0; a non-zero target comes first, under key 0x08 |
| ProtoEncode.EncodeSound | python/lib/C110PSerial/proto_encode.py:57-65 | empty iff the id is 0 and play and sync are false; a non-zero id comes first, under key 0x08 |
| ProtoEncode.Utf8Ascii | python/lib/C110PSerial/proto_encode.py:29 | an ASCII string encodes to one byte per character, its code point |
| ProtoEncode.EncodeAckAscii | python/lib/C110PSerial/proto_encode.py:24-30 | for an ASCII reason, the ack encoder as written and the corrected one agree |
| ProtoEncode.EncodeCommand | python/lib/C110PSerial/proto_encode.py:69-97 | an absent or zero id is replaced by the clock value; an existing non-zero id is kept; the result is an error iff no ack, led, move or sound key is present |
| ProtoDecode.ParseVarint | python/lib/C110PSerial/proto_decode.py:13-26 | the loop returns the value and position of VarintAt; on empty or truncated input it returns the bits gathered so far |
| ProtoDecode.VarintAt | python/lib/C110PSerial/proto_decode.py:13-26 | the position never goes back and advances on non-empty input, so every decoder loop terminates |
| ProtoDecode.ReadKey | python/lib/C110PSerial/proto_decode.py:29-33 | returns the key's field number and wire type, and the position after it |
| ProtoDecode.ReadLengthDelimited | python/lib/C110PSerial/proto_decode.py:36-38 | returns a varint length followed by that many bytes (fewer at the end of the input) |
| ProtoDecode.ParseFields | python/lib/C110PSerial/proto_decode.py:63-70 | the shared `while s.tell() < len(data)` loop gives the field values, with defaults 0 |
| ProtoDecode.ParseLed | python/lib/C110PSerial/proto_decode.py:56-71 | returns the start, end and duration fields, 0 when absent |
| ProtoDecode.ParseMove | python/lib/C110PSerial/proto_decode.py:74-92 | returns the target, x, y and z fields, 0 when absent |
| ProtoDecode.ParseSound | python/lib/C110PSerial/proto_decode.py:95-110 | returns the id and the truth of play and syncToLeds |
| ProtoDecode.ParseAck | python/lib/C110PSerial/proto_decode.py:41-53 | returns the acknowledged flag and the reason bytes, or `None` when no reason was sent |
| ProtoDecode.CommandAt | python/lib/C110PSerial/proto_decode.py:121-146 | the loop never clears the error and never loses a payload key once found |
| ProtoDecode.DecodeCommand | python/lib/C110PSerial/proto_decode.py:113-154 | the loop and the final check give Decode of the buffer |
| ProtoRoundTrip.VarintRoundTrip | python/lib/C110PSerial/proto_decode.py:13-26 | for v >= 0, parse_varint on encode_varint(v) ++ rest returns v, and the position is the start of rest |
| ProtoRoundTrip.NegativeVarint | python/lib/C110PSerial/proto_encode.py:4-10 | a negative value encodes to a single byte that decodes to a different value |
| ProtoRoundTrip.KeyRoundTrip | python/lib/C110PSerial/proto_decode.py:29-33 | read_key of encode_key(f, w) gives (f, w) |
| ProtoRoundTrip.LengthDelimitedRoundTrip | python/lib/C110PSerial/proto_decode.py:36-38 | read_length_delimited returns the payload that the encoder wrapped |
| ProtoRoundTrip.FieldsRoundTrip | python/lib/C110PSerial/proto_encode.py:33-65 | non-negative sub-fields, zero ones omitted, decode back to the same values |
| ProtoRoundTrip.LedRoundTrip | python/lib/C110PSerial/proto_encode.py:33-41 | parse_led inverts encode_led_command |
| ProtoRoundTrip.MoveRoundTrip | python/lib/C110PSerial/proto_encode.py:44-54 | parse_move inverts encode_movement_command |
| ProtoRoundTrip.SoundRoundTrip | python/lib/C110PSerial/proto_encode.py:57-65 | parse_sound inverts encode_sound_command |
| ProtoRoundTrip.AckRoundTrip | python/lib/C110PSerial/proto_encode.py:24-30 | parse_ack of the corrected ack encoding gives the flag and the UTF-8 bytes of the reason (`None` for an empty reason) |
| ProtoRoundTrip.AckAsWrittenNonAscii | python/lib/C110PSerial/proto_encode.py:29 | as written, the reason "é" gets the prefix 1 for its 2 bytes, and decodes to a truncated reason |
| ProtoRoundTrip.EncodedLayout | python/lib/C110PSerial/proto_encode.py:69-97 | the bytes are field 1 (id) first, then source and target if non-zero, then the first payload of ack, led, move, sound |
| ProtoRoundTrip.CommandRoundTrip | python/lib/C110PSerial/proto_decode.py:113-154 | decode_command of encode_command(m) is not an error and gives back the id, source, target and the chosen payload |
| ProtoRoundTrip.CommandWithoutPayload | python/lib/C110PSerial/proto_encode.py:92-97 | without a payload key, the result is an error carrying the "Unknown cmd_type" text |
| ProtoRoundTrip.DecodeErrorIffNoPayload | python/lib/C110PSerial/proto_decode.py:148-154 | decoding fails iff no payload field was seen, and exactly then the error message is set |
| ProtoFrameCpp.PbEncode | lib/C110PSerial/C110PSerial.cpp:5-11 | encoding succeeds iff the encoder succeeds and the result fits MAX_SIZE, and it then gives the encoder's bytes |
| ProtoFrameCpp.AckMessage | lib/C110PSerial/ProtoFrame.cpp:112-119 | the corrected ack is the ack as written with the oneof tag set to ack |
| ProtoFrameCpp.NackMessage | lib/C110PSerial/ProtoFrame.cpp:121-137 | the corrected NACK is the NACK as written with the oneof tag set to ack |
| ProtoFrameCpp.Feed | lib/C110PSerial/ProtoFrame.cpp:26-100 | one step of the state machine keeps the index and length in range |
| ProtoFrameCpp.ScanWith | lib/C110PSerial/ProtoFrame.cpp:3-104 | the loop leaves the assembler in range whether it completes, fails or times out |
| ProtoFrameCpp.C110PSerial.constructor | lib/C110PSerial/C110PSerial.h:26-29 | empty histories and pending table, an idle assembler over the given stream |
| ProtoFrameCpp.C110PSerial.GetSafeTimestamp | lib/C110PSerial/ProtoFrame.cpp:5 | returns the clock's next reading and changes nothing but the count of readings |
| ProtoFrameCpp.C110PSerial.Write | lib/C110PSerial/C110PSerial.cpp:23-26 | one `write`: an accepting stream takes the bytes and the result is their number; a refusing one takes nothing and the result is 0 |
| ProtoFrameCpp.C110PSerial.BookMessage | lib/C110PSerial/C110PSerial.cpp:12-13 | the message enters the sent history, and its pending entry is overwritten with the current time and retry count 0 |
| ProtoFrameCpp.C110PSerial.WriteFrame | lib/C110PSerial/C110PSerial.cpp:15-29 | the checksum is computed over the buffer; start, length, payload and CRC are written, and the first write that returns 0 stops the rest |
| ProtoFrameCpp.C110PSerial.Send | lib/C110PSerial/C110PSerial.cpp:3-31 | encode; on failure nothing changes and the result is false; otherwise book the message, then write the frame |
| ProtoFrameCpp.C110PSerial.SendAck | lib/C110PSerial/ProtoFrame.cpp:112-119 | sends the acknowledged ack (tag set), which `send` books like any message |
| ProtoFrameCpp.C110PSerial.SendNack | lib/C110PSerial/ProtoFrame.cpp:121-137 | sends the negative ack with its reason (tag set) |
| ProtoFrameCpp.C110PSerial.HandleAck | lib/C110PSerial/ProtoFrame.cpp:106-110 | erases only that pending entry |
| ProtoFrameCpp.C110PSerial.RefreshEntry | lib/C110PSerial/ProtoFrame.cpp:173-178 | a pending entry gets the current time and one more retry |
| ProtoFrameCpp.C110PSerial.ResendMessage | lib/C110PSerial/ProtoFrame.cpp:171-180 | refreshes the entry, then sends, which resets the count to 0 |
| ProtoFrameCpp.C110PSerial.HandleNack | lib/C110PSerial/ProtoFrame.cpp:139-147 | resends only a message that is both in the sent history and pending |
| ProtoFrameCpp.C110PSerial.ProcessCallback | lib/C110PSerial/ProtoFrame.cpp:207-246 | dispatches on `which_data`: ack to handleAck or handleNack, led, move or sound to its callback if set |
| ProtoFrameCpp.C110PSerial.ReceiveMessage | lib/C110PSerial/ProtoFrame.cpp:182-205 | an undecodable payload is dropped; a known id is acked; a new id is stored, acked and dispatched |
| ProtoFrameCpp.C110PSerial.Consume | lib/C110PSerial/ProtoFrame.cpp:26-100 | one byte goes through the start, length, payload and CRC branches, with the checksum taken over the buffer |
| ProtoFrameCpp.C110PSerial.ScanInput | lib/C110PSerial/ProtoFrame.cpp:3-104 | the loop reads while bytes are available and time remains, and ends as Scan says |
| ProtoFrameCpp.C110PSerial.ReadFrame | lib/C110PSerial/ProtoFrame.cpp:3-104 | a complete frame's payload goes to receiveMessage and the result is true; otherwise false |
| ProtoFrameCpp.C110PSerial.RetryEntry | lib/C110PSerial/ProtoFrame.cpp:153-167 | a due entry under the retry limit is resent; an entry at the limit is erased; others are untouched |
| ProtoFrameCpp.C110PSerial.Sweep | lib/C110PSerial/ProtoFrame.cpp:153-168 | the loop visits the snapshot's entries in the given order, each as one retry step |
| ProtoFrameCpp.C110PSerial.RetryMessages | lib/C110PSerial/ProtoFrame.cpp:149-169 | one clock reading, then the sweep over a snapshot of the table in the map's order |
| ProtoFrameCpp.C110PSerial.ProcessQueue | lib/C110PSerial/C110PSerial.h:33-36 | readFrame, then retryMessages |
| ProtoFrameCppProps.FrameOf | lib/C110PSerial/C110PSerial.cpp:23-26 | the frame is the payload length plus 3 bytes, starting with START_BYTE and the length |
| ProtoFrameCppProps.FrameAccepted | lib/C110PSerial/C110PSerial.cpp:23-30 | when every write succeeds, a non-empty payload is written as exactly one frame and send reports success |
| ProtoFrameCppProps.EmptyPayloadFails | lib/C110PSerial/C110PSerial.cpp:23-29 | an empty payload writes the start and length bytes, then the 0-byte payload write stops send with false |
| ProtoFrameCppProps.FirstWriteRefused | lib/C110PSerial/C110PSerial.cpp:23-29 | a first write that returns 0 writes nothing and fails |
| ProtoFrameCppProps.ScanPayload | lib/C110PSerial/ProtoFrame.cpp:54-99 | payload bytes are stored in order, and the CRC byte completes the frame with that payload; for the loop as written, when neither payload nor CRC holds 0xFF |
| ProtoFrameCppProps.ScanFrame | lib/C110PSerial/ProtoFrame.cpp:3-104 | an idle assembler reading the frame `send` writes for a payload under 128 bytes returns that payload, leaves the rest unread, and uses one clock reading per byte: always for the corrected loop, and for the loop as written when neither payload nor CRC holds 0xFF |
| ProtoFrameCppProps.ScanMaxSizeRejected | lib/C110PSerial/ProtoFrame.cpp:33-47 | a frame with length 128, which send accepts, is refused at its length byte and the assembler is reset |
| ProtoFrameCppProps.ReadFrameStopsAtFF | lib/C110PSerial/ProtoFrame.cpp:19-25 | as written, the frame with payload [0xFF] ends with a failed read; the corrected loop completes it |
| ProtoFrameCppProps.SendBooksFirst | lib/C110PSerial/C110PSerial.cpp:5-13 | a message that encodes is stored and pending with retry count 0 whatever the writes do; one that does not changes nothing |
| ProtoFrameCppProps.FrameKeepsBooks | lib/C110PSerial/C110PSerial.cpp:23-29 | the writes change neither the pending table nor the sent history |
| ProtoFrameCppProps.SendWritesFrame | lib/C110PSerial/C110PSerial.cpp:3-31 | when every write succeeds, a message with a non-empty encoding is written as its frame and send succeeds |
| ProtoFrameCppProps.SendAckBooks | lib/C110PSerial/ProtoFrame.cpp:112-119 | after sendAck the acked id is pending, because send booked the ack under it |
| ProtoFrameCppProps.UntaggedAckIgnored | lib/C110PSerial/ProtoFrame.cpp:112-137 | receiveMessage of an ack or NACK as sendAck and sendNack build it (no oneof tag) leaves the id pending, as booked by its own reply, and makes no callback |
| ProtoFrameCppProps.TaggedAckClears | lib/C110PSerial/ProtoFrame.cpp:182-216 | receiveMessage of a new tagged ack leaves the pending table without its id and otherwise unchanged, although the reply booked that id |
| ProtoFrameCppProps.AddKeepsEncodable | lib/C110PSerial/C110PSerial.cpp:5-12 | adding an encodable message keeps every stored message encodable |
| ProtoFrameCppProps.SendInv | lib/C110PSerial/C110PSerial.cpp:12-13 | send keeps all retry counts at 0 and all stored messages encodable |
| ProtoFrameCppProps.ResendInv | lib/C110PSerial/ProtoFrame.cpp:171-180 | the increment of resendMessage is undone by send: counts stay 0 and the pending ids gain only the message's id |
| ProtoFrameCppProps.FoundEncodes | lib/C110PSerial/ProtoFrame.cpp:155-157 | a message found in the sent history under k has id k and encodes |
| ProtoFrameCppProps.ProcessCallbackInv | lib/C110PSerial/ProtoFrame.cpp:207-246 | processCallback keeps the invariant |
| ProtoFrameCppProps.ReceiveMessageInv | lib/C110PSerial/ProtoFrame.cpp:182-205 | receiveMessage keeps the invariant |
| ProtoFrameCppProps.ReadFrameInv | lib/C110PSerial/ProtoFrame.cpp:3-104 | readFrame keeps the invariant |
| ProtoFrameCppProps.RetryStepInv | lib/C110PSerial/ProtoFrame.cpp:153-167 | with a positive retry limit, one step keeps the invariant and erases no id |
| ProtoFrameCppProps.RetryLoopInv | lib/C110PSerial/ProtoFrame.cpp:153-167 | the whole sweep keeps the invariant and erases no id |
| ProtoFrameCppProps.RetryNeverErases | lib/C110PSerial/ProtoFrame.cpp:149-169 | with a positive retry limit, retryMessages never gives up on a message: retry counts stay 0 and pending ids only grow |
| ProtoFrameCppProps.ProcessQueueInv | lib/C110PSerial/C110PSerial.h:33-36 | processQueue keeps the invariant |
| ProtoFrameCppProps.Written | lib/C110PSerial/C110PSerial.cpp:23-29 | what an accepting stream receives from send: at least the start byte and the length byte |
| ProtoFrameCppProps.SendEffect | lib/C110PSerial/C110PSerial.cpp:3-31 | send of a stored message keeps the sent history, changes no entry but its own, and an accepting stream receives exactly its frame |
| ProtoFrameCppProps.RetryStepEffect | lib/C110PSerial/ProtoFrame.cpp:153-167 | one step keeps the sent history, changes no entry but the visited one, and writes exactly the frame of a resent message |
| ProtoFrameCppProps.RetryStepResends | lib/C110PSerial/ProtoFrame.cpp:155-180 | a due entry under the limit whose message is stored and encodes is refreshed by the last reading, with count 0 after send |
| ProtoFrameCppProps.RetryLoopEffect | lib/C110PSerial/ProtoFrame.cpp:153-168 | the sweep keeps the sent history, changes no entry it does not visit, and writes the frames of the resent messages in visiting order |
| ProtoFrameCppProps.RetryLoopResends | lib/C110PSerial/ProtoFrame.cpp:153-168 | in the sweep, a due entry under the limit with a stored, encodable message ends with count 0 and a time read during the sweep |
| ProtoFrameCppProps.RetryLoopKeeps | lib/C110PSerial/ProtoFrame.cpp:153-168 | in the sweep, an entry under the limit that is not due, or whose message has left the history, is left exactly as it was |
| ProtoFrameCppProps.RetryResends | lib/C110PSerial/ProtoFrame.cpp:149-180 | retryMessages resends each due entry under the limit whose message is stored and encodes (new time, count 0), and leaves not-due entries exactly as they were |
| ProtoFrameCppProps.RetryWrites | lib/C110PSerial/ProtoFrame.cpp:149-169 | over an accepting stream, retryMessages writes exactly the frames of the resent messages, in visiting order |
| ProtoFrameCppProps.ProcessCallbackDispatch | lib/C110PSerial/ProtoFrame.cpp:207-246 | at most one callback, none for an ack or an untagged message, and it is the one matching the tag |
| ProtoFrameCppProps.ReceiveMessageOutcome | lib/C110PSerial/ProtoFrame.cpp:182-205 | a payload that does not decode changes nothing (no ack, no NACK, no dispatch); a known id is not stored again or dispatched; a new id is added to the received history and dispatched at most once |
| ProtoFrameCppProps.ReceiveTwiceDispatchesOnce | lib/C110PSerial/ProtoFrame.cpp:194-204 | the same payload received twice in a row makes no second callback |
| ProtoFramePy.Feed | python/lib/C110PSerial/ProtoFrame.py:95-133 | one step of the state machine keeps the index and length in range |
| ProtoFramePy.Scan | python/lib/C110PSerial/ProtoFrame.py:87-135 | the loop leaves the assembler in range whether it completes, fails or times out |
| ProtoFramePy.C110PSerial.constructor | python/lib/C110PSerial/ProtoFrame.py:14-30 | empty histories and pending table; an idle assembler over a zeroed 256-byte buffer |
| ProtoFramePy.C110PSerial.Reset | python/lib/C110PSerial/ProtoFrame.py:44-50 | empties both histories and the pending table, and idles the assembler |
| ProtoFramePy.C110PSerial.GetSafeTimestamp | python/lib/C110PSerial/ProtoFrame.py:55-56 | the provider's value masked to 32 bits |
| ProtoFramePy.C110PSerial.WallClock | python/lib/C110PSerial/proto_encode.py:73 | returns the next reading of `int(time())` and changes nothing but the count of readings |
| ProtoFramePy.C110PSerial.Write | python/lib/C110PSerial/C110PSerial.py:35-38 | one `write`: an accepting stream takes the bytes and the result is their number; a refusing one takes nothing and the result is 0 |
| ProtoFramePy.C110PSerial.TrackMessage | python/lib/C110PSerial/ProtoFrame.py:71-81 | the message enters the sent history; a new id gets (now, 0), and a pending id gets a new time and one more retry |
| ProtoFramePy.C110PSerial.Receive | python/lib/C110PSerial/ProtoFrame.py:83-85 | the message enters the received history |
| ProtoFramePy.C110PSerial.Encode | python/lib/C110PSerial/C110PSerial.py:20 | encode_command, with the clock read only when the id must be filled in |
| ProtoFramePy.C110PSerial.WriteFrame | python/lib/C110PSerial/C110PSerial.py:28-41 | all four writes happen; the frame fails only when every write returns a falsy value |
| ProtoFramePy.C110PSerial.Send | python/lib/C110PSerial/C110PSerial.py:19-44 | a too-long or failed encoding returns false; a failed write returns false; otherwise the message is tracked |
| ProtoFramePy.C110PSerial.SendAck | python/lib/C110PSerial/ProtoFrame.py:158-167 | sends the acknowledged ack, then drops the id from the pending table |
| ProtoFramePy.C110PSerial.SendNack | python/lib/C110PSerial/ProtoFrame.py:169-177 | sends the negative ack with its reason |
| ProtoFramePy.C110PSerial.HandleAck | python/lib/C110PSerial/ProtoFrame.py:155-156 | pops only that id from the pending table |
| ProtoFramePy.C110PSerial.ResendMessage | python/lib/C110PSerial/ProtoFrame.py:192-193 | sends the message; sending `None` raises |
| ProtoFramePy.C110PSerial.HandleNack | python/lib/C110PSerial/ProtoFrame.py:179-181 | resends only an id that is both stored and pending |
| ProtoFramePy.C110PSerial.ProcessCallback | python/lib/C110PSerial/ProtoFrame.py:210-221 | ack first (handleAck or handleNack), then the first of led, move, sound to its callback |
| ProtoFramePy.C110PSerial.ReceiveMessage | python/lib/C110PSerial/ProtoFrame.py:195-208 | a decode error is NACKed when the id is non-zero; a known id is acked; a new one is recorded, acked and dispatched |
| ProtoFramePy.C110PSerial.Consume | python/lib/C110PSerial/ProtoFrame.py:95-133 | one byte goes through the start, length, payload and CRC branches |
| ProtoFramePy.C110PSerial.ScanInput | python/lib/C110PSerial/ProtoFrame.py:87-135 | the loop reads while bytes are available and time remains, and ends as Scan says |
| ProtoFramePy.C110PSerial.ReadFrame | python/lib/C110PSerial/ProtoFrame.py:87-135 | a complete frame's payload goes to receiveMessage and the result is true; otherwise false |
| ProtoFramePy.C110PSerial.RetryEntry | python/lib/C110PSerial/ProtoFrame.py:186-190 | a due entry under the retry limit is resent; an entry at the limit is deleted; others are untouched |
| ProtoFramePy.C110PSerial.RetryMessages | python/lib/C110PSerial/ProtoFrame.py:183-190 | one clock reading, then the sweep over a snapshot of the dict's items; it stops at a resend that raises |
| ProtoFramePy.C110PSerial.ProcessQueue | python/lib/C110PSerial/C110PSerial.py:46-48 | readFrame, then retryMessages |
| ProtoFramePy.C110PSerial.GetSentMessageBufferSize | python/lib/C110PSerial/ProtoFrame.py:137-138 | the number of sent messages stored, at most 25 |
| ProtoFramePy.C110PSerial.GetReceivedMessageBufferSize | python/lib/C110PSerial/ProtoFrame.py:140-141 | the number of received messages stored, at most 25 |
| ProtoFramePy.C110PSerial.GetUnacknowledgedMessagesSize | python/lib/C110PSerial/ProtoFrame.py:143-144 | the number of pending ids |
| ProtoFramePy.C110PSerial.GetUnacknowledgedMessage | python/lib/C110PSerial/ProtoFrame.py:146-147 | the id itself when pending, 0 otherwise |
| ProtoFramePy.C110PSerial.GetLastSentMessage | python/lib/C110PSerial/ProtoFrame.py:149-150 | the newest sent message, or `None` |
| ProtoFramePy.C110PSerial.GetLastReceivedMessage | python/lib/C110PSerial/ProtoFrame.py:152-153 | the newest received message, or `None` |
| ProtoFramePyProps.FrameOf | python/lib/C110PSerial/C110PSerial.py:35-38 | the frame is the payload length plus 3 bytes, starting with START_BYTE and the length |
| ProtoFramePyProps.FrameAccepted | python/lib/C110PSerial/C110PSerial.py:35-41 | when every write succeeds, the payload is written as exactly one frame |
| ProtoFramePyProps.FrameRefused | python/lib/C110PSerial/C110PSerial.py:35-41 | four falsy writes write nothing and fail |
| ProtoFramePyProps.ScanPayload | python/lib/C110PSerial/ProtoFrame.py:112-126 | payload bytes are stored in order, and the CRC byte completes the frame with that payload |
| ProtoFramePyProps.ScanFrame | python/lib/C110PSerial/ProtoFrame.py:87-135 | an idle assembler reading the frame `send` writes for a payload under 128 bytes returns that payload, leaves the rest unread, and uses one clock reading per byte |
| ProtoFramePyProps.ScanMaxSizeRejected | python/lib/C110PSerial/ProtoFrame.py:102-108 | a frame with length 128, which send accepts, is refused at its length byte and the assembler is reset |
| ProtoFramePyProps.ScanShaped | python/lib/C110PSerial/ProtoFrame.py:127-133 | the index stays within the announced frame, so the buffer-overflow branch is never taken |
| ProtoFramePyProps.SendKeeps | python/lib/C110PSerial/C110PSerial.py:19-44 | send leaves the received history, the callbacks, the assembler and the input alone, and only appends output |
| ProtoFramePyProps.SendBooking | python/lib/C110PSerial/C110PSerial.py:19-44 | send succeeds iff the encoding is accepted and some write succeeds; on success the id is stored and pending; on failure neither changes |
| ProtoFramePyProps.SendWritesFrame | python/lib/C110PSerial/C110PSerial.py:28-44 | when every write succeeds, a command with a payload of at most 128 bytes is written as its frame and send succeeds |
| ProtoFramePyProps.SendWithoutPayload | python/lib/C110PSerial/C110PSerial.py:24-26 | a command without a payload is refused with nothing written or tracked |
| ProtoFramePyProps.SendAcceptsMaxSize | python/lib/C110PSerial/C110PSerial.py:21-23 | send accepts a 128-byte encoding, which the receiver refuses |
| ProtoFramePyProps.ResendCountsRetry | python/lib/C110PSerial/ProtoFrame.py:78-81 | a successful send of a pending id raises its retry count by exactly 1 |
| ProtoFramePyProps.FrameSpecKeepsPending | python/lib/C110PSerial/C110PSerial.py:35-41 | the writes change neither the pending table nor the sent history |
| ProtoFramePyProps.SendPendingKeys | python/lib/C110PSerial/C110PSerial.py:43 | send adds no pending id but the message's own |
| ProtoFramePyProps.SendAckClears | python/lib/C110PSerial/ProtoFrame.py:158-167 | after sendAck the id is not pending |
| ProtoFramePyProps.SendNackBooks | python/lib/C110PSerial/ProtoFrame.py:169-177 | a NACK that goes out leaves its id pending |
| ProtoFramePyProps.SendAckWrites | python/lib/C110PSerial/ProtoFrame.py:158-167 | when every write succeeds, sendAck writes exactly the ack frame |
| ProtoFramePyProps.AckHandlingKeeps | python/lib/C110PSerial/ProtoFrame.py:211-215 | an ack makes no callback and only appends output |
| ProtoFramePyProps.ReceivedMessageIsAcked | python/lib/C110PSerial/ProtoFrame.py:195-208 | a decoded message is answered first with its ack frame; for an incoming ack that frame is all that is written, so acks answer acks |
| ProtoFramePyProps.ProcessCallbackDispatch | python/lib/C110PSerial/ProtoFrame.py:210-221 | at most one callback, none for an ack, and it carries the first payload present |
| ProtoFramePyProps.ReceiveMessageOutcome | python/lib/C110PSerial/ProtoFrame.py:195-208 | a decode error with id 0 changes nothing; errors and known ids are not stored or dispatched; a new id is stored and dispatched at most once |
| ProtoFramePyProps.ReceiveTwiceDispatchesOnce | python/lib/C110PSerial/ProtoFrame.py:203-208 | the same payload received twice in a row makes no second callback |
| ProtoFramePyProps.RetryEvictedRaises | python/lib/C110PSerial/ProtoFrame.py:187-188 | a due entry whose message has left the sent history makes resendMessage(None) raise |
| ProtoFramePyProps.RetryStepKeys | python/lib/C110PSerial/ProtoFrame.py:186-190 | one step adds no pending id but its own |
| ProtoFramePyProps.RetryLoopAbsent | python/lib/C110PSerial/ProtoFrame.py:185-190 | an id the sweep does not visit, and that is not pending, stays not pending |
| ProtoFramePyProps.RetryLoopErases | python/lib/C110PSerial/ProtoFrame.py:185-190 | a sweep that does not raise erases every visited entry at the retry limit |
| ProtoFramePyProps.RetryErasesExhausted | python/lib/C110PSerial/ProtoFrame.py:183-190 | unless a resend raises, retryMessages leaves no entry that had reached the retry limit |
| ProtoFramePyProps.SendBytes | python/lib/C110PSerial/C110PSerial.py:19-41 | what an accepting stream receives from send of a stored message: something exactly when its encoding is not an error and fits MAX_SIZE |
| ProtoFramePyProps.SendStored | python/lib/C110PSerial/C110PSerial.py:19-44 | over an accepting stream, send of a sendable message with an id writes its frame and then tracks it |
| ProtoFramePyProps.TrackStored | python/lib/C110PSerial/ProtoFrame.py:71-81 | tracking a message whose id is stored changes only its own entry and the clock |
| ProtoFramePyProps.SendEffect | python/lib/C110PSerial/C110PSerial.py:19-44 | send of a stored message keeps the sent history, changes no entry but its own, and an accepting stream receives exactly its frame |
| ProtoFramePyProps.RetryStepEffect | python/lib/C110PSerial/ProtoFrame.py:186-193 | one step raises iff the entry is due, under the limit and evicted, and then changes nothing; otherwise it keeps the sent history, changes no entry but the visited one, and writes exactly the frame of a resent message |
| ProtoFramePyProps.RetryStepResends | python/lib/C110PSerial/ProtoFrame.py:186-188 | over an accepting stream, a due entry under the limit with a stored, sendable message is refreshed by the last reading, its count one higher (0 if not pending) |
| ProtoFramePyProps.RetryLoopEffect | python/lib/C110PSerial/ProtoFrame.py:185-190 | the sweep raises iff a visited entry raises; it keeps the sent history, changes no entry it does not visit, and writes the resent frames in visiting order up to the raise |
| ProtoFramePyProps.RetryLoopResends | python/lib/C110PSerial/ProtoFrame.py:185-190 | in a sweep that does not raise, a due entry under the limit with a stored, sendable message ends with count one higher and a time read during the sweep |
| ProtoFramePyProps.RetryLoopKeeps | python/lib/C110PSerial/ProtoFrame.py:185-190 | in the sweep, an entry under the limit that is not due, or whose message has left the history, is left exactly as it was |
| ProtoFramePyProps.RetryResends | python/lib/C110PSerial/ProtoFrame.py:183-193 | unless the sweep raises, retryMessages resends each due entry under the limit (new time, count + 1), and leaves not-due entries exactly as they were |
| ProtoFramePyProps.RetryWrites | python/lib/C110PSerial/ProtoFrame.py:183-190 | retryMessages raises iff a visited entry is due, under the limit and evicted; over an accepting stream it writes exactly the resent frames in visiting order |

## Left out

- Logging: `Logger.py`, `logger.*` calls and every `std::cout` line are diagnostics only.
- The streams: `available`/`any`/`in_waiting`, `read` and `write` are replaced by an input byte sequence, an output log and a script of write outcomes. The platform detection in `ProtoFrame.__init__` is not modelled.
- Python bytes: `readFrame` compares `m_stream.read(1)` with the int START_BYTE. The model feeds ints, as the tests' streams do. With a real pyserial stream the comparison never holds. A read of 0 is falsy and ends the loop, so the Python frame lemmas assume payloads without a 0 byte and whose CRC-8 is not 0. The source never delivers those frames either.
- `ProtoFrame.h` is not part of this model. START_BYTE 0xAA, MAX_SIZE 128 and BUFFER_MESSAGE_MAX_SIZE 256 are taken to equal the Python constants. The int8 START_BYTE test is assumed to match by byte value. `getSafeTimestamp`, `receive`, the getters and `reset` of the C++ class are not visible. C++ timeout and retry limit are unbounded naturals.
- nanopb (`pb_encode`, `pb_decode` and the generated `c110p_serial.pb.h`) is not part of this model. The C++ engine takes encode and decode as functions of its configuration. The C++ `C110PCommand` is a record with the oneof tag and one field per member, so union aliasing is not modelled. `strncpy` truncation of the NACK reason is also not modelled.
- Clocks: `getSafeTimestamp` readings are values of a configuration function at the index of the reading. `int(time.time())` in `encode_command` is a second such function. The timestamp provider setter is not modelled.
- Callbacks: only the fact of each dispatch and its argument are recorded. The callback setters are not modelled.
- The `create*Command` helpers of both `C110PSerial` classes only fill a record with a clock-derived id, and are not modelled. The mismatch between the encoder's `sync_to_leds` keyword and the `syncToLeds` key those helpers build is therefore not represented.
- UTF-8 decoding of the ack reason in `parse_ack`: the decoded reason is kept as bytes.
- The base `ProtoFrame.send` of the Python port is replaced by the `C110PSerial.send` override in every call. The C++ base `send` is not visible.
- ProtoFrameCpp.RetryMessages: erasing from `m_messageInfoMap` inside the range-for is undefined behaviour in C++. The model visits a snapshot of the entries in an order given as a parameter, as Python does.
- ProtoFramePy.C110PSerial.RetryMessages: a resend of a message evicted from the sent history raises `TypeError` in `encode_command`. The model reports this as `raised` and stops the sweep there; the exception itself is not modelled.
- ProtoEncode.EncodeCommand: the round trips hold for non-negative field values only. `encode_varint` of a negative value emits the single byte `value & 0x7F`, which decodes to a different value (`NegativeVarint`). Every field of the protocol is unsigned.
- ProtoFramePyProps.RetryErasesExhausted: assumes no pending id is 0. An id 0 is pending only when the wall clock read 0, and a resend of it would be stamped with a fresh id by `encode_command`.
- ProtoEncode.EncodeCommand: the ack payload is built by the corrected EncodeAck of Findings row 1, whose reason is prefixed with its UTF-8 byte count. The source prefixes the number of characters. For a non-ASCII reason the bytes differ: reason "é" gives 12 02 C3 A9 here and 12 01 C3 A9 in the source. For ASCII reasons the two agree (EncodeAckAscii).
- ProtoFramePy.C110PSerial.Encode: inherits the corrected ack encoding from EncodeCommand.
- ProtoFramePy.C110PSerial.Send: inherits the corrected ack encoding from EncodeCommand.
- ProtoFramePy.C110PSerial.SendAck: inherits the corrected ack encoding from EncodeCommand.
- ProtoFramePy.C110PSerial.SendNack: inherits the corrected ack encoding from EncodeCommand; a non-ASCII reason is written with its byte count.
- ProtoFrameCpp.C110PSerial.ScanInput: runs the corrected loop of Findings row 2, which checks a read for -1 before narrowing it. As written, a payload or CRC byte 0xFF ends the read and the frame is lost. ScanAsWritten is the loop as written, ReadFrameStopsAtFF exhibits the difference, and ScanFrame covers both loops.
- ProtoFrameCpp.C110PSerial.ReadFrame: reads with the corrected loop of ScanInput, so it delivers frames holding 0xFF that the source drops.
- ProtoFrameCpp.C110PSerial.SendAck: sends the tagged ack of Findings row 3. As written, `which_data` stays 0 (AckCommandAsWritten), and UntaggedAckIgnored shows that a peer then never clears the entry.
- ProtoFrameCpp.C110PSerial.SendNack: sends the tagged NACK of Findings row 3. As written, `which_data` stays 0 (NackCommandAsWritten), and a peer never resends.
- ProtoFrameCpp.C110PSerial.ReceiveMessage: its ack reply is the tagged ack of SendAck, not the untagged one the source sends.
- ProtoFrameCpp.C110PSerial.ProcessQueue: its read step is the corrected ReadFrame, and its replies are the tagged acks of SendAck.
- ProtoFrameCppProps.ReadFrameInv: proved for the class as modelled, with the corrected read and the tagged ack replies.
- ProtoFrameCppProps.ProcessQueueInv: proved for the class as modelled, with the corrected read and the tagged ack replies.
- ProtoFramePyProps.ScanFrame: stated for payloads without a 0 byte whose CRC-8 is not 0. A read of 0 is falsy and ends `readFrame`, so the source drops a frame with a 0 payload byte, or with a 0 CRC byte (one payload in 256).
- ProtoFramePyProps.ScanPayload: stated for the same payloads as ScanFrame.
- ProtoFramePyProps.RetryResends: the resend half is stated for a stream that accepts every write and a sweep that does not raise; a failed write leaves the entry untracked. No pending id may be 0.
- ProtoFramePyProps.RetryWrites: no pending id may be 0, as in RetryErasesExhausted.
- ProtoFramePyProps.ReceivedMessageIsAcked and ProtoFramePyProps.SendAckWrites: stated for ack encodings of at most 128 bytes, and only when every write succeeds.

## Findings

| source | as written | input that shows it | evidently intended | confidence | as-written member | corrected member |
|---|---|---|---|---|---|---|
| python/lib/C110PSerial/proto_encode.py:29 | the reason's length prefix is `len(reason)`, a count of characters, but UTF-8 bytes follow | reason "é": prefix 1, bytes C3 A9; the decoder reads the reason as C3 only | prefix the UTF-8 byte count, so that every reason decodes back | high, not executed | ProtoRoundTrip.AckAsWrittenNonAscii | ProtoRoundTrip.AckRoundTrip |
| lib/C110PSerial/ProtoFrame.cpp:19-25 | each read is stored in an `int8_t`, so a data byte 0xFF becomes -1, which the "no data" check treats as a failed read | the frame AA 01 FF CRC: readFrame returns false at the payload byte and the frame is never delivered | check the `int` from `read()` for -1 before narrowing it to a byte | high, not executed | ProtoFrameCppProps.ReadFrameStopsAtFF | ProtoFrameCppProps.ScanFrame |
| lib/C110PSerial/ProtoFrame.cpp:112-137 | `sendAck` and `sendNack` fill the ack fields of `C110PCommand_init_default` but leave `which_data` at 0 | a peer's processCallback receives the ack with tag 0 and neither handleAck nor handleNack runs | set `which_data` to the ack tag | medium (the nanopb encoder is not visible), not executed | ProtoFrameCppProps.UntaggedAckIgnored | ProtoFrameCppProps.TaggedAckClears |
