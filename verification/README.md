# Verified models of the protocol cores

This project models the parts of the A1 app whose state is hard to get right, and proves what they
are for. `dafny verify dfyconfig.toml` checks all of it.

* **nanopb** (`Wire`, `Schema`, `EncodeSpec`, `DecodeSpec`, `Merge`, `Transfer`, `MergeLaws`,
  `MessageLaws`, `WireFormat`; `FieldIterator`, `Encoder`, `Decoder`): the descriptor-driven
  Protocol Buffers codec. A descriptor is a finite tree of fields and a C structure a map from member offsets to
  cells. Functions specify what is encoded and decoded; the streams, the cyclic field iterator,
  the two-pass encoder, bounded substreams and the required-field bitmap are classes and methods
  proved to compute those functions; the laws (round trip, schema evolution, merging by
  concatenation) are lemmas about the functions, over all descriptors and messages; and
  `WireFormat` says byte by byte what is written and how whatever arrives is read.
* **DTLS handshake transport** (`NetworkOrder`, `ReplayWindow`, `HandshakeFragments`,
  `Reassembly`, `Delivery`, `Flight`, `FlightDelivery`, `Datagrams`): the replay window refines a
  set, the bit mask and the seven-place ring refine maps, and a flight cut to any MTU and delivered
  in any order comes out as it went in (sections 4.1.2.6 and 4.2.3 of RFC 6347).
* **TLS 1.0 to 1.2 handshake** (`HandshakeScript`, `HandshakeTransport`, `HandshakeChecks`,
  `HandshakeClient`, `HandshakeServer`, `HandshakeJoint`): both state machines, state by state, against the order of
  messages of section 7.3 of RFC 5246 and section 3.3 of RFC 5077. Each side is proved to stay on
  that script if its peer does, with exactly the script's transcript; joint runs then agree on
  transcripts and never get stuck. Against any peer, a history of what was read, queued and checked
  shows that each side gets through only after its checks, in order, and after having sent and read what its
  parameters ask for.
* **TLS write path** (`WriteBuffer`, `TlsWrite`): exactly-once writes over a transport that takes
  what it likes.
* **Request scheduler** (`Scheduler`), **cipher choice** (`CipherChoice`) and the **lock-free
  reference count** (`RefCount`).

Cryptography is a function of its inputs that may fail: encryption, MACs and signatures of what
they are applied to. Content checks that the model does not look into (parsing of bodies,
certificates, callbacks) are decisions passed in as arguments, for all values of which the
theorems hold. Transports are scripts of answers. `Bits` and `Wrappers` are helpers.

Choices where code and documentation differ, or the code does something a reader may not expect:

* A fragment exactly seven ahead of the message being read passes the check for fragments too far
  in the future but has no place in the ring, and is an error (`Delivery.RefusedHonest`). In epoch 1 every
  fragment of another message than the one being read is an error too, and that includes a repeat of
  a message already read (`Delivery.FailsExactly`).
* A `has_`-less submessage is tested for zero bytes and not for counts, so an array of zeros in it
  is lost (`MessageLaws.ZeroElementLost`); strings that fill their buffer without a terminator
  encode but do not decode. `MessageLaws.RoundTrip` gives the exact conditions.
* A key cut off at the end of a stream ends the message as if it were complete, a zero tag ends
  it too, and an empty descriptor matches tag 0; the wire type of a known field is not compared
  with its type. The model keeps all of these.
* When sealing fails behind the first message of a packet, the cursor of the flight is left ahead
  of what was sent (`Flight.CursorLeftAhead`; `Flight.Sender.SendFlight` says exactly when).
* A write that is given less data than has been sealed fails and forgets how far it was; the
  contract of `TlsWrite.Writer.WriteAppData` states this case apart.
* The 16-bit offset of the write buffer wraps for buffers that end past 2^16, which EnsureCap hands
  out for capacities from 65530 on (`WriteBuffer.ConsumingExact`, `WriteBuffer.LongBuffer`). The
  writer keeps track of whether that has happened.
* The comparison that sorts waiting requests is `>=`, which is not a strict order: equal
  priorities may come out in any order.

## Model

| member | source | states |
|---|---|---|
| MessageLaws.RoundTrip | A1/Pods/nanopb/pb_encode.c:271-473 | For every well-formed descriptor and every message it types: decoding the encoded bytes succeeds exactly when every string sent, nested ones included, has room for its terminator, reads every byte, and fills a structure equal to the encoded one exactly when that one is canonical (strings end at their terminator, unsent fields are at their defaults, unions hold a known arm) |
| MessageLaws.ZeroElementLost | A1/Pods/nanopb/pb_encode.c:225-243 | The concrete message that does not survive: a submessage without a has_ member holding one zero in an array is taken for empty and lost |
| MessageLaws.SchemaEvolution | A1/Pods/nanopb/pb_decode.c:877-906 | What any version of a descriptor encodes any other decodes: common fields arrive, unknown ones are skipped by exactly the bytes written, missing ones keep their defaults, all bytes are read; it fails exactly when a value does not fit the receiver, or a field that the receiver requires is not sent, in the message or a nested one; a field may change between required, optional and neither |
| MessageLaws.MergeByConcatenation | A1/Pods/nanopb/pb_decode.c:852-953 | Decoding two encodings laid end to end over any structure merges the first message and then the second, and succeeds only if each required field is in one of them |
| MessageLaws.MergeCellMeaning | A1/Pods/nanopb/pb_decode.c:364-424 | What that merge is for one member: last scalar wins, arrays append while they fit, nested structures merge recursively, a oneof is replaced by the arm that arrives, decoded afresh |
| MessageLaws.MergeElementsAppends | A1/Pods/nanopb/pb_decode.c:386-403 | Array elements are appended, each decoded into a fresh default, if and only if all fit |
| MessageLaws.ArrivedSelf | A1/Pods/nanopb/pb_decode.c:356-429 | What arrives from the same descriptor equals the message sent if and only if the message is canonical |
| MessageLaws.FreshMessage | A1/Pods/nanopb/pb_decode.c:955-967 | Merging into default values succeeds exactly when the message fits and nothing required is missing, and then every field has arrived |
| MessageLaws.UnionArrived | A1/Pods/nanopb/pb_decode.c:404-424 | After a fresh merge a union is empty or holds the one arm that was sent |
| Transfer.FieldsArrive | A1/Pods/nanopb/pb_decode.c:852-953 | The master lemma: decoding the encoded fields of a message followed by anything merges them, marks the required tags met, and goes on with the rest |
| Transfer.MessageArrives | A1/Pods/nanopb/pb_decode.c:852-953 | Decoding exactly an encoded message is merging it, and fails if a field that the receiver requires is not sent |
| Transfer.ValueArrives | A1/Pods/nanopb/pb_decode.c:1165-1379 | Each encoded value decodes to the merge of its value, leaving what follows |
| Transfer.ValueSkipped | A1/Pods/nanopb/pb_decode.c:277-287 | Skipping a value by its wire type consumes exactly the bytes its encoder wrote |
| Transfer.UnknownField | A1/Pods/nanopb/pb_decode.c:889-906 | A whole field that the receiver does not know, packed or not, leaves the structure as it was |
| Transfer.PackedArrives | A1/Pods/nanopb/pb_decode.c:376-403 | A packed body decodes to the merge of its elements |
| MessageLaws.FitsOwn | A1/Pods/nanopb/pb_decode.c:1262-1332 | What can be encoded fits its own descriptor exactly when its strings have room for their terminators |
| MessageLaws.EmptyInput | A1/Pods/nanopb/pb_decode.c:919-952 | An empty message is refused exactly if the descriptor has a required field, and otherwise leaves the initial values, or zeros |
| Transfer.ElementsArrive | A1/Pods/nanopb/pb_decode.c:386-403 | Elements that come one by one, each behind its key, are appended; numbers too, which the encoder would pack |
| Transfer.KnownFieldArrives | A1/Pods/nanopb/pb_decode.c:877-943 | A whole field that the receiver knows is merged into its member |
| MergeLaws.FieldAfterMerge | A1/Pods/nanopb/pb_decode.c:356-429 | In a merge each member depends only on the sender field of the same tag |
| MergeLaws.UnionAfterMerge | A1/Pods/nanopb/pb_decode.c:404-424 | In a merge a union takes the arm that is sent |
| MergeLaws.UnionUntouched | A1/Pods/nanopb/pb_decode.c:404-424 | A union none of whose arms is sent stays as it was |
| MergeLaws.MergeFits | A1/Pods/nanopb/pb_decode.c:852-953 | A merge succeeds exactly when each field fits |
| WireFormat.MessageFormat | A1/Pods/nanopb/pb_encode.c:451-473 | The bytes of a message are exactly those of the wire format: fields in order, each left out or behind a key whose number is 8 * tag + 0, 1, 2 or 5 by type; there are none exactly when it cannot be encoded |
| WireFormat.FieldFormat | A1/Pods/nanopb/pb_encode.c:271-351 | What is sent for a field, by rule and value; numbers of an array share a key with 2 and a length |
| WireFormat.TaggedFormat | A1/Pods/nanopb/pb_encode.c:559-590 | A value behind its key: 0 for varints, 1 for eight bytes, 5 for four, 2 with a length for the rest |
| WireFormat.ValueFormat | A1/Pods/nanopb/pb_encode.c:652-777 | A varint of the number, of 2n or -2n - 1, or of the number plus 2^64; four or eight bytes, low first; or a length and the bytes, the text before the terminator, or the nested message |
| WireFormat.BlankIsZero | A1/Pods/nanopb/pb_encode.c:205-268 | What is taken for zero: numbers, bytes and text, and structures of nothing else, of which an array counts with its first element only, and none with an inline array in its type |
| WireFormat.VarintFormat | A1/Pods/nanopb/pb_encode.c:494-514 | A varint is seven-bit groups, low first, whose sum is the number, with the high bit on all but the last and no empty group at the end |
| WireFormat.VarintUnique | A1/Pods/nanopb/pb_encode.c:494-514 | There is no other |
| WireFormat.LittleEndianFormat | A1/Pods/nanopb/pb_encode.c:527-551 | Byte i of a fixed-width word is v / 256^i mod 256 |
| WireFormat.VarintReading | A1/Pods/nanopb/pb_decode.c:173-229 | Whatever the bytes: a reader takes up to the first byte without the high bit, at most ten or five of them, and their sum modulo 2^64 or 2^32; otherwise it fails, with the bytes behind the last it looked at left |
| WireFormat.LittleEndianRead | A1/Pods/nanopb/pb_decode.c:1132-1163 | Whatever the bytes, a fixed-width word is read as the sum of its bytes times 256^i |
| WireFormat.SkipSizes | A1/Pods/nanopb/pb_decode.c:277-287 | Skipping passes over one varint for wire type 0, eight bytes for 1, four for 5, and refuses 3, 4, 6 and 7 |
| WireFormat.SkipLength | A1/Pods/nanopb/pb_decode.c:242-249 | And for 2 over the length and the bytes it tells |
| WireFormat.NumberTaken | A1/Pods/nanopb/pb_decode.c:1165-1248 | Whatever word arrives for an integer field is stored if the member can hold what it means, and refused if not; members below 64 bits see the low half of a word of plain signed type |
| WireFormat.BodyTaken | A1/Pods/nanopb/pb_decode.c:1262-1379 | Whatever body arrives for bytes, a string or an inline array is stored if the member can hold it, and refused if not |
| WireFormat.KeysThatStop | A1/Pods/nanopb/pb_decode.c:251-269 | A zero key and one cut off by the end end a message; one that goes on for more than five bytes is an error |
| WireFormat.UnknownTag | A1/Pods/nanopb/pb_decode.c:889-906 | An unknown field is passed over by its wire type, or is an error |
| Wire.VarintRoundTrip | A1/Pods/nanopb/pb_decode.c:209-229 | Every 64-bit word survives its varint encoding, and reading stops at its last byte |
| Wire.Varint32RoundTrip | A1/Pods/nanopb/pb_decode.c:173-206 | The same for 32-bit words |
| Wire.ReadVarint32IsTruncation | A1/Pods/nanopb/pb_decode.c:173-229 | Wherever the 32-bit reader succeeds it returns the 64-bit value modulo 2^32 and consumes the same bytes |
| Wire.VarintFitsBuffer | A1/Pods/nanopb/pb_encode.c:494-514 | A varint never needs more than the ten bytes of the buffer |
| Wire.ZigZagRoundTrip | A1/Pods/nanopb/pb_encode.c:516-525 | Signed 64-bit numbers survive zigzag |
| Wire.SignedOfWord | A1/Pods/nanopb/pb_decode.c:1165-1200 | A signed number sent as a 64-bit word and cast to its member comes back |
| Wire.LittleEndianRoundTrip | A1/Pods/nanopb/pb_decode.c:1132-1163 | Fixed-width words survive |
| Wire.KeyRoundTrip | A1/Pods/nanopb/pb_decode.c:251-269 | A key (tag 1 to 2^29 - 1) is read back as it was written |
| Wire.SkipDelimited | A1/Pods/nanopb/pb_decode.c:242-249 | Skipping a length-delimited value drops exactly it |
| Wire.SkipVarintBytes | A1/Pods/nanopb/pb_decode.c:231-240 | Skipping a varint drops exactly it |
| Schema.DefaultsTyped | A1/Pods/nanopb/pb_decode.c:835-850 | The default structure fits its descriptor |
| Schema.DefaultsAt | A1/Pods/nanopb/pb_decode.c:763-833 | Each member of the default structure has its own default |
| FieldIterator.FieldIter.Next | A1/Pods/nanopb/pb_common.c:20-76 | The cursor moves cyclically; the data offset and required index it computes from deltas are those of the field it stands on |
| FieldIterator.FieldIter.Find | A1/Pods/nanopb/pb_common.c:78-96 | From any starting position the search finds the field of a tag if there is one, and otherwise leaves the cursor |
| Encoder.OStream.Write | A1/Pods/nanopb/pb_encode.c:62-113 | A stream takes all of the bytes or, for lack of room, none, and writes nothing outside its part of the buffer |
| Encoder.EncodeVarintTo | A1/Pods/nanopb/pb_encode.c:494-514 | Emits the varint of the value |
| Encoder.EncodeKeyTo | A1/Pods/nanopb/pb_encode.c:553-557 | Emits the key |
| Encoder.EncodeStringTo | A1/Pods/nanopb/pb_encode.c:592-598 | Emits the length and the bytes |
| Encoder.StringLength | A1/Pods/nanopb/pb_encode.c:739-763 | The length up to the terminator, within the data size |
| Encoder.CheckZero | A1/Pods/nanopb/pb_encode.c:205-268 | Decides whether a member has only zero bytes |
| Encoder.CheckZeroFields | A1/Pods/nanopb/pb_encode.c:225-243 | The walk over a submessage that looks at bytes and not at counts |
| Encoder.EncodeValueTo | A1/Pods/nanopb/pb_encode.c:652-777 | Emits the encoding of one value |
| Encoder.EncodeSubmessageTo | A1/Pods/nanopb/pb_encode.c:600-648 | Sizing equals writing at every nesting level: the second pass emits exactly the bytes counted, so the size-changed error cannot happen |
| Encoder.EncodePackedTo | A1/Pods/nanopb/pb_encode.c:124-176 | The packed form: length, then all elements, counted and written alike |
| Encoder.EncodeArrayTo | A1/Pods/nanopb/pb_encode.c:116-201 | Emits an array, packed or element by element, or fails if it is too long |
| Encoder.EncodeFieldTo | A1/Pods/nanopb/pb_encode.c:271-351 | Emits a field according to its rule, presence flag, count or union tag |
| Encoder.EncodeMessageTo | A1/Pods/nanopb/pb_encode.c:451-473 | Emits exactly the encoding of the message, or fails exactly when it has none or there is no room |
| Encoder.EncodedSize | A1/Pods/nanopb/pb_encode.c:480-489 | Counts exactly the bytes that writing emits |
| Encoder.EncodeToBuffer | A1/Pods/nanopb/pb_encode.c:74-113 | Encoding into a buffer succeeds if and only if its size is at least the encoded size |
| Decoder.IStream.Read | A1/Pods/nanopb/pb_decode.c:76-125 | Reads a count of bytes or nothing |
| Decoder.IStream.DecodeVarint | A1/Pods/nanopb/pb_decode.c:209-229 | Reads what the specification of varints says, and consumes the same bytes |
| Decoder.IStream.DecodeVarint32 | A1/Pods/nanopb/pb_decode.c:173-206 | The same for 32-bit words |
| Decoder.IStream.SkipField | A1/Pods/nanopb/pb_decode.c:277-287 | Skips a value of a wire type |
| Decoder.IStream.DecodeTag | A1/Pods/nanopb/pb_decode.c:251-269 | Reads a key, or reports the end |
| Decoder.MakeSubstream | A1/Pods/nanopb/pb_decode.c:322-335 | A substream bounded by the length that was read |
| Decoder.CloseSubstream | A1/Pods/nanopb/pb_decode.c:337-352 | The rest of a substream is consumed from its parent |
| Decoder.DecodeNumberFrom | A1/Pods/nanopb/pb_decode.c:1165-1248 | Numbers, with the overflow check on narrowing |
| Decoder.DecodeBlobFrom | A1/Pods/nanopb/pb_decode.c:1262-1332 | Bytes and strings with their size checks |
| Decoder.DecodeScalarFrom | A1/Pods/nanopb/pb_decode.c:1165-1332 | Every scalar type |
| Decoder.SetToDefaults | A1/Pods/nanopb/pb_decode.c:763-850 | Fills a structure with its defaults |
| Decoder.CheckRequired | A1/Pods/nanopb/pb_decode.c:938-952 | With the 64-bit bitmap: succeeds exactly when every required field was met |
| Decoder.DecodeSubmessageFrom | A1/Pods/nanopb/pb_decode.c:1334-1356 | A nested message is decoded within its bounded substream, which is closed behind it |
| Decoder.DecodePackedFrom | A1/Pods/nanopb/pb_decode.c:376-403 | A packed array into its member |
| Decoder.DecodeFieldFrom | A1/Pods/nanopb/pb_decode.c:356-429 | One field into its member, by rule and wire type |
| Decoder.NoteRequired | A1/Pods/nanopb/pb_decode.c:909-913 | Sets exactly the bit of the field under the cursor |
| Decoder.DecodeNoinit | A1/Pods/nanopb/pb_decode.c:852-953 | The whole loop does what the specification of decoding does, wherever the cyclic cursor is left between fields |
| Decoder.DecodeInto | A1/Pods/nanopb/pb_decode.c:955-967 | The same after setting defaults |
| NetworkOrder.BytesDigits | A1/Pods/BoringSSL/ssl/d1_both.cc:456-473 | Byte i of n is v / 256^(n - 1 - i) mod 256 |
| NetworkOrder.BigEndianDigits | A1/Pods/BoringSSL/ssl/d1_both.cc:456-473 | And so it is read |
| NetworkOrder.BytesRoundTrip | A1/Pods/BoringSSL/ssl/d1_both.cc:456-473 | Big-endian numbers of a width are read back as written |
| ReplayWindow.ToU64BE | A1/Pods/BoringSSL/ssl/dtls_record.cc:128-137 | The big-endian value of the eight bytes |
| ReplayWindow.RecordRead | A1/Pods/BoringSSL/ssl/dtls_record.cc:194-206 | Where a reader finds type, version, epoch, number, length and body, whatever arrives |
| ReplayWindow.AcceptedExactly | A1/Pods/BoringSSL/ssl/dtls_record.cc:177-265 | A record is accepted exactly if its header is whole, version and epoch are those read, its number is neither recorded nor 64 below the largest, and it decrypts to at most 16384 bytes |
| ReplayWindow.Bitmap.ShouldDiscard | A1/Pods/BoringSSL/ssl/dtls_record.cc:139-151 | Refuses exactly the numbers recorded before and those 64 or more below the largest |
| ReplayWindow.Bitmap.Record | A1/Pods/BoringSSL/ssl/dtls_record.cc:153-175 | The word and maximum show the set with the number added, the window slid forward if needed |
| ReplayWindow.Reader.OpenRecord | A1/Pods/BoringSSL/ssl/dtls_record.cc:177-272 | A record is accepted exactly when it is well formed, of this epoch, fresh and authentic; only then the window changes |
| ReplayWindow.AcceptedOnce | A1/Pods/BoringSSL/ssl/dtls_record.cc:225-259 | In every run of packets and any number of key changes no record is accepted twice under the same keys, and a sequence number is accepted again at most after whole rounds of the 16-bit epoch |
| ReplayWindow.EpochsAreTurns | A1/Pods/BoringSSL/ssl/dtls_record.cc:225-259 | The epoch in every accepted record is that of the keys it was accepted under, in 16 bits |
| ReplayWindow.InWindowAccepted | A1/Pods/BoringSSL/ssl/dtls_record.cc:139-175 | The window refuses nothing else: a fresh authentic record that arrives before any number a whole window above it is accepted |
| ReplayWindow.PastStaysPast | A1/Pods/BoringSSL/ssl/dtls_record.cc:225-259 | A record that was recorded under some keys is not accepted again under them |
| ReplayWindow.ShiftShows | A1/Pods/BoringSSL/ssl/dtls_record.cc:162-170 | Sliding the word keeps it in step with the set |
| ReplayWindow.MarkShows | A1/Pods/BoringSSL/ssl/dtls_record.cc:172-175 | Setting a bit adds a number |
| ReplayWindow.Reader.SetReadState | A1/Pods/BoringSSL/ssl/dtls_method.cc:81-95 | A new epoch starts with an empty window |
| HandshakeFragments.FragmentLayout | A1/Pods/BoringSSL/ssl/d1_both.cc:456-473 | Where type, length, number, offset and length of the piece are in a fragment, and in how many bytes |
| HandshakeFragments.FragmentRead | A1/Pods/BoringSSL/ssl/d1_both.cc:456-473 | And where a reader finds them, whatever arrives |
| HandshakeFragments.FragmentRoundTrip | A1/Pods/BoringSSL/ssl/d1_both.cc:456-473 | A fragment followed by anything is parsed back as itself |
| HandshakeFragments.BitRangeBits | A1/Pods/BoringSSL/ssl/d1_both.cc:197-201 | bit_range sets exactly the bits from start to end |
| HandshakeFragments.MarkRange | A1/Pods/BoringSSL/ssl/d1_both.cc:218-234 | Marking adds exactly the range to the offsets the mask shows |
| HandshakeFragments.IsComplete | A1/Pods/BoringSSL/ssl/d1_both.cc:236-250 | The byte-wise check says whether every offset of the message is covered |
| HandshakeFragments.OrRange | A1/Pods/BoringSSL/ssl/d1_both.cc:222-233 | Or-ing a range into one byte of the mask |
| Reassembly.HmFragment.constructor | A1/Pods/BoringSSL/ssl/d1_both.cc:152-195 | An empty buffer with its header, and a mask unless the message is empty |
| Reassembly.HmFragment.Mark | A1/Pods/BoringSSL/ssl/d1_both.cc:203-251 | The mask is given up exactly when nothing is missing |
| Reassembly.HmFragment.Receive | A1/Pods/BoringSSL/ssl/d1_both.cc:393-402 | The bytes received become those of the map from offsets to bytes |
| Reassembly.Ring.PlaceOf | A1/Pods/BoringSSL/ssl/d1_both.cc:267-295 | Each place only ever holds the one message of the window that belongs there, even when the 16-bit counter wraps |
| Reassembly.TakeAllBounded | A1/Pods/BoringSSL/ssl/d1_both.cc:261-405 | Whatever arrives, only the seven messages of the window are held, none above the limit, nothing outside a message, and kind and length stay those of the first fragment |
| Reassembly.Ring.IsCurrentComplete | A1/Pods/BoringSSL/ssl/d1_both.cc:253-259 | Whether the current message has all its bytes |
| Reassembly.Ring.GetIncomingMessage | A1/Pods/BoringSSL/ssl/d1_both.cc:261-295 | The buffer of a message of the window, made on demand; none outside the window or on a mismatch |
| Reassembly.Ring.TakeFragment | A1/Pods/BoringSSL/ssl/d1_both.cc:357-402 | One fragment is refused or changes exactly its message |
| Reassembly.Ring.ReadFragments | A1/Pods/BoringSSL/ssl/d1_both.cc:344-405 | All fragments of a record up to the first bad one |
| Reassembly.Ring.OpenHandshake | A1/Pods/BoringSSL/ssl/d1_both.cc:297-405 | Opening a handshake record: what each record type does to ring, flag and window |
| Reassembly.Ring.GetMessage | A1/Pods/BoringSSL/ssl/d1_both.cc:407-424 | The current message exactly when complete, header bytes included |
| Reassembly.Ring.NextMessage | A1/Pods/BoringSSL/ssl/d1_both.cc:426-438 | The window moves on by one, to an empty ring when the counter wraps |
| Reassembly.Ring.HasUnprocessedData | A1/Pods/BoringSSL/ssl/d1_both.cc:440-455 | Whether anything but the current message is left |
| Delivery.DeliveredInOrder | A1/Pods/BoringSSL/ssl/d1_both.cc:297-438 | In every run of honest fragments, in any order, repeated, overlapping or cut differently, and read in any epoch, the messages handed over are the sender's, in order and each once, and the next is handed over exactly when all its bytes have arrived |
| Delivery.AvailableWhenArrived | A1/Pods/BoringSSL/ssl/d1_both.cc:407-424 | A message is available exactly when each of its bytes is in some fragment that reached the window, and is then the sender's, header included |
| Delivery.RefusedHonest | A1/Pods/BoringSSL/ssl/d1_both.cc:261-389 | Honest fragments are refused exactly when they lie seven ahead of the message being read or, in epoch 1, are not of that message: later ones, and repeats of earlier ones too |
| Delivery.FailsExactly | A1/Pods/BoringSSL/ssl/d1_both.cc:297-405 | A run of honest records, read in whatever epochs, ends in an error exactly if some fragment is one of those when it arrives |
| Delivery.TakeAgrees | A1/Pods/BoringSSL/ssl/d1_both.cc:390-402 | An honest fragment keeps every buffer in agreement with the sender and with the coverage |
| Delivery.ReceiveIsTakeAll | A1/Pods/BoringSSL/ssl/d1_both.cc:344-405 | The run model does what reading the record does |
| Flight.RecordLayout | A1/Pods/BoringSSL/ssl/dtls_record.cc:318-345 | Where type, version, epoch, number, length and ciphertext are in a record |
| Flight.Sender.SealRecord | A1/Pods/BoringSSL/ssl/dtls_record.cc:295-351 | A record under the next number of its epoch, with the bytes that encryption makes, and no epoch uses a number twice |
| Flight.Sender.SealNextMessage | A1/Pods/BoringSSL/ssl/d1_both.cc:621-684 | The next record carries the cursor on, or does not fit, or fails |
| Flight.Sender.SealPiece | A1/Pods/BoringSSL/ssl/d1_both.cc:679-720 | A piece of the message as large as the room allows |
| Flight.Sender.SealNextPacket | A1/Pods/BoringSSL/ssl/d1_both.cc:723-764 | A packet of records that cut the flight between the old and the new cursor, no longer than the MTU, and with no room for more unless it ends the flight; with ready messages it cannot fail; when it fails the cursor stands behind the records that are dropped, and some are dropped exactly if the first message could be sealed |
| Flight.Sender.UpdateMtu | A1/Pods/BoringSSL/ssl/d1_both.cc:596-614 | Below 228 the MTU becomes the one asked for if that is from 228 to 2^30, and otherwise 1472; above it stays |
| Flight.Sender.SendFlight | A1/Pods/BoringSSL/ssl/d1_both.cc:766-809 | Terminates, and says how it ended; every datagram taken is at most the MTU, and those taken cut the flight in order, the last of them with no room for what comes next; after any failure of the transport, and any end but a failure to seal, the cursor stands at the end of the last datagram taken; a failure to seal leaves it ahead exactly if the datagram began with a message that can be sealed; with ready messages and a transport that takes everything the whole flight is sent |
| Flight.Sender.SendPacket | A1/Pods/BoringSSL/ssl/d1_both.cc:775-795 | One datagram: sealed and written, or the cursor goes back |
| Flight.Sender.FlushFlight | A1/Pods/BoringSSL/ssl/d1_both.cc:811-816 | The same, cursor included, the flight being complete |
| Flight.Sender.Retransmit | A1/Pods/BoringSSL/ssl/d1_both.cc:818-828 | The same, cursor included, from the start of the flight |
| Flight.CursorLeftAhead | A1/Pods/BoringSSL/ssl/d1_both.cc:775-781 | Sending a ChangeCipherSpec and a handshake message that cannot be sealed, both as they are added to a flight, over any transport: sealing fails and the cursor is left at the second message though nothing was written |
| Flight.Sender.AddOutgoing | A1/Pods/BoringSSL/ssl/d1_both.cc:540-583 | A message joins the flight, or starts a new one after a flush |
| Flight.Sender.AddMessage | A1/Pods/BoringSSL/ssl/d1_both.cc:508-538 | The next number, and one fragment that is the whole message |
| Flight.CutsConcat | A1/Pods/BoringSSL/ssl/d1_both.cc:723-809 | Cuts of adjoining stretches make a cut of the whole |
| Flight.Sender.SetWriteState | A1/Pods/BoringSSL/ssl/dtls_method.cc:97-107 | The last epoch's keys stay for retransmission, numbers start again, and the 16-bit epoch wraps |
| FlightDelivery.FlightDelivered | A1/Pods/BoringSSL/ssl/d1_both.cc:297-438 | End to end: a flight sent to its end, every record of which arrives at least once in any order among other honest records, is handed over completely, in order, each message once, or the run has ended in an error, which it does exactly if some fragment did not come in time, and never outside epoch 1 with records of the window |
| FlightDelivery.FlightArrives | A1/Pods/BoringSSL/ssl/d1_both.cc:297-405 | Each message of such a flight has arrived or been handed over |
| FlightDelivery.CutsPartition | A1/Pods/BoringSSL/ssl/d1_both.cc:630-720 | The pieces of each message, one after the other, are its body |
| FlightDelivery.CutsCover | A1/Pods/BoringSSL/ssl/d1_both.cc:630-720 | Every byte of every message, and every empty message, is in some record |
| FlightDelivery.CutsHonest | A1/Pods/BoringSSL/ssl/d1_both.cc:630-720 | Records of a flight hold honest fragments only |
| FlightDelivery.ArrivesInLog | A1/Pods/BoringSSL/ssl/d1_both.cc:380-405 | A fragment of the window that arrives is never lost |
| FlightDelivery.RunSound | A1/Pods/BoringSSL/ssl/d1_both.cc:297-438 | Runs with honest records stay sound, and never fail with records of the window outside epoch 1 |
| FlightDelivery.AsksDeliver | A1/Pods/BoringSSL/ssl/d1_both.cc:407-438 | Messages that have arrived are handed over one by one |
| FlightDelivery.RecordReadsBack | A1/Pods/BoringSSL/ssl/dtls_record.cc:177-204 | A sealed record is parsed back with its type, number and ciphertext |
| Datagrams.FlightReceived | A1/Pods/BoringSSL/ssl/d1_both.cc:766-809 | The whole way: when every datagram that the transport took of a completely sent flight arrives, in any order, repeated, and among whatever else, and a reader with matching keys opens them through its replay window, the messages handed over up to the flight's last are the sender's, in order and each once; the handshake ends in an error exactly if some fragment does not come in time, and outside epoch 1 not with records of the window |
| Datagrams.SentOpened | A1/Pods/BoringSSL/ssl/dtls_record.cc:177-272 | Every record of a datagram that arrives at least once within the window is opened |
| Datagrams.OpensAll | A1/Pods/BoringSSL/ssl/dtls_record.cc:177-272 | Whatever arrives, what is opened are records that were sealed, and the window records just those |
| Datagrams.PackedRecorded | A1/Pods/BoringSSL/ssl/dtls_record.cc:177-272 | Each record packed in a datagram is recorded once the datagram has been opened |
| Datagrams.OpenDatagram | A1/Pods/BoringSSL/ssl/handshake.cc:505-537 | What is opened, what becomes of the window, and whether it is an error are as specified record by record: up to the end of the datagram, or to a record whose plaintext is too long, which is the one error |
| Datagrams.OpensToEnd | A1/Pods/BoringSSL/ssl/handshake.cc:505-537 | A datagram of which nothing authenticates that was not sealed is opened to its end, without an error, if no sealed plaintext is too long |
| FlightDelivery.SequencesDiffer | A1/Pods/BoringSSL/ssl/dtls_record.cc:323-330 | Different epochs or numbers are different to the replay window |
| HandshakeClient.ClientHandshake.DoStartConnect | A1/Pods/BoringSSL/ssl/handshake_client.cc:427-488 | ClientHello |
| HandshakeClient.ClientHandshake.DoReadServerHello | A1/Pods/BoringSSL/ssl/handshake_client.cc:572-765 | ServerHello settles the parameters, which are on record; the transcript is hashed and its buffer given up on resumption or without certificates |
| HandshakeClient.ClientHandshake.DoReadServerCertificate | A1/Pods/BoringSSL/ssl/handshake_client.cc:777-825 | Certificate |
| HandshakeClient.ClientHandshake.DoReadCertificateStatus | A1/Pods/BoringSSL/ssl/handshake_client.cc:827-875 | CertificateStatus, which the server may leave out |
| HandshakeClient.ClientHandshake.DoVerifyServerCertificate | A1/Pods/BoringSSL/ssl/handshake_client.cc:877-895 | The certificate is verified, with retries |
| HandshakeClient.ClientHandshake.DoReadServerKeyExchange | A1/Pods/BoringSSL/ssl/handshake_client.cc:897-1077 | ServerKeyExchange, optional for plain PSK, and its signature |
| HandshakeClient.ClientHandshake.DoReadCertificateRequest | A1/Pods/BoringSSL/ssl/handshake_client.cc:1079-1149 | CertificateRequest; without one the buffer is given up |
| HandshakeClient.ClientHandshake.DoReadServerHelloDone | A1/Pods/BoringSSL/ssl/handshake_client.cc:1151-1173 | ServerHelloDone |
| HandshakeClient.ClientHandshake.DoSendClientCertificate | A1/Pods/BoringSSL/ssl/handshake_client.cc:1175-1221 | The chain, empty without a certificate |
| HandshakeClient.ClientHandshake.DoSendClientKeyExchange | A1/Pods/BoringSSL/ssl/handshake_client.cc:1226-1377 | ClientKeyExchange |
| HandshakeClient.ClientHandshake.DoSendClientCertificateVerify | A1/Pods/BoringSSL/ssl/handshake_client.cc:1379-1461 | What is signed is the whole transcript buffer, which is still there |
| HandshakeClient.ClientHandshake.DoSendClientFinished | A1/Pods/BoringSSL/ssl/handshake_client.cc:1463-1516 | ChangeCipherSpec, NextProto, ChannelID, Finished |
| HandshakeClient.ClientHandshake.DoFinishFlight | A1/Pods/BoringSSL/ssl/handshake_client.cc:1532-1558 | Resumption ends; a full handshake goes on, with False Start if wanted |
| HandshakeClient.ClientHandshake.DoReadSessionTicket | A1/Pods/BoringSSL/ssl/handshake_client.cc:1560-1641 | NewSessionTicket, possibly empty |
| HandshakeClient.ClientHandshake.DoProcessChangeCipherSpec | A1/Pods/BoringSSL/ssl/handshake_client.cc:1643-1650 | The read cipher changes |
| HandshakeClient.ClientHandshake.DoReadServerFinished | A1/Pods/BoringSSL/ssl/handshake_client.cc:1652-1666 | The server's Finished |
| HandshakeClient.ClientHandshake.DoFinishClientHandshake | A1/Pods/BoringSSL/ssl/handshake_client.cc:1668-1699 | The last state |
| HandshakeClient.ClientHandshake.Run | A1/Pods/BoringSSL/ssl/handshake_client.cc:1701-1779 | The driver loop terminates; it moves to a later state, or waits for input only when there is none and it is the server's turn; every check passed on the way was decided by the choice for its state; on the script it stays on it |
| HandshakeClient.ClientHandshake.Step | A1/Pods/BoringSSL/ssl/handshake_client.cc:1701-1779 | One state, which passes no check but its own and that only by an accepting decision; the checks due in its new state have been passed in order |
| HandshakeClient.Play | A1/Pods/BoringSSL/ssl/handshake_client.cc:777-1699 | A run against any peer, in any order of arrivals, turns and retries: what was read is what arrived, each check was passed by a decision made in the run for its state, and the checks passed are exactly those due in the state reached, in order; the first is what the ServerHello said; and what was read and sent leads to that state |
| HandshakeClient.OrderSafety | A1/Pods/BoringSSL/ssl/handshake_client.cc:777-1077 | What that means at the end of a handshake: a ServerHello was read that said the parameters the handshake is with, and nothing else was ever adopted; then, in full with an RSA or ECDHE certificate cipher, Certificate was read and accepted, then verified, and for ECDHE ServerKeyExchange was read and its signature accepted; then upon a ChangeCipherSpec the read cipher changed, then a Finished was read that is the MAC of all messages before it |
| HandshakeClient.DoneAsDue | A1/Pods/BoringSSL/ssl/handshake_client.cc:427-1699 | Whatever the server sends, what a handshake that is through has read and sent is, in order, what goes with the ServerHello adopted: CertificateStatus only if negotiated, ServerKeyExchange for ECDHE, never for RSA and at will for plain PSK, CertificateRequest only with a certificate cipher, and then a chain, and a signature if the client has a certificate |
| HandshakeClient.ResumedOrderSafety | A1/Pods/BoringSSL/ssl/handshake_client.cc:1643-1666 | And of a resumed one: a ServerHello that said so, the change of the read cipher upon a ChangeCipherSpec, then the matching Finished |
| HandshakeClient.ClientHandshake.Arrives | A1/Pods/BoringSSL/ssl/handshake_client.cc:572-1666 | On the script the message a state insists on is the one that arrives, and a Finished matches the client's own transcript |
| HandshakeClient.ClientHandshake.Optional | A1/Pods/BoringSSL/ssl/handshake_client.cc:827-1149 | On the script a message of another kind means the optional one was not sent |
| HandshakeClient.ClientHandshake.GetFinished | A1/Pods/BoringSSL/ssl/handshake.cc:371-420 | The MAC is taken over the transcript before the message is hashed |
| HandshakeClient.ClientHandshake.SendFinished | A1/Pods/BoringSSL/ssl/handshake.cc:422-467 | The Finished sent is the MAC over the transcript so far |
| HandshakeClient.ClientHandshake.Turn | A1/Pods/BoringSSL/ssl/handshake.cc:482-614 | An iteration of the loop: what is waited for is resolved and the machine runs; against any peer, every check passed was decided by the choice for its state and a failed handshake stays failed; on the script less work is left, or the client has flushed everything and waits for the server |
| HandshakeChecks.InOrderPlaces | A1/Pods/BoringSSL/ssl/handshake_client.cc:777-1699 | Checks passed in order have places in the history, one behind the other and nothing else passed anywhere, at each of which the check was earned: the decision accepts and what it is about has just been read |
| HandshakeChecks.InOrderUnique | A1/Pods/BoringSSL/ssl/handshake_client.cc:572-1699 | A history leaves open neither which checks were passed nor, with them, what the ServerHello said and whether the client's chain was empty |
| HandshakeClient.ClientHandshake.Resolve | A1/Pods/BoringSSL/ssl/handshake.cc:484-594 | What the handshake waits for is resolved (a ChangeCipherSpec only by one), or it still waits with an empty inbox or a transport that blocks |
| HandshakeServer.ServerHandshake.DoReadClientHello | A1/Pods/BoringSSL/ssl/handshake_server.cc:432-506 | ClientHello is checked but stays |
| HandshakeServer.ServerHandshake.DoSelectCertificate | A1/Pods/BoringSSL/ssl/handshake_server.cc:508-556 | Certificate selection |
| HandshakeServer.ServerHandshake.DoSelectParameters | A1/Pods/BoringSSL/ssl/handshake_server.cc:568-680 | Whether a certificate is asked for is decided by verify mode, Channel ID and cipher (HandshakeServer.SentAsDue says how); the transcript is hashed and the ClientHello taken |
| HandshakeServer.ServerHandshake.DoSendServerHello | A1/Pods/BoringSSL/ssl/handshake_server.cc:682-740 | ServerHello |
| HandshakeServer.ServerHandshake.DoSendServerCertificate | A1/Pods/BoringSSL/ssl/handshake_server.cc:742-828 | Certificate and CertificateStatus |
| HandshakeServer.ServerHandshake.DoSendServerKeyExchange | A1/Pods/BoringSSL/ssl/handshake_server.cc:830-900 | ServerKeyExchange |
| HandshakeServer.ServerHandshake.DoSendServerHelloDone | A1/Pods/BoringSSL/ssl/handshake_server.cc:902-935 | CertificateRequest and ServerHelloDone |
| HandshakeServer.ServerHandshake.DoReadClientCertificate | A1/Pods/BoringSSL/ssl/handshake_server.cc:937-1028 | The client's chain is read if it was asked for; an empty one gives up the buffer, or fails if a certificate is required; whether it is empty is on record |
| HandshakeServer.ServerHandshake.DoVerifyClientCertificate | A1/Pods/BoringSSL/ssl/handshake_server.cc:1030-1044 | The chain is verified, with retries |
| HandshakeServer.ServerHandshake.DoReadClientKeyExchange | A1/Pods/BoringSSL/ssl/handshake_server.cc:1046-1255 | ClientKeyExchange |
| HandshakeServer.ServerHandshake.DoReadClientCertificateVerify | A1/Pods/BoringSSL/ssl/handshake_server.cc:1257-1351 | The signature is verified over the buffer, which is still there, before the message is hashed |
| HandshakeServer.ServerHandshake.DoReadChangeCipherSpec | A1/Pods/BoringSSL/ssl/handshake_server.cc:1353-1356 | ChangeCipherSpec is next |
| HandshakeServer.ServerHandshake.DoProcessChangeCipherSpec | A1/Pods/BoringSSL/ssl/handshake_server.cc:1358-1365 | The read cipher changes |
| HandshakeServer.ServerHandshake.DoReadNextProto | A1/Pods/BoringSSL/ssl/handshake_server.cc:1367-1401 | NextProto |
| HandshakeServer.ServerHandshake.DoReadChannelId | A1/Pods/BoringSSL/ssl/handshake_server.cc:1403-1425 | ChannelID |
| HandshakeServer.ServerHandshake.DoReadClientFinished | A1/Pods/BoringSSL/ssl/handshake_server.cc:1427-1449 | The client's Finished |
| HandshakeServer.ServerHandshake.DoSendServerFinished | A1/Pods/BoringSSL/ssl/handshake_server.cc:1451-1497 | NewSessionTicket, ChangeCipherSpec, Finished |
| HandshakeServer.ServerHandshake.DoFinishServerHandshake | A1/Pods/BoringSSL/ssl/handshake_server.cc:1499-1525 | The last state |
| HandshakeServer.ServerHandshake.Step | A1/Pods/BoringSSL/ssl/handshake_server.cc:1527-1605 | One state, as for the client |
| HandshakeServer.ServerHandshake.Run | A1/Pods/BoringSSL/ssl/handshake_server.cc:1527-1605 | The driver loop, as for the client |
| HandshakeServer.ServerHandshake.Arrives | A1/Pods/BoringSSL/ssl/handshake_server.cc:432-1449 | On the script the message a state insists on arrives; a Finished matches the server's transcript and a CertificateVerify its buffer |
| HandshakeServer.ServerHandshake.GetFinished | A1/Pods/BoringSSL/ssl/handshake.cc:371-420 | As for the client |
| HandshakeServer.ServerHandshake.SendFinished | A1/Pods/BoringSSL/ssl/handshake.cc:422-467 | As for the client |
| HandshakeServer.ServerHandshake.Turn | A1/Pods/BoringSSL/ssl/handshake.cc:482-614 | As for the client |
| HandshakeServer.Play | A1/Pods/BoringSSL/ssl/handshake_server.cc:937-1525 | As for the client; if a certificate is asked for, the first check is whether the chain in the client's Certificate is empty; and what was read and sent is exactly what leads to the state reached |
| HandshakeServer.OrderSafety | A1/Pods/BoringSSL/ssl/handshake_server.cc:1030-1449 | At the end, upon a ChangeCipherSpec the read cipher was changed and then a Finished was read that is the MAC of all messages before it; a CertificateRequest was sent exactly if verify mode wants a certificate, no Channel ID stands in for it, and the handshake is full with an RSA or ECDHE certificate cipher; then a Certificate was read before, the only one whose chain is noted; and if that chain is not empty, it was then verified, and a CertificateVerify was read whose signature is over all messages before it |
| HandshakeServer.SentAsDue | A1/Pods/BoringSSL/ssl/handshake_server.cc:568-1497 | Whatever the client sends, what a handshake that is through has read and sent is, in order, what the parameters ask for: Certificate for RSA and ECDHE certificate ciphers, CertificateStatus with it if negotiated, ServerKeyExchange for ECDHE and for plain PSK with a hint, CertificateRequest if wanted, the ticket if negotiated |
| HandshakeServer.RequiredCertificate | A1/Pods/BoringSSL/ssl/handshake_server.cc:637-1351 | With verify mode on and requiring a certificate, no Channel ID in its place, and a full handshake with an RSA or ECDHE certificate cipher, a handshake that is through has asked for one, has read a Certificate whose chain is not empty, has verified it and has then read a valid signature |
| HandshakeJoint.Joint.TranscriptAgreement | A1/Pods/BoringSSL/ssl/handshake.cc:371-467 | At every point of a joint run whose checks succeed, full or resumed: a side has computed, or checked, a Finished exactly once it is past that place, and a CertificateVerify was signed, or verified, exactly if one was due; what is checked or verified is what it was computed over |
| HandshakeJoint.Joint.AgreedAtTheEnd | A1/Pods/BoringSSL/ssl/handshake.cc:371-467 | When both sides are through, both Finished were checked against the transcripts they were computed over, and a CertificateVerify, if due, verified over what was signed |
| HandshakeJoint.Joint.Run | A1/Pods/BoringSSL/ssl/handshake.cc:482-614 | Every schedule of turns, deliveries and retries keeps both sides on the script as long as checks succeed |
| HandshakeJoint.Joint.NeverBothWait | A1/Pods/BoringSSL/ssl/handshake.cc:489-535 | With everything delivered, client and server both wait only when both are done |
| HandshakeJoint.Joint.Complete | A1/Pods/BoringSSL/ssl/handshake.cc:482-614 | A decreasing measure takes both sides to their last state, where they agree on the transcripts |
| HandshakeJoint.Joint.Round | A1/Pods/BoringSSL/ssl/handshake.cc:482-614 | A turn of each side leaves less to do |
| HandshakeTransport.NotBothPeersTurn | A1/Pods/BoringSSL/ssl/handshake_client.cc:1701-1779 | At no pair of places that have exchanged the same messages is it each other's turn for both |
| HandshakeTransport.SSLTranscript.InitHash | A1/Pods/BoringSSL/ssl/ssl_transcript.cc:180-194 | The hash starts with everything buffered |
| HandshakeTransport.SSLTranscript.FreeBuffer | A1/Pods/BoringSSL/ssl/ssl_transcript.cc:196-198 | The hash keeps the content |
| HandshakeTransport.SSLTranscript.Update | A1/Pods/BoringSSL/ssl/ssl_transcript.cc:237-254 | Buffer and hash grow alike |
| HandshakeTransport.Connection.FlushFlight | A1/Pods/BoringSSL/ssl/s3_both.cc:231-279 | What the transport takes of a flight is on its way; a transport that blocks leaves the rest |
| HandshakeScript.NextFrom | A1/Pods/BoringSSL/ssl/handshake_client.cc:1701-1779 | What a reader finds next is the next thing its peer sends |
| HandshakeScript.SentPrefix | A1/Pods/BoringSSL/ssl/handshake_client.cc:1701-1779 | What is sent up to a place is a prefix of what is sent up to a later one, the same exactly if nothing is sent in between |
| CipherChoice.ChooseCipher | A1/Pods/BoringSSL/ssl/handshake_server.cc:357-424 | The choice is the best candidate: in the first group with a usable shared cipher, the one earliest in the other list; it is in both lists and of a supported version, key exchange and authentication; none exactly when there is no candidate |
| CipherChoice.BestUnique | A1/Pods/BoringSSL/ssl/handshake_server.cc:357-424 | The best cipher is unique |
| CipherChoice.ClientFirst | A1/Pods/BoringSSL/ssl/handshake_server.cc:379-383 | Without server preference it is the client's first usable shared cipher |
| CipherChoice.ClosedCandidates | A1/Pods/BoringSSL/ssl/handshake_server.cc:415-419 | When the last group is closed every usable shared cipher is a candidate |
| CipherChoice.LeavingGroup | A1/Pods/BoringSSL/ssl/handshake_server.cc:405-419 | At the end of a group its best match is the best of all |
| RefCount.LockedCount.Increment | A1/Pods/BoringSSL/crypto/refcount_lock.c:29-35 | The locked increment, saturating |
| RefCount.LockedCount.DecrementAndTestZero | A1/Pods/BoringSSL/crypto/refcount_lock.c:37-51 | The locked decrement: abort at zero, saturated counts stay |
| RefCount.Machine.IncrementPass | A1/Pods/BoringSSL/crypto/refcount_c11.c:37-47 | One pass of the increment loop is one action of the machine |
| RefCount.Machine.DecrementPass | A1/Pods/BoringSSL/crypto/refcount_c11.c:49-65 | One pass of the decrement loop is one action of the machine |
| RefCount.StepRefines | A1/Pods/BoringSSL/crypto/refcount_c11.c:37-65 | Every action of every thread is no step of the locked version or exactly one |
| RefCount.RunRefines | A1/Pods/BoringSSL/crypto/refcount_c11.c:37-65 | For any number of threads and any interleaving, spurious failures included, the completed operations in their order are a run of the locked version with the same results |
| RefCount.AbortsLikeLocked | A1/Pods/BoringSSL/crypto/refcount_c11.c:54-55 | An abort happens only for a decrement at some action of which the count was zero |
| RefCount.OneZero | A1/Pods/BoringSSL/crypto/refcount_lock.c:29-51 | Unsaturated, the count is the number of references and exactly one decrement reports zero if all are given up |
| RefCount.SaturatedStays | A1/Pods/BoringSSL/crypto/refcount_lock.c:29-51 | A saturated count stays for ever, and no decrement of it reports zero |
| RefCount.LastOwnerLearns | A1/Pods/BoringSSL/crypto/refcount_c11.c:49-65 | The same for the lock-free count |
| Scheduler.RunSound | A1/A1/API/RequestManager.swift:48-145 | In every run remaining points are 1 minus the points in flight, nothing waits while nothing is in flight, nobody is called twice, and without requests already in flight the budget is never overdrawn |
| Scheduler.FinishDelivers | A1/A1/API/RequestManager.swift:75-97 | When a load ends exactly the pending requests with its key that were not called before are called, with its result, which the cache keeps if it is a success; the key is not in flight any more |
| Scheduler.LoadTakesIn | A1/A1/API/RequestManager.swift:120-139 | A request that is not pending: with a cached key it is called with the item, once, and nothing else changes; otherwise it becomes pending; if under way already its key is in flight; and if not its load starts if it goes before all that wait and fits the budget, and nothing starts if it goes first and does not |
| Scheduler.Budget | A1/A1/API/RequestManager.swift:21-26 | While the budget is not overdrawn at most ten loads are in flight, and one that takes all points is alone; with normal loads what is left is 1 minus a tenth for each |
| Scheduler.CancelStops | A1/A1/API/RequestManager.swift:140-144 | From its cancellation on a request is not pending, and not called unless it is submitted again |
| Scheduler.AllServed | A1/A1/API/RequestManager.swift:120-144 | In every run, whatever else is loaded or cancelled: when nothing is in flight, everybody who came in and was not cancelled after that has been called |
| Scheduler.CancelledNeverCalled | A1/A1/API/RequestManager.swift:140-144 | A request that is not pending is not called unless it is submitted again |
| Scheduler.AllAnswered | A1/A1/API/RequestManager.swift:75-97 | In every run no more loads end than there was work, two for each request that comes in; and when nothing is in flight everybody who was pending and was not cancelled has been called |
| Scheduler.StartByPriority | A1/A1/API/RequestManager.swift:53-65 | What still waits has no higher priority than what was started, nor than a waiting request that does not fit the budget |
| Scheduler.StartBusy | A1/A1/API/RequestManager.swift:53-65 | With something waiting something is in flight after a start |
| Scheduler.StartAllAccounted | A1/A1/API/RequestManager.swift:59-72 | Starting keeps the accounts and never overdraws |
| Scheduler.FinishWork | A1/A1/API/RequestManager.swift:75-97 | Every load that ends leaves less to do |
| Scheduler.StepSound | A1/A1/API/RequestManager.swift:48-145 | One operation keeps the invariants |
| Scheduler.StepBudget | A1/A1/API/RequestManager.swift:48-145 | One operation does not overdraw the budget |
| Scheduler.RequestManager.Launch | A1/A1/API/RequestManager.swift:68-73 | A task enters the in-flight table and its points leave the budget |
| Scheduler.RequestManager.SortWaiting | A1/A1/API/RequestManager.swift:55-57 | The waiting requests by falling priority, equals in any order |
| Scheduler.RequestManager.StartPending | A1/A1/API/RequestManager.swift:48-66 | Does what the specification of a start does |
| Scheduler.RequestManager.CallIfNeeded | A1/A1/API/RequestManager.swift:177-183 | The first call only |
| Scheduler.RequestManager.Load | A1/A1/API/RequestManager.swift:120-139 | Refines the step of a load |
| Scheduler.RequestManager.Cancel | A1/A1/API/RequestManager.swift:140-144 | Refines the step of a cancellation |
| Scheduler.RequestManager.Finish | A1/A1/API/RequestManager.swift:75-97 | Refines the step of the end of a load |
| Scheduler.RequestManager.AnswerSharing | A1/A1/API/RequestManager.swift:89-95 | Calls and removes exactly the pending requests with the key |
| WriteBuffer.SSLBuffer.EnsureCap | A1/Pods/BoringSSL/ssl/ssl_buffer.cc:47-81 | Room for the capacity, contents kept; refused exactly above 65535 |
| WriteBuffer.SSLBuffer.Append | A1/Pods/BoringSSL/ssl/ssl_buffer.cc:83-88 | DidWrite after filling in |
| WriteBuffer.SSLBuffer.Consume | A1/Pods/BoringSSL/ssl/ssl_buffer.cc:90-97 | The offset moves on in 16 bits; the rest of the contents is left if the bytes in use end by 2^16 |
| WriteBuffer.SSLBuffer.DiscardConsumed | A1/Pods/BoringSSL/ssl/ssl_buffer.cc:99-103 | An empty buffer is released |
| WriteBuffer.ConsumingExact | A1/Pods/BoringSSL/ssl/ssl_buffer.cc:90-97 | Consuming leaves the rest of the contents, whatever the memory holds, if and only if the bytes in use end by 2^16 |
| WriteBuffer.LongBuffer | A1/Pods/BoringSSL/ssl/ssl_buffer.cc:47-97 | A buffer that EnsureCap grants for which they do not: what is left of 65535 bytes is a byte from in front of them |
| TlsWrite.Writer.WriteAppData | A1/Pods/BoringSSL/ssl/s3_pkt.cc:129-206 | Over any run of short or blocked transport writes and retries, the sealed application data is what was reported written and the first part of the write under way: each byte once and in order; a call that reports n bytes has sealed exactly the first n; every sealed byte reaches the transport once and in order unless the buffer was filled past 2^16, which only a capacity within seven of that allows; a capacity that is refused changes nothing; no record holds more than the limit set; a call that begins to fail reports nothing written, and none fails if encryption always succeeds within its overhead and the record numbers do not run out |
| TlsWrite.Writer.WriteFragment | A1/Pods/BoringSSL/ssl/s3_pkt.cc:168-205 | One record of a write, or the pending one; it cannot begin to fail while encryption works and numbers are left |
| TlsWrite.Writer.DoWrite | A1/Pods/BoringSSL/ssl/s3_pkt.cc:227-289 | Seals nothing while a record is pending, and otherwise the data once, without fail while encryption works and numbers are left |
| TlsWrite.Writer.WriteNew | A1/Pods/BoringSSL/ssl/s3_pkt.cc:234-289 | What is left of the handshake flight goes first, then the new record, which is sealed whenever encryption works, a number is left and the capacity is granted |
| TlsWrite.Writer.QueueFlight | A1/Pods/BoringSSL/ssl/s3_pkt.cc:243-273 | The unflushed flight moves to the front of the buffer |
| TlsWrite.Writer.WritePending | A1/Pods/BoringSSL/ssl/s3_pkt.cc:208-225 | A bad retry is refused; otherwise the pending record is flushed |
| TlsWrite.Writer.FlushBuffer | A1/Pods/BoringSSL/ssl/ssl_buffer.cc:239-252 | Every byte waiting reaches the transport once and in order, as far as it takes them |
| TlsWrite.Writer.SealRecord | A1/Pods/BoringSSL/ssl/tls_record.cc:504-575 | One record, or two where the first byte is split off |
| TlsWrite.Writer.DoSealRecord | A1/Pods/BoringSSL/ssl/tls_record.cc:382-439 | Header and ciphertext under the next number |
| TlsWrite.RecordLayout | A1/Pods/BoringSSL/ssl/tls_record.cc:410-425 | The header is the type, the version and the length of what encryption made, the last two in 16 bits, high byte first |
| TlsWrite.FramesReadBack | A1/Pods/BoringSSL/ssl/tls_record.cc:220-232 | Records one behind the other are read back one by one by their headers, if none is longer than 65535 |
| TlsWrite.Writer.TakenReadsBack | A1/Pods/BoringSSL/ssl/tls_record.cc:220-232 | When everything is flushed, what the transport has taken is read back as the records sealed, in order, if the buffer was never filled past 2^16 and no record is longer than 65535 |
| TlsWrite.SplitsFirstByte | A1/Pods/BoringSSL/ssl/tls_record.cc:504-550 | With a cipher that splits records the first byte of application data is a record of its own; anything else is one record |
| TlsWrite.Writer.AddRecordToFlight | A1/Pods/BoringSSL/ssl/s3_both.cc:130-164 | A record joins the flight, behind everything waiting |
| TlsWrite.Writer.FlushFlight | A1/Pods/BoringSSL/ssl/s3_both.cc:231-279 | The buffer goes first, then the flight; when done everything sealed has been taken |
| TlsWrite.DataMore | A1/Pods/BoringSSL/ssl/s3_pkt.cc:194-205 | Data sealed where the last record left off extends what was sealed |
| TlsWrite.SealsData | A1/Pods/BoringSSL/ssl/tls_record.cc:504-550 | The pieces of a split record are the data |

## Left out

- nanopb callbacks, extensions, pointer fields and custom streams: foreign calls and raw memory.
- nanopb error messages, `pb_encode_delimited` and `pb_decode_delimited`, null submessages, and the contents of a structure after a failed decode.
- Memory layout in nanopb: a nested structure is copied in and out of its cell instead of being written through a pointer; bytes behind a string's terminator and elements behind a count are not observed, and unused storage counts as zero in the zero test.
- Or-ing of disjoint bits in nanopb is written as addition, and `size_t` does not wrap; encodings are taken below 2^32 bytes because lengths are read as 32-bit numbers.
- Descriptors with 64 or more required fields, or exactly 32: the bitmap check shifts a 32-bit word by 32 there.
- DTLS: timers, HelloVerifyRequest, early data and message callbacks.
- DTLS and TLS encryption that draws random bytes: it is a function of the record number here.
- Delivery.DeliveredInOrder: fewer than 65536 messages, since message numbers have 16 bits; the ring itself is proved across the wrap.
- Handshake: TLS 1.3, SSL 3.0, V2ClientHello, DTLS, renegotiation and early data; extension negotiation, whose results are shared parameters; sessions and their cache; alerts.
- Handshake message bodies other than Finished and CertificateVerify are opaque numbers; whether their contents pass the checks is an argument of each step.
- HandshakeTransport.Connection.FlushFlight: a transport that blocks takes whole messages; short writes of bytes are the subject of TlsWrite.Writer.FlushFlight.
- TlsWrite.Writer.WriteAppData: without early data, negative lengths and KeyUpdate.
- Datagrams.FlightReceived: is about handshake records of the epoch that is read, numbers less than a replay window apart, and records that authenticate only if they were sealed.
- Alerts on the write path, and the order of a pending alert and application data.
- Scheduler: points are exact real numbers, each load ends once, and operations on the work queue do not overlap; how the completion queue runs a callback is not modelled.
- RefCount: memory orders; each atomic access is one action of the machine.
- The Go web app, the rest of the Swift app, and BoringSSL's cryptography, certificate and platform code.

Nothing was executed.
