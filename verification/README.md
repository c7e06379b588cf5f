# News Flash: verified models of the vendored transport and encoding code

The News Flash application is Swift; what it relies on underneath is vendored C and C++: BoringSSL and gRPC's
nanopb. These Dafny modules model the parts of that code with the most state and branching and prove what the code
promises of them. `dafny verify dfyconfig.toml` checks everything.

Most components come in three layers. A specification on values says what each operation does. A class or a method
with loops, in the form of the source, changes fields and arrays in place and is proved to do what the specification
says, in all cases and with nothing else changed. Lemmas about the specification state the results, over every
input, every run or every interleaving.

**DTLS handshake transport** (sections 4.1.2.6 and 4.2 of RFC 6347). `ReplayWindow`: the 64-bit window refines the
set of accepted numbers. `DtlsWire`, `Reassembly`: fragments on the wire, and the bitmask that refines the set of
received bytes. `DtlsReceiver`, `DtlsReceiverClass`: the ring of seven slots. `DtlsSender`, `DtlsFlight`,
`DtlsSenderClass`: cutting messages to the MTU, packing, sending, retransmitting. `DtlsTransport` puts a sender, a
network that loses, duplicates and reorders, and a receiver together: `DeliversInOrder` and
`OneRetransmissionIsEnough` are the main results.

**nanopb** (the Protocol Buffers encoding specification). `PbWire`: varints and zigzag. `PbMessage`: schemas and
values as trees. `PbEncoding`, `PbDecoding`: what the encoder writes and the decoder reads. `PbRoundTrip`:
`DecodeInvertsEncode`. `PbPrefix`: records do not depend on what follows them. `PbRequired`, `PbLimits`,
`PbIterator`: required fields, how many of them are demanded, the circular iterator and the bitmask.
`PbEncoderClass`, `PbDecoderClass`: the streams, the two-pass encoder and the decoding loop as they run.

**TLS records and handshake framing** (section 6.2 of RFC 5246). `SslBuffer`: the buffer with its 16-bit offset.
`TlsRecords`, `TlsWrite`, `TlsWriteClass`: non-blocking writes, pending records, alerts and flights;
`EveryRunDelivers` is the main result. `HsFraming`: messages do not depend on how records cut them.

**Handshake state machines below TLS 1.3** (sections 7.3, 7.4.7 and 7.4.9 of RFC 5246). `HandshakeDriver`: the
driver, pauses that leave no trace, and the end that every handshake comes to when no answer is missing.
`HandshakeLog`, `HandshakeRuns`: what a run may do, and what all runs of an obedient side have in common.
`HandshakeClient`, `HandshakeServer` and their `Runs`: both machines, full and resumed, and the order of
ChangeCipherSpec, cipher change, Finished, verification and key exchange in all their runs. `HandshakeConnection`,
`HandshakeClientClass`, `HandshakeServerClass`: the same functions as they run, on fields changed in place, each
proved to do what its specification says. `CipherChoice`, `Premaster`: two algorithms of the server.

**Reference counts.** `Refcount`: the compare-exchange loops refine the locked version.

`Words` and `Bytes` hold machine words, bytes and options.

Where the code does not do what its comments or its callers might expect, the model follows the code, a lemma gives
the failing input and another the exact condition:

- A fragment numbered exactly seven ahead passes the filter at `d1_both.cc:380-382` but is an internal error at
  `d1_both.cc:267-270`: `SeventhAheadFails`, and `HonestFailsExactly` for the condition.
- After 2^16 changes of the read epoch a number can be accepted again: `ReplayAfterEpochWrap`, and
  `ReplaysExactlyAfterWrap`; between two changes never (`NeverTwice`). This is a fact about the functions of the
  record layer alone: a connection changes its read epoch on a ChangeCipherSpec, which `d1_both.cc:320-326` refuses
  once reading is encrypted.
- `EnsureCap` lets capacities through for which the 16-bit offset of the buffer can wrap: `UnroomyWraps`, and
  `LosesExactlyAbove` (above 0xfff9).
- A length that is negative or shorter than what was already written is refused after `wnum` has been cleared, and a
  retry sends those bytes once more: `GoesOutTwice`, and `RetryAfterBadLength` (if and only if `wnum` was not 0).
- A message announced as longer than the limit is refused only when the record after its header arrives
  (`ReadFailsExactly`).
- nanopb: a zero tag ends a message, whatever follows: `ZeroTagExample`, and `HidesExactlyBehindZero`. Only the
  first 64 required fields are demanded: `SixtyFifthIsNotDemanded`, and `DemandsExactly64`. Wire types matter only
  for arrays, and an empty descriptor rejects a zero tag (`RequiredFieldsOccur`).
- Cipher choice ignores an open group at the end of the list: `OpenGroupIsIgnored`, and `NullIsRightExactly`. This
  is a fact about `ssl3_choose_cipher` alone: the lists that `ssl_create_cipher_list` makes end every group
  (`ssl_cipher.cc:1043-1050`, `ssl_cipher.cc:1196-1199`).

## Model

| member | source | states |
|---|---|---|
| ReplayWindow.NeverTwice | News Flash/Pods/BoringSSL-GRPC/ssl/dtls_record.cc:225-259 | over every run of arriving records and changes of the read epoch, no number is accepted twice after the same number of changes |
| ReplayWindow.NoReplay | News Flash/Pods/BoringSSL-GRPC/ssl/dtls_record.cc:225-259 | while the 16-bit epoch does not wrap, no (epoch, sequence) number is accepted twice at all |
| ReplayWindow.ReplaysExactlyAfterWrap | News Flash/Pods/BoringSSL-GRPC/ssl/dtls_method.cc:81-95 | for every n, all runs with n changes of epoch accept each number once if and only if n is at most 65535 |
| ReplayWindow.AcceptsExactly | News Flash/Pods/BoringSSL-GRPC/ssl/dtls_record.cc:225-259 | a record of the current epoch that authenticates is accepted if and only if its number was not accepted before and no accepted number of its epoch is 64 or more above it |
| ReplayWindow.ReplayAfterEpochWrap | News Flash/Pods/BoringSSL-GRPC/ssl/dtls_method.cc:81-95 | failing input: a record, 65536 changes of epoch and the record again, which is accepted a second time |
| ReplayWindow.RunInvariant | News Flash/Pods/BoringSSL-GRPC/ssl/dtls_record.cc:225-259 | after any run the epoch counts the changes and the window stands for exactly the numbers accepted in it |
| ReplayWindow.DiscardsSeenOrStale | News Flash/Pods/BoringSSL-GRPC/ssl/dtls_record.cc:140-153 | the 64-bit map discards a number if and only if it was recorded or some recorded number is 64 or more above it |
| ReplayWindow.RecordAdds | News Flash/Pods/BoringSSL-GRPC/ssl/dtls_record.cc:155-175 | recording slides the map so that it stands for the old set plus exactly the new number |
| ReplayWindow.EightBytes | News Flash/Pods/BoringSSL-GRPC/ssl/dtls_record.cc:128-134 | the accumulated big-endian number fits 64 bits and its top 16 bits are the first two bytes, the epoch |
| ReplayWindow.DtlsReader.constructor | News Flash/Pods/BoringSSL-GRPC/ssl/dtls_method.cc:81-95 | a reader starts in epoch 0 with an empty window |
| ReplayWindow.DtlsReader.ToU64Be | News Flash/Pods/BoringSSL-GRPC/ssl/dtls_record.cc:128-134 | the loop accumulates the big-endian value of the eight bytes |
| ReplayWindow.DtlsReader.BitmapShouldDiscard | News Flash/Pods/BoringSSL-GRPC/ssl/dtls_record.cc:140-153 | decides on the window in place what the specification, proved to refine the set of numbers, decides |
| ReplayWindow.DtlsReader.BitmapRecord | News Flash/Pods/BoringSSL-GRPC/ssl/dtls_record.cc:155-175 | updates map and max_seq_num in place to the window proved to stand for one number more |
| ReplayWindow.DtlsReader.Open | News Flash/Pods/BoringSSL-GRPC/ssl/dtls_record.cc:225-259 | accepts or drops one record: epoch, replay, authentication and length in this order, and records the number only then |
| ReplayWindow.DtlsReader.ChangeReadState | News Flash/Pods/BoringSSL-GRPC/ssl/dtls_method.cc:81-95 | refuses while handshake data is left over, else takes the next epoch modulo 2^16 and an empty window |
| DtlsWire.ParseSerialize | News Flash/Pods/BoringSSL-GRPC/ssl/d1_both.cc:459-473 | a fragment header and body read back from the bytes written for them, whatever follows |
| DtlsWire.SerializeParse | News Flash/Pods/BoringSSL-GRPC/ssl/d1_both.cc:459-473 | bytes that parse are the serialization of what they parse to, plus the unread rest |
| Reassembly.BitOfRange | News Flash/Pods/BoringSSL-GRPC/ssl/d1_both.cc:203-208 | bit_range(start, end) has exactly the bits from start to end set |
| Reassembly.MarksRange | News Flash/Pods/BoringSSL-GRPC/ssl/d1_both.cc:211-233 | partial first byte, full middle bytes and partial last byte together add exactly the positions [start, end) to the set the mask stands for |
| Reassembly.FullIsAll | News Flash/Pods/BoringSSL-GRPC/ssl/d1_both.cc:235-251 | the byte-wise full test, with its partial last byte, holds if and only if every position of the message was marked |
| Reassembly.OverlaidBytes | News Flash/Pods/BoringSSL-GRPC/ssl/d1_both.cc:400-402 | copying a body at its offset overlays exactly its positions and keeps every other received byte |
| Reassembly.HmFragment.constructor | News Flash/Pods/BoringSSL-GRPC/ssl/d1_both.cc:152-199 | a new fragment holds the serialized header and nothing of the body; an empty message needs no mask |
| Reassembly.HmFragment.Mark | News Flash/Pods/BoringSSL-GRPC/ssl/d1_both.cc:211-251 | the received set grows by exactly [start, end), bits at or beyond msg_len stay clear, and the mask is freed if and only if the set is complete |
| Reassembly.HmFragment.Write | News Flash/Pods/BoringSSL-GRPC/ssl/d1_both.cc:400-401 | after the copy the buffered bytes are the old ones overlaid with the body; the header bytes stay |
| Reassembly.HmFragment.Receive | News Flash/Pods/BoringSSL-GRPC/ssl/d1_both.cc:400-402 | copy and mark together overlay the received bytes with the fragment |
| Reassembly.CopyInto | News Flash/Pods/BoringSSL-GRPC/ssl/d1_both.cc:400-401 | the copy changes exactly the bytes it covers |
| Reassembly.WriteRange | News Flash/Pods/BoringSSL-GRPC/ssl/d1_both.cc:211-233 | the in-place loop ors each mask byte with its part of the range |
| Reassembly.IsFull | News Flash/Pods/BoringSSL-GRPC/ssl/d1_both.cc:235-251 | the loop over the mask bytes decides the full test |
| DtlsReceiver.SameSlotSameNumber | News Flash/Pods/BoringSSL-GRPC/ssl/d1_both.cc:265-295 | the assert of dtls1_get_incoming_message: a filled slot that a number inside the window maps to holds that very number |
| DtlsReceiver.AcceptKeepsValid | News Flash/Pods/BoringSSL-GRPC/ssl/d1_both.cc:350-406 | every fragment, honest or not, keeps the ring invariant: each filled slot holds a number in [read_seq, read_seq + 7) congruent to its index |
| DtlsReceiver.ReceiveKeepsValid | News Flash/Pods/BoringSSL-GRPC/ssl/d1_both.cc:350-406 | a record of any bytes keeps that invariant |
| DtlsReceiver.NextKeepsValid | News Flash/Pods/BoringSSL-GRPC/ssl/d1_both.cc:426-438 | handing over a message keeps it, and when the 16-bit number wraps the ring is empty |
| DtlsReceiverClass.Incoming.constructor | News Flash/Pods/BoringSSL-GRPC/ssl/d1_lib.cc:81-84 | an empty ring |
| DtlsReceiverClass.Incoming.GetIncoming | News Flash/Pods/BoringSSL-GRPC/ssl/d1_both.cc:265-295 | finds the slot, refuses a number outside the ring or a header that disagrees with the buffered one, or allocates, exactly as specified |
| DtlsReceiverClass.Incoming.Install | News Flash/Pods/BoringSSL-GRPC/ssl/d1_both.cc:288-294 | a new fragment goes into the slot of its number and no other slot changes |
| DtlsReceiverClass.Incoming.Fill | News Flash/Pods/BoringSSL-GRPC/ssl/d1_both.cc:394-402 | one slot gains the bytes of a fragment and no other slot changes |
| DtlsReceiverClass.Incoming.AcceptFragment | News Flash/Pods/BoringSSL-GRPC/ssl/d1_both.cc:350-406 | one fragment: length, epoch, stale and future numbers, slot, copy and mark; the new ring and status are the specified ones |
| DtlsReceiverClass.Incoming.OpenHandshake | News Flash/Pods/BoringSSL-GRPC/ssl/d1_both.cc:297-406 | a whole record: application data refused or dropped, a ChangeCipherSpec noted while reading is not yet encrypted, and every fragment of a handshake record up to the first error |
| DtlsReceiverClass.Incoming.GetMessage | News Flash/Pods/BoringSSL-GRPC/ssl/d1_both.cc:408-424 | hands over the message at read_seq if and only if it is complete |
| DtlsReceiverClass.Incoming.NextMessage | News Flash/Pods/BoringSSL-GRPC/ssl/d1_both.cc:426-438 | frees its slot and moves on to the next number modulo 2^16 |
| DtlsFlight.SealedRecordCovers | News Flash/Pods/BoringSSL-GRPC/ssl/d1_both.cc:644-737 | one sealed record carries the piece of the message from the cursor on, at least one byte unless the message is empty, fits the room, and needs more room than given exactly when it makes no progress |
| DtlsFlight.SealedRecordsTile | News Flash/Pods/BoringSSL-GRPC/ssl/d1_both.cc:739-780 | the records of a packet follow each other from cursor to cursor without gap or overlap and fit the packet |
| DtlsFlight.PacketFailsExactly | News Flash/Pods/BoringSSL-GRPC/ssl/d1_both.cc:739-780 | a packet cannot be sealed if and only if the MTU is below the record overhead plus header plus one byte (one byte for ChangeCipherSpec) |
| DtlsFlight.PacketProgress | News Flash/Pods/BoringSSL-GRPC/ssl/d1_both.cc:739-780 | a sealed packet moves the cursor strictly forward in (message, offset); a failed one leaves it |
| DtlsFlight.SendFlightTiles | News Flash/Pods/BoringSSL-GRPC/ssl/d1_both.cc:782-827 | however the transport answers, the packets sent tile the flight from the old cursor to the new, each within the MTU, and a failed write restores the cursor before its packet |
| DtlsFlight.RetriesTile | News Flash/Pods/BoringSSL-GRPC/ssl/d1_both.cc:836-845 | calls that resume after failures, each at an MTU of its own, tile the flight together; the last success ends at its end |
| DtlsFlight.SentIsReached | News Flash/Pods/BoringSSL-GRPC/ssl/d1_both.cc:782-827 | the bytes sent of each message are those from the old position to the new, in order |
| DtlsFlight.FlightSentOnce | News Flash/Pods/BoringSSL-GRPC/ssl/d1_both.cc:782-827 | a flight sent whole sends each message body exactly once |
| DtlsFlight.CompletesExactly | News Flash/Pods/BoringSSL-GRPC/ssl/d1_both.cc:782-827 | if the transport takes as many packets as there are bytes and messages left, the call sends the rest of the flight and succeeds if and only if the MTU has room for one byte of each message left |
| DtlsFlight.GoesOutWhole | News Flash/Pods/BoringSSL-GRPC/ssl/d1_both.cc:739-827 | such a call sends each byte that is left once and ends behind the flight |
| DtlsFlight.SealedHadRoom | News Flash/Pods/BoringSSL-GRPC/ssl/d1_both.cc:739-780 | a packet takes in a whole message only when it had room for it |
| DtlsFlight.SomeRecordCarries | News Flash/Pods/BoringSSL-GRPC/ssl/d1_both.cc:644-827 | every byte of every message between two cursors is in one of the records between them |
| DtlsTransport.SenderOkInRuns | News Flash/Pods/BoringSSL-GRPC/ssl/d1_both.cc:555-594 | in every run that changes the write keys at most once the sender meets what the results about flights ask for: at most seven messages, of the current or the previous epoch, and the cursor inside them |
| DtlsTransport.RunsTile | News Flash/Pods/BoringSSL-GRPC/ssl/d1_both.cc:782-845 | so every flush and every retransmission of such a run is packets within the MTU that tile what the cursor moved over |
| DtlsTransport.OneRetransmissionIsEnough | News Flash/Pods/BoringSSL-GRPC/ssl/d1_both.cc:350-438 | from every state such a run can reach with the handshake alive, however much of the flight has been taken: once a retransmission goes through and its records of the receiver's epoch arrive, in any order and among any others that do not end the handshake, every message of the flight and that epoch the receiver still lacks is complete with its body, and the handshake has not failed |
| DtlsSender.SealNextMessage | News Flash/Pods/BoringSSL-GRPC/ssl/d1_both.cc:644-737 | a record that finishes its message is no longer than the room it was given |
| DtlsSenderClass.FinishedIsWhole | News Flash/Pods/BoringSSL-GRPC/ssl/d1_both.cc:511-541 | init_message and finish_message, which fixes up two length fields, serialize the message as one whole fragment |
| DtlsSenderClass.Outgoing.constructor | News Flash/Pods/BoringSSL-GRPC/ssl/d1_lib.cc:81-84 | nothing queued, nothing sent |
| DtlsSenderClass.Outgoing.AddOutgoing | News Flash/Pods/BoringSSL-GRPC/ssl/d1_both.cc:555-594 | a completed flight is cleared first; a message is queued with its number and epoch unless seven are, or it is too long; only messages use up numbers |
| DtlsSenderClass.Outgoing.AddMessage | News Flash/Pods/BoringSSL-GRPC/ssl/d1_both.cc:511-541 | a message is framed with the next number and queued |
| DtlsSenderClass.Outgoing.AddChangeCipherSpec | News Flash/Pods/BoringSSL-GRPC/ssl/d1_both.cc:600-602 | a ChangeCipherSpec is queued without a number |
| DtlsSenderClass.Outgoing.SetWriteState | News Flash/Pods/BoringSSL-GRPC/ssl/dtls_method.cc:97-107 | the next write epoch; the old keys stay for the flight |
| DtlsSenderClass.Outgoing.ReadMessage | News Flash/Pods/BoringSSL-GRPC/ssl/d1_both.cc:678-692 | a queued message parses back to its type, number and whole body |
| DtlsSenderClass.Outgoing.SealNextMessage | News Flash/Pods/BoringSSL-GRPC/ssl/d1_both.cc:644-737 | one record of the current message, with the offset moved, kept or reset as specified |
| DtlsSenderClass.Outgoing.SealOne | News Flash/Pods/BoringSSL-GRPC/ssl/d1_both.cc:744-768 | one turn of the packet loop is one step of the specified packet |
| DtlsSenderClass.Outgoing.SealNextPacket | News Flash/Pods/BoringSSL-GRPC/ssl/d1_both.cc:739-780 | the loop seals the specified packet and leaves the cursor after it, or fails |
| DtlsSenderClass.Outgoing.SendFlight | News Flash/Pods/BoringSSL-GRPC/ssl/d1_both.cc:782-827 | the loop sends the specified packets and ends at the specified cursor |
| DtlsSenderClass.Outgoing.UpdateMtu | News Flash/Pods/BoringSSL-GRPC/ssl/d1_both.cc:615-632 | the MTU is at least the minimum afterwards unless it may not be asked for, and one that was is kept |
| DtlsSenderClass.Outgoing.FlushFlight | News Flash/Pods/BoringSSL-GRPC/ssl/d1_both.cc:829-834 | closes the flight and sends it from the cursor |
| DtlsSenderClass.Outgoing.HandleTimeout | News Flash/Pods/BoringSSL-GRPC/ssl/d1_lib.cc:247-267 | gives up after too many timeouts, else rewinds the cursor and sends the whole flight again, perhaps at another MTU |
| DtlsTransport.DeliversInOrder | News Flash/Pods/BoringSSL-GRPC/ssl/d1_both.cc:408-438 | for fewer than 2^16 messages and any loss, duplication, reordering and retransmission at any MTUs, the delivered messages are the first queued ones, in order and byte for byte with their headers |
| DtlsTransport.TranscriptsAgree | News Flash/Pods/BoringSSL-GRPC/ssl/d1_both.cc:408-438 | what the receiver hashes is what the sender hashed for the same messages |
| DtlsTransport.RunKeeps | News Flash/Pods/BoringSSL-GRPC/ssl/d1_both.cc:350-438 | the whole invariant over every run: honest records on the air, honest bytes in the ring, an honest prefix delivered |
| DtlsTransport.HonestNeverMismatches | News Flash/Pods/BoringSSL-GRPC/ssl/d1_both.cc:265-295 | pieces of one message never disagree with the header buffered for it, whatever the fragmentation |
| DtlsTransport.HonestFailsExactly | News Flash/Pods/BoringSSL-GRPC/ssl/d1_both.cc:350-406 | an honest fragment ends in an error if and only if it is too long, out of order after the epoch change, or numbered exactly read_seq + 7, which passes the filter but not the ring |
| DtlsTransport.SeventhAheadFails | News Flash/Pods/BoringSSL-GRPC/ssl/d1_both.cc:380-382 | counterexample: message 7 on a fresh receiver is an internal error, not a drop |
| DtlsTransport.HarmlessAccepted | News Flash/Pods/BoringSSL-GRPC/ssl/d1_both.cc:350-406 | all other honest pieces are accepted, and ignored when they are stale or too far ahead |
| DtlsTransport.ArrivalsFailExactly | News Flash/Pods/BoringSSL-GRPC/ssl/d1_both.cc:297-406 | any list of arriving records ends the handshake if and only if one of them, opened in the receiver's epoch, is such a piece or an encrypted ChangeCipherSpec |
| DtlsTransport.WholeFlightArrives | News Flash/Pods/BoringSSL-GRPC/ssl/d1_both.cc:350-438 | when the records of the receiver's epoch of a flight sent whole arrive, in any order and among any others that do not end the handshake, stale ones included, each message of that epoch the receiver still lacked is complete with its exact body |
| PbWire.VarintRoundTrip | News Flash/Pods/nanopb/pb_decode.c:250-270 | every uint64 encodes in at most ten bytes and decodes back, whatever follows |
| PbWire.TenBytesSuffice | News Flash/Pods/nanopb/pb_encode.c:574-594 | one to ten bytes |
| PbWire.EncodeVarintBuffer | News Flash/Pods/nanopb/pb_encode.c:574-594 | the loop with its shared first-byte case builds the base-128 encoding |
| PbWire.DecodeVarint | News Flash/Pods/nanopb/pb_decode.c:250-270 | a successful decode uses at least one byte and no more than there are |
| PbWire.DecodeVarint32 | News Flash/Pods/nanopb/pb_decode.c:182-242 | the same for the 32-bit decoder |
| PbWire.Varint32Agrees | News Flash/Pods/nanopb/pb_decode.c:182-242 | on any varint of at most ten bytes a successful 32-bit decode uses the same bytes as the 64-bit decoder and gives its result modulo 2^32 |
| PbWire.Varint32IsModular | News Flash/Pods/nanopb/pb_decode.c:182-242 | on any varint at all, the value modulo 2^32 and the same length |
| PbWire.Varint32OfCanonical | News Flash/Pods/nanopb/pb_decode.c:182-242 | every canonical uint32 encoding decodes with the 32-bit decoder |
| PbWire.Varint32OfNegative | News Flash/Pods/nanopb/pb_decode.c:182-242 | every sign-extended negative int32, ten bytes long, decodes to its 32-bit two's complement |
| PbWire.ZigzagRoundTrip | News Flash/Pods/nanopb/pb_encode.c:596-605 | zigzag keeps every int64, the smallest included |
| PbWire.UnzigzagRoundTrip | News Flash/Pods/nanopb/pb_decode.c:1240-1252 | and every uint64 is the zigzag of one int64 |
| PbRoundTrip.DecodeInvertsEncode | News Flash/Pods/nanopb/pb_decode.c:901-1063 | every in-bounds value of every schema encodes, and decoding gives it back (absent fields at their defaults, strings cut at the NUL), with any well-formed unknown fields woven between its fields |
| PbRoundTrip.PlainRoundTrip | News Flash/Pods/nanopb/pb_decode.c:1051-1063 | decoding the encoding gives the value back |
| PbRoundTrip.WovenRoundTrip | News Flash/Pods/nanopb/pb_decode.c:919-1001 | the same from any field on, with the fields before it already decoded |
| PbRoundTrip.SlotRoundTrip | News Flash/Pods/nanopb/pb_decode.c:401-475 | the bytes of one field, whatever its type and rule, fill its slot and move on to the next field |
| PbRoundTrip.PackedRoundTrip | News Flash/Pods/nanopb/pb_decode.c:419-448 | a packed array decodes to its items after those already there |
| PbRoundTrip.PackedFieldRoundTrip | News Flash/Pods/nanopb/pb_encode.c:126-181 | tag, length and packed items fill the array |
| PbRoundTrip.UnpackedRoundTrip | News Flash/Pods/nanopb/pb_decode.c:449-459 | an array sent item by item decodes to its items in order |
| PbRoundTrip.TaggedRoundTrip | News Flash/Pods/nanopb/pb_decode.c:401-475 | one tagged value is placed in its field |
| PbRoundTrip.ValRoundTrip | News Flash/Pods/nanopb/pb_decode.c:1463-1485 | one value, submessages of any depth included, decodes from its bytes |
| PbRoundTrip.ScalarRoundTrip | News Flash/Pods/nanopb/pb_decode.c:1289-1508 | integers of every width and sign, fixed words, bytes, strings and fixed-length bytes decode from their bytes |
| PbRoundTrip.SignedCast | News Flash/Pods/nanopb/pb_decode.c:1289-1324 | the sign-extended varint casts back to the signed field, of 32 bits or 64 |
| PbRoundTrip.DefaultIsInit | News Flash/Pods/nanopb/pb_encode.c:215-303 | a proto3 field that the encoder leaves out holds exactly what the decoder sets it to, nested messages included |
| PbRoundTrip.UnknownSkipped | News Flash/Pods/nanopb/pb_decode.c:316-326 | well-formed fields with unknown tags are skipped without a trace |
| PbRoundTrip.SlotEncodes | News Flash/Pods/nanopb/pb_encode.c:307-392 | every in-bounds field value encodes |
| PbRoundTrip.SlotsEncode | News Flash/Pods/nanopb/pb_encode.c:494-516 | every in-bounds message encodes |
| PbRoundTrip.AllRequiredSeen | News Flash/Pods/nanopb/pb_decode.c:1006-1046 | an encoded message passes the required-field check |
| PbRequired.RequiredFieldsOccur | News Flash/Pods/nanopb/pb_decode.c:919-1046 | on arbitrary bytes a message decodes if and only if its records do and each of its first 64 required fields is among them; this holds of every submessage too |
| PbRequired.AllSeenIsComplete | News Flash/Pods/nanopb/pb_decode.c:1007-1046 | the bitmask is full if and only if each of the first 64 required fields occurred |
| PbRequired.LoopIsWalk | News Flash/Pods/nanopb/pb_decode.c:919-1001 | the decoding loop is the loop without a bitmask followed by the check |
| PbLimits.DemandsExactly64 | News Flash/Pods/nanopb/pb_decode.c:1006-1046 | for every schema whose required values have encodings, the decoder demands all required fields on every input if and only if there are at most 64 of them |
| PbLimits.WithoutLast | News Flash/Pods/nanopb/pb_decode.c:1024-1025 | for every schema, the message of all required fields before one that comes after 64 others is accepted without that one |
| PbLimits.SixtyFifthIsNotDemanded | News Flash/Pods/nanopb/pb_decode.c:1024-1025 | failing input: 65 required numbers, of which the last is missing |
| PbPrefix.HidesExactlyBehindZero | News Flash/Pods/nanopb/pb_decode.c:919-1046 | for every descriptor and every input that decodes, the value is the same whatever bytes follow if and only if a tag of value zero, however many bytes it takes, stands at the end of one of its records |
| PbPrefix.LoopAppend | News Flash/Pods/nanopb/pb_decode.c:919-1001 | what follows an accepted input is ignored if it has a zero tag, and otherwise read as part of it, so that a broken tag makes it fail |
| PbPrefix.SlotAppend | News Flash/Pods/nanopb/pb_decode.c:401-475 | a record of a field, packed or not, decodes the same whatever bytes follow it |
| PbPrefix.SkipAppend | News Flash/Pods/nanopb/pb_decode.c:316-326 | an unknown field is skipped the same way whatever bytes follow it |
| PbLimits.ZeroTagExample | News Flash/Pods/nanopb/pb_decode.c:293-314 | failing input: a number in field 1, a zero byte and the field again, whose second value is lost while the message is accepted |
| PbIterator.FieldIter.constructor | News Flash/Pods/nanopb/pb_common.c:8-18 | the iterator starts at the first field |
| PbIterator.FieldIter.Next | News Flash/Pods/nanopb/pb_common.c:20-76 | moves to the next field with its required-field index in step, or around to the first and says so |
| PbIterator.FieldIter.Find | News Flash/Pods/nanopb/pb_common.c:78-95 | starting from any field, finds a field with the tag if there is one, else is back where it started |
| PbIterator.FieldIter.CountRequired | News Flash/Pods/nanopb/pb_decode.c:1007-1022 | counts the required fields of the descriptor |
| PbIterator.FoundIsTheField | News Flash/Pods/nanopb/pb_common.c:78-95 | with distinct tags the field found is the one with that tag |
| PbIterator.SeenFields.constructor | News Flash/Pods/nanopb/pb_decode.c:903-904 | no field seen |
| PbIterator.SeenFields.Mark | News Flash/Pods/nanopb/pb_decode.c:988-993 | marks exactly the one required field in the 64-bit mask |
| PbIterator.SeenFields.Check | News Flash/Pods/nanopb/pb_decode.c:1024-1045 | whole words and a shifted partial word decide whether all counted fields were seen |
| PbIterator.SeenFields.WordIsFull | News Flash/Pods/nanopb/pb_decode.c:1036-1044 | a word equals its run of ones if and only if each of its fields was seen |
| PbDecoding.FindField | News Flash/Pods/nanopb/pb_common.c:78-95 | the field with the tag, or none if no field has it |
| PbEncoderClass.GetEncodedSize | News Flash/Pods/nanopb/pb_encode.c:533-542 | the sizing pass succeeds if and only if the value encodes, and counts exactly the bytes of the encoding |
| PbEncoderClass.EncodeInto | News Flash/Pods/nanopb/pb_encode.c:494-516 | encoding into a buffer succeeds if and only if the encoding fits max_size, leaves exactly the encoding there, and writes nothing beyond max_size |
| PbEncoderClass.BufWrite | News Flash/Pods/nanopb/pb_encode.c:72-82 | writes the bytes at the position and nothing else |
| PbEncoderClass.DidInSubstream | News Flash/Pods/nanopb/pb_encode.c:702-730 | writing in a substream bounded to the computed size is writing in the stream |
| PbEncoderClass.FixedItems | News Flash/Pods/nanopb/pb_encode.c:145-153 | packed fixed-width items take their width times their count, the size the encoder precomputes |
| PbEncoderClass.LittleEndianBytes | News Flash/Pods/nanopb/pb_encode.c:607-632 | builds the little-endian bytes |
| PbEncoderClass.OStream.Into | News Flash/Pods/nanopb/pb_encode.c:84-99 | a stream onto a buffer |
| PbEncoderClass.OStream.Sizing | News Flash/Pods/nanopb/pb_encode.c:533-537 | a stream that only counts |
| PbEncoderClass.OStream.Write | News Flash/Pods/nanopb/pb_encode.c:101-119 | counts, or writes if and only if the bytes fit |
| PbEncoderClass.OStream.WriteVarint | News Flash/Pods/nanopb/pb_encode.c:574-594 | appends the varint in either pass |
| PbEncoderClass.OStream.WriteTag | News Flash/Pods/nanopb/pb_encode.c:635-639 | appends the tag |
| PbEncoderClass.OStream.WriteString | News Flash/Pods/nanopb/pb_encode.c:674-680 | appends length and bytes |
| PbEncoderClass.OStream.WriteFixed | News Flash/Pods/nanopb/pb_encode.c:607-632 | appends the fixed-width word |
| PbEncoderClass.OStream.WriteVal | News Flash/Pods/nanopb/pb_encode.c:734-869 | appends the encoding of one value, or fails exactly as specified or for want of room |
| PbEncoderClass.OStream.StringLength | News Flash/Pods/nanopb/pb_encode.c:831-855 | the bounded strlen finds the string up to its NUL or its buffer |
| PbEncoderClass.OStream.WriteSubmessage | News Flash/Pods/nanopb/pb_encode.c:682-730 | sizes the submessage, writes its length and then it: in both passes exactly a delimited body, so a size that changed between the passes cannot be |
| PbEncoderClass.OStream.WriteBody | News Flash/Pods/nanopb/pb_encode.c:702-730 | writes the body into a substream of exactly its computed size and finds that size |
| PbEncoderClass.OStream.WriteMessage | News Flash/Pods/nanopb/pb_encode.c:494-516 | appends all fields in their order, each once |
| PbEncoderClass.OStream.WriteTagged | News Flash/Pods/nanopb/pb_encode.c:641-672 | appends tag and value |
| PbEncoderClass.OStream.WriteField | News Flash/Pods/nanopb/pb_encode.c:307-392 | appends a field by its rule: required, optional with its flag or by default, repeated, oneof |
| PbEncoderClass.OStream.WriteArray | News Flash/Pods/nanopb/pb_encode.c:126-211 | appends an array packed or item by item, and refuses more items than the field holds |
| PbEncoderClass.OStream.WritePackedString | News Flash/Pods/nanopb/pb_encode.c:145-181 | the length comes from a sizing stream or a multiplication and the items follow |
| PbEncoderClass.OStream.WritePacked | News Flash/Pods/nanopb/pb_encode.c:173-180 | appends the packed items |
| PbEncoderClass.OStream.WriteUnpacked | News Flash/Pods/nanopb/pb_encode.c:182-208 | appends every item with its tag |
| PbDecoderClass.DecodeFrom | News Flash/Pods/nanopb/pb_decode.c:1051-1063 | decoding terminates on any bytes, and succeeds with the specified value or fails exactly when specified |
| PbDecoderClass.IStream.constructor | News Flash/Pods/nanopb/pb_decode.c:154-176 | a stream over a buffer |
| PbDecoderClass.IStream.ReadByte | News Flash/Pods/nanopb/pb_decode.c:136-152 | takes one byte, or fails at the end |
| PbDecoderClass.IStream.ReadBytes | News Flash/Pods/nanopb/pb_decode.c:100-132 | takes that many bytes, or fails |
| PbDecoderClass.IStream.ReadVarint32 | News Flash/Pods/nanopb/pb_decode.c:182-242 | the specified 32-bit varint and its bytes |
| PbDecoderClass.IStream.ReadVarint | News Flash/Pods/nanopb/pb_decode.c:250-270 | the specified 64-bit varint and its bytes |
| PbDecoderClass.IStream.ReadDigit | News Flash/Pods/nanopb/pb_decode.c:257-268 | one byte of a varint: the digits so far and those left still make up the whole |
| PbDecoderClass.IStream.SkipVarint | News Flash/Pods/nanopb/pb_decode.c:273-282 | skips exactly one varint |
| PbDecoderClass.IStream.ReadString | News Flash/Pods/nanopb/pb_decode.c:1391-1461 | a delimited string within its limit |
| PbDecoderClass.IStream.Skip | News Flash/Pods/nanopb/pb_decode.c:316-326 | skips a field of any wire type |
| PbDecoderClass.IStream.ReadTag | News Flash/Pods/nanopb/pb_decode.c:293-314 | tag and wire type; a zero tag ends the message |
| PbDecoderClass.IStream.MakeSubstream | News Flash/Pods/nanopb/pb_decode.c:367-380 | splits off exactly the delimited body and leaves the parent after it |
| PbDecoderClass.IStream.CloseSubstream | News Flash/Pods/nanopb/pb_decode.c:382-395 | the parent continues where the substream stopped |
| PbDecoderClass.IStream.ReadInt | News Flash/Pods/nanopb/pb_decode.c:1289-1372 | an integer of the field's width and sign, range-checked |
| PbDecoderClass.IStream.ReadFixed | News Flash/Pods/nanopb/pb_decode.c:1254-1287 | a fixed-width word |
| PbDecoderClass.IStream.ReadVal | News Flash/Pods/nanopb/pb_decode.c:1289-1508 | one value of any type, with its bytes used up |
| PbDecoderClass.IStream.ReadSubmessage | News Flash/Pods/nanopb/pb_decode.c:1463-1485 | a submessage is decoded in its substream; on success the parent stands exactly after the body |
| PbDecoderClass.IStream.ReadPacked | News Flash/Pods/nanopb/pb_decode.c:419-448 | the items of a packed array to the end of the substream; too many are refused |
| PbDecoderClass.IStream.ReadPackable | News Flash/Pods/nanopb/pb_decode.c:431-440 | one item of a packed array |
| PbDecoderClass.IStream.ReadField | News Flash/Pods/nanopb/pb_decode.c:401-475 | one record by the field's rule; on success exactly its bytes are used |
| PbDecoderClass.IStream.ReadRecord | News Flash/Pods/nanopb/pb_decode.c:919-1001 | an unknown tag is skipped, a known one decoded and marked as seen |
| PbDecoderClass.IStream.ReadMessage | News Flash/Pods/nanopb/pb_decode.c:901-1049 | the loop over records with iterator and bitmask decodes as specified; bytes left strictly decrease |
| SslBuffer.ConsumeKeepsTheRest | News Flash/Pods/BoringSSL-GRPC/ssl/ssl_buffer.cc:90-97 | consuming keeps the unread bytes, whatever they are, if and only if nothing is left or offset plus length fits 16 bits |
| SslBuffer.LosesExactlyAbove | News Flash/Pods/BoringSSL-GRPC/ssl/ssl_buffer.cc:47-97 | a capacity loses bytes at some alignment, offset and length if and only if it is above 0xfff9 |
| SslBuffer.UnroomyWraps | News Flash/Pods/BoringSSL-GRPC/ssl/ssl_buffer.cc:47-81 | failing input: capacity 0xfffa, which EnsureCap lets through, full and at the worst alignment |
| SslBuffer.SSLBuffer.constructor | News Flash/Pods/BoringSSL-GRPC/ssl/ssl_buffer.cc:39-45 | empty |
| SslBuffer.SSLBuffer.Clear | News Flash/Pods/BoringSSL-GRPC/ssl/ssl_buffer.cc:39-45 | empty and freed |
| SslBuffer.SSLBuffer.EnsureCap | News Flash/Pods/BoringSSL-GRPC/ssl/ssl_buffer.cc:47-81 | succeeds if and only if the capacity fits 16 bits, keeps the contents and gives the capacity, and leaves a buffer that is safe to consume from unless the capacity is above 0xfff9 |
| SslBuffer.SSLBuffer.Append | News Flash/Pods/BoringSSL-GRPC/ssl/ssl_buffer.cc:83-88 | the bytes written past the end become contents |
| SslBuffer.SSLBuffer.Consume | News Flash/Pods/BoringSSL-GRPC/ssl/ssl_buffer.cc:90-97 | drops exactly the first bytes |
| SslBuffer.SSLBuffer.DiscardConsumed | News Flash/Pods/BoringSSL-GRPC/ssl/ssl_buffer.cc:99-103 | frees an empty buffer and changes no contents |
| TlsRecords.OpenPrefix | News Flash/Pods/BoringSSL-GRPC/ssl/s3_pkt.cc:221-289 | a prefix of the sealed stream that ends past record m opens to at least those records, and to no record that was not sealed |
| TlsRecords.SealedSnoc | News Flash/Pods/BoringSSL-GRPC/ssl/s3_pkt.cc:268-273 | sealing one record more appends its bytes |
| TlsRecords.Chunks | News Flash/Pods/BoringSSL-GRPC/ssl/s3_both.cc:184-205 | a message is cut into handshake records of at most the fragment size, at least one |
| TlsWrite.EveryRunDelivers | News Flash/Pods/BoringSSL-GRPC/ssl/s3_pkt.cc:129-289 | over every list of writes and retries, handshake messages, ChangeCipherSpecs and warnings in the flight, flushes, closing alerts and their later dispatch, and any short and failed transport writes, the peer reads every acknowledged byte once and in order, then at most the sealed start of the write under way, and all of that once the write buffer is empty |
| TlsWrite.StreamDelivers | News Flash/Pods/BoringSSL-GRPC/ssl/s3_pkt.cc:129-289 | an application whose every write begins where the acknowledged bytes of its stream end is read by the peer as a prefix of that stream, no shorter than what was acknowledged |
| TlsWrite.WriteSeals | News Flash/Pods/BoringSSL-GRPC/ssl/s3_pkt.cc:129-200 | a whole call: on success exactly the bytes up to the return are sealed and wholly flushed; on failure the count and the pending record say exactly how much of the input has been sealed, which is what a retry goes on from |
| TlsWrite.WriteFromSeals | News Flash/Pods/BoringSSL-GRPC/ssl/s3_pkt.cc:159-200 | the same of the loop from any position |
| TlsWrite.DoWriteKeeps | News Flash/Pods/BoringSSL-GRPC/ssl/s3_pkt.cc:221-289 | one record of any type: the pending record is resumed, or one more is sealed behind the flight, or neither; positive means wholly flushed |
| TlsWrite.WritePendingKeeps | News Flash/Pods/BoringSSL-GRPC/ssl/s3_pkt.cc:202-218 | a pending record is resumed and nothing is sealed twice |
| TlsWrite.StageKeeps | News Flash/Pods/BoringSSL-GRPC/ssl/s3_pkt.cc:237-285 | the flight goes into the buffer first and the record behind it, or nothing changes |
| TlsWrite.AddRecordsKeeps | News Flash/Pods/BoringSSL-GRPC/ssl/s3_both.cc:135-165 | queued records come behind everything sealed so far and hold no application data |
| TlsWrite.FlushFlightKeeps | News Flash/Pods/BoringSSL-GRPC/ssl/s3_both.cc:231-279 | flushing keeps the order of all sealed records; success means that buffer and flight are wholly on the transport |
| TlsWrite.ReadsWhatArrived | News Flash/Pods/BoringSSL-GRPC/ssl/s3_pkt.cc:268-273 | what the peer can open of any sent prefix is what arrived of the sealed records, and nothing that was not sealed |
| TlsWrite.AllArrived | News Flash/Pods/BoringSSL-GRPC/ssl/s3_pkt.cc:239-252 | with the write buffer empty all application data that was sealed has arrived |
| TlsWrite.BadLengthForgets | News Flash/Pods/BoringSSL-GRPC/ssl/s3_pkt.cc:143-157 | a length that is negative or below wnum leaves the account of acknowledged bytes right if and only if wnum was 0 |
| TlsWrite.RetryAfterBadLength | News Flash/Pods/BoringSSL-GRPC/ssl/s3_pkt.cc:143-157 | after such a call a retry that succeeds leaves the peer with wnum bytes more than were acknowledged: as many as acknowledged if and only if wnum was 0 |
| TlsWrite.GoesOutTwice | News Flash/Pods/BoringSSL-GRPC/ssl/s3_pkt.cc:143-157 | failing input, for every fragment size and any bytes: two full records of which the second waits, a length of -1, and the same bytes again, of which the peer reads the second half twice |
| TlsWrite.PlainIsLawful | News Flash/Pods/BoringSSL-GRPC/ssl/s3_pkt.cc:268-273 | the encoding of these runs keeps the laws asked of sealing |
| TlsWriteClass.TlsWriter.constructor | News Flash/Pods/BoringSSL-GRPC/ssl/s3_pkt.cc:129-145 | nothing pending |
| TlsWriteClass.TlsWriter.BioWrite | News Flash/Pods/BoringSSL-GRPC/ssl/ssl_buffer.cc:239-252 | the transport takes some bytes from the front, or none |
| TlsWriteClass.TlsWriter.BioFlush | News Flash/Pods/BoringSSL-GRPC/ssl/s3_both.cc:276-278 | the transport flushes, or fails |
| TlsWriteClass.TlsWriter.FlushSome | News Flash/Pods/BoringSSL-GRPC/ssl/ssl_buffer.cc:239-252 | one write takes at least one byte or fails |
| TlsWriteClass.TlsWriter.FlushBuffer | News Flash/Pods/BoringSSL-GRPC/ssl/ssl_buffer.cc:239-252 | the loop sends the buffer or stops at a failed write, as specified |
| TlsWriteClass.TlsWriter.WritePending | News Flash/Pods/BoringSSL-GRPC/ssl/s3_pkt.cc:202-218 | resumes the pending record; a changed buffer, type or length is refused |
| TlsWriteClass.TlsWriter.MoveFlight | News Flash/Pods/BoringSSL-GRPC/ssl/s3_pkt.cc:258-266 | the rest of the flight goes into the buffer first |
| TlsWriteClass.TlsWriter.SealRecord | News Flash/Pods/BoringSSL-GRPC/ssl/s3_pkt.cc:268-273 | the sealed bytes are appended to the buffer |
| TlsWriteClass.TlsWriter.NotePending | News Flash/Pods/BoringSSL-GRPC/ssl/s3_pkt.cc:275-285 | the wpend fields are those of this record |
| TlsWriteClass.TlsWriter.SealPending | News Flash/Pods/BoringSSL-GRPC/ssl/s3_pkt.cc:268-285 | sealed and noted as pending |
| TlsWriteClass.TlsWriter.Reserve | News Flash/Pods/BoringSSL-GRPC/ssl/s3_pkt.cc:237-266 | room for flight and record is made if and only if it fits 16 bits, and the flight moved into it |
| TlsWriteClass.TlsWriter.Stage | News Flash/Pods/BoringSSL-GRPC/ssl/s3_pkt.cc:237-285 | record sealed and pending, or nothing done |
| TlsWriteClass.TlsWriter.DoWrite | News Flash/Pods/BoringSSL-GRPC/ssl/s3_pkt.cc:221-289 | a record of any type, step by step, as specified |
| TlsWriteClass.TlsWriter.WriteOne | News Flash/Pods/BoringSSL-GRPC/ssl/s3_pkt.cc:177-198 | one turn of the loop takes the next record of the input |
| TlsWriteClass.TlsWriter.WriteLoop | News Flash/Pods/BoringSSL-GRPC/ssl/s3_pkt.cc:162-199 | the loop ends where the specification says, with its return and count |
| TlsWriteClass.TlsWriter.Write | News Flash/Pods/BoringSSL-GRPC/ssl/s3_pkt.cc:129-200 | the length checks with the cleared count, then the loop |
| TlsWriteClass.TlsWriter.DispatchAlert | News Flash/Pods/BoringSSL-GRPC/ssl/s3_pkt.cc:405-425 | the noted alert is written as one record, and stays noted if that fails |
| TlsWriteClass.TlsWriter.EndDispatch | News Flash/Pods/BoringSSL-GRPC/ssl/s3_pkt.cc:410-415 | an alert that is out is no longer noted, and a fatal one flushes the transport |
| TlsWriteClass.TlsWriter.SendAlert | News Flash/Pods/BoringSSL-GRPC/ssl/s3_pkt.cc:377-403 | the write side is closed and the alert noted; it goes out now if nothing is on its way, and is dispatched later otherwise |
| TlsWriteClass.TlsWriter.AddRecordToFlight | News Flash/Pods/BoringSSL-GRPC/ssl/s3_both.cc:135-165 | a sealed record is appended to the pending flight |
| TlsWriteClass.TlsWriter.AddMessage | News Flash/Pods/BoringSSL-GRPC/ssl/s3_both.cc:184-205 | the loop queues the chunks of a message, as many as can be sealed |
| TlsWriteClass.TlsWriter.AddChangeCipherSpec | News Flash/Pods/BoringSSL-GRPC/ssl/s3_both.cc:207-218 | a ChangeCipherSpec is sealed into the flight |
| TlsWriteClass.TlsWriter.AddAlert | News Flash/Pods/BoringSSL-GRPC/ssl/s3_both.cc:220-229 | a warning is sealed into the flight |
| TlsWriteClass.FirstChunk | News Flash/Pods/BoringSSL-GRPC/ssl/s3_both.cc:184-205 | one turn of that loop takes the first record of what is left of the message |
| TlsWriteClass.TlsWriter.SendSome | News Flash/Pods/BoringSSL-GRPC/ssl/s3_both.cc:258-269 | one write moves the flight offset, or fails |
| TlsWriteClass.TlsWriter.SendFlight | News Flash/Pods/BoringSSL-GRPC/ssl/s3_both.cc:257-274 | the loop writes the rest of the flight |
| TlsWriteClass.TlsWriter.ReleaseFlight | News Flash/Pods/BoringSSL-GRPC/ssl/s3_both.cc:276-278 | a flight wholly written is freed |
| TlsWriteClass.TlsWriter.FinishFlight | News Flash/Pods/BoringSSL-GRPC/ssl/s3_both.cc:255-278 | the flight is sent, the transport flushed and the flight freed |
| TlsWriteClass.TlsWriter.FlushFlight | News Flash/Pods/BoringSSL-GRPC/ssl/s3_both.cc:231-279 | buffer first, then the flight |
| HsFraming.CutsDoNotMatter | News Flash/Pods/BoringSSL-GRPC/ssl/s3_both.cc:399-439 | two readers fed the same handshake bytes, cut into records in any way, release the same messages and hold the same rest |
| HsFraming.CutsAreUndone | News Flash/Pods/BoringSSL-GRPC/ssl/s3_both.cc:184-205 | messages cut at any positive fragment sizes are read back as they were |
| HsFraming.ReadFailsExactly | News Flash/Pods/BoringSSL-GRPC/ssl/s3_both.cc:441-459 | reading fails if and only if, at the start of some record, the bytes so far end in a message announced longer than the limit |
| HsFraming.NothingLost | News Flash/Pods/BoringSSL-GRPC/ssl/s3_both.cc:399-439 | messages and leftover are the whole stream |
| HsFraming.MessagesExtend | News Flash/Pods/BoringSSL-GRPC/ssl/s3_both.cc:399-439 | more bytes only add messages after those already complete |
| HsFraming.MessagesOfFlat | News Flash/Pods/BoringSSL-GRPC/ssl/s3_both.cc:399-439 | well-formed messages are found again in their concatenation |
| HsFraming.ChunksFlat | News Flash/Pods/BoringSSL-GRPC/ssl/s3_both.cc:184-205 | the records of a message concatenate to it |
| HsFraming.CutAllFlat | News Flash/Pods/BoringSSL-GRPC/ssl/s3_both.cc:184-205 | and those of a flight to its messages |
| HsFraming.HandshakeReader.constructor | News Flash/Pods/BoringSSL-GRPC/ssl/s3_both.cc:427-439 | nothing received |
| HsFraming.HandshakeReader.GetMessage | News Flash/Pods/BoringSSL-GRPC/ssl/s3_both.cc:427-439 | the first complete message in hs_buf, if there is one |
| HsFraming.HandshakeReader.CanAccept | News Flash/Pods/BoringSSL-GRPC/ssl/s3_both.cc:441-459 | more is accepted if and only if no message is complete and the one begun is within the limit |
| HsFraming.HandshakeReader.HasUnprocessed | News Flash/Pods/BoringSSL-GRPC/ssl/s3_both.cc:461-472 | bytes beyond the current message |
| HsFraming.HandshakeReader.OpenHandshake | News Flash/Pods/BoringSSL-GRPC/ssl/s3_both.cc:529-560 | the body of a handshake record is appended, or nothing changes |
| HsFraming.HandshakeReader.NextMessage | News Flash/Pods/BoringSSL-GRPC/ssl/s3_both.cc:562-583 | releases exactly the next message of the stream; an emptied buffer may be freed |
| HsFraming.HandshakeReader.TakeMessages | News Flash/Pods/BoringSSL-GRPC/ssl/s3_both.cc:399-439 | the loop takes all complete messages and leaves what follows them |
| HsFraming.HandshakeReader.ReadOne | News Flash/Pods/BoringSSL-GRPC/ssl/s3_both.cc:441-560 | a record is opened when no message is left, and then all messages are taken |
| HsFraming.HandshakeReader.ReadAll | News Flash/Pods/BoringSSL-GRPC/ssl/s3_both.cc:399-583 | reading records one by one succeeds if and only if all are handshake records and the specified reading does, leaves what it leaves, and releases the messages of the stream |
| Refcount.InterleavingsRefineTheLock | News Flash/Pods/BoringSSL-GRPC/crypto/refcount_c11.c:37-65 | for every interleaving of calls, loads and compare-exchanges by any number of threads, with spurious failures, the effects in their order are a run of the locked version: same count, same results to each thread |
| Refcount.StepRefines | News Flash/Pods/BoringSSL-GRPC/crypto/refcount_c11.c:37-65 | each atomic step keeps the refinement |
| Refcount.RunRefines | News Flash/Pods/BoringSSL-GRPC/crypto/refcount_c11.c:37-65 | so does every run |
| Refcount.LastReferenceTold | News Flash/Pods/BoringSSL-GRPC/crypto/internal.h:399-416 | when each decrement gives up a held reference, nobody aborts, and exactly one decrement returns 1, the last, if and only if all references are gone and the count never saturated |
| Refcount.StepCounts | News Flash/Pods/BoringSSL-GRPC/crypto/refcount_c11.c:37-65 | each step keeps the count equal to the references, or saturated for good |
| Refcount.Locked.constructor | News Flash/Pods/BoringSSL-GRPC/crypto/refcount_lock.c:29-35 | the shared counter |
| Refcount.Locked.Inc | News Flash/Pods/BoringSSL-GRPC/crypto/refcount_lock.c:29-35 | increments unless saturated |
| Refcount.Locked.DecAndTestZero | News Flash/Pods/BoringSSL-GRPC/crypto/refcount_lock.c:37-51 | aborts at zero, decrements unless saturated, and says whether zero was reached |
| CipherChoice.ChooseCipher | News Flash/Pods/BoringSSL-GRPC/ssl/handshake_server.cc:357-424 | whose list rules and whose is looked up, and nothing without a client list |
| CipherChoice.Choose | News Flash/Pods/BoringSSL-GRPC/ssl/handshake_server.cc:390-423 | the loop over group_min returns the cipher of the first group with an acceptable shared one that the other side ranks highest |
| CipherChoice.ChoiceIsUnique | News Flash/Pods/BoringSSL-GRPC/ssl/handshake_server.cc:357-424 | that description leaves no choice |
| CipherChoice.NullExactlyWhenNothingShared | News Flash/Pods/BoringSSL-GRPC/ssl/handshake_server.cc:357-424 | when the last group flag is 0, null exactly when no cipher is acceptable and shared |
| CipherChoice.NullIsRightExactly | News Flash/Pods/BoringSSL-GRPC/ssl/handshake_server.cc:390-423 | for a given list, null means that nothing acceptable is shared, for every client and configuration, if and only if no cipher that can be acceptable stands in a group that is not ended |
| CipherChoice.OpenGroupIsIgnored | News Flash/Pods/BoringSSL-GRPC/ssl/handshake_server.cc:390-423 | failing input of ssl3_choose_cipher alone: one shared acceptable cipher whose group flag is set, and null |
| CipherChoice.FirstAcceptable | News Flash/Pods/BoringSSL-GRPC/ssl/handshake_server.cc:381-423 | without groups, the first acceptable shared cipher of the list |
| CipherChoice.GroupDecides | News Flash/Pods/BoringSSL-GRPC/ssl/internal.h:1860-1893 | the best of a group is the choice if no group before it has an acceptable one |
| CipherChoice.Rank | News Flash/Pods/BoringSSL-GRPC/ssl/handshake_server.cc:393-412 | the first position in the other side's list |
| CipherChoice.Find | News Flash/Pods/BoringSSL-GRPC/ssl/handshake_server.cc:400-401 | the search loop finds that position |
| Premaster.ChoosePremaster | News Flash/Pods/BoringSSL-GRPC/ssl/handshake_server.cc:1142-1178 | for every decrypted block of at least 59 bytes the mask loop leaves the last 48 bytes if the PKCS #1 padding and the version are right, and the random premaster otherwise; shorter blocks are refused |
| Premaster.Padding | News Flash/Pods/BoringSSL-GRPC/ssl/handshake_server.cc:1157-1164 | the accumulated mask is all ones if and only if the padding is 00 02, non-zero bytes, 00 |
| Premaster.SelectInto | News Flash/Pods/BoringSSL-GRPC/ssl/handshake_server.cc:1173-1178 | the selection loop takes all bytes from the one side or the other |
| Premaster.Msb | News Flash/Pods/BoringSSL-GRPC/crypto/internal.h:244-247 | the mask of the top bit |
| Premaster.IsZero | News Flash/Pods/BoringSSL-GRPC/crypto/internal.h:303-318 | all ones if and only if zero |
| Premaster.IsZero8 | News Flash/Pods/BoringSSL-GRPC/crypto/internal.h:320-323 | the same in eight bits |
| Premaster.Eq | News Flash/Pods/BoringSSL-GRPC/crypto/internal.h:325-330 | all ones if and only if equal |
| Premaster.Eq8 | News Flash/Pods/BoringSSL-GRPC/crypto/internal.h:332-335 | the same in eight bits |
| Premaster.Select8ByMask | News Flash/Pods/BoringSSL-GRPC/crypto/internal.h:359-361 | a mask selects one of two bytes |
| Premaster.AndMask | News Flash/Pods/BoringSSL-GRPC/ssl/handshake_server.cc:1159-1171 | masks combine as conditions do |
| HandshakeDriver.PausesInvisible | News Flash/Pods/BoringSSL-GRPC/ssl/handshake.cc:491-628 | any two schedules of arriving input and answers that come to an end come to the same state, transcript, flights and records used |
| HandshakeDriver.ReadyEnds | News Flash/Pods/BoringSSL-GRPC/ssl/handshake.cc:491-628 | with every answer ready the handshake comes to its end within at most four turns for each rank and four more |
| HandshakeDriver.ReadyTick | News Flash/Pods/BoringSSL-GRPC/ssl/handshake.cc:491-628 | each such turn leaves fewer turns to come, or the handshake is at its end |
| HandshakeDriver.TickAdvances | News Flash/Pods/BoringSSL-GRPC/ssl/handshake.cc:491-628 | each turn of the driver leaves the handshake as it is or takes it one step along the run in which all answers are there at once |
| HandshakeDriver.TicksFollow | News Flash/Pods/BoringSSL-GRPC/ssl/handshake.cc:491-628 | so every schedule stays on that run |
| HandshakeDriver.AlwaysHolds | News Flash/Pods/BoringSSL-GRPC/ssl/handshake.cc:491-628 | what the steps of that run keep holds at every moment of every schedule |
| HandshakeDriver.Driver.constructor | News Flash/Pods/BoringSSL-GRPC/ssl/handshake.cc:491-493 | a handshake that waits for nothing |
| HandshakeDriver.Driver.Resolve | News Flash/Pods/BoringSSL-GRPC/ssl/handshake.cc:494-611 | resolves what the handshake waits for: flushes, reads, expects a ChangeCipherSpec, or returns to the caller |
| HandshakeDriver.Driver.OpenHandshake | News Flash/Pods/BoringSSL-GRPC/ssl/handshake.cc:508-546 | the loop takes in the handshake messages that arrived |
| HandshakeDriver.Driver.Step | News Flash/Pods/BoringSSL-GRPC/ssl/handshake.cc:613-618 | one turn of the machine on the message at hand |
| HandshakeDriver.Driver.RunMachine | News Flash/Pods/BoringSSL-GRPC/ssl/handshake_client.cc:1707-1789 | the loop while ssl_hs_ok is returned ends within rank + 1 turns, and is that many turns of the driver |
| HandshakeDriver.Driver.Unblock | News Flash/Pods/BoringSSL-GRPC/ssl/handshake.cc:494-611 | the switch with its returns: go on, or back to the caller, or wait, or fail |
| HandshakeDriver.Driver.RunHandshake | News Flash/Pods/BoringSSL-GRPC/ssl/handshake.cc:491-628 | the whole loop ends: with the handshake done, failed, waiting where another turn changes nothing, or back at the caller for an answer; and it is that many turns of the driver |
| HandshakeLog.KeyMeans | News Flash/Pods/BoringSSL-GRPC/ssl/handshake.cc:380-429 | in allowed traces a ChangeCipherSpec, the read cipher and a matched Finished come in this order and each at most once |
| HandshakeLog.VerifiedMeans | News Flash/Pods/BoringSSL-GRPC/ssl/handshake_client.cc:871-889 | the flag stands for a verification in the trace |
| HandshakeLog.LogMeans | News Flash/Pods/BoringSSL-GRPC/ssl/handshake.cc:215-222 | the log is what its trace hashed and used |
| HandshakeLog.TakeFinishedOk | News Flash/Pods/BoringSSL-GRPC/ssl/handshake.cc:380-429 | a Finished that carries the MAC of the transcript before it is hashed, matched and released |
| HandshakeLog.LegalActs | News Flash/Pods/BoringSSL-GRPC/ssl/handshake.cc:380-476 | an act that is legal where it happens keeps to the rules, gets to the next place and uses up exactly the record it releases |
| HandshakeLog.LegalErrors | News Flash/Pods/BoringSSL-GRPC/ssl/handshake.cc:380-476 | so does what is done before an error |
| HandshakeLog.CloseFlightOk | News Flash/Pods/BoringSSL-GRPC/ssl/handshake.cc:431-476 | ChangeCipherSpec, the new write cipher and the messages after it keep their order |
| HandshakeLog.TakeCookieOk | News Flash/Pods/BoringSSL-GRPC/ssl/handshake_client.cc:519-530 | a HelloVerifyRequest resets transcript and flight before the second ClientHello |
| HandshakeRuns.EveryRun | News Flash/Pods/BoringSSL-GRPC/ssl/handshake.cc:491-628 | a side that obeys the rules keeps them in every run, whatever the peer sends: each message hashed once before its release, each outgoing message queued once and in order, each record used once |
| HandshakeRuns.ActKeeps | News Flash/Pods/BoringSSL-GRPC/ssl/handshake.cc:491-628 | one turn keeps the log and gets to the next place |
| HandshakeRuns.CcsKeeps | News Flash/Pods/BoringSSL-GRPC/ssl/handshake.cc:508-546 | so does a ChangeCipherSpec that was waited for |
| HandshakeRuns.DoneNeverFails | News Flash/Pods/BoringSSL-GRPC/ssl/handshake.cc:613-623 | a finished handshake did not fail |
| HandshakeClient.Decide | News Flash/Pods/BoringSSL-GRPC/ssl/handshake_client.cc:385-1789 | all of the do_* functions: each keeps to the protocol where it happens, leads to where the next state expects to be, lowers the rank unless it fails or pauses, asks for no message that is there and releases only the one at hand |
| HandshakeClient.PausesOrGoes | News Flash/Pods/BoringSSL-GRPC/ssl/handshake_client.cc:871-889 | a turn that cannot go on changes nothing; otherwise it does what it does when every answer is there |
| HandshakeClient.AsksForMessage | News Flash/Pods/BoringSSL-GRPC/ssl/handshake_client.cc:491-535 | which states ask for a message does not depend on the answers |
| HandshakeClient.LastFlightIsLegal | News Flash/Pods/BoringSSL-GRPC/ssl/handshake_client.cc:1457-1512 | NextProto, ChannelId and Finished in order after the ChangeCipherSpec, on the transcript each follows |
| HandshakeClientRuns.EveryClientRun | News Flash/Pods/BoringSSL-GRPC/ssl/handshake_client.cc:1707-1789 | the rules over every run; a run that is done saw a ChangeCipherSpec, then the read cipher, then exactly one matching Finished |
| HandshakeClientRuns.VerifiedBeforeKeyExchange | News Flash/Pods/BoringSSL-GRPC/ssl/handshake_client.cc:1220-1371 | with a certificate cipher ClientKeyExchange is queued only after the peer was verified |
| HandshakeClientRuns.ClientPausesInvisible | News Flash/Pods/BoringSSL-GRPC/ssl/handshake_client.cc:1373-1512 | the client's transcript and flights do not depend on when answers and input come |
| HandshakeClientRuns.TurnSinks | News Flash/Pods/BoringSSL-GRPC/ssl/handshake_client.cc:1707-1789 | each turn fails, pauses with nothing changed, or lowers the rank of (state, session present), at most 20, although resumption moves backwards in the enum |
| HandshakeClientRuns.ClientSinks | News Flash/Pods/BoringSSL-GRPC/ssl/handshake.cc:491-628 | so every call of the handshake ends |
| HandshakeClientRuns.ClientIsSober | News Flash/Pods/BoringSSL-GRPC/ssl/handshake.cc:491-628 | with every answer ready only a missing message makes the client pause, and a message it leaves at hand is left for a state that looks at it |
| HandshakeClientRuns.ClientReadyEnds | News Flash/Pods/BoringSSL-GRPC/ssl/handshake.cc:491-628 | eighty-three turns with every answer ready bring the handshake to its end, whatever the peer sends |
| HandshakeClientRuns.ClientEndsPromptly | News Flash/Pods/BoringSSL-GRPC/ssl/handshake.cc:491-628 | every run that comes to its end comes to the state, transcript and flights of the run that never has to wait |
| HandshakeClientRuns.RunClient | News Flash/Pods/BoringSSL-GRPC/ssl/handshake.cc:491-628 | calls of SSL_do_handshake one after the other keep the rules, and a call that reports success leaves a handshake that closed as the protocol demands |
| HandshakeClientRuns.ClientBehaves | News Flash/Pods/BoringSSL-GRPC/ssl/handshake_client.cc:1707-1789 | pauses change nothing and effects do not depend on when answers come |
| HandshakeClientRuns.ClientObeys | News Flash/Pods/BoringSSL-GRPC/ssl/handshake_client.cc:1707-1789 | every turn is an act the rules allow |
| HandshakeServer.Decide | News Flash/Pods/BoringSSL-GRPC/ssl/handshake_server.cc:426-1621 | all of the do_* functions: each keeps to the protocol where it happens, leads to where the next state expects to be, lowers the rank unless it fails or pauses, asks for no message that is there and releases only the one at hand |
| HandshakeServer.PausesOrGoes | News Flash/Pods/BoringSSL-GRPC/ssl/handshake_server.cc:512-684 | a turn that cannot go on changes nothing; otherwise it does what it does when every answer is there |
| HandshakeServer.AsksForMessage | News Flash/Pods/BoringSSL-GRPC/ssl/handshake_server.cc:432-440 | which states ask for a message does not depend on the answers |
| HandshakeServer.FinishedFlightIsLegal | News Flash/Pods/BoringSSL-GRPC/ssl/handshake_server.cc:1463-1509 | ticket, ChangeCipherSpec and Finished in order, in the full and in the resumed handshake |
| HandshakeServerRuns.EveryServerRun | News Flash/Pods/BoringSSL-GRPC/ssl/handshake_server.cc:1539-1621 | the rules over every run; a run that is done saw a ChangeCipherSpec, then the read cipher, then exactly one matching Finished |
| HandshakeServerRuns.MatchedBeforeFinished | News Flash/Pods/BoringSSL-GRPC/ssl/handshake_server.cc:1439-1509 | in a full handshake the server's Finished is queued only after the client's ChangeCipherSpec, cipher change and matching Finished |
| HandshakeServerRuns.ServerPausesInvisible | News Flash/Pods/BoringSSL-GRPC/ssl/handshake_server.cc:842-912 | the server's transcript and flights do not depend on when answers and input come |
| HandshakeServerRuns.TurnSinks | News Flash/Pods/BoringSSL-GRPC/ssl/handshake_server.cc:1539-1621 | each turn fails, pauses with nothing changed, or lowers the rank of (state, session present), at most 20, although resumption moves backwards in the enum |
| HandshakeServerRuns.ServerSinks | News Flash/Pods/BoringSSL-GRPC/ssl/handshake.cc:491-628 | so every call of the handshake ends |
| HandshakeServerRuns.ServerIsSober | News Flash/Pods/BoringSSL-GRPC/ssl/handshake.cc:491-628 | with every answer ready only a missing message makes the server pause, and a message it leaves at hand is left for a state that looks at it |
| HandshakeServerRuns.ServerReadyEnds | News Flash/Pods/BoringSSL-GRPC/ssl/handshake.cc:491-628 | eighty-three turns with every answer ready bring the handshake to its end, whatever the peer sends |
| HandshakeServerRuns.ServerEndsPromptly | News Flash/Pods/BoringSSL-GRPC/ssl/handshake.cc:491-628 | every run that comes to its end comes to the state, transcript and flights of the run that never has to wait |
| HandshakeServerRuns.RunServer | News Flash/Pods/BoringSSL-GRPC/ssl/handshake.cc:491-628 | calls of SSL_do_handshake one after the other keep the rules, and a call that reports success leaves a handshake that closed as the protocol demands |
| HandshakeServerRuns.ServerBehaves | News Flash/Pods/BoringSSL-GRPC/ssl/handshake_server.cc:1539-1621 | pauses change nothing and effects do not depend on when answers come |
| HandshakeServerRuns.ServerObeys | News Flash/Pods/BoringSSL-GRPC/ssl/handshake_server.cc:1539-1621 | every turn is an act the rules allow |
| HandshakeConnection.Connection.GetFinished | News Flash/Pods/BoringSSL-GRPC/ssl/handshake.cc:380-429 | takes the MAC before hashing, then hashes, compares and releases the peer's Finished |
| HandshakeConnection.Connection.SendFinished | News Flash/Pods/BoringSSL-GRPC/ssl/handshake.cc:431-476 | queues the MAC of the transcript so far |
| HandshakeConnection.Connection.GetMessage | News Flash/Pods/BoringSSL-GRPC/ssl/s3_both.cc:427-439 | the message at hand |
| HandshakeConnection.Connection.HashMessage | News Flash/Pods/BoringSSL-GRPC/ssl/handshake.cc:215-222 | the message goes into the transcript |
| HandshakeConnection.Connection.NextMessage | News Flash/Pods/BoringSSL-GRPC/ssl/s3_both.cc:562-583 | the message at hand is released |
| HandshakeConnection.Connection.SkipMessage | News Flash/Pods/BoringSSL-GRPC/ssl/handshake_client.cc:519-521 | an unhashed message is released |
| HandshakeConnection.Connection.AddMessage | News Flash/Pods/BoringSSL-GRPC/ssl/handshake.cc:176-184 | an outgoing message is hashed and queued |
| HandshakeClientClass.ClientHandshake.Turn | News Flash/Pods/BoringSSL-GRPC/ssl/handshake_client.cc:1707-1789 | the body of the client's loop: every do_* function, run step by step on the fields in place, leaves the fields, log, current message and return of the step all results about runs are proved of |
| HandshakeServerClass.ServerHandshake.Turn | News Flash/Pods/BoringSSL-GRPC/ssl/handshake_server.cc:1539-1621 | the body of the server's loop: every do_* function, run step by step on the fields in place, leaves the fields, log, current message and return of the step all results about runs are proved of |
| HandshakeClientClass.ClientHandshake.LastFlight | News Flash/Pods/BoringSSL-GRPC/ssl/handshake_client.cc:1477-1510 | messages made one after the other are the flight of the specification |
| HandshakeServerClass.ServerHandshake.CertificateFlight | News Flash/Pods/BoringSSL-GRPC/ssl/handshake_server.cc:758-786 | the same of Certificate and CertificateStatus |
| HandshakeServerClass.ServerHandshake.HelloDoneFlight | News Flash/Pods/BoringSSL-GRPC/ssl/handshake_server.cc:920-943 | of CertificateRequest and ServerHelloDone, or of the request alone before an error |
| HandshakeServerClass.ServerHandshake.TicketAndFinished | News Flash/Pods/BoringSSL-GRPC/ssl/handshake_server.cc:1466-1502 | of ticket, ChangeCipherSpec and Finished |
| HandshakeServerClass.ServerHandshake.GetPrevSession | News Flash/Pods/BoringSSL-GRPC/ssl/ssl_session.cc:748-769 | waits for the ticket if tickets are supported and the ClientHello has one, else for the session cache, and never for both |

## Left out

- PbRoundTrip.DecodeInvertsEncode: for encodings shorter than 2^32 bytes, because lengths are decoded into 32 bits.
- PbLimits.DemandsExactly64: for schemas each of whose required fields has a value with an encoding shorter than 2^32 bytes.
- PbWire.DecodeVarint32: the bit position is unbounded, so a 32-bit decode of more than 36 bytes, whose 8-bit counter may wrap, is not modelled.
- PbDecoderClass.IStream.ReadMessage: the destination is a value that is returned, not a struct changed in place at computed offsets; after a failure what was already stored is not modelled.
- PbIterator.FieldIter.constructor: the data and size pointers into the destination, for the same reason.
- PbIterator.FieldIter.Next: the advance of those pointers.
- TlsWriteClass.TlsWriter.DoWrite: a pending flight whose bytes with a record of the greatest size come to 0xfffa and more but still fit 16 bits, where the write buffer may wrap (`LosesExactlyAbove`); the specification on values has no such limit.
- TlsWriteClass.TlsWriter.Reserve: the same limit.
- TlsWriteClass.TlsWriter.Stage: the same limit.
- TlsWriteClass.TlsWriter.WriteOne: the same limit.
- TlsWriteClass.TlsWriter.WriteLoop: the same limit.
- TlsWriteClass.TlsWriter.Write: the same limit.
- TlsWriteClass.TlsWriter.DispatchAlert: the same limit.
- TlsWriteClass.TlsWriter.SendAlert: the same limit.
- TlsWrite.EveryRunDelivers: a retry offers the same bytes as far as they have been sealed, as the interface asks; a length that makes the writer forget is not part of these runs (`RetryAfterBadLength` says what it does).
- ReplayWindow.ReplayAfterEpochWrap: the run is one of the record layer's functions; a connection of this code does not produce it.
- DtlsTransport.DeliversInOrder: the network may lose, repeat and reorder what the sender sent, but records it did not send never authenticate.
- DtlsTransport.OneRetransmissionIsEnough: for runs that change the write keys at most once, as connections do that cannot renegotiate.
- DtlsReceiverClass.Incoming.NextMessage: setting flight_has_reply, and so clearing a completed outgoing flight and stopping its timer; the model's sender may go on retransmitting until it queues again, which allows more runs.
- DtlsSenderClass.Outgoing.AddOutgoing: the transcript, which DtlsTransport follows, and stopping the timer.
- DtlsSenderClass.Outgoing.SetWriteState: the write sequence numbers and the AEAD contexts, which are parameters of sealing.
- DtlsSenderClass.Outgoing.SendFlight: the refusal after the write side was shut down.
- DtlsSenderClass.Outgoing.FlushFlight: starting the retransmission timer.
- DtlsSenderClass.Outgoing.HandleTimeout: the clock, the test whether the timer has expired and the doubling of the timeout; a timeout is an event that may come at any time.
- HandshakeDriver.Driver.Resolve: a ChangeCipherSpec that arrives while handshake data is left over is refused here at once; the code opens it and fails at the change of cipher. The note DTLS keeps of an early ChangeCipherSpec is in DtlsReceiver only.
- HandshakeDriver.Driver.OpenHandshake: records are opened to whole messages, and errors and alerts in opening are not modelled; HsFraming and DtlsReceiver say how fragments make up messages.
- HandshakeDriver.Driver.RunMachine: the loops of the two handshake functions are one loop here, over the step that the Turn methods of the two classes are proved to take.
- HandshakeServer.Decide: which extensions and versions are offered, and everything else a message holds besides its type, MAC and, for tickets, emptiness: callbacks, parsing, negotiation and signatures are oracles that depend on the message, the transcript and the state.
- HandshakeClient.Decide: the same; and do_enter_early_data offers no early data, which only TLS 1.3 has.
- CipherChoice.ChooseCipher: how the masks of the server's configuration are computed; they are parameters.
- Premaster.ChoosePremaster: RSA decryption and the random premaster are inputs; the lt and ge masks are not used by this check.
- Refcount.Locked.DecAndTestZero: abort() ends the operation and not the process, which allows more runs.
- Bitwise or of disjoint bits is written as addition where numbers are unbounded (varints, zigzag, lengths).
- Sealing, hashing, signatures, key exchange, certificates and randomness: opaque functions or oracles. Sealing may fail, adds a bounded number of bytes, and opens to what was sealed.
- Splitting of one write into two TLS records (1/n-1), record headers and versions: a sealed record is one opaque encoding.
- TLS 1.3, early data, SSL 3.0, renegotiation, V2ClientHello, handoff, alerts from the peer and the callbacks that only observe.
- Allocation failure, except where a do_* function fails between two of its effects, and overflow of `size_t` sums.
- nanopb callbacks, extensions, pointer fields, fixed-count arrays, the delimited and null-terminated variants, and the build without 64-bit integers.
- Descriptors that break what the generator guarantees: repeated or zero tags, tags of 2^29 and more, defaults on proto3 fields.
- The Swift application, the other wrappers in BoringSSL and gRPC itself.
