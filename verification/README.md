# Protocol cores of BoringSSL and nanopb

A Dafny model of the two vendored C and C++ libraries that carry this application's traffic: BoringSSL
(DTLS transport, TLS record writing, the TLS 1.0 to 1.2 handshake, session serialization, reference counts)
and nanopb (the Protocol Buffers codec). `dafny verify dfyconfig.toml` checks the whole project.

Code that works by changing state is a class whose methods are proved against functions of the old state;
what the library promises is then proved of those functions, over every input, every run or every
interleaving.

| files | what they model |
|---|---|
| Wire | bytes, big-endian numbers, bit operations, buffers |
| Reassembly, HandshakeReader, Delivery | DTLS handshake messages from fragments: the bit mask, the queue of seven slots, and delivery over a network that loses, repeats, reorders and re-fragments (RFC 6347, sections 4.2.2 to 4.2.4) |
| Flight, FlightSender | fragmentation of a flight under an MTU, failed seals, refused writes, retransmission, when a flight gets through, and the sender joined to the receiver |
| ReplayWindow, RecordWriter | the anti-replay window (RFC 6347, section 4.1.2.6), record numbers over epochs, nonce assembly and nonce uniqueness |
| AppWrite | application writes retried over short and failed transport writes, with the write buffer |
| HandshakeStream | TLS handshake messages over a stream of records, both directions |
| HandshakeMachines, HandshakeDrivers | the client and server state machines of TLS 1.0 to 1.2, and the objects that run them |
| HandshakeAgreement | the two composed over ordered channels, under every interleaving and pattern of retries (RFC 5246, section 7.3; RFC 5077; RFC 7627) |
| HandshakeProgress, HandshakeRefusal | every honest handshake ends, both sides derive the master secret over the same messages, and which one configuration fails |
| HandshakeIntegrity | each machine alone against an arbitrary network, and what its checks of Finished and CertificateVerify establish (RFC 5246, sections 7.4.8 and 7.4.9) |
| CipherChoice | the server's single-pass choice of a cipher suite with equal-preference groups |
| Refcount | the lock-free saturating reference count as interleaved loads and compare-exchanges, refining the locked one |
| Der, SessionDer, SessionAsn1 | DER cursor and builder, and the serialization and parsing of a session |
| PbVarint, PbIterator, PbMessage | varints, the cyclic field iterator, and the message encoding and decoding as functions |
| PbEncode, PbDecode, PbRoundTrip | the stream encoder with its sizing mode, the stream decoder with substreams and required-field bits, and the round trip |

Cryptography is symbolic: a sealed record, a signature, a MAC or a master secret stands for what it is
computed over. Transport outcomes, callbacks, random bytes and clocks are parameters, so every statement
holds for all of them. Integer widths are explicit wherever the code relies on them.

## What the proofs found

Where the code does not do what its comments or callers may expect, the model follows the code, a lemma
shows the case, and the exact condition is proved.

- A DTLS fragment numbered exactly one flight past the read position is not ignored as too far in the
  future: lines 380-382 of `d1_both.cc` let it through, and line 268 then fails the connection.
  `HonestFragmentFailsIff` is the exact condition, so delivery is proved as a prefix, and liveness
  (`TakesOnceAllArrived`) while the connection lives.
- `send_flight` restores the cursor when the BIO refuses a packet but not when sealing fails, so records
  sealed before the failure are skipped until the next retransmit, and a later flush can return 1 without
  them. `LargeMtuSkips` is an input: MTU 70000 under the null cipher, a short message and one of 66000 bytes.
  The pieces accepted in a call take the cursor to where the call leaves it if and only if no seal failed
  in mid-packet (`SendMoves`), and a pass that reaches the end is a partition of the flight if and only if
  none did since its start (`PartitionIffIntact`). `SealFailsIff` says when a seal fails; under conditions
  that a caller can check before the call, `Sealable`, none does (`SendNeverSkips`), and under `Ready`, with
  a BIO that accepts everything, the flight is sent whole (`SendSucceeds`). A retransmit that succeeds has
  always sent the whole flight.
- `dtls_seal_record` checks for wrap-around after sealing. Record numbers are unique if and only if nothing
  is sealed in an epoch whose counter has wrapped (`RecordNumbersUniqueIff`), and nonces derived from them if
  and only if nothing is sealed there under a context that derives them so (`NoncesUniqueIff`).
- `ssl3_write_app_data` clears `wnum` before it rejects a shrunken length, so a caller who then retries
  with the full buffer has bytes sealed twice: `ShrinkingRetryRepeats`. Exactly-once holds if and only if
  no call was rejected with bytes outstanding (`ExactlyOnce`), which non-shrinking lengths ensure.
- The length limit on TLS handshake messages is checked before a record is added, so a message over the
  limit that ends in the record of its header is accepted (`AliveIff`).
- `pb_enc_string` encodes a string that fills its memory without a terminator; `pb_dec_string` rejects
  it. `StringComesBackIff` is the condition.
- A field without a has flag is left out when it is zero, and comes back as its default. A message comes back
  the same if and only if no zero was left out of it that has another default (`MessageRoundTrip`);
  `ZeroComesBackAsFive` is one that does not.
- A key with field number 0 but a nonzero wire type does not end a message. In a message type with fields
  it is skipped; in one without, `pb_field_iter_find` finds the terminator, and the input is rejected
  (`FieldNumberZero`).
- A session comes back from its serialization if and only if it is `Restorable`: in particular a negative
  `verify_result`, an empty leaf, or a chain certificate that is not one DER element is written but not
  read back. Bytes after the number inside the time and timeout fields are not looked at
  (`TimeTrailersIgnored`).

## Model

| member | source | states |
|---|---|---|
| Reassembly.BitRangeBit | TextBooks/Pods/BoringSSL-GRPC/ssl/d1_both.cc:201-205 | `bit_range(start, end)` has exactly bits start to end-1 of a byte, for every start and end |
| Reassembly.ComparesFull | TextBooks/Pods/BoringSSL-GRPC/ssl/d1_both.cc:238-247 | comparing a mask byte with `bit_range(0, n)` is the same as testing its first n bits, provided no bit past n is set |
| Reassembly.MarkWholeByte | TextBooks/Pods/BoringSSL-GRPC/ssl/d1_both.cc:230-232 | a whole mask byte set at once extends the marking by exactly its eight bytes |
| Reassembly.SetBits | TextBooks/Pods/BoringSSL-GRPC/ssl/d1_both.cc:222-236 | the loop over the mask sets exactly the bits of the range and changes no other |
| Reassembly.ByteHas | TextBooks/Pods/BoringSSL-GRPC/ssl/d1_both.cc:238-247 | a prefix of a mask byte is all set iff every message byte it stands for is marked |
| Reassembly.IsComplete | TextBooks/Pods/BoringSSL-GRPC/ssl/d1_both.cc:238-251 | the final scan answers yes iff every byte of the message is marked |
| Reassembly.HmFragment.constructor | TextBooks/Pods/BoringSSL-GRPC/ssl/d1_both.cc:152-199 | a new message has none of its bytes, and no mask at all iff it is empty |
| Reassembly.HmFragment.Mark | TextBooks/Pods/BoringSSL-GRPC/ssl/d1_both.cc:211-251 | bit k is set afterwards iff it was before or k is in the range; the mask is dropped iff every byte is now covered; no bit past the length is ever set |
| Reassembly.HmFragment.AddBody | TextBooks/Pods/BoringSSL-GRPC/ssl/d1_both.cc:399-402 | a body lands at its offset, overwriting what was there, and the bytes it covers count as received |
| Reassembly.HmFragment.CompleteIffNoMask | TextBooks/Pods/BoringSSL-GRPC/ssl/d1_both.cc:253-259 | `reassembly` is NULL exactly when every byte of the message has been received |
| HandshakeReader.ParseSerialized | TextBooks/Pods/BoringSSL-GRPC/ssl/d1_both.cc:459-473 | a fragment header and body written out are read back as the same fragment, before anything that follows |
| HandshakeReader.AcceptKeepsQueueOk | TextBooks/Pods/BoringSSL-GRPC/ssl/d1_both.cc:362-402 | whatever fragment arrives, a slot i that is filled holds a message whose number is i modulo the flight size and inside the window, with the window's bounds on length |
| HandshakeReader.SameSlotSameNumber | TextBooks/Pods/BoringSSL-GRPC/ssl/d1_both.cc:273-276 | two numbers in one window that share a slot are equal, so the number assert on a filled slot cannot fail |
| HandshakeReader.ProcessKeepsQueueOk | TextBooks/Pods/BoringSSL-GRPC/ssl/d1_both.cc:350-405 | the same over every fragment of a record, up to the first that fails it |
| HandshakeReader.AdvanceKeepsQueueOk | TextBooks/Pods/BoringSSL-GRPC/ssl/d1_both.cc:426-438 | the same after the current message is released |
| HandshakeReader.Reader.GetIncomingMessage | TextBooks/Pods/BoringSSL-GRPC/ssl/d1_both.cc:265-295 | the slot found or made is the one the specification looks up; refused iff the number is outside the window or type or length disagree with what is there, leaving the queue alone |
| HandshakeReader.Reader.FillSlot | TextBooks/Pods/BoringSSL-GRPC/ssl/d1_both.cc:399-402 | only the slot's message gains the bytes |
| HandshakeReader.Reader.HandleFragment | TextBooks/Pods/BoringSSL-GRPC/ssl/d1_both.cc:362-402 | one pass of the loop is one specification step: same outcome, same queue, and nothing changes when it fails |
| HandshakeReader.Reader.OpenHandshake | TextBooks/Pods/BoringSSL-GRPC/ssl/d1_both.cc:297-406 | by record type: application data, ChangeCipherSpec or handshake are discarded, noted or processed fragment by fragment exactly as specified |
| HandshakeReader.Reader.GetMessage | TextBooks/Pods/BoringSSL-GRPC/ssl/d1_both.cc:408-424 | a message is returned iff every byte of the next one has arrived; it is that message, with the header and body that will be hashed |
| HandshakeReader.Reader.NextMessage | TextBooks/Pods/BoringSSL-GRPC/ssl/d1_both.cc:426-438 | the slot of the message just taken is emptied and the window moves by one |
| HandshakeReader.Reader.HasUnprocessedHandshakeData | TextBooks/Pods/BoringSSL-GRPC/ssl/d1_both.cc:440-457 | true iff a ChangeCipherSpec or a slot other than that of the current message is occupied |
| Delivery.ProcessSerialized | TextBooks/Pods/BoringSSL-GRPC/ssl/d1_both.cc:350-403 | a record made by concatenating fragments is processed as those fragments in order |
| Delivery.AcceptKeepsHonest | TextBooks/Pods/BoringSSL-GRPC/ssl/d1_both.cc:265-402 | accepting any fragment of an honest sender keeps every buffered byte equal to the byte sent at its place |
| Delivery.HonestFragmentFailsIff | TextBooks/Pods/BoringSSL-GRPC/ssl/d1_both.cc:373-390 | an honest fragment within the length limit fails the connection iff it arrives encrypted with a number that is not the next, or its number is exactly one flight past the window: the exact condition under which the off-by-one between lines 380-382 and 268 is fatal |
| Delivery.DeliversPrefixOfSent | TextBooks/Pods/BoringSSL-GRPC/ssl/d1_both.cc:297-438 | under any loss, duplication, reordering and re-fragmentation, the messages taken are a byte-for-byte prefix of those sent, in order, each once |
| Delivery.NothingAheadOfWindow | TextBooks/Pods/BoringSSL-GRPC/ssl/d1_both.cc:380-385 | nothing a whole flight ahead of the window has been received on a live connection's history |
| Delivery.TakeKeepsOthers | TextBooks/Pods/BoringSSL-GRPC/ssl/d1_both.cc:426-438 | taking a message leaves the bytes of all others where they are, and the number that enters the window starts empty |
| Delivery.RecordAddsCovered | TextBooks/Pods/BoringSSL-GRPC/ssl/d1_both.cc:350-403 | a processed record adds exactly the bytes inside the window that its fragments cover |
| Delivery.HoldsExactlyWhatArrived | TextBooks/Pods/BoringSSL-GRPC/ssl/d1_both.cc:350-438 | while the connection lives, the queue holds exactly the bytes inside the window that some received fragment carried |
| Delivery.TakesOnceAllArrived | TextBooks/Pods/BoringSSL-GRPC/ssl/d1_both.cc:253-259 | the next message can be taken iff a fragment of it and every one of its bytes have arrived |
| ReplayWindow.MarkTracks | TextBooks/Pods/BoringSSL-GRPC/ssl/dtls_record.cc:155-175 | marking a number that was not to be discarded makes the 64-bit map and maximum represent the set with that number added |
| ReplayWindow.DiscardIffSeenOrStale | TextBooks/Pods/BoringSSL-GRPC/ssl/dtls_record.cc:140-150 | a number is discarded iff it was recorded in this epoch or is at least 64 behind the largest (RFC 6347, section 4.1.2.6) |
| ReplayWindow.RunKeepsInvariant | TextBooks/Pods/BoringSSL-GRPC/ssl/dtls_record.cc:177-272 | over any run of arriving records and read-epoch changes, the window represents exactly the numbers opened in the current epoch |
| ReplayWindow.NoRecordOpenedTwice | TextBooks/Pods/BoringSSL-GRPC/ssl/dtls_record.cc:225-259 | over a whole run and all its epochs no record number is opened successfully twice |
| ReplayWindow.DroppedIffReplayedOrStale | TextBooks/Pods/BoringSSL-GRPC/ssl/dtls_record.cc:225-259 | after any run, an authentic record of the current epoch is dropped iff its number was opened before or is stale; a fresh one in the window never is |
| ReplayWindow.ParseRecord | TextBooks/Pods/BoringSSL-GRPC/ssl/dtls_record.cc:192-205 | what is parsed has an eight-byte number and lies inside the input |
| ReplayWindow.RecordReader.ReadU64 | TextBooks/Pods/BoringSSL-GRPC/ssl/dtls_record.cc:128-136 | the byte loop computes the big-endian value |
| ReplayWindow.RecordReader.BitmapShouldDiscard | TextBooks/Pods/BoringSSL-GRPC/ssl/dtls_record.cc:140-150 | the shift and mask test decides the specification's question |
| ReplayWindow.RecordReader.BitmapRecord | TextBooks/Pods/BoringSSL-GRPC/ssl/dtls_record.cc:155-175 | the map is shifted and marked in place as specified, whatever the distance |
| ReplayWindow.RecordReader.OpenRecord | TextBooks/Pods/BoringSSL-GRPC/ssl/dtls_record.cc:177-272 | every branch: closed, empty, malformed, wrong version, wrong epoch or replayed, failed to open, too long, alert; a record that is dropped or fails leaves the window unchanged |
| ReplayWindow.RecordReader.SetReadState | TextBooks/Pods/BoringSSL-GRPC/ssl/dtls_method.cc:81-95 | a new read cipher is refused while handshake data is buffered, else starts the next epoch with an empty window |
| Aead.XorBytesInjective | TextBooks/Pods/BoringSSL-GRPC/ssl/ssl_aead_ctx.cc:363-369 | XOR with a fixed string is injective |
| Aead.NonceInjective | TextBooks/Pods/BoringSSL-GRPC/ssl/ssl_aead_ctx.cc:325-369 | under one context that derives its nonces from the record number, different numbers give different nonces, whatever the fixed part |
| Aead.XorInPlace | TextBooks/Pods/BoringSSL-GRPC/ssl/ssl_aead_ctx.cc:363-369 | the in-place loop computes the XOR of the whole buffer |
| Aead.AssembleNonce | TextBooks/Pods/BoringSSL-GRPC/ssl/ssl_aead_ctx.cc:325-369 | the step-by-step assembly (fixed part or zeros, variable part, XOR) gives the specified nonce |
| Aead.Context.MaxOverhead | TextBooks/Pods/BoringSSL-GRPC/ssl/ssl_aead_ctx.cc:196-201 | explicit nonce and suffix never exceed the promised overhead |
| RecordWriter.RecordNumberInjective | TextBooks/Pods/BoringSSL-GRPC/ssl/dtls_record.cc:326-328 | the eight bytes sent determine epoch and sequence number |
| RecordWriter.IncrementValue | TextBooks/Pods/BoringSSL-GRPC/ssl/tls_record.cc:154-163 | the carry loop adds one to the big-endian value, or wraps to zero and says so |
| RecordWriter.SealKeepsInvariant | TextBooks/Pods/BoringSSL-GRPC/ssl/dtls_record.cc:294-351 | sealing under either epoch keeps every counter above all numbers it has used |
| RecordWriter.InstallKeepsInvariant | TextBooks/Pods/BoringSSL-GRPC/ssl/dtls_method.cc:97-107 | changing the write cipher keeps it, the old context and counter becoming the previous ones |
| RecordWriter.RunKeepsInvariant | TextBooks/Pods/BoringSSL-GRPC/ssl/dtls_record.cc:294-351 | over any run of seals, retransmits and cipher changes, before a wrap and after: the numbers used in an epoch are those its counter has passed, or all of them once it has wrapped, and each context serves one epoch |
| RecordWriter.RecordNumbersUniqueIff | TextBooks/Pods/BoringSSL-GRPC/ssl/dtls_record.cc:294-351 | in any interleaving of current-epoch seals, previous-epoch retransmits and cipher changes, no (epoch, number) pair is sealed twice if and only if nothing is sealed in an epoch, current or previous, whose counter has wrapped before in the run: the increment is checked only after the record has been sealed |
| RecordWriter.RepeatsIffWrapped | TextBooks/Pods/BoringSSL-GRPC/ssl/dtls_record.cc:326-336 | a seal repeats a record number iff the counter of its epoch has wrapped before, however many seals and cipher changes come between |
| RecordWriter.KeysServeOneEpoch | TextBooks/Pods/BoringSSL-GRPC/ssl/dtls_method.cc:97-107 | in any run, no context seals in two epochs |
| RecordWriter.NonceRepeatsIff | TextBooks/Pods/BoringSSL-GRPC/ssl/ssl_aead_ctx.cc:325-369 | under a context that derives its nonces from record numbers a seal repeats a nonce iff it repeats a record number |
| RecordWriter.NoncesUniqueIff | TextBooks/Pods/BoringSSL-GRPC/ssl/ssl_aead_ctx.cc:325-369 | no such context seals with a nonce twice iff none of them is used in an epoch whose counter has wrapped before |
| RecordWriter.SealBodyLength | TextBooks/Pods/BoringSSL-GRPC/ssl/ssl_aead_ctx.cc:379-405 | a sealed body is explicit nonce, plaintext and suffix long |
| RecordWriter.Writer.constructor | TextBooks/Pods/BoringSSL-GRPC/ssl/dtls_record.cc:274-282 | a new writer is in epoch 0 with both counters zero |
| RecordWriter.Writer.SequenceUpdate | TextBooks/Pods/BoringSSL-GRPC/ssl/tls_record.cc:154-163 | the in-place loop increments the low six bytes and leaves the epoch bytes |
| RecordWriter.Writer.Advance | TextBooks/Pods/BoringSSL-GRPC/ssl/dtls_record.cc:333-336 | the counter grows by one modulo 2^48, failing exactly on wrap-around |
| RecordWriter.Writer.EncryptBody | TextBooks/Pods/BoringSSL-GRPC/ssl/ssl_aead_ctx.cc:379-405 | what does not fit is refused, else the body is the specified one for this number and nonce |
| RecordWriter.Writer.SealRecord | TextBooks/Pods/BoringSSL-GRPC/ssl/dtls_record.cc:294-351 | a record too long changes nothing; otherwise one entry is logged under the next number of the chosen epoch and the record bytes are header, number and body; success iff the counter did not wrap and the length fits |
| RecordWriter.Writer.SetWriteState | TextBooks/Pods/BoringSSL-GRPC/ssl/dtls_method.cc:97-107 | epoch plus one, counter zero, and the old context and counter kept for retransmits |
| Flight.ReachedSplits | TextBooks/Pods/BoringSSL-GRPC/ssl/d1_both.cc:644-734 | pieces that take the cursor from the start split into exact partitions of the finished messages and a consecutive beginning of the current one |
| Flight.FinishedPassPartitions | TextBooks/Pods/BoringSSL-GRPC/ssl/d1_both.cc:644-827 | when a pass reaches the end of the flight, its pieces are, message by message and in order, consecutive ranges that exactly partition each body |
| Flight.PartitionCarriesBody | TextBooks/Pods/BoringSSL-GRPC/ssl/d1_both.cc:644-734 | consecutive fragments carry the body's bytes, each once, in order; an empty body is carried by exactly one empty fragment, and any other by none that is empty |
| Flight.LeftDecreases | TextBooks/Pods/BoringSSL-GRPC/ssl/d1_both.cc:739-780 | every advance of the cursor strictly decreases a measure of messages and bytes left |
| Flight.SealFailsIff | TextBooks/Pods/BoringSSL-GRPC/ssl/d1_both.cc:644-734 | sealing the next message fails iff its epoch is neither the current nor the previous one, or there is room for it and its counter is at its last number, encryption fails or the record body would reach 0x10000 bytes; it makes no progress iff there is less room than overhead, header and one byte |
| Flight.SealMoves | TextBooks/Pods/BoringSSL-GRPC/ssl/d1_both.cc:694-733 | what is sealed is the piece that the flight needs next; a fragment that does not finish its message is as long as the room allows |
| Flight.FillMoves | TextBooks/Pods/BoringSSL-GRPC/ssl/d1_both.cc:739-780 | the pieces put into a packet take the cursor exactly to where it is left, forward if there are any, and fit the MTU |
| Flight.SendMoves | TextBooks/Pods/BoringSSL-GRPC/ssl/d1_both.cc:782-827 | the pieces that the BIO accepted in a call take the cursor to where the call leaves it iff no failed seal moved it (`skipped`), and stay behind it otherwise; a call that returns 1 has skipped nothing itself |
| Flight.SealSucceeds | TextBooks/Pods/BoringSSL-GRPC/ssl/d1_both.cc:644-734 | if epochs are at hand, both counters have room, encryption does not fail and the MTU or the message bounds the record, one seal succeeds or finds too little room |
| Flight.FillSucceeds | TextBooks/Pods/BoringSSL-GRPC/ssl/d1_both.cc:739-780 | under the same conditions for the rest of the flight (`Sealable`) no seal fails while a packet is filled |
| Flight.SendNeverSkips | TextBooks/Pods/BoringSSL-GRPC/ssl/d1_both.cc:782-827 | nor in a whole call, whatever the BIO answers: nothing is skipped |
| Flight.SendSucceeds | TextBooks/Pods/BoringSSL-GRPC/ssl/d1_both.cc:782-827 | progress: if moreover the MTU always has room for one byte (`Ready`) and the BIO takes every packet, the call returns 1, with the accepted pieces taking the cursor from where it was to the end |
| Flight.AllStayBehind | TextBooks/Pods/BoringSSL-GRPC/ssl/d1_both.cc:782-827 | pieces that were skipped stay missing: pieces that do not get as far as the cursor do not catch up with it, however the pass goes on |
| Flight.LargeMtuSkips | TextBooks/Pods/BoringSSL-GRPC/ssl/d1_both.cc:782-827 | an input that fails: under the null cipher and an MTU of 70000, a short message and one of 66000 bytes; the first call returns -1 having sent nothing and with the cursor past the first message, and once the MTU is 1400 the next call returns 1 with no fragment of the first message ever sent |
| Flight.LargeMtuInput | TextBooks/Pods/BoringSSL-GRPC/ssl/d1_both.cc:511-537 | there are such a connection, cipher and pair of queued messages, so the lemma above is about an input |
| FlightSender.ReachedIsHonest | TextBooks/Pods/BoringSSL-GRPC/ssl/d1_both.cc:644-734 | whatever a pass emits is an honest fragment of what was queued, for any MTU |
| FlightSender.EmittedIsDelivered | TextBooks/Pods/BoringSSL-GRPC/ssl/d1_both.cc:644-827 | sender and receiver together: from records made of any emitted fragments, in any order and number, the receiver takes a prefix of what the sender queued |
| FlightSender.QueuedFormUnique | TextBooks/Pods/BoringSSL-GRPC/ssl/d1_both.cc:511-537 | the queued bytes determine type and body |
| FlightSender.Bio.Write | TextBooks/Pods/BoringSSL-GRPC/ssl/d1_both.cc:806-814 | the BIO gives its next answer; a packet is on the wire iff that is positive |
| FlightSender.Sender.SealRecord | TextBooks/Pods/BoringSSL-GRPC/ssl/d1_both.cc:644-734 | exactly the specified record and counters, or failure, for the epoch chosen |
| FlightSender.Sender.SealNextMessage | TextBooks/Pods/BoringSSL-GRPC/ssl/d1_both.cc:644-734 | exactly the specified outcome, record and cursor: error, no progress, part of the message or its end |
| FlightSender.Sender.SealNextPacket | TextBooks/Pods/BoringSSL-GRPC/ssl/d1_both.cc:739-780 | the loop fills the packet with exactly the specified records, and leaves the cursor where it does |
| FlightSender.Sender.SendPacket | TextBooks/Pods/BoringSSL-GRPC/ssl/d1_both.cc:797-815 | the packet is offered to the BIO iff it was filled without a failed seal and holds something; refused, it is taken back and the cursor is where it was; after a failed seal the cursor stays where filling left it |
| FlightSender.Sender.SendFlight | TextBooks/Pods/BoringSSL-GRPC/ssl/d1_both.cc:782-827 | result, packets, pieces, cursor and counters are exactly the specified ones for the BIO's answers, to which the lemmas on `Send` apply; each packet fits the MTU and is the records sealed for it |
| FlightSender.Sender.PartitionIffIntact | TextBooks/Pods/BoringSSL-GRPC/ssl/d1_both.cc:817-827 | once the cursor is at the end, what the BIO has accepted since the start of the pass is an exact partition of the flight iff no failed seal has moved the cursor since then |
| FlightSender.Sender.FlushFlight | TextBooks/Pods/BoringSSL-GRPC/ssl/d1_both.cc:829-834 | the specified call from where the cursor is; it returns 1 if the flight is ready and the BIO accepts everything, and having returned 1 it has completed a partition of the flight iff no seal failed in mid-packet in this call or an earlier one of the pass |
| FlightSender.Sender.RetransmitOutgoingMessages | TextBooks/Pods/BoringSSL-GRPC/ssl/d1_both.cc:836-845 | the specified call from the start; a success has always sent the whole flight again, in packets that are exactly its records, and readiness with an accepting BIO gives success |
| FlightSender.Sender.ClearOutgoing | TextBooks/Pods/BoringSSL-GRPC/ssl/d1_both.cc:500-509 | the flight is empty and the cursor at its start |
| FlightSender.Sender.AddOutgoing | TextBooks/Pods/BoringSSL-GRPC/ssl/d1_both.cc:555-594 | the first message after a finished flight starts a new one; at most seven are queued; the number and epoch at queueing time are kept |
| FlightSender.Sender.AddMessage | TextBooks/Pods/BoringSSL-GRPC/ssl/d1_both.cc:511-537 | fails iff the body needs more than three length bytes or the flight is full; otherwise one more message is recorded as sent, with the next number |
| FlightSender.Sender.AddChangeCipherSpec | TextBooks/Pods/BoringSSL-GRPC/ssl/d1_both.cc:600-602 | queues a ChangeCipherSpec, which takes no message number |
| AppWrite.FlushFacts | TextBooks/Pods/BoringSSL-GRPC/ssl/ssl_buffer.cc:239-252 | under any outcomes of the transport, wire plus buffer never changes, and success means the buffer is empty |
| AppWrite.DoWriteFacts | TextBooks/Pods/BoringSSL-GRPC/ssl/s3_pkt.cc:221-289 | one call seals at most one record; with a record pending it seals none; sealed bytes reach the wire in seal order, behind unsent handshake bytes |
| AppWrite.WritePendingFacts | TextBooks/Pods/BoringSSL-GRPC/ssl/s3_pkt.cc:202-218 | resuming never seals; it reports the pending length, and only once the buffer is empty |
| AppWrite.WriteFromSealsOnce | TextBooks/Pods/BoringSSL-GRPC/ssl/s3_pkt.cc:162-199 | from tot bytes on, the loop seals each remaining chunk once, whatever the transport does |
| AppWrite.WriteFromSealsData | TextBooks/Pods/BoringSSL-GRPC/ssl/s3_pkt.cc:162-199 | and what it seals is the caller's bytes at those places |
| AppWrite.RunTracks | TextBooks/Pods/BoringSSL-GRPC/ssl/s3_pkt.cc:129-200 | over any series of retries with alerts and handshake data between, what has been sealed is the beginning of the buffer, up to the bytes the connection has been made to forget |
| AppWrite.ExactlyOnce | TextBooks/Pods/BoringSSL-GRPC/ssl/s3_pkt.cc:129-200 | when a call returns r > 0, the plaintexts sealed since the first call are exactly `in[0..r)` iff no call was rejected for its length with sealed bytes outstanding; then nothing is buffered and the wire is all that was sealed, in order |
| AppWrite.ShrinkFreeWithin | TextBooks/Pods/BoringSSL-GRPC/ssl/s3_pkt.cc:144-157 | if lengths never shrink between retries, no call is rejected with bytes outstanding |
| AppWrite.NonShrinkingRetriesSealOnce | TextBooks/Pods/BoringSSL-GRPC/ssl/s3_pkt.cc:129-200 | so for non-shrinking retries the plaintexts sealed are exactly `in[0..r)`, unconditionally |
| AppWrite.ShrinkingRetryRepeats | TextBooks/Pods/BoringSSL-GRPC/ssl/s3_pkt.cc:144-157 | a concrete run in which it fails otherwise: `wnum` is cleared before the length is rejected, so the next retry seals bytes that were sealed before |
| AppWrite.SslBuffer.Clear | TextBooks/Pods/BoringSSL-GRPC/ssl/ssl_buffer.cc:39-45 | the buffer is empty |
| AppWrite.SslBuffer.EnsureCap | TextBooks/Pods/BoringSSL-GRPC/ssl/ssl_buffer.cc:47-81 | contents are kept across reallocation; succeeds iff the capacity is at most 0xffff |
| AppWrite.SslBuffer.DidWrite | TextBooks/Pods/BoringSSL-GRPC/ssl/ssl_buffer.cc:83-88 | the bytes written after the contents become contents |
| AppWrite.SslBuffer.Consume | TextBooks/Pods/BoringSSL-GRPC/ssl/ssl_buffer.cc:90-97 | the first bytes leave the contents, and only they |
| AppWrite.Connection.FlushBuffer | TextBooks/Pods/BoringSSL-GRPC/ssl/ssl_buffer.cc:239-252 | the loop is the specified flush |
| AppWrite.Connection.RetryPending | TextBooks/Pods/BoringSSL-GRPC/ssl/s3_pkt.cc:202-218 | the pending-write check on type, length and buffer address is the specified one |
| AppWrite.Connection.WriteRecord | TextBooks/Pods/BoringSSL-GRPC/ssl/s3_pkt.cc:221-289 | the imperative write is the specified one in every branch |
| AppWrite.Connection.SealRecord | TextBooks/Pods/BoringSSL-GRPC/ssl/s3_pkt.cc:250-285 | flight bytes, then the record, into the buffer; on failure exactly what the source leaves behind |
| AppWrite.Connection.BufferFlight | TextBooks/Pods/BoringSSL-GRPC/ssl/s3_pkt.cc:250-266 | unsent handshake bytes move into the buffer ahead of the record |
| AppWrite.Connection.Write | TextBooks/Pods/BoringSSL-GRPC/ssl/s3_pkt.cc:129-200 | the application write loop is the specified one: shutdown, length check, `wnum`, partial writes |
| HandshakeStream.ParseSerialized | TextBooks/Pods/BoringSSL-GRPC/ssl/s3_both.cc:399-425 | a message written out is parsed back, whatever follows |
| HandshakeStream.DrainConcat | TextBooks/Pods/BoringSSL-GRPC/ssl/s3_both.cc:399-439 | draining a buffer in two steps is draining it once |
| HandshakeStream.DrainSerialized | TextBooks/Pods/BoringSSL-GRPC/ssl/s3_both.cc:399-439 | a stream of messages drains to those messages and nothing else |
| HandshakeStream.ReceiveIsDrain | TextBooks/Pods/BoringSSL-GRPC/ssl/s3_both.cc:427-583 | while the connection lives, the messages taken do not depend on where the records were cut |
| HandshakeStream.AliveIff | TextBooks/Pods/BoringSSL-GRPC/ssl/s3_both.cc:441-560 | the connection fails on a record iff the message then being gathered is over the limit; a message over the limit that ends in the record of its header is accepted |
| HandshakeStream.AnySplitArrives | TextBooks/Pods/BoringSSL-GRPC/ssl/s3_both.cc:399-583 | for any split of a concatenation of messages into records, the get/next loop returns exactly those messages, in order |
| HandshakeStream.ChunksMakeMessage | TextBooks/Pods/BoringSSL-GRPC/ssl/s3_both.cc:184-205 | the chunks of a message concatenate to it, fit a record, and only the last is not full; an empty message still takes a record |
| HandshakeStream.SentMessagesArrive | TextBooks/Pods/BoringSSL-GRPC/ssl/s3_both.cc:184-205 | sender and receiver together, for every fragment size |
| HandshakeStream.Reader.ParseMessage | TextBooks/Pods/BoringSSL-GRPC/ssl/s3_both.cc:399-425 | complete iff the buffer holds as many bytes as the header asks for; else that number |
| HandshakeStream.Reader.GetMessage | TextBooks/Pods/BoringSSL-GRPC/ssl/s3_both.cc:427-439 | the current message, without consuming it |
| HandshakeStream.Reader.CanAcceptHandshakeData | TextBooks/Pods/BoringSSL-GRPC/ssl/s3_both.cc:441-459 | refuses iff a message is waiting or the one being gathered is over the limit |
| HandshakeStream.Reader.HasUnprocessedHandshakeData | TextBooks/Pods/BoringSSL-GRPC/ssl/s3_both.cc:461-472 | true iff the buffer holds anything but exactly the current message |
| HandshakeStream.Reader.OpenHandshake | TextBooks/Pods/BoringSSL-GRPC/ssl/s3_both.cc:474-560 | a handshake record is appended to the buffer, anything else changes nothing |
| HandshakeStream.Reader.NextMessage | TextBooks/Pods/BoringSSL-GRPC/ssl/s3_both.cc:562-583 | exactly the current message leaves the buffer |
| HandshakeStream.Reader.TakeAll | TextBooks/Pods/BoringSSL-GRPC/ssl/s3_both.cc:427-583 | the loop takes every complete message there is |
| HandshakeStream.SealAllStops | TextBooks/Pods/BoringSSL-GRPC/ssl/s3_both.cc:184-205 | of records sealed one after another, all before the first that cannot be sealed are, and none after it |
| HandshakeStream.FlushSucceeds | TextBooks/Pods/BoringSSL-GRPC/ssl/s3_both.cc:231-279 | a flush of a waiting flight succeeds if the transport goes on taking at least a byte at a time |
| HandshakeStream.FlushFailsKeeps | TextBooks/Pods/BoringSSL-GRPC/ssl/s3_both.cc:231-279 | a flush returns 1 iff no flight is left; a failed one leaves the flight waiting and never more bytes than before |
| HandshakeStream.FlightWriter.AddRecord | TextBooks/Pods/BoringSSL-GRPC/ssl/s3_both.cc:135-165 | a sealed record goes to the end of the flight; fails iff sealing does |
| HandshakeStream.FlightWriter.AddMessage | TextBooks/Pods/BoringSSL-GRPC/ssl/s3_both.cc:184-205 | the chunks of the message are sealed in order and added to the flight up to the first that cannot be; fails iff there is one |
| HandshakeStream.FlightWriter.AddChangeCipherSpec | TextBooks/Pods/BoringSSL-GRPC/ssl/s3_both.cc:207-218 | one ChangeCipherSpec record; fails iff it cannot be sealed |
| HandshakeStream.FlightWriter.FlushFlight | TextBooks/Pods/BoringSSL-GRPC/ssl/s3_both.cc:231-279 | bytes on the wire, in the buffer and in the flight are one unchanging sequence; result and what is left are exactly what shutdown, length and the transport's answers to each write and the flush make them |
| Refcount.LockedCounter.Increment | TextBooks/Pods/BoringSSL-GRPC/crypto/refcount_lock.c:29-35 | saturating increment under the lock |
| Refcount.LockedCounter.DecrementAndTestZero | TextBooks/Pods/BoringSSL-GRPC/crypto/refcount_lock.c:37-51 | aborts iff zero; saturated counts stay and report no; otherwise one less, reporting zero |
| Refcount.NextRefines | TextBooks/Pods/BoringSSL-GRPC/crypto/refcount_c11.c:37-65 | one step of any thread, load, successful or failed exchange, keeps the log of completed exchanges a run of the locked counter that ends in the shared count |
| Refcount.RefinesLocked | TextBooks/Pods/BoringSSL-GRPC/crypto/refcount_c11.c:37-65 | under every interleaving, with spurious failures, the shared count is what the locked counter gives for the operations in the order of their successful exchanges, with the same answers |
| Refcount.EachOperationOnce | TextBooks/Pods/BoringSSL-GRPC/crypto/refcount_c11.c:37-65 | each call takes effect at most once, in call order, and returns the answer of that effect |
| Refcount.CountsUnlessSaturated | TextBooks/Pods/BoringSSL-GRPC/crypto/refcount_lock.c:29-51 | a count that has reached the maximum stays there; any other is the first plus increments less decrements |
| Refcount.CountsReferences | TextBooks/Pods/BoringSSL-GRPC/crypto/refcount_c11.c:37-65 | if every operation is made by a holder of a reference, the process never aborts and an unsaturated count is the number of references held |
| Refcount.ReleasedOnce | TextBooks/Pods/BoringSSL-GRPC/crypto/refcount_c11.c:49-65 | then at most one decrement reports zero, it is the last operation of all, and the count is zero iff no reference is left |
| CipherChoice.IndexOf | TextBooks/Pods/BoringSSL-GRPC/ssl/handshake_server.cc:400-401 | the first index of a cipher in a list |
| CipherChoice.BestIsUnique | TextBooks/Pods/BoringSSL-GRPC/ssl/handshake_server.cc:357-424 | there is at most one cipher with least client index in the first group that has an acceptable one |
| CipherChoice.LeavesGroup | TextBooks/Pods/BoringSSL-GRPC/ssl/handshake_server.cc:408-420 | when the pass leaves a group in which it has found a match, its running minimum is the choice |
| CipherChoice.ChooseFrom | TextBooks/Pods/BoringSSL-GRPC/ssl/handshake_server.cc:390-423 | the single pass with `group_min` returns the best entry of any list with any group flags, or nothing exactly when no closed group has an acceptable entry |
| CipherChoice.ChooseCipher | TextBooks/Pods/BoringSSL-GRPC/ssl/handshake_server.cc:357-424 | server preference: the acceptable cipher with least client index from the first group that has one, nothing iff none is acceptable; client preference: the first acceptable client cipher |
| CipherChoice.ClientOrder | TextBooks/Pods/BoringSSL-GRPC/ssl/handshake_server.cc:377-385 | without groups, best means first |
| PbVarint.VarintRoundTrip | TextBooks/Pods/nanopb/pb_encode.c:574-594 | every 64-bit word takes 1 to 10 bytes, and the decoder returns it from in front of anything, consuming exactly those bytes |
| PbVarint.EncVarintInverts | TextBooks/Pods/nanopb/pb_encode.c:574-594 | the groups written, put together, are the word |
| PbVarint.OrShiftedAdds | TextBooks/Pods/nanopb/pb_decode.c:250-270 | putting groups together by shift and or, truncated to the word, is adding multiples of powers of two |
| PbVarint.DecVarintStable | TextBooks/Pods/nanopb/pb_decode.c:250-270 | what is decoded does not depend on what follows |
| PbVarint.Varint32RoundTrip | TextBooks/Pods/nanopb/pb_decode.c:182-242 | the 32-bit reader returns every word below 2^32 |
| PbVarint.Varint32SignExtended | TextBooks/Pods/nanopb/pb_decode.c:216-224 | a negative 32-bit number, written sign-extended, is read as its low word |
| PbVarint.ZigZagRoundTrip | TextBooks/Pods/nanopb/pb_encode.c:596-605 | every signed 64-bit number survives zig-zag coding, and its code is the interleaving of the signs |
| PbVarint.FixedRoundTrip | TextBooks/Pods/nanopb/pb_encode.c:607-632 | little-endian words of any length are read back |
| PbIterator.HomeIsAddress | TextBooks/Pods/nanopb/pb_common.c:41-74 | all members of a union have the address and size slot of the first |
| PbIterator.FieldsDoNotOverlap | TextBooks/Pods/nanopb/pb_common.c:41-74 | addresses never decrease, and a field ends before a later one of another home begins, unless it is a union member with another member after it, whose larger size nothing in the iterator accounts for |
| PbIterator.SameHomeTogether | TextBooks/Pods/nanopb/pb_common.c:44-50 | fields with one home are members of one union |
| PbIterator.RequiredBeforeGrows | TextBooks/Pods/nanopb/pb_common.c:65-70 | the required-field index strictly grows over required fields, so no two share one |
| PbIterator.FieldIter.constructor | TextBooks/Pods/nanopb/pb_common.c:8-18 | a fresh iterator is canonical |
| PbIterator.FieldIter.Begin | TextBooks/Pods/nanopb/pb_common.c:8-18 | position 0, canonical, and false iff there are no fields |
| PbIterator.FieldIter.Next | TextBooks/Pods/nanopb/pb_common.c:20-76 | address, size and required index are again those of a fresh walk to the position; false exactly on wrapping round |
| PbIterator.FieldIter.Find | TextBooks/Pods/nanopb/pb_common.c:78-95 | terminates and succeeds iff a non-extension field has the tag, from any position; on failure the position is as before |
| PbEncode.EmitsThen | TextBooks/Pods/nanopb/pb_encode.c:101-119 | emitting one string and then another is emitting both, in sizing and in writing mode |
| PbEncode.OStream.FromBuffer | TextBooks/Pods/nanopb/pb_encode.c:84-99 | a stream over part of a buffer, with nothing written |
| PbEncode.OStream.Sizing | TextBooks/Pods/nanopb/pb_encode.c:533-542 | a stream that only counts |
| PbEncode.OStream.Write | TextBooks/Pods/nanopb/pb_encode.c:101-119 | succeeds iff the bytes fit, and then they are in the buffer behind what was written; nothing else changes |
| PbEncode.OStream.FillVarint | TextBooks/Pods/nanopb/pb_encode.c:574-594 | the loop fills the buffer with the varint |
| PbEncode.OStream.EncodeVarint | TextBooks/Pods/nanopb/pb_encode.c:574-594 | emits exactly the varint |
| PbEncode.OStream.EncodeTag | TextBooks/Pods/nanopb/pb_encode.c:635-639 | emits exactly the varint of number and wire type, for every 32-bit field number |
| PbEncode.OStream.EncodeString | TextBooks/Pods/nanopb/pb_encode.c:674-680 | emits the length and the bytes |
| PbEncode.OStream.EncodeNumber | TextBooks/Pods/nanopb/pb_encode.c:734-808 | emits the number by its type, negative ones sign-extended |
| PbEncode.OStream.StringSize | TextBooks/Pods/nanopb/pb_encode.c:831-855 | the characters up to the terminator or the end of the memory |
| PbEncode.OStream.EncodeValue | TextBooks/Pods/nanopb/pb_encode.c:734-868 | emits the value, or fails iff it has no encoding or does not fit |
| PbEncode.OStream.EncodeSubmessage | TextBooks/Pods/nanopb/pb_encode.c:682-730 | emits the length and the message; at any nesting the second pass writes exactly the size the first counted |
| PbEncode.OStream.EncodeTagged | TextBooks/Pods/nanopb/pb_encode.c:307-392 | emits a tag and a value |
| PbEncode.OStream.EncodeUnpacked | TextBooks/Pods/nanopb/pb_encode.c:182-208 | emits each item in its own field |
| PbEncode.OStream.PackedSize | TextBooks/Pods/nanopb/pb_encode.c:145-165 | the size counted or computed is that of the items |
| PbEncode.OStream.EncodePacked | TextBooks/Pods/nanopb/pb_encode.c:139-181 | emits the length and the items; a sizing stream only counts them |
| PbEncode.OStream.EncodeArray | TextBooks/Pods/nanopb/pb_encode.c:126-211 | packed or unpacked by type, and fails iff over the array size or an item does |
| PbEncode.OStream.EncodeField | TextBooks/Pods/nanopb/pb_encode.c:416-431 | emits one field, leaving out absent and default ones |
| PbEncode.OStream.EncodeAt | TextBooks/Pods/nanopb/pb_encode.c:494-516 | emits the field at a position of the iterator |
| PbEncode.OStream.Encode | TextBooks/Pods/nanopb/pb_encode.c:494-516 | emits exactly the message's encoding, in either mode, or fails iff there is none or it does not fit |
| PbEncode.GetEncodedSize | TextBooks/Pods/nanopb/pb_encode.c:533-542 | the size is the length of the encoding, and sizing succeeds iff there is one |
| PbEncode.EncodeToBuffer | TextBooks/Pods/nanopb/pb_encode.c:84-119 | encoding into capacity n succeeds iff the size is at most n, writes exactly that many bytes and nothing behind them, and never reports a changed submessage size |
| PbRoundTrip.RunThrough | TextBooks/Pods/nanopb/pb_decode.c:901-1046 | decoding a fully consumed input followed by more is decoding the rest from the state reached |
| PbRoundTrip.ThroughConcat | TextBooks/Pods/nanopb/pb_decode.c:901-1046 | the same for consuming in two parts |
| PbRoundTrip.UnknownFieldTransparent | TextBooks/Pods/nanopb/pb_decode.c:273-326 | a well-formed field with an undeclared nonzero tag between any two fields changes neither the verdict nor the resulting message |
| PbRoundTrip.FieldNumberZero | TextBooks/Pods/nanopb/pb_common.c:78-95 | a well-formed field of number 0 and nonzero wire type between any two fields changes neither verdict nor message if the message type has fields, and makes any input be rejected if it has none |
| PbRoundTrip.SeenWasRead | TextBooks/Pods/nanopb/pb_decode.c:988-993 | a required-field mark is set only if its tag was in the input |
| PbRoundTrip.AcceptedHasRequired | TextBooks/Pods/nanopb/pb_decode.c:988-1046 | a message that is accepted contained every one of the first 64 required fields |
| PbRoundTrip.NumberRoundTrip | TextBooks/Pods/nanopb/pb_decode.c:1289-1389 | every number that fits its field comes back |
| PbRoundTrip.ValueRoundTrip | TextBooks/Pods/nanopb/pb_decode.c:1289-1508 | every conforming value, of any type and nesting, comes back the same |
| PbRoundTrip.StringComesBackIff | TextBooks/Pods/nanopb/pb_decode.c:1428-1461 | a string that is encoded is accepted by the decoder iff its terminator lies inside its memory, which the encoder does not require |
| PbRoundTrip.TagRoundTrip | TextBooks/Pods/nanopb/pb_decode.c:293-314 | tag and wire type come back for every tag from 1 below 2^29 |
| PbRoundTrip.PackedRoundTrip | TextBooks/Pods/nanopb/pb_decode.c:419-448 | the items of a packed array come back, in order |
| PbRoundTrip.UnpackedSteps | TextBooks/Pods/nanopb/pb_decode.c:449-459 | so do those of an unpacked one, field by field |
| PbRoundTrip.FieldStep | TextBooks/Pods/nanopb/pb_decode.c:401-475 | each field of a conforming message is encoded, and decoding it brings memory on by exactly that field |
| PbRoundTrip.RunFrom | TextBooks/Pods/nanopb/pb_decode.c:901-1046 | the same from any field to the end of the message |
| PbRoundTrip.MessageComesBack | TextBooks/Pods/nanopb/pb_decode.c:1051-1063 | for every well-formed descriptor and conforming message, encoding succeeds, and decoding it over any earlier memory succeeds and gives the message up to values of absent fields, bytes after a terminator, and the fields that the encoder left out for being zero, which come back as their defaults |
| PbRoundTrip.FreshMessageSameIff | TextBooks/Pods/nanopb/pb_encode.c:215-303 | a message that the encoder treats as default is the one decoding starts from iff the fields it leaves out are zero by default |
| PbRoundTrip.BackSameIff | TextBooks/Pods/nanopb/pb_encode.c:215-303 | what comes back is the message iff nowhere in it a field without a has flag is zero while its default is not |
| PbRoundTrip.MessageRoundTrip | TextBooks/Pods/nanopb/pb_decode.c:1051-1063 | so a conforming message comes back the same from its encoding iff no zero was left out of it that has another default |
| PbRoundTrip.ZeroComesBackAsFive | TextBooks/Pods/nanopb/pb_encode.c:215-303 | an input that does not: zero in a field whose default is five comes back as five |
| PbDecode.GroupRead | TextBooks/Pods/nanopb/pb_decode.c:250-270 | one more shift-and-or step agrees with the value of the groups read |
| PbDecode.TracksMark | TextBooks/Pods/nanopb/pb_decode.c:988-993 | setting a bit of the two 32-bit words adds its index to the set they stand for |
| PbDecode.OnesIff | TextBooks/Pods/nanopb/pb_decode.c:1036-1044 | comparing a word with 2^n - 1 tests its first n bits |
| PbDecode.WordsDecide | TextBooks/Pods/nanopb/pb_decode.c:1012-1045 | the whole-word tests and the test of the bits left over are together the test of every tracked required field |
| PbDecode.FindsSame | TextBooks/Pods/nanopb/pb_common.c:78-95 | a cyclic search from anywhere finds the one field with the tag |
| PbDecode.IStream.FromBuffer | TextBooks/Pods/nanopb/pb_decode.c:154-176 | a stream over all of the data |
| PbDecode.IStream.Part | TextBooks/Pods/nanopb/pb_decode.c:367-380 | a stream over part of the data |
| PbDecode.IStream.Read | TextBooks/Pods/nanopb/pb_decode.c:100-132 | succeeds iff enough is left, and then takes exactly that much |
| PbDecode.IStream.ReadByte | TextBooks/Pods/nanopb/pb_decode.c:136-152 | one byte, iff there is one |
| PbDecode.IStream.DecodeVarint | TextBooks/Pods/nanopb/pb_decode.c:250-270 | the loop decodes iff the specification does, to the same value and place |
| PbDecode.IStream.DecodeVarint32 | TextBooks/Pods/nanopb/pb_decode.c:244-247 | the same for a caller without use for eof |
| PbDecode.IStream.DecodeTag | TextBooks/Pods/nanopb/pb_decode.c:293-314 | tag and wire type; eof is set by a zero tag and at the end of the input, and by nothing else |
| PbDecode.IStream.DecodeVarint32Eof | TextBooks/Pods/nanopb/pb_decode.c:182-242 | the 32-bit reader with its eight-bit bit position decodes iff the specification does; eof iff there was nothing to read |
| PbDecode.IStream.SkipVarint | TextBooks/Pods/nanopb/pb_decode.c:273-282 | skips exactly one varint |
| PbDecode.IStream.SkipString | TextBooks/Pods/nanopb/pb_decode.c:284-291 | skips exactly one length-delimited field |
| PbDecode.IStream.SkipField | TextBooks/Pods/nanopb/pb_decode.c:316-326 | skips a field by wire type, failing on the types that have none |
| PbDecode.IStream.MakeStringSubstream | TextBooks/Pods/nanopb/pb_decode.c:367-380 | the substream is exactly the delimited part |
| PbDecode.IStream.CloseStringSubstream | TextBooks/Pods/nanopb/pb_decode.c:382-395 | skips what was left of the part and goes on after it |
| PbDecode.IStream.DecodeNumber | TextBooks/Pods/nanopb/pb_decode.c:1240-1389 | numbers by type, failing iff out of the field's range |
| PbDecode.IStream.DecodeText | TextBooks/Pods/nanopb/pb_decode.c:1391-1461 | bytes and strings, failing iff they do not suit their memory |
| PbDecode.IStream.DecodeSubmessage | TextBooks/Pods/nanopb/pb_decode.c:1463-1485 | a nested message is decoded into its memory inside its own substream |
| PbDecode.IStream.DecodeValue | TextBooks/Pods/nanopb/pb_decode.c:1289-1508 | a value of any type, as specified |
| PbDecode.IStream.DecodePacked | TextBooks/Pods/nanopb/pb_decode.c:431-445 | the items to the end of the part, failing on one too many |
| PbDecode.IStream.DecodeRepeated | TextBooks/Pods/nanopb/pb_decode.c:419-459 | packed or single items, by wire type |
| PbDecode.IStream.DecodeField | TextBooks/Pods/nanopb/pb_decode.c:401-475 | a field of any kind, with its has flag, count or union tag |
| PbDecode.IStream.DecodeStep | TextBooks/Pods/nanopb/pb_decode.c:919-997 | one pass of the loop: find, mark if required, decode or skip |
| PbDecode.IStream.DecodeNoInit | TextBooks/Pods/nanopb/pb_decode.c:901-1049 | accepts exactly what the specification accepts, with the same resulting message |
| PbDecode.IStream.CheckRequired | TextBooks/Pods/nanopb/pb_decode.c:1006-1046 | true iff every tracked required field was seen |
| PbDecode.IStream.Decode | TextBooks/Pods/nanopb/pb_decode.c:1051-1063 | defaults first, then the input |
| HandshakeAgreement.ClientRuns | TextBooks/Pods/BoringSSL-GRPC/ssl/handshake_client.cc:1707-1789 | in every state of the client's loop, with the honest peer's next message, none, or a callback that is not ready: the step does not fail, hashes a handshake message it takes or sends exactly once, sends the kinds that the negotiated handshake still owes, and signs and MACs over its own transcript |
| HandshakeAgreement.ReadsGoodFinished | TextBooks/Pods/BoringSSL-GRPC/ssl/handshake.cc:380-429 | the Finished the client checks is over exactly its own transcript, under its own secret |
| HandshakeAgreement.NotDerivedYet | TextBooks/Pods/BoringSSL-GRPC/ssl/handshake_client.cc:1355-1371 | the client derives the master secret before the server |
| HandshakeAgreement.ClientKeepsInv | TextBooks/Pods/BoringSSL-GRPC/ssl/handshake_client.cc:1707-1789 | any client step, in any reachable state of the two machines and the channels, keeps the joint invariant |
| HandshakeAgreement.ServerRuns | TextBooks/Pods/BoringSSL-GRPC/ssl/handshake_server.cc:1539-1621 | the same in every state of the server's loop |
| HandshakeAgreement.ReadsGoodClientFinished | TextBooks/Pods/BoringSSL-GRPC/ssl/handshake.cc:380-429 | the Finished the server checks is over exactly its own transcript, under its own secret |
| HandshakeAgreement.ServerSecretAgrees | TextBooks/Pods/BoringSSL-GRPC/ssl/handshake_server.cc:1240-1267 | the server derives the secret that the client derived, over the same transcript when extended (RFC 7627, section 4) |
| HandshakeAgreement.ServerKeepsInv | TextBooks/Pods/BoringSSL-GRPC/ssl/handshake_server.cc:1539-1621 | any server step, in any reachable state of the two machines and the channels, keeps the joint invariant |
| HandshakeAgreement.LinkTakes | TextBooks/Pods/BoringSSL-GRPC/ssl/handshake.cc:215-222 | reading and hashing the next message keeps the reader's transcript, with what is in flight, equal to the writer's |
| HandshakeAgreement.LinkSends | TextBooks/Pods/BoringSSL-GRPC/ssl/handshake.cc:431-476 | so does hashing and sending |
| HandshakeAgreement.RunsAgree | TextBooks/Pods/BoringSSL-GRPC/ssl/handshake_client.cc:1707-1789 | in every interleaving of an honest client and server, with any pattern of retries and any configuration but a server that insists on a certificate the client does not have (`ConfigOk`): neither side ever fails, so every CertificateVerify and Finished check passes; the transcripts differ only by what is in flight; master secrets, once both derived, are equal |
| HandshakeAgreement.DoneAgrees | TextBooks/Pods/BoringSSL-GRPC/ssl/handshake_server.cc:1539-1621 | when both sides are done, they have hashed the same messages, hold the same secret and nothing is in flight |
| HandshakeAgreement.HashedExactlyOnce | TextBooks/Pods/BoringSSL-GRPC/ssl/ssl_transcript.cc:236-252 | a side that is done has hashed exactly the handshake's messages, each once, in the order the negotiated handshake prescribes |
| HandshakeAgreement.RecordsAgree | TextBooks/Pods/BoringSSL-GRPC/ssl/handshake_client.cc:1538-1564 | the handshake hashes both sides store for ChannelID on resumption are over the same messages |
| HandshakeAgreement.NeverDeadlocked | TextBooks/Pods/BoringSSL-GRPC/ssl/handshake.cc:491-628 | until both are done, one of the two can move |
| HandshakeDrivers.ClientHandshake.TakeMessage | TextBooks/Pods/BoringSSL-GRPC/ssl/handshake.cc:215-222 | the message is hashed and released, once |
| HandshakeDrivers.ClientHandshake.AddMessage | TextBooks/Pods/BoringSSL-GRPC/ssl/handshake.cc:176-184 | the message is sent and hashed, once |
| HandshakeDrivers.ClientHandshake.Advance | TextBooks/Pods/BoringSSL-GRPC/ssl/handshake_client.cc:1707-1789 | one pass of the loop is one client move of the joint state machine |
| HandshakeDrivers.ClientHandshake.Pass | TextBooks/Pods/BoringSSL-GRPC/ssl/handshake_client.cc:1707-1789 | and it waits iff that move finds nothing to read or a callback not ready, fails iff the client has failed, and otherwise goes on |
| HandshakeDrivers.ClientHandshake.Run | TextBooks/Pods/BoringSSL-GRPC/ssl/handshake_client.cc:1707-1789 | from any joint state the loop makes a series of client moves, one for each callback answer, and returns only when the client is done, has failed, was held by an empty channel or by a callback that is not ready, or the answers are used up; the result says which, and no move follows one that was held |
| HandshakeDrivers.ServerHandshake.HashFirst | TextBooks/Pods/BoringSSL-GRPC/ssl/ssl_transcript.cc:181-199 | the hash starts with what the buffer holds; the buffer is kept iff a CertificateVerify may need it |
| HandshakeDrivers.ServerHandshake.Advance | TextBooks/Pods/BoringSSL-GRPC/ssl/handshake_server.cc:1539-1621 | one pass of the loop is one server move |
| HandshakeDrivers.ServerHandshake.Pass | TextBooks/Pods/BoringSSL-GRPC/ssl/handshake_server.cc:1539-1621 | and when it waits, fails or goes on |
| HandshakeDrivers.ServerHandshake.Run | TextBooks/Pods/BoringSSL-GRPC/ssl/handshake_server.cc:1539-1621 | the same of the server's loop: a series of server moves, ending exactly when done, failed, held or out of answers |
| HandshakeProgress.ClientRankFalls | TextBooks/Pods/BoringSSL-GRPC/ssl/handshake_client.cc:1707-1789 | each client step does nothing at all or lowers a measure of how far the client has to go |
| HandshakeProgress.ServerRankFalls | TextBooks/Pods/BoringSSL-GRPC/ssl/handshake_server.cc:1539-1621 | and each server step |
| HandshakeProgress.EffortBounded | TextBooks/Pods/BoringSSL-GRPC/ssl/handshake.cc:491-628 | so in every honest run, however scheduled and retried, at most 80 moves have any effect |
| HandshakeProgress.AlwaysFinishes | TextBooks/Pods/BoringSSL-GRPC/ssl/handshake.cc:491-628 | from every point of every run, finitely many moves with callbacks ready take both sides to done |
| HandshakeProgress.StoppedMeansDone | TextBooks/Pods/BoringSSL-GRPC/ssl/handshake.cc:491-628 | and a run in which neither side can move any more has both done, with equal transcripts and secrets |
| HandshakeProgress.ClientDerives | TextBooks/Pods/BoringSSL-GRPC/ssl/handshake_client.cc:1355-1371 | the client derives the master secret over its own transcript, which ends with the ClientKeyExchange |
| HandshakeProgress.ServerDerives | TextBooks/Pods/BoringSSL-GRPC/ssl/handshake_server.cc:1058-1267 | the server derives it from the key it read, over its own transcript, which ends there too |
| HandshakeProgress.DerivationsAgree | TextBooks/Pods/BoringSSL-GRPC/ssl/t1_enc.cc:301-335 | with or without extended master secret, the transcripts at the two derivations are the same messages |
| HandshakeRefusal.ServerStaysBefore | TextBooks/Pods/BoringSSL-GRPC/ssl/handshake_server.cc:949-1040 | a server that does not resume comes no further than reading the client's certificate |
| HandshakeRefusal.Verdict | TextBooks/Pods/BoringSSL-GRPC/ssl/handshake_server.cc:949-1040 | one that insists on a certificate fails on the empty Certificate |
| HandshakeRefusal.RunShadows | TextBooks/Pods/BoringSSL-GRPC/ssl/handshake_server.cc:1539-1621 | until it does, every run is a run with a server that only asks, and after that the client goes on as in one in which the server has not come further |
| HandshakeRefusal.RefusedNeverDone | TextBooks/Pods/BoringSSL-GRPC/ssl/handshake_server.cc:1539-1621 | against such a server neither side is ever done, and the client never fails |
| HandshakeRefusal.RefusalReached | TextBooks/Pods/BoringSSL-GRPC/ssl/handshake_server.cc:1539-1621 | and from every point of every run, with callbacks ready, the server comes to fail |
| HandshakeRefusal.FailsIffRefused | TextBooks/Pods/BoringSSL-GRPC/ssl/handshake_server.cc:1539-1621 | for any configuration, some run of the two honest sides fails iff the server wants a certificate, fails without one and the client has none |
| HandshakeIntegrity.ClientChecksFinished | TextBooks/Pods/BoringSSL-GRPC/ssl/handshake_client.cc:1658-1672 | against any network: a client that goes on past the server's Finished has one over exactly its own transcript, under its own secret; it fails iff the message is any other |
| HandshakeIntegrity.ClientSendsVerify | TextBooks/Pods/BoringSSL-GRPC/ssl/handshake_client.cc:1373-1455 | the only CertificateVerify a client sends is over its own transcript |
| HandshakeIntegrity.ClientSendsFinished | TextBooks/Pods/BoringSSL-GRPC/ssl/handshake_client.cc:1457-1512 | the only Finished a client sends is over its own transcript, under its own secret |
| HandshakeIntegrity.ClientRunKeeps | TextBooks/Pods/BoringSSL-GRPC/ssl/handshake_client.cc:1707-1789 | all of that at every point of every run, whatever messages arrive |
| HandshakeIntegrity.ServerChecksVerify | TextBooks/Pods/BoringSSL-GRPC/ssl/handshake_server.cc:1269-1363 | a server that goes on past a client's CertificateVerify has one over exactly its own transcript; it fails iff the message is any other or the transcript was not kept |
| HandshakeIntegrity.ServerChecksFinished | TextBooks/Pods/BoringSSL-GRPC/ssl/handshake_server.cc:1439-1461 | a server that goes on past the client's Finished has one over exactly its own transcript, under its own secret; it fails iff the message is any other |
| HandshakeIntegrity.ServerSendsFinished | TextBooks/Pods/BoringSSL-GRPC/ssl/handshake_server.cc:1463-1509 | the only Finished a server sends is over its own transcript, under its own secret |
| HandshakeIntegrity.ServerRunKeeps | TextBooks/Pods/BoringSSL-GRPC/ssl/handshake_server.cc:1539-1621 | all of that at every point of every run, whatever messages arrive |
| HandshakeIntegrity.ClientDoneAgrees | TextBooks/Pods/BoringSSL-GRPC/ssl/handshake.cc:380-429 | a client that is done, over any network and with any configuration on either side, shares its secret with the server whose Finished it accepted, and their transcripts are equal up to it, provided nobody else makes Finished messages under that secret (RFC 5246, section 7.4.9) |
| HandshakeIntegrity.ServerDoneAgrees | TextBooks/Pods/BoringSSL-GRPC/ssl/handshake.cc:380-429 | the same of a server that is done and the client whose Finished it accepted |
| HandshakeIntegrity.VerifiedClientAgrees | TextBooks/Pods/BoringSSL-GRPC/ssl/handshake_server.cc:1269-1363 | a server that is done with a client certificate agrees with the signer of the CertificateVerify on the transcript up to it (RFC 5246, section 7.4.8) |
| Der.PeekIff | TextBooks/Pods/BoringSSL-GRPC/crypto/bytestring/cbs.c:381-389 | for a one-byte identifier, the next tag matches iff the next byte is that identifier |
| Der.HeaderOfElement | TextBooks/Pods/BoringSSL-GRPC/crypto/bytestring/cbs.c:243-322 | the header of an element that was written is parsed back: tag, where the contents start and where they end |
| Der.GetElement | TextBooks/Pods/BoringSSL-GRPC/crypto/bytestring/cbs.c:350-375 | an element that was written is read back from in front of anything, leaving just that |
| Der.UintRoundTrip | TextBooks/Pods/BoringSSL-GRPC/crypto/bytestring/cbb.c:473-506 | every unsigned 64-bit number is read back from its INTEGER contents, which take at most nine bytes |
| Der.HeaderStable | TextBooks/Pods/BoringSSL-GRPC/crypto/bytestring/cbs.c:243-322 | an element does not depend on what follows it: none is a proper prefix of another |
| Der.CloseChild | TextBooks/Pods/BoringSSL-GRPC/crypto/bytestring/cbb.c:199-283 | closing a child turns what was written into it into one element of its parent |
| Der.CloseKeepsOuter | TextBooks/Pods/BoringSSL-GRPC/crypto/bytestring/cbb.c:199-283 | and leaves everything outside its parent as it is |
| Der.Cursor.ParseBase128 | TextBooks/Pods/BoringSSL-GRPC/crypto/bytestring/cbs.c:186-208 | the loop over a long tag number, with its overflow and minimality tests |
| Der.Cursor.ParseTag | TextBooks/Pods/BoringSSL-GRPC/crypto/bytestring/cbs.c:210-241 | low and high tag number form, as specified |
| Der.Cursor.GetAnyElement | TextBooks/Pods/BoringSSL-GRPC/crypto/bytestring/cbs.c:243-322 | any element, whole, with DER's shortest lengths of at most four bytes; nothing is taken on failure |
| Der.Cursor.GetAsn1 | TextBooks/Pods/BoringSSL-GRPC/crypto/bytestring/cbs.c:350-375 | the contents of the element, iff its tag matches |
| Der.Cursor.GetUint64 | TextBooks/Pods/BoringSSL-GRPC/crypto/bytestring/cbs.c:391-426 | a non-negative, minimal, at most 64-bit INTEGER, and only that |
| Der.Cursor.GetOptionalAsn1 | TextBooks/Pods/BoringSSL-GRPC/crypto/bytestring/cbs.c:444-459 | absent iff the tag differs; present and malformed is an error |
| Der.LengthPrefix | TextBooks/Pods/BoringSSL-GRPC/crypto/bytestring/cbb.c:225-276 | the shortest length bytes |
| Der.Builder.PatchLength | TextBooks/Pods/BoringSSL-GRPC/crypto/bytestring/cbb.c:223-280 | the one byte held for a length becomes the length, moving the contents along |
| Der.Builder.Flush | TextBooks/Pods/BoringSSL-GRPC/crypto/bytestring/cbb.c:199-283 | every child inside the level is closed, innermost first; fails iff one is longer than a length can say |
| Der.Builder.AddBytes | TextBooks/Pods/BoringSSL-GRPC/crypto/bytestring/cbb.c:392-401 | bytes at the end of the level, after closing what was open inside it |
| Der.Builder.AddAsn1 | TextBooks/Pods/BoringSSL-GRPC/crypto/bytestring/cbb.c:359-390 | a new child inside the level |
| Der.Builder.AddUint64 | TextBooks/Pods/BoringSSL-GRPC/crypto/bytestring/cbb.c:473-506 | the INTEGER with no spare zeros and a padding byte iff the top bit is set |
| Der.Builder.AddOctetString | TextBooks/Pods/BoringSSL-GRPC/crypto/bytestring/cbb.c:508-517 | one OCTET STRING, failing iff it is too long |
| Der.Builder.AddBool | TextBooks/Pods/BoringSSL-GRPC/crypto/bytestring/cbb.c:519-528 | one BOOLEAN |
| SessionDer.SplitJoined | TextBooks/Pods/BoringSSL-GRPC/ssl/ssl_asn1.cc:102-198 | because the optional tags increase strictly, every set of present fields, written in order, is found again field by field, and absent ones are found absent |
| SessionDer.ChainComesBackIff | TextBooks/Pods/BoringSSL-GRPC/ssl/ssl_asn1.cc:698-713 | a certificate chain comes back iff each certificate after the leaf is a single DER element |
| SessionDer.CertsBack | TextBooks/Pods/BoringSSL-GRPC/ssl/ssl_asn1.cc:669-714 | so the chain of a session comes back iff its certificates meet that condition |
| SessionDer.HeadBack | TextBooks/Pods/BoringSSL-GRPC/ssl/ssl_asn1.cc:535-580 | version, protocol version, cipher, session ID and master key come back iff the protocol version is known and the cipher is in the table |
| SessionDer.PeerStateBack | TextBooks/Pods/BoringSSL-GRPC/ssl/ssl_asn1.cc:592-608 | sid_ctx and verify_result come back iff verify_result is not negative and the leaf not empty |
| SessionDer.InterpretBack | TextBooks/Pods/BoringSSL-GRPC/ssl/ssl_asn1.cc:581-757 | the tagged fields are understood as the session's normal form iff they can be |
| SessionDer.RoundTrip | TextBooks/Pods/BoringSSL-GRPC/ssl/ssl_asn1.cc:200-399 | a serialized session parses, in front of anything, to the session itself up to the coded normalisations, if and only if: known version and cipher, verify_result not negative, non-empty leaf and single-element chain if written, and accepted by the X.509 layer |
| SessionDer.RestoredFromBytes | TextBooks/Pods/BoringSSL-GRPC/ssl/ssl_asn1.cc:830-844 | so does the whole input, with nothing after it |
| SessionDer.SameBytesSameSession | TextBooks/Pods/BoringSSL-GRPC/ssl/ssl_asn1.cc:200-399 | sessions written alike differ in nothing that is kept |
| SessionDer.NormalIsStable | TextBooks/Pods/BoringSSL-GRPC/ssl/ssl_asn1.cc:527-757 | a second trip loses nothing more |
| SessionDer.TimeTrailersIgnored | TextBooks/Pods/BoringSSL-GRPC/ssl/ssl_asn1.cc:580-591 | bytes after the number inside the time and the timeout field never change what a session is parsed to, nor whether it is |
| SessionDer.PlaceholderIsRejected | TextBooks/Pods/BoringSSL-GRPC/ssl/ssl_asn1.cc:767-793 | the placeholder written for a session that must not be resumed never parses as a session |
| SessionAsn1.AddChain | TextBooks/Pods/BoringSSL-GRPC/ssl/ssl_asn1.cc:332-349 | the certificates after the leaf, concatenated in one child |
| SessionAsn1.WriteHead | TextBooks/Pods/BoringSSL-GRPC/ssl/ssl_asn1.cc:206-216 | the fields before the tagged ones |
| SessionAsn1.WriteIdentity | TextBooks/Pods/BoringSSL-GRPC/ssl/ssl_asn1.cc:217-251 | times, leaf certificate, sid_ctx and verify_result, each present exactly when specified |
| SessionAsn1.WriteProofs | TextBooks/Pods/BoringSSL-GRPC/ssl/ssl_asn1.cc:253-316 | PSK identity to OCSP response, likewise |
| SessionAsn1.WriteExtensions | TextBooks/Pods/BoringSSL-GRPC/ssl/ssl_asn1.cc:318-358 | extended master secret to ticket_age_add, likewise |
| SessionAsn1.WriteLimits | TextBooks/Pods/BoringSSL-GRPC/ssl/ssl_asn1.cc:360-396 | is_server to early ALPN, likewise |
| SessionAsn1.ToBytesFull | TextBooks/Pods/BoringSSL-GRPC/ssl/ssl_asn1.cc:200-399 | at any level of a builder, closes what is open inside it and appends exactly the serialized form; fails iff the builder had failed, the session or its cipher is NULL, or a child to be closed or the body is longer than a length can say |
| SessionAsn1.ToBytes | TextBooks/Pods/BoringSSL-GRPC/ssl/ssl_asn1.cc:767-793 | the placeholder, the serialized session, or failure |
| SessionAsn1.ToBytesForTicket | TextBooks/Pods/BoringSSL-GRPC/ssl/ssl_asn1.cc:795-805 | the serialized form without session ID and ticket |
| SessionAsn1.TakeOctetString | TextBooks/Pods/BoringSSL-GRPC/crypto/bytestring/cbs.c:461-481 | an optional explicitly tagged OCTET STRING that is all of its field: absent, there, or an error, and what follows it |
| SessionAsn1.TakeNumber | TextBooks/Pods/BoringSSL-GRPC/crypto/bytestring/cbs.c:483-499 | an optional explicitly tagged INTEGER or its default |
| SessionAsn1.TakeFlag | TextBooks/Pods/BoringSSL-GRPC/crypto/bytestring/cbs.c:501-529 | an optional explicitly tagged BOOLEAN or its default; only 0 and 0xff are accepted |
| SessionAsn1.FillHead | TextBooks/Pods/BoringSSL-GRPC/ssl/ssl_asn1.cc:535-579 | the head, rejecting what the specification rejects |
| SessionAsn1.FillPeerState | TextBooks/Pods/BoringSSL-GRPC/ssl/ssl_asn1.cc:592-616 | leaf, sid_ctx, verify_result, and the host name that is skipped: fails unless these fields can be told apart, and then iff the specification does |
| SessionAsn1.FillHashes | TextBooks/Pods/BoringSSL-GRPC/ssl/ssl_asn1.cc:627-653 | peer SHA-256, original handshake hash, SCT list and OCSP response, in the same way |
| SessionAsn1.TakeChain | TextBooks/Pods/BoringSSL-GRPC/ssl/ssl_asn1.cc:698-713 | the loop takes the elements of the chain, failing iff it does not end with one |
| SessionAsn1.FillChain | TextBooks/Pods/BoringSSL-GRPC/ssl/ssl_asn1.cc:655-719 | a chain without a leaf, or an empty one, is rejected; otherwise leaf and chain, in the same way |
| SessionAsn1.FillBody | TextBooks/Pods/BoringSSL-GRPC/ssl/ssl_asn1.cc:535-757 | the fields read one after another give exactly the session the specification gives, or fail exactly when it does |
| SessionAsn1.Parse | TextBooks/Pods/BoringSSL-GRPC/ssl/ssl_asn1.cc:527-757 | a new session filled as specified, or NULL; the input after the session is left |
| SessionAsn1.FromBytes | TextBooks/Pods/BoringSSL-GRPC/ssl/ssl_asn1.cc:830-844 | NULL also if anything follows |

## Left out

Weaker than the code in some respect:

- Delivery.DeliversPrefixOfSent: for fewer than 2^16 handshake messages, since the 16-bit numbers then repeat.
- RecordWriter.RecordNumbersUniqueIff: for runs in which the 16-bit epoch does not wrap (`EpochsFit`); NoncesUniqueIff likewise.
- FlightSender.Sender.SendFlight: the MTU is a parameter of the call; querying the BIO for it is not modelled.
- Flight.SendSucceeds: a sufficient condition, checkable before the call; what happens to a seal that it does not cover is SealFailsIff.
- AppWrite.ExactlyOnce: the seal of a record is one opaque operation, so the 1/n-1 record split inside it is not visible; early data is not modelled.
- HandshakeAgreement.RunsAgree: honest peers and ordered, lossless channels; what happens in the one configuration that `ConfigOk` excludes is HandshakeRefusal.FailsIffRefused.
- HandshakeProgress.AlwaysFinishes: callbacks that are ready from some point on; one that asks to be retried for ever keeps a handshake waiting.
- PbRoundTrip.MessageRoundTrip: lengths stay below 2^32, as the decoder requires.
- PbEncode.EncodeToBuffer: lengths fit a `size_t` (`MessageSized`).
- Refcount.RefinesLocked: sequentially consistent memory; the memory orders of the C11 atomics are not modelled.

Not modelled:

- Records are returned as sequences, not written into caller buffers, so buffer aliasing checks do not appear.
- DTLS timers, `flight_has_reply` and post-handshake retransmission.
- Memory-allocation and random-number failure, error queues, alerts, and message and info callbacks.
- TLS 1.3, early data, handoff, SSL 3.0 special cases, V2ClientHello, HelloVerifyRequest, renegotiation and False Start.
- The contents of handshake messages beyond what decides the state machines: extensions, certificate parsing, key-exchange mathematics, X.509 verification.
- The state machines take TLS messages whole from ordered channels; their splitting into records is HandshakeStream's.
- `ssl_run_handshake`'s application-level retries appear as the retry input of each step.
- The limit on empty records, and `size_t` overflow checks that 64-bit lengths cannot reach.
- Reading decrypted application data, and the DTLS write path for it.
- A session's fields that are not serialized, and `i2d_SSL_SESSION`'s copy into caller memory.
- DER in BER form, SET OF, OBJECT IDENTIFIER and the builder's high tag numbers, which sessions do not use.
- nanopb callbacks, registered extensions, pointer fields and `malloc`, fixed-count arrays, `PB_WITHOUT_64BIT`, delimited and null-terminated variants.
- nanopb's destination struct is a value with a cell per field; the addresses that the iterator computes for the cells are modelled and shown not to overlap, but not the bytes at them. Setting defaults is a function on that value, not a loop over memory.
- Constant tables, cipher lists and protocol version negotiation.
