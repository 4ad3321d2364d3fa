# Proofs about the NekoLink tunnel and its bundled tools

A Dafny 4.11 model of the parts of the repository where most depends on getting the details right,
with proofs of what they are for. `dafny verify dfyconfig.toml` checks everything.

The tunnel engine (`nekolink-core/src/noise`):

- `replay_window.dfy`: the 1024-bit ring of a session against an unbounded set of counters;
  `receive_accounting.dfy`: several threads receiving on one session; `loss_estimate.dfy`: the estimate
  of what was lost, over the sessions of a tunnel.
- `wire.dfy`, `crypto.dfy`, `handshake.dfy`, `session.dfy`: messages, uninterpreted primitives with a
  few laws, the handshake and the packets of a session, up to agreement of the two ends; `noise.dfy`:
  the handshake against the Noise pattern IKpsk2; `handshake_refusals.dfy`: what is refused;
  `handshake_formats.dfy`: bytes, MACs, timestamps and indices.
- `tunnel.dfy`: the tunnel as a state machine over clock readings; `tunnel_runs.dfy`: what holds in
  every run; `tunnel_timers.dfy`: what each operation records and the periodic call decides;
  `tunnel_flush.dfy`: the queue; `tunnel_delivery.dfy`: two tunnels from a queued packet to
  its delivery; `tunnel_object.dfy`: the same operations as methods that change a tunnel with its
  session objects in place, each proved equal to its step of the state machine.
- `rate_limiter.dfy`: the limiter and the cookie exchange; `admission.dfy`: threads sharing a limiter.

The device around it (`nekolink-core/src/device`): `tcp_framing.dfy` (reassembly of datagrams from a
stream), `dev_lock.dfy` (upgrading a read lock by agreement, any number of threads), `device.dfy` (index
generator and peer tables).

The bundled C and C++ tools: `netlink.dfy`, `netlink_receiver.dfy` (a configuration split over messages,
received, and put together again), `field.dfy`, `field51.dfy`, `field51_bytes.dfy`, `field16.dfy` (arithmetic modulo 2^255 - 19 in two
forms, and the bytes written), `elf.dfy` (compaction of a dynamic section), `encoding.dfy` (keys as text
in constant time).

Conventions. Code that changes things in place is modelled by methods on objects and arrays, each
proved against a function on values; the theorems are about those functions and their runs. Words are
bounded integers, so an assignment to one is also the claim that it does not overflow; where the source
wraps or cuts, that is written out. Each reading of the clock, each random number and each answer of
code outside the model is a parameter. An output buffer is represented by its length and the bytes
written to it. Cryptographic primitives are a record of functions; only `Crypto.Lawful` is assumed of
them, and `LawfulPrimitivesExist` shows that it can be met.

What the proofs brought to light, each with a theorem that says exactly when and one that shows a case:

- The count of admitted messages holds by number, not by time: a message that took its number before the
  count was set back may pass after it (`Admissions.AtMostLimitAndInFlight`, `BoundIsAttained`,
  `TwoPassWithLimitOne`).
- A stream handler that has no keys yet lets its buffer fill up; the next read is offered an empty slice
  and the connection is taken for closed. The same happens with a payload above 65533 bytes
  (`TcpFrames.PassLeavesRoom`, `FullBufferCloses`).
- A handler pass that stops after 100 packets leaves complete frames behind until more bytes arrive
  (`TcpFrames.PassTakesAll`, `LastPacketStays`).
- Removing a peer does not give a network back to an earlier owner of it (`Devices.RouteIsLastOwner`,
  `RemovalUnroutes`, `NetworkIsLost`).
- Coalescing follows a null pointer when an empty piece of a peer is followed by another one; splitting
  never produces that (`Netlink.NodesAreCoalesced`, `EmptyPieceBetween`, `SplittingIsSafe`).
- The bound of 17 resends in one attempt needs a single reading of the clock in each periodic call; the
  source reads it again for the age of the initiation, and then there may be 18
  (`TunnelRuns.EighteenthResend`, `EighteenResends`).
- A queued packet is there twice after a call that could not write an initiation, for want of room in
  the output buffer (`TunnelFlush.QueueWithoutSession`); and an initiation that is received with too
  small a buffer is not answered, now or when it is sent again (`HandshakeFormats.SmallBuffers`).
- Cleaning a dynamic section with entries behind the first null one can hide entries from a loader, or
  show it hidden ones (`ElfCleaner.LoaderSeesTheRest`, `EntriesAreLost`).

## Model

| member | source | states |
|---|---|---|
| `ReplayWindow.AcceptedExactlyWhen` | nekolink-core/src/noise/session.rs:85-151 | in any run of counters, one is accepted if and only if no earlier acceptance was of the same counter and none was 1024 or more ahead of it |
| `ReplayWindow.AcceptedAtMostOnce` | nekolink-core/src/noise/session.rs:104-151 | no run accepts one counter twice |
| `ReplayWindow.RunSees` | nekolink-core/src/noise/session.rs:104-151 | after any run the window holds exactly the counters accepted, and `next` is one more than the highest of them |
| `ReplayWindow.ClearEachInWord` | nekolink-core/src/noise/session.rs:68-73 | clearing an aligned word clears exactly the ring positions of its 64 counters |
| `ReplayWindow.ClearEachOfWholeRing` | nekolink-core/src/noise/session.rs:112-133 | clearing any stretch of at least 1024 counters clears the whole ring |
| `ReplayWindow.RingDistance` | nekolink-core/src/noise/session.rs:51-82 | two counters that share a ring position are a whole ring apart, so inside the window a position means one counter |
| `ReplayWindow.KeepsAgreement` | nekolink-core/src/noise/session.rs:104-151 | clearing from `next` to the counter and setting its bit takes a ring that agrees with the set of seen counters to one that agrees with the new set |
| `ReplayWindow.Validator.SkipTo` | nekolink-core/src/noise/session.rs:112-140 | the three-phase loop (bits, words, bits; or everything) leaves the ring exactly as clearing each position of [next, counter) one by one would |
| `ReplayWindow.Validator.WillAccept` | nekolink-core/src/noise/session.rs:85-100 | the verdict on the bitmap is the verdict of the unbounded set: accepted, too old, or duplicate |
| `ReplayWindow.Validator.MarkDidReceive` | nekolink-core/src/noise/session.rs:104-151 | the new bitmap, `next` and verdict are those of the unbounded set, for every counter with counter + 1024 below 2^64 |
| `ReplayWindow.Validator.ReceivingCounterMark` | nekolink-core/src/noise/session.rs:184-191 | the receive count goes up by one exactly when the mark is accepted |
| `ReplayWindow.Validator.CheckBit` | nekolink-core/src/noise/session.rs:76-82 | the bit read is the ring position of the counter |
| `ReceiveAccounting.StepKeepsAccounts` | nekolink-core/src/noise/session.rs:236-268 | every step of any thread keeps: the delivered counters are distinct, are exactly the marked ones, and are as many as the receive count |
| `ReceiveAccounting.DeliveredAtMostOnce` | nekolink-core/src/noise/session.rs:178-191 | in every state of every interleaving of check, decrypt and mark each counter was delivered at most once and the receive count is the number delivered and at most `next` |
| `ReceiveAccounting.BothMayPassTheQuickCheck` | nekolink-core/src/noise/session.rs:178-191 | the check before decryption does not exclude two threads with one counter; the second mark does |
| `Sessions.ReceiveKeepsCounted` | nekolink-core/src/noise/session.rs:236-268 | receiving keeps the receive count equal to the number of counters seen, and only a packet for this session is received |
| `LossEstimates.EverySlotOnce` | nekolink-core/src/noise/mod.rs:543-571 | despite the wrap-around of the index the loss estimate visits each of the eight slots, and only once |
| `LossEstimates.CurrentSlotFirst` | nekolink-core/src/noise/mod.rs:550-551 | the current slot comes first, then the one before it, and so on |
| `LossEstimates.LossAtTheEnds` | nekolink-core/src/noise/mod.rs:554-558 | nothing lost gives 0, nothing received 1, nothing expected 0 |
| `LossEstimates.MeanOfFew` | nekolink-core/src/noise/mod.rs:546-570 | one session counts alone, of two the more recent three times as much |
| `TunnelObjects.Tunnel.EstimateLoss` | nekolink-core/src/noise/mod.rs:543-571 | the loop over the session objects computes the weighted mean, over the reals, of the losses of the occupied slots from `current` backwards, each weighing a third of the one before |
| `LossEstimates.EstimateIsAFraction` | nekolink-core/src/noise/mod.rs:543-571 | in every state of every run of a tunnel the estimate over its sessions lies between 0 and 1 |
| `Crypto.LawfulPrimitivesExist` | nekolink-core/src/noise/handshake.rs:40-160 | the laws assumed of the primitives (key exchange commutes, opening undoes sealing, fixed output lengths) can be met together |
| `Wire.ParseOfEncoded` | nekolink-core/src/noise/mod.rs:128-163 | every well-formed message, followed by its MACs if it has any, is parsed back to itself |
| `Wire.EncodedOfParse` | nekolink-core/src/noise/mod.rs:128-163 | the parser accepts nothing else: a datagram it accepts is the encoding of what it returns, with nothing or the MACs behind it |
| `Sessions.PacketIsRecovered` | nekolink-core/src/noise/session.rs:196-268 | a packet formatted by one end is recovered unchanged by the other if and only if its window still admits the counter, and never a second time; a refused packet changes nothing |
| `Sessions.ReceiveDecides` | nekolink-core/src/noise/session.rs:236-268 | which test a data packet fails first (index, 1024 too old, seen, opening), and that a refused one leaves window and count as they were |
| `Sessions.FormattedIs` | nekolink-core/src/noise/session.rs:196-232 | the bytes of a data packet, the counter being also the nonce |
| `Sessions.Session.Format` | nekolink-core/src/noise/session.rs:196-232 | the send counter is taken and stepped, and the datagram is that of the value-level session |
| `Sessions.Session.Receive` | nekolink-core/src/noise/session.rs:236-268 | quick check, opening and mark on the object have the result and the new state of the value-level session, errors included |
| `Handshakes.InitiationAccepted` | nekolink-core/src/noise/handshake.rs:326-369 | an honest initiation names its sender before the peer is known, and is accepted if and only if its timestamp is newer than the last accepted one, with the initiator's transcript |
| `Handshakes.ResponseAgrees` | nekolink-core/src/noise/handshake.rs:566-646 | a response to either of the two initiations in flight opens at the initiator, and the two sessions have crossed keys and crossed indices |
| `Handshakes.MacsFollow` | nekolink-core/src/noise/handshake.rs:683-708 | a handshake message with its two MACs appended is parsed as that message |
| `Handshakes.HandshakeAgreement` | nekolink-core/src/noise/handshake.rs:481-646 | the whole exchange as datagrams: a fresh initiation is attributed, answered and completed, keys and indices cross, with or without a preshared key, and the accepted timestamp is kept |
| `Handshakes.IncIndexKeepsWidth` | nekolink-core/src/noise/handshake.rs:466-471 | the next index is a different 32-bit number with the same upper 24 bits |
| `Noise.InitiationIsNoise` | nekolink-core/src/noise/handshake.rs:710-788 | the initiation is what the first message of the Noise pattern IKpsk2 writes, token by token, and the state kept is the one after it |
| `Noise.InitiationAcceptedExactlyWhen` | nekolink-core/src/noise/handshake.rs:481-549 | an initiation is accepted if and only if the pattern reads it, its static key is that of the peer and its payload a newer timestamp; otherwise the error tells what failed first |
| `Noise.AnonymousReading` | nekolink-core/src/noise/handshake.rs:326-369 | the sender is named from the same reading, without a peer |
| `Noise.ResponseIsNoise` | nekolink-core/src/noise/handshake.rs:790-881 | the response is what the second message writes, and the responder has the keys of its Split, each for its direction |
| `Noise.ResponseAcceptedExactlyWhen` | nekolink-core/src/noise/handshake.rs:566-646 | a response is accepted if and only if an initiation in flight awaits it and the pattern reads it from there; then the slot is free and the keys are those of Split; otherwise nothing changes |
| `Noise.WrittenIsRead` | nekolink-core/src/noise/handshake.rs:326-369 | whatever the pattern writes it reads, on any lawful primitives: the same state and the plaintexts |
| `HandshakeRefusals.ResponseRefused` | nekolink-core/src/noise/handshake.rs:566-646 | a response that is not awaited, or whose payload opens under no key, is refused and changes nothing |
| `HandshakeRefusals.InitiationRefused` | nekolink-core/src/noise/handshake.rs:481-564 | an initiation whose static key opens under no key or never to the peer, or whose timestamp never opens to a newer one, is refused and changes nothing |
| `HandshakeRefusals.CheckingPrimitivesExist` | nekolink-core/src/noise/handshake.rs:40-160 | there are lawful primitives under which sealed parts open with the right key only |
| `HandshakeRefusals.ForgedResponseRefused` | nekolink-core/src/noise/handshake.rs:619-620 | with these a forged response under the right index is refused |
| `HandshakeRefusals.ForgedInitiationRefused` | nekolink-core/src/noise/handshake.rs:505-541 | with these an initiation with a forged static key or timestamp is refused |
| `HandshakeRefusals.WrongPresharedKeyRefused` | nekolink-core/src/noise/handshake.rs:566-646 | with these a response closed with another preshared key is refused if and only if the keys do not begin alike |
| `HandshakeFormats.Layout` | nekolink-core/src/noise/mod.rs:128-163 | where each field of each message stands, in bytes |
| `HandshakeFormats.MacsByTheBook` | nekolink-core/src/noise/handshake.rs:683-708 | the two MACs, their keys and their data, with the label as text, and what is remembered |
| `HandshakeFormats.CookieTakenExactlyWhen` | nekolink-core/src/noise/handshake.rs:648-681 | a cookie reply is taken if and only if it answers the last message, under its index and over its first MAC, with 16 bytes |
| `HandshakeFormats.TimestampOrder` | nekolink-core/src/noise/handshake.rs:204-228 | timestamps are ordered as their bytes are, the first difference deciding |
| `HandshakeFormats.StampsFollowTheClock` | nekolink-core/src/noise/handshake.rs:186-195 | one stamp is after another if and only if its time is later, to the nanosecond |
| `HandshakeFormats.IndicesDiffer` | nekolink-core/src/noise/handshake.rs:466-471 | 256 indices in a row are different, and any 8 have different slots |
| `HandshakeFormats.InitiationSent` | nekolink-core/src/noise/handshake.rs:710-788 | 148 bytes, the next index, the slots shifted, the first MAC remembered |
| `HandshakeFormats.ResponseSent` | nekolink-core/src/noise/handshake.rs:790-881 | 92 bytes, the next index, the slot free, the first MAC remembered |
| `HandshakeFormats.InitiationReceived` | nekolink-core/src/noise/handshake.rs:545-564 | the accepted timestamp is kept and the slots shift before the answer is made |
| `HandshakeFormats.SmallBuffers` | nekolink-core/src/noise/handshake.rs:710-881 | an initiation needs 148 bytes and a response 92; an initiation received with less is used up all the same |
| `TunnelRuns.StepKeepsInv` | nekolink-core/src/noise/mod.rs:250-541 | every operation keeps the invariant of the tunnel: slots and indices, the ring of sessions, all stored times in the past, the queue bound, and emptiness once expired |
| `TunnelRuns.EveryRunKeepsInv` | nekolink-core/src/noise/mod.rs:250-541 | the invariant, with the history of ages, resends and accepted timestamps, holds in every state of every run |
| `TunnelRuns.ExpiredMeansEmpty` | nekolink-core/src/noise/timers.rs:142-236 | in every reachable state an expired handshake means an expired previous slot, eight empty session slots and an empty queue |
| `TunnelRuns.OnlyThreeThingsLeaveExpired` | nekolink-core/src/noise/mod.rs:250-460 | an expired tunnel stays expired except through an outgoing packet, an explicit initiation or an incoming initiation that it accepts |
| `TunnelRuns.ClockNeverUnderflows` | nekolink-core/src/noise/timers.rs:88-312 | with a monotone clock no stored time is ever later than a later reading, so no duration subtraction can underflow |
| `TunnelRuns.InvIsClockSafe` | nekolink-core/src/noise/timers.rs:152-312 | the invariant implies that every subtraction of the periodic call is defined |
| `TunnelRuns.NoSessionOutlivesItsKeys` | nekolink-core/src/noise/timers.rs:129-166 | after every periodic call each session kept was stored at most 180 s ago, and its slot timer is at or after the time it was stored |
| `TunnelRuns.TickSessions` | nekolink-core/src/noise/timers.rs:152-236 | after a periodic call either the connection has expired and all slots are empty, or a slot holds its session, unchanged but for what it sent, if and only if that is at most 180 s old by its slot timer |
| `TunnelTimers.TickDecides` | nekolink-core/src/noise/timers.rs:168-312 | the whole decision of the periodic call with all times in seconds: giving up, asking again, asking anew, speaking up or nothing, the flags it takes back and the cookie it drops |
| `TunnelTimers.TickWrites` | nekolink-core/src/noise/timers.rs:168-312 | what is then written: an initiation, a keepalive on the current session if it is young enough, or nothing |
| `TunnelTimers.SendingRecords` | nekolink-core/src/noise/mod.rs:250-264 | the timers, flags and bytes of sending on a session |
| `TunnelTimers.QueueingRecords` | nekolink-core/src/noise/mod.rs:266-271 | without a session the packet is queued, unless 256 are, and an initiation written unless one is in progress |
| `TunnelTimers.InitiationRecords` | nekolink-core/src/noise/mod.rs:433-460 | when an initiation is written, that only a new attempt starts the clock, and that all timers start again after an expiry |
| `TunnelTimers.AnsweringRecords` | nekolink-core/src/noise/mod.rs:318-341 | the timers of a responder, and that its current slot stays until the session is used |
| `TunnelTimers.CompletionRecords` | nekolink-core/src/noise/mod.rs:343-369 | the timers of an initiator, and that its new session is the current one |
| `TunnelTimers.CookieRecords` | nekolink-core/src/noise/mod.rs:371-388 | the timers of a cookie reply |
| `TunnelTimers.ReceivingRecords` | nekolink-core/src/noise/mod.rs:406-431 | a received packet makes its session current if and only if the current slot is empty or its slot timer is not newer; timers and bytes, the data timer for IP packets only |
| `TunnelTimers.RefusalRecords` | nekolink-core/src/noise/mod.rs:406-420 | a refused packet changes nothing outside its session |
| `TunnelTimers.NewKeyRecords` | nekolink-core/src/noise/mod.rs:227-243 | after a new static key the parameters are those made from it, and there are no sessions |
| `TunnelTimers.NewTunnelIs` | nekolink-core/src/noise/mod.rs:194-224 | the state of a new tunnel, written out |
| `TunnelRuns.AttemptStep` | nekolink-core/src/noise/timers.rs:215-305 | while an attempt goes on, its start stays and its initiation is replaced only by a resend of the periodic call at least 5 s after it, or by an explicit one |
| `TunnelRuns.AttemptTimeExpires` | nekolink-core/src/noise/timers.rs:215-226 | the first periodic call 90 s or more after the start of an attempt that is still unanswered expires the connection and drops sessions and queue |
| `TunnelRuns.ResendsAreBounded` | nekolink-core/src/noise/timers.rs:215-305 | within one attempt the periodic call resends at most 18 times, at most 17 when each call reads the clock once, always at least 5 s apart; all but the last are sent before the attempt is 90 s old, and an 18th is not |
| `TunnelRuns.TickResends` | nekolink-core/src/noise/timers.rs:215-305 | the periodic call sends a pending initiation again if and only if the connection is less than 540 s and the attempt less than 90 s old on entry, and 5 s have passed since the last sending when it reads the clock again |
| `TunnelRuns.EighteenthResend` | nekolink-core/src/noise/timers.rs:215-305 | after 17 resends an 18th is made if and only if the next call is a periodic one for which that holds, and then the second reading is past the 90 s that the first was not |
| `TunnelRuns.EighteenResends` | nekolink-core/src/noise/timers.rs:215-305 | a run with 18 resends: kept up on time, and a last call entered at 89 s that reads the clock again at 90 s |
| `TunnelRuns.AcceptedTimestampsIncrease` | nekolink-core/src/noise/handshake.rs:543-549 | in every run the timestamps of the accepted initiations strictly increase |
| `TunnelRuns.IndicesFindTheirSlots` | nekolink-core/src/noise/mod.rs:411-422 | in every reachable state no received initiation is left unanswered, two in flight have consecutive low bytes and the same 24 upper bits, and a session is found under an index if and only if slot index mod 8 holds it under that index |
| `TunnelRuns.SlotLookupIsIndexLookup` | nekolink-core/src/noise/mod.rs:411-422 | looking in slot index mod 8 and comparing the index is the same as looking for the index in all slots |
| `TunnelRuns.AnswerKeepsSlots` | nekolink-core/src/noise/handshake.rs:481-564 | an incoming initiation is refused without a trace or answered at once, and the slot invariant is kept |
| `TunnelRuns.ResponseKeepsSlots` | nekolink-core/src/noise/handshake.rs:566-646 | an incoming response frees at most the slot it answers and keeps the slot invariant |
| `TunnelRuns.InitiationKeepsSlots` | nekolink-core/src/noise/handshake.rs:710-788 | a new initiation takes the next index, moves the old one to the previous slot and keeps the slot invariant |
| `TunnelFlush.FlushStep` | nekolink-core/src/noise/mod.rs:510-541 | one turn of the loop writes and removes the front packet if there is a session, and otherwise rotates the queue |
| `TunnelFlush.FlushWithSession` | nekolink-core/src/device/mod.rs:1465-1477 | with a session in the current slot the loop ends one call after the queue is empty, having written exactly the queued packets in order |
| `TunnelFlush.FlushWithoutSession` | nekolink-core/src/noise/mod.rs:510-541 | without one it ends after at most two calls, writes at most one initiation, and only rotates the queue |
| `TunnelFlush.AllPacketsArrive` | nekolink-core/src/noise/session.rs:196-268 | what one end formats in a row the other end, receiving it in order, recovers in full |
| `TunnelFlush.Rotate` | nekolink-core/src/noise/mod.rs:510-541 | putting the front packet back at the end loses and duplicates nothing |
| `TunnelFlush.QueueWithoutSession` | nekolink-core/src/noise/mod.rs:510-536 | without a session the queue loses and gains nothing if and only if a handshake is in progress, the initiation fits, or 256 packets are queued; otherwise the front packet is then there twice |
| `TunnelDelivery.QueuedPacketsArrive` | nekolink-core/src/noise/mod.rs:250-541 | two tunnels from end to end: a packet handed to one without a session starts a handshake, the peer answers, the answer completes it, flushing ends, and of what is then written the peer hands out nothing for the keepalive and exactly the verdicts on the queued packets, in order |
| `TunnelDelivery.RepliesArrive` | nekolink-core/src/noise/mod.rs:250-541 | and back: the keepalive makes the session current at the peer, whatever the peer is then given is written on it, and the initiator hands out exactly the verdicts on that, in order |
| `TunnelDelivery.KeepaliveIsUsed` | nekolink-core/src/noise/mod.rs:390-425 | the first packet on the newest session makes it the current one |
| `TunnelDelivery.Ipv4Header` | nekolink-core/src/noise/mod.rs:464-508 | length and source address of an IPv4 packet written field by field |
| `TunnelDelivery.Ipv6Header` | nekolink-core/src/noise/mod.rs:464-508 | length and source address of an IPv6 packet written field by field |
| `TunnelDelivery.NoIpHeader` | nekolink-core/src/noise/mod.rs:464-508 | nothing else is taken for an IP packet |
| `TunnelDelivery.HandshakeBetween` | nekolink-core/src/noise/mod.rs:304-403 | after the three messages the initiator sends on a session that the peer has in the slot of its index, with nothing seen yet that it will still send |
| `TunnelDelivery.AllDelivered` | nekolink-core/src/noise/mod.rs:406-431 | a tunnel that expects a sender hands out the verdict on each packet formatted by it, in order |
| `TunnelDelivery.DataArrives` | nekolink-core/src/noise/mod.rs:406-431 | one such packet is recovered, and the tunnel expects what is sent after it |
| `TunnelDelivery.IpPacketUnchanged` | nekolink-core/src/noise/mod.rs:464-508 | an IP packet as long as its header says is handed out as it is |
| `TunnelDelivery.Initiates` | nekolink-core/src/noise/mod.rs:250-272 | without a session or a handshake in progress the packet is queued and an initiation is written |
| `TunnelDelivery.Answers` | nekolink-core/src/noise/mod.rs:318-341 | an accepted initiation is answered, and the session stored in the slot of its index |
| `TunnelDelivery.Completes` | nekolink-core/src/noise/mod.rs:343-403 | an accepted response makes its session the current one when there was none, and a keepalive on it is written |
| `TunnelObjects.HandshakeObject.AcceptInitiation` | nekolink-core/src/noise/handshake.rs:481-564 | the checks in their order, the slot moves and the answer are those of the value-level handshake, for every packet; the session returned is a new object in the specified state |
| `TunnelObjects.HandshakeObject.AcceptResponse` | nekolink-core/src/noise/handshake.rs:566-646 | as above, for responses to either slot, with a new session object |
| `TunnelObjects.HandshakeObject.AcceptCookieReply` | nekolink-core/src/noise/handshake.rs:648-681 | as above, for cookie replies: wrong index, failed opening and wrong length are refused |
| `TunnelObjects.HandshakeObject.SendInitiation` | nekolink-core/src/noise/handshake.rs:710-788 | as above, for sending an initiation |
| `TunnelObjects.HandshakeObject.SendResponse` | nekolink-core/src/noise/handshake.rs:790-881 | as above, for answering a received initiation, with a new session object |
| `TunnelObjects.HandshakeObject.AppendMac1AndMac2` | nekolink-core/src/noise/handshake.rs:683-708 | as above, for the two MACs and what is remembered of them |
| `TunnelObjects.HandshakeObject.NextIndex` | nekolink-core/src/noise/handshake.rs:466-471 | the index field steps in its low byte only |
| `TunnelObjects.Tunnel.Encapsulate` | nekolink-core/src/noise/mod.rs:250-272 | sending through the session object in the current slot, which alone changes, or queueing and initiating, has the result and new state of the value-level tunnel |
| `TunnelObjects.Tunnel.HandleVerifiedPacket` | nekolink-core/src/noise/mod.rs:304-316 | as above, for the dispatch on the packet kind |
| `TunnelObjects.Tunnel.HandleHandshakeInit` | nekolink-core/src/noise/mod.rs:318-341 | as above, for storing the new session object an initiation leads to; it shares nothing with the others |
| `TunnelObjects.Tunnel.HandleHandshakeResponse` | nekolink-core/src/noise/mod.rs:343-369 | as above, for storing the session a response leads to and the first keepalive |
| `TunnelObjects.Tunnel.HandleCookie` | nekolink-core/src/noise/mod.rs:371-388 | as above, for cookie replies |
| `TunnelObjects.Tunnel.HandlePacketData` | nekolink-core/src/noise/mod.rs:406-431 | as above, for data packets, received by the session object with its bitmap and lock, up to the checked inner packet |
| `TunnelObjects.Tunnel.ValidateDecapsulatedPacket` | nekolink-core/src/noise/mod.rs:464-508 | as above, for the checks on the inner packet |
| `TunnelObjects.Tunnel.SetCurrentSession` | nekolink-core/src/noise/mod.rs:390-403 | the current slot moves to the younger of the two sessions only |
| `TunnelObjects.Tunnel.FormatHandshakeInitiation` | nekolink-core/src/noise/mod.rs:433-460 | as above, for starting or forcing a handshake |
| `TunnelObjects.Tunnel.SendQueuedPacket` | nekolink-core/src/noise/mod.rs:510-522 | as above, for taking the front packet and putting it back if it could not be sent |
| `TunnelObjects.Tunnel.FlushQueue` | nekolink-core/src/device/mod.rs:1465-1477 | the repeat-while-something-is-written loop comes to its natural end: with a session in the current slot after writing exactly the queued packets, without one after at most one initiation and with the same packets queued |
| `TunnelObjects.Tunnel.UpdateSessions` | nekolink-core/src/noise/timers.rs:152-166 | the loop over the slots drops every session older than the rejection time and resets its slot timer |
| `TunnelObjects.Tunnel.ClearAll` | nekolink-core/src/noise/timers.rs:142-150 | sessions and queue become empty and all timers are set to the present |
| `TunnelObjects.Tunnel.TimerTick` | nekolink-core/src/noise/timers.rs:112-127 | a tick sets the named timer to the current time and the flags it implies |
| `TunnelObjects.Tunnel.UpdateTimers` | nekolink-core/src/noise/timers.rs:168-312 | the periodic call has the result and new state of the value-level tunnel |
| `TunnelObjects.Tunnel.UpdateLive` | nekolink-core/src/noise/timers.rs:194-312 | as above, for a connection that has not expired |
| `TunnelObjects.Tunnel.HandshakeRequired` | nekolink-core/src/noise/timers.rs:237-276 | as above, for the rules that ask for a new handshake |
| `TunnelObjects.Tunnel.KeepaliveRequired` | nekolink-core/src/noise/timers.rs:277-305 | as above, for the rules that ask for a keepalive |
| `TunnelObjects.Tunnel.SetStaticPrivate` | nekolink-core/src/noise/mod.rs:227-243 | as above, for a changed static key, which also drops all sessions |
| `Admissions.AtMostLimitUnproven` | nekolink-core/src/noise/rate_limiter.rs:79-196 | in every interleaving of any number of threads, of the messages whose number was taken between two settings back of the counter at most `limit` are admitted without a valid second MAC |
| `Admissions.AtMostLimitAndInFlight` | nekolink-core/src/noise/rate_limiter.rs:79-196 | counted by when they are admitted, at most `limit` and as many more as threads held a number below the limit when the counter was set back |
| `Admissions.BoundIsAttained` | nekolink-core/src/noise/rate_limiter.rs:79-196 | from every state just after the counter was set back, with an idle thread and messages without an address, some continuation admits exactly that many |
| `Admissions.TwoPassWithLimitOne` | nekolink-core/src/noise/rate_limiter.rs:79-196 | with a limit of one a run admits two messages between two settings back |
| `Admissions.EveryRunKeepsInv` | nekolink-core/src/noise/rate_limiter.rs:79-196 | every interleaving keeps: no two messages have both round and number in common, whatever is admitted has a number below the limit or a valid second MAC, nonces increase, keys stay |
| `Admissions.ThreadAlone` | nekolink-core/src/noise/rate_limiter.rs:154-196 | a thread that takes its number, decides and replies without being interrupted does what `verify_packet` does as a whole |
| `Admissions.NoncesAreFresh` | nekolink-core/src/noise/rate_limiter.rs:106-110 | no two cookie replies use the same nonce counter, in every interleaving |
| `RateLimiters.CookieHolderAdmitted` | nekolink-core/src/noise/rate_limiter.rs:154-196 | a message carrying the cookie of its address for the current period is admitted under any load |
| `RateLimiters.CookieExchangeAdmits` | nekolink-core/src/noise/rate_limiter.rs:116-196 | a sender that is answered with a cookie accepts it, and its next handshake message from the same address in the same period of 128 s is admitted |
| `RateLimiters.MessageParts` | nekolink-core/src/noise/handshake.rs:683-708 | the parts the limiter checks are those the sender appended |
| `RateLimiters.VerdictOnHandshake` | nekolink-core/src/noise/rate_limiter.rs:154-196 | what becomes of a handshake message, from its three parts: first MAC, limit, address, second MAC under the cookie of address and period of 128 s, cookie reply |
| `RateLimiters.VerdictOnOthers` | nekolink-core/src/noise/rate_limiter.rs:154-163 | other datagrams pass if they parse |
| `RateLimiters.CookieInputs` | nekolink-core/src/noise/rate_limiter.rs:90-104 | two cookies are MACs of the same data if and only if the periods of 128 s and the padded addresses are the same |
| `RateLimiters.ResetExactlyWhen` | nekolink-core/src/noise/rate_limiter.rs:79-87 | the count goes back to zero if and only if a second has passed |
| `RateLimiters.NewLimiterGuards` | nekolink-core/src/noise/rate_limiter.rs:57-73 | the limiter of a key checks the MACs made for that key |
| `RateLimiters.RateLimiter.Verify` | nekolink-core/src/noise/rate_limiter.rs:154-196 | the object's verdict, reply and counters are those of the value-level limiter, for every datagram |
| `RateLimiters.RateLimiter.IsUnderLoad` | nekolink-core/src/noise/rate_limiter.rs:112-114 | the load test compares and counts in one step |
| `RateLimiters.RateLimiter.ResetCount` | nekolink-core/src/noise/rate_limiter.rs:79-87 | the count goes back to zero once a period has passed and not before |
| `TcpFrames.CutOfFrame` | nekolink-core/src/device/tcp_framing.rs:44-63 | a frame is cut off again as the payload it was made of, whatever follows it |
| `TcpFrames.FrameOfCut` | nekolink-core/src/device/tcp_framing.rs:44-63 | nothing else is taken for a frame: what is cut off, framed, is what was in the buffer |
| `TcpFrames.FrameHeader` | nekolink-core/src/device/tcp_framing.rs:44-63 | the two bytes before a payload are its length, the highest first |
| `TcpFrames.FramesArePrefixCode` | nekolink-core/src/device/tcp_framing.rs:44-63 | whatever complete frames begin a stream of frames are the first packets of that stream |
| `TcpFrames.DrainConserves` | nekolink-core/src/device/mod.rs:1383-1483 | the packets a pass takes off, framed again, followed by what it leaves, are what was buffered |
| `TcpFrames.DrainStopsWhen` | nekolink-core/src/device/mod.rs:1383-1483 | a pass stops for want of a complete frame, of keys, or after 100 handled packets (refused ones are not counted), and for no other reason |
| `TcpFrames.PassAnswers` | nekolink-core/src/device/mod.rs:1402-1478 | what a pass writes is the answers to the packets it took off, in order, and nothing else |
| `TcpFrames.PassLeavesRoom` | nekolink-core/src/device/mod.rs:1383-1485 | a pass leaves a free byte if and only if there was one, or keys are set and the first payload is at most 65533 bytes |
| `TcpFrames.EveryRunConserves` | nekolink-core/src/device/mod.rs:1348-1490 | for every sequence of reads the packets delivered, framed, and the bytes buffered are the bytes received |
| `TcpFrames.DeliveredInOrder` | nekolink-core/src/device/mod.rs:1348-1490 | for every way the stream is cut, the packets delivered are the first of those sent, in order |
| `TcpFrames.ChunkingDoesNotMatter` | nekolink-core/src/device/mod.rs:1348-1490 | two runs over the same bytes deliver the same packets as far as both got, and the same altogether when neither left a complete frame |
| `TcpFrames.PassTakesAll` | nekolink-core/src/device/mod.rs:1383-1483 | a pass takes every complete frame off if and only if there is none, or keys are set and fewer than 100 packets have been handled when the last one is reached |
| `TcpFrames.EverythingIsDelivered` | nekolink-core/src/device/mod.rs:1348-1490 | once all bytes are in, all packets are delivered if and only if that holds of the last pass |
| `TcpFrames.LastPacketStays` | nekolink-core/src/device/mod.rs:1383-1485 | a run in which 101 packets come in one read and the last stays in the buffer, complete |
| `TcpFrames.FullBufferCloses` | nekolink-core/src/device/mod.rs:1354-1366 | a run in which a bufferful is read before keys are set and the next read closes the connection |
| `TcpFrames.LiveRunStaysOpen` | nekolink-core/src/device/mod.rs:1358-1485 | with keys set and payloads of at most 65533 bytes no read is ever offered an empty slice, so the connection is never taken for closed |
| `TcpFrames.TcpFraming.PeekPacket` | nekolink-core/src/device/tcp_framing.rs:44-63 | the packet found at an offset is the complete frame there, if there is one |
| `TcpFrames.TcpFraming.Compact` | nekolink-core/src/device/tcp_framing.rs:68-75 | shifting in place leaves the unprocessed bytes without the consumed ones |
| `TcpFrames.TcpFraming.Fill` | nekolink-core/src/device/tcp_framing.rs:30-37 | bytes read into the free slice come after those already there |
| `TcpFrames.TcpFraming.GetFreeSpace` | nekolink-core/src/device/tcp_framing.rs:30-32 | the free slice begins where the unprocessed bytes end and goes to the end of the buffer |
| `TcpFrames.StreamHandler.Pass` | nekolink-core/src/device/mod.rs:1383-1483 | the packet loop on the buffer is the pass the theorems speak of |
| `TcpFrames.StreamHandler.Process` | nekolink-core/src/device/mod.rs:1402-1478 | what is written for one packet is its cookie reply on the socket or its answers on the stream, each behind its length |
| `TcpFrames.StreamHandler.OnReadable` | nekolink-core/src/device/mod.rs:1348-1490 | one call of the handler is one event of the runs, what it has written is a stream of frames, a read that would block changes nothing and any other error gives the connection up |
| `DevLock.StepKeepsInv` | nekolink-core/src/device/dev_lock.rs:28-99 | every step of every thread keeps: who holds the mutex, the read locks and the write lock, who owns the flag, who sleeps, and the rounds of the log |
| `DevLock.OneOwner` | nekolink-core/src/device/dev_lock.rs:66-97 | at any time at most one thread owns `wants_write`, which is set exactly while somebody does |
| `DevLock.MutationIsExclusive` | nekolink-core/src/device/dev_lock.rs:80-90 | while `mut_func` runs no other thread writes, reads or holds the read lock |
| `DevLock.SleepersHoldNothing` | nekolink-core/src/device/dev_lock.rs:31-39 | a thread asleep on the condition variable holds no lock, and some other thread owns the flag, so it will be woken |
| `DevLock.WritesFollowTheirOwnMark` | nekolink-core/src/device/dev_lock.rs:66-97 | in every run each write directly follows its own thread's mark and is followed by its own clearing: nothing is written between a thread's `prep_func` and its `mut_func` |
| `DevLock.NoDeadlock` | nekolink-core/src/device/dev_lock.rs:28-99 | if a thread is inside an operation then one such thread can go on, unless a writer waits for guards still in use |
| `Devices.BranchFreeSelection` | nekolink-core/src/device/mod.rs:1609-1609 | the low bit subtracted from zero as a 32-bit word, masked with the polynomial, is the polynomial or nothing; the register step is defined by that masking |
| `Devices.ShiftInRange` | nekolink-core/src/device/mod.rs:1604-1612 | the register step stays a non-zero 24-bit number |
| `Devices.ShiftIsInjective` | nekolink-core/src/device/mod.rs:1604-1612 | the register step is injective on them |
| `Devices.IndicesAreDistinct` | nekolink-core/src/device/mod.rs:1604-1612 | all indices returned before the assertion fires are distinct 24-bit numbers |
| `Devices.OneIndexIsMissing` | nekolink-core/src/device/mod.rs:1604-1612 | one 24-bit index is never returned |
| `Devices.TwoDraws` | nekolink-core/src/device/mod.rs:1604-1612 | two draws, in numbers |
| `Devices.DrawsRunOut` | nekolink-core/src/device/mod.rs:1604-1612 | fewer than 2^24 indices are returned before the assertion fires |
| `Devices.IndexLfsr.Next` | nekolink-core/src/device/mod.rs:1604-1612 | the object's draw is the step and index the theorems speak of, or the assertion |
| `Devices.FreshIndexIsUnused` | nekolink-core/src/device/mod.rs:364-393 | a fresh index is nobody's, so no entry of the index table is overwritten |
| `Devices.EveryRunKeepsTables` | nekolink-core/src/device/mod.rs:326-401 | after any sequence of adding, removing and clearing the three tables agree: everything found by index or network is found by key |
| `Devices.IndexLookup` | nekolink-core/src/device/mod.rs:326-401 | the index table maps i to p if and only if p is the live peer with index i |
| `Devices.LiveIndicesAreUnique` | nekolink-core/src/device/mod.rs:326-401 | no two live peers have the same index |
| `Devices.RouteIsLastOwner` | nekolink-core/src/device/mod.rs:326-399 | a network is routed if and only if the peer last added with it is still there, and then to that peer |
| `Devices.RemovalKeepsOtherRoutes` | nekolink-core/src/device/mod.rs:326-339 | removing a peer keeps a route if and only if it went to another one |
| `Devices.RemovalUnroutes` | nekolink-core/src/device/mod.rs:326-399 | after any run, a new peer that takes a network over and is removed leaves it without a route, while the peer that had it is still there and lists it |
| `Devices.NetworkIsLost` | nekolink-core/src/device/mod.rs:326-399 | a run in which that happens: add, take over, remove |
| `Devices.PacketsGoToLivePeers` | nekolink-core/src/device/allowed_ips.rs:51-53 | a destination is sent only to a live peer configured with an address that agrees with it in the first `cidr` bits |
| `Devices.CoveredIsRouted` | nekolink-core/src/device/allowed_ips.rs:51-53 | a destination covered by an address that its peer still owns is routed |
| `Devices.NoPeersWithoutKey` | nekolink-core/src/device/mod.rs:364-372 | without a private key there are no peers |
| `Devices.KnownKeyStays` | nekolink-core/src/device/mod.rs:342-362 | a configured key stays as it is, a removed one is gone |
| `Devices.Find` | nekolink-core/src/device/allowed_ips.rs:51-53 | the lookup finds the longest stored prefix of the address, and nothing only if none is stored |
| `Devices.InsertedAll` | nekolink-core/src/device/mod.rs:395-398 | after the insertion loop the peer's networks lead to it and all others are as before |
| `Devices.DeviceObject.UpdatePeer` | nekolink-core/src/device/mod.rs:342-401 | adding on the object is the operation of the runs: an existing key is left alone, an index is used up even without a private key, a panic is reported |
| `Devices.DeviceObject.RemovePeer` | nekolink-core/src/device/mod.rs:326-339 | removing purges the peer from all three tables |
| `Devices.DeviceObject.ClearPeers` | nekolink-core/src/device/mod.rs:606-610 | clearing empties all three tables |
| `Netlink.FinishesExactlyWhen` | wireguard-android/tunnel/tools/wireguard-tools/src/ipc-linux.h:142-276 | the exchange ends if and only if each peer's head, and each allowed IP behind the key of its peer, fits a message of its own |
| `Netlink.PageIsEnough` | wireguard-android/tunnel/tools/wireguard-tools/src/ipc-linux.h:142-276 | a buffer of 4096 bytes is always enough for it to end |
| `Netlink.EachMessageAdvances` | wireguard-android/tunnel/tools/wireguard-tools/src/ipc-linux.h:142-276 | each message gets past a peer, past the head of one, or past an allowed IP |
| `Netlink.ConfigurationArrives` | wireguard-android/tunnel/tools/wireguard-tools/src/ipc-linux.h:155-271 | when it ends, the pieces sent make up exactly the peers: every attribute and allowed IP once, in order, a later piece having only key, removing flag and allowed IPs |
| `NetlinkReceiver.SplittingIsUnseen` | wireguard-android/tunnel/tools/wireguard-tools/src/uapi/linux/linux/wireguard.h:120-128 | for a receiver as documented, in any state, all messages together do what one message with the whole configuration would |
| `NetlinkReceiver.PieceCompletes` | wireguard-android/tunnel/tools/wireguard-tools/src/uapi/linux/linux/wireguard.h:120-128 | a peer with some of its allowed IPs and then the piece with the rest is the whole peer |
| `NetlinkReceiver.EveryIpIsRouted` | wireguard-android/tunnel/tools/wireguard-tools/src/ipc-linux.h:142-276 | every allowed IP of a peer is routed to it in the end, however they were split |
| `Netlink.NothingMoreFits` | wireguard-android/tunnel/tools/wireguard-tools/src/ipc-linux.h:155-262 | a message is as full as it can be: what comes next does not fit behind it |
| `Netlink.HeadSizeIs` | wireguard-android/tunnel/tools/wireguard-tools/src/ipc-linux.h:177-211 | the bytes of a peer without its allowed IPs |
| `Netlink.DeviceSizes` | wireguard-android/tunnel/tools/wireguard-tools/src/ipc-linux.h:155-172 | the bytes of the headers, the name and the device attributes |
| `Netlink.IpSizes` | wireguard-android/tunnel/tools/wireguard-tools/src/ipc-linux.h:216-236 | the bytes of an allowed IP |
| `Netlink.DeviceAttributesOnce` | wireguard-android/tunnel/tools/wireguard-tools/src/ipc-linux.h:155-172 | the device attributes and its replace flag are in the first message and no other, and no message outgrows the buffer |
| `Netlink.PutRebuilds` | wireguard-android/tunnel/tools/wireguard-tools/src/ipc-linux.h:177-245 | what one peer adds to the pieces sent is its first piece or a later piece that is not empty |
| `Netlink.PutFits` | wireguard-android/tunnel/tools/wireguard-tools/src/ipc-linux.h:177-245 | whatever has gone into some message fits one of its own |
| `Netlink.PutAttrs` | wireguard-android/tunnel/tools/wireguard-tools/src/netlink.h:345-378 | a run of checked puts succeeds if and only if all of them fit together |
| `Netlink.PutIps` | wireguard-android/tunnel/tools/wireguard-tools/src/ipc-linux.h:216-236 | the loop over the allowed IPs takes as many as fit and cancels the one that does not |
| `Netlink.PutOnePeer` | wireguard-android/tunnel/tools/wireguard-tools/src/ipc-linux.h:177-258 | one turn of the peer loop, with its three ways out, is what the theorems speak of |
| `Netlink.PrepareMessage` | wireguard-android/tunnel/tools/wireguard-tools/src/ipc-linux.h:155-262 | one message and the two cursors after it are what the theorems speak of |
| `Netlink.SetDevice` | wireguard-android/tunnel/tools/wireguard-tools/src/ipc-linux.h:142-276 | the resuming loop terminates for every device that fits and sends pieces that make up its peers |
| `Netlink.CoalesceUndoesSplitting` | wireguard-android/tunnel/tools/wireguard-tools/src/ipc-linux.h:456-476 | coalescing the pieces of all messages gives back the peers if and only if no two neighbours have the same key, and then no missing pointer is followed |
| `Netlink.CoalescedKeysDiffer` | wireguard-android/tunnel/tools/wireguard-tools/src/ipc-linux.h:456-476 | neighbours in a coalesced list have different keys |
| `Netlink.NodesAreCoalesced` | wireguard-android/tunnel/tools/wireguard-tools/src/ipc-linux.h:456-476 | a missing last pointer is followed if and only if a list of allowed IPs was extended by an empty one and is extended again |
| `Netlink.EmptyPieceBetween` | wireguard-android/tunnel/tools/wireguard-tools/src/ipc-linux.h:456-476 | three pieces of one peer, the second without allowed IPs, make it follow a missing pointer |
| `Netlink.CoalescePeers` | wireguard-android/tunnel/tools/wireguard-tools/src/ipc-linux.h:456-476 | the splicing loop ends, follows no missing pointer exactly under that condition, and then leaves the coalesced list |
| `Netlink.SplittingIsSafe` | wireguard-android/tunnel/tools/wireguard-tools/src/ipc-linux.h:142-276 | pieces of one exchange never extend a list by an empty one when neighbouring keys differ |
| `Field.ProductOfPowers` | wireguard-android/tunnel/tools/wireguard-tools/src/curve25519-hacl64.h:294-336 | the product of two powers of an element is the power with the sum of the exponents |
| `Field.PowersAgree` | wireguard-android/tunnel/tools/wireguard-tools/src/curve25519-hacl64.h:294-336 | two numbers that are the same power of the same element, in whatever limbs, are the same element: so both inversions agree |
| `Field.ProductsAgree` | wireguard-android/tunnel/tools/wireguard-tools/contrib/embeddable-wg-library/wireguard.c:1641-1657 | two numbers that are the product of the same two elements, in whatever limbs, are the same element: so both multiplications agree |
| `Field51.ProductIsProduct` | wireguard-android/tunnel/tools/wireguard-tools/src/curve25519-hacl64.h:153-181 | the five product limbs, with the wrapped ones times 19, stand for the product modulo 2^255 - 19 |
| `Field51.ProductBounds` | wireguard-android/tunnel/tools/wireguard-tools/src/curve25519-hacl64.h:153-181 | the bounds of those limbs, and the smaller one of the top limb, from those of the factors |
| `Field51.SquareIsProduct` | wireguard-android/tunnel/tools/wireguard-tools/src/curve25519-hacl64.h:214-241 | the shortened products of the squaring are those of the multiplication |
| `Field51.MulShiftReduce` | wireguard-android/tunnel/tools/wireguard-tools/src/curve25519-hacl64.h:124-181 | five rounds of scalar multiplication and shifting, without overflow, leave the product limbs |
| `Field51.CarryWide` | wireguard-android/tunnel/tools/wireguard-tools/src/curve25519-hacl64.h:83-122 | the wide carry keeps the number and leaves four limbs of 51 bits |
| `Field51.Finish` | wireguard-android/tunnel/tools/wireguard-tools/src/curve25519-hacl64.h:198-211 | the last carries keep the element and leave reduced limbs |
| `Field51.Fmul` | wireguard-android/tunnel/tools/wireguard-tools/src/curve25519-hacl64.h:183-212 | for limb bounds whose product is at most 2^108 (such as 2^53 and 2^55) nothing overflows and the result is the product modulo 2^255 - 19 in reduced limbs, also when the output is a factor |
| `Field51.FsquareOnce` | wireguard-android/tunnel/tools/wireguard-tools/src/curve25519-hacl64.h:243-268 | for limbs below 2^54 nothing overflows and the result is the square in reduced limbs |
| `Field51.SquareTimes` | wireguard-android/tunnel/tools/wireguard-tools/src/curve25519-hacl64.h:270-292 | count squarings give the power 2^count |
| `Field51.Crecip` | wireguard-android/tunnel/tools/wireguard-tools/src/curve25519-hacl64.h:294-336 | the addition chain computes the power 2^255 - 21, in reduced limbs |
| `Field51.Fsum` | wireguard-android/tunnel/tools/wireguard-tools/src/curve25519-hacl64.h:338-345 | limb sums stand for the sum |
| `Field51.Fdifference` | wireguard-android/tunnel/tools/wireguard-tools/src/curve25519-hacl64.h:347-391 | adding eight times the modulus keeps every limb from underflowing and the element is the difference; the result is below 2^55 |
| `Field51.Fscalar` | wireguard-android/tunnel/tools/wireguard-tools/src/curve25519-hacl64.h:393-428 | multiplication by a small scalar |
| `Field16.CarryValue` | wireguard-android/tunnel/tools/wireguard-tools/contrib/embeddable-wg-library/wireguard.c:1569-1577 | one carry keeps the number, and at the top changes it by twice the modulus for each unit carried |
| `Field16.Carry` | wireguard-android/tunnel/tools/wireguard-tools/contrib/embeddable-wg-library/wireguard.c:1569-1577 | one pass, without overflow for the stated ranges, keeps the element and leaves digits above the bottom limb |
| `Field16.Convolve` | wireguard-android/tunnel/tools/wireguard-tools/contrib/embeddable-wg-library/wireguard.c:1641-1649 | the double loop leaves limbs that stand for the product, without overflow |
| `Field16.Reduce` | wireguard-android/tunnel/tools/wireguard-tools/contrib/embeddable-wg-library/wireguard.c:1650-1652 | bringing the upper limbs down times 38 keeps the element |
| `Field16.Multmod` | wireguard-android/tunnel/tools/wireguard-tools/contrib/embeddable-wg-library/wireguard.c:1641-1657 | for limbs up to 2^26 in size nothing overflows and the result is the product modulo 2^255 - 19 in digits, but for the bottom limb, which is off by at most 38 |
| `Field16.Invert` | wireguard-android/tunnel/tools/wireguard-tools/contrib/embeddable-wg-library/wireguard.c:1659-1673 | the loop computes the power 2^255 - 21 |
| `Field16.ThirdPassLeavesDigits` | wireguard-android/tunnel/tools/wireguard-tools/contrib/embeddable-wg-library/wireguard.c:1600-1603 | a third carry pass leaves digits only |
| `Field16.SubtractP` | wireguard-android/tunnel/tools/wireguard-tools/contrib/embeddable-wg-library/wireguard.c:1604-1611 | the borrow chain subtracts the modulus, and its last borrow says that the number was smaller |
| `Field51Bytes.Fexpand` | wireguard-android/tunnel/tools/wireguard-tools/src/curve25519-hacl64.h:599-621 | the limbs stand for the number that the 32 bytes are, without its top bit, in digits |
| `Field51Bytes.EqMaskTells` | wireguard-android/tunnel/tools/wireguard-tools/src/curve25519-hacl64.h:15-23 | the mask is all ones for equal words and zero for others |
| `Field51Bytes.GteMaskTells` | wireguard-android/tunnel/tools/wireguard-tools/src/curve25519-hacl64.h:25-37 | the mask is all ones exactly when the first word is at least the second, for any two words |
| `Field51Bytes.CarryTwice` | wireguard-android/tunnel/tools/wireguard-tools/src/curve25519-hacl64.h:623-687 | for limbs below 2^63 two carry passes keep the element and leave five digits |
| `Field51Bytes.Trim` | wireguard-android/tunnel/tools/wireguard-tools/src/curve25519-hacl64.h:689-712 | the masked subtraction leaves the remainder modulo 2^255 - 19 |
| `Field51Bytes.ContractStore` | wireguard-android/tunnel/tools/wireguard-tools/src/curve25519-hacl64.h:714-733 | the 32 bytes stored are the number that the five digits are |
| `Field51Bytes.Fcontract` | wireguard-android/tunnel/tools/wireguard-tools/src/curve25519-hacl64.h:735-741 | for limbs below 2^63 the bytes written are the remainder modulo 2^255 - 19, lowest byte first |
| `Field51Bytes.ScalarOfPoint` | wireguard-android/tunnel/tools/wireguard-tools/src/curve25519-hacl64.h:743-752 | the bytes written are those of one coordinate times the power 2^255 - 21 of the other |
| `Field51Bytes.FormsAgree` | wireguard-android/tunnel/tools/wireguard-tools/src/curve25519-hacl64.h:735-741 | for the same element the contraction of five limbs and the packing of sixteen write the same bytes |
| `Field51Bytes.ExpandContract` | wireguard-android/tunnel/tools/wireguard-tools/src/curve25519-hacl64.h:599-741 | bytes expanded and contracted come back if and only if their number is below 2^255 - 19 |
| `Field16.Pack` | wireguard-android/tunnel/tools/wireguard-tools/contrib/embeddable-wg-library/wireguard.c:1595-1622 | the bytes written are the remainder modulo 2^255 - 19, lowest byte first, the subtraction being selected by the masked exchange |
| `Field16.Exchange` | wireguard-android/tunnel/tools/wireguard-tools/contrib/embeddable-wg-library/wireguard.c:1579-1588 | masking the difference exchanges two words in two's complement for 1 and keeps them for 0 |
| `Field16.CSwap` | wireguard-android/tunnel/tools/wireguard-tools/contrib/embeddable-wg-library/wireguard.c:1579-1592 | the loop exchanges the two arrays for 1 and keeps them for 0 |
| `ElfCleaner.CleanDynamicSection` | wireguard-android/tunnel/tools/elf-cleaner/elf-cleaner.cpp:133-188 | the loop terminates; the entries are the original ones as a multiset, each retagged or masked as its tag demands; no removable tag remains; null entries stay at the end if they were; and which entry comes to which place is that of a recursive definition on the input |
| `ElfCleaner.LastNonNull` | wireguard-android/tunnel/tools/elf-cleaner/elf-cleaner.cpp:137-144 | the second index starts at the last entry that is not null, or at 0 |
| `ElfCleaner.RemoveStep` | wireguard-android/tunnel/tools/elf-cleaner/elf-cleaner.cpp:162-170 | exchanging a removed entry with the last one keeps the invariant, also when an index steps below zero |
| `ElfCleaner.KeepStep` | wireguard-android/tunnel/tools/elf-cleaner/elf-cleaner.cpp:171-186 | masking a kept entry keeps the invariant |
| `ElfCleaner.RemovedTags` | wireguard-android/tunnel/tools/elf-cleaner/elf-cleaner.cpp:149-161 | which entries go, by the numbers of their tags and the api level |
| `ElfCleaner.CleanedEntry` | wireguard-android/tunnel/tools/elf-cleaner/elf-cleaner.cpp:162-186 | what becomes of one entry |
| `ElfCleaner.CleaningIsFinal` | wireguard-android/tunnel/tools/elf-cleaner/elf-cleaner.cpp:145-188 | cleaning a cleaned section changes nothing |
| `ElfCleaner.KeptOnce` | wireguard-android/tunnel/tools/elf-cleaner/elf-cleaner.cpp:145-188 | the entries placed in front are those that stay, up to the last that is not null, each once |
| `ElfCleaner.LoaderSeesTheRest` | wireguard-android/tunnel/tools/elf-cleaner/elf-cleaner.cpp:145-188 | a loader that stops at the first null entry sees exactly the kept ones of the entries it saw before if and only if none of these was to go, or nothing stood behind the first null entry, or those to go were the last visible ones and the last entry that stays is null |
| `ElfCleaner.EntriesAreLost` | wireguard-android/tunnel/tools/elf-cleaner/elf-cleaner.cpp:145-188 | a section in which a needed entry is no longer seen, and one in which a hidden entry is seen |
| `Encoding.EncodeCharIsTable` | wireguard-android/tunnel/tools/wireguard-tools/src/encoding.c:16-20 | the branch-free formula is the base64 alphabet |
| `Encoding.DecodeCharIsTable` | wireguard-android/tunnel/tools/wireguard-tools/src/encoding.c:39-46 | the branch-free sum is the inverse table, and all ones for any other character, whether `char` is signed or not |
| `Encoding.DecodeOfBlock` | wireguard-android/tunnel/tools/wireguard-tools/src/encoding.c:11-48 | four characters written for three bytes are decoded to these |
| `Encoding.BlockOfDecode` | wireguard-android/tunnel/tools/wireguard-tools/src/encoding.c:11-48 | four characters that decode without a sign are what the decoded bytes are written as |
| `Encoding.Base64IsInjective` | wireguard-android/tunnel/tools/wireguard-tools/src/encoding.c:24-33 | different keys have different texts |
| `Encoding.KeyToBase64` | wireguard-android/tunnel/tools/wireguard-tools/src/encoding.c:24-33 | the text written is that of the key, with padding and terminator |
| `Encoding.KeyFromBase64` | wireguard-android/tunnel/tools/wireguard-tools/src/encoding.c:50-72 | a string is accepted if and only if some key is written as it, and then that key is delivered |
| `Encoding.HexFormulas` | wireguard-android/tunnel/tools/wireguard-tools/src/encoding.c:93-111 | the masks accept exactly the hexadecimal digits in either case, and select their value |
| `Encoding.HexIsLowerCase` | wireguard-android/tunnel/tools/wireguard-tools/src/encoding.c:74-83 | the text of a key is hexadecimal and in lower case |
| `Encoding.HexIsInjective` | wireguard-android/tunnel/tools/wireguard-tools/src/encoding.c:74-83 | different keys have different texts |
| `Encoding.KeyToHex` | wireguard-android/tunnel/tools/wireguard-tools/src/encoding.c:74-83 | the text written is that of the key, with terminator |
| `Encoding.KeyFromHex` | wireguard-android/tunnel/tools/wireguard-tools/src/encoding.c:85-114 | a string is accepted if and only if it is 64 hexadecimal digits, and the key delivered is written as the same digits in lower case |
| `Encoding.KeyIsZero` | wireguard-android/tunnel/tools/wireguard-tools/src/encoding.c:116-126 | the accumulated test says whether all bytes are zero |

## Left out

- The primitives themselves (BLAKE2s, ChaCha20-Poly1305, XChaCha20-Poly1305, X25519 in Rust): library code, uninterpreted; nothing is said about secrecy or about the curve group.
- Counters of 2^64 - 1024 and above: `mark_did_receive` adds 1024 without a check, and the model requires that this fits. The byte counters and the count of the rate limiter are unbounded in the model.
- Output buffers shorter than 148 bytes or than the payload and 32 bytes: the documented demand on callers, partly checked by a panic in the source.
- Key confirmation: `current` may name a slot whose session has a different index than the one last used, so nothing is claimed about which of two sessions is in use.
- TunnelObjects.Tunnel.HandlePacketData: one thread at a time; that the validator of a session is behind a lock of its own is modelled by the interleavings of `ReceiveAccounting`.
- TunnelObjects.Tunnel.EstimateLoss: over the reals, where the source uses 32-bit floats.
- Admissions.AtMostLimitUnproven: the bound is per interval between two settings back of the count, not per second.
- TcpFrames.StreamHandler.OnReadable: framed writes are taken to complete; a partial non-blocking write is not modelled. The test for payloads above 65535 bytes cannot fire and is not there.
- TcpFrames.StreamHandler.Process: the verdict of the rate limiter and the answers of the tunnel are a parameter; they are the subject of `RateLimiters` and `TunnelObjects`.
- DevLock.NoDeadlock: wake-ups are by `notify_all` only, and a thread does not take a second guard while it holds one.
- Devices.DeviceObject.UpdatePeer: a peer object is identified by its index, which is proved unique, instead of by its address; endpoints and the fan-out of a changed key to the tunnels are not modelled.
- Devices.DeviceObject.RemovePeer: shutting down the endpoint of the peer is not modelled, and the peer is identified by its index.
- Devices.Find: the trie of the network table is library code; the model looks for prefixes of the address in a finite map.
- Netlink.SetDevice: messages are structures with computed lengths, not bytes; replies and errors of the kernel are not modelled, and `mnl_attr_put` into the first message is taken to have room.
- Netlink.PrepareMessage: a message is a structure with a computed length, not bytes.
- Netlink.CoalescePeers: the linked list is a sequence of nodes, with one flag for a missing last pointer; freeing is not modelled.
- Field51.Crecip: the four scratch elements are four arrays and not parts of one. The Montgomery ladder between expansion and contraction is not modelled.
- Field51Bytes.ScalarOfPoint: says the coordinate as a power; that this power is the inverse of a non-zero element, which needs that 2^255 - 19 is prime, is not proved.
- ElfCleaner.CleanDynamicSection: not in a dry run, where the exchange happens without the retagging, and not for a section without entries, where the first index starts below zero.
- Sockets, event queues, TUN devices, batching, GRO, raw IP headers, UAPI and configuration text, command line tools, Android and FFI layers, Windows and BSD backends: input and output, or easy members.
