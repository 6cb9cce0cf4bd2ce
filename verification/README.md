# amp: verified model of the reliable-delivery stack

A Dafny model of the protocol logic of amp (C++): the parts that decide what is sent, resent,
acknowledged, released, sealed and reassembled, with the clock as a parameter and no I/O. Each core class
is a Dafny class whose methods update the same fields with the same loops, proved against a function on
the class's whole state; the protocol properties are then proved of those functions, over every run. What
single steps do is also said branch by branch, in numbers and bytes (`LaneResends`, `AdpResends`, `AdpArrivals`,
`MuxOpening`, `MuxFragments`, `HandshakeEnds`, `ReassemblyCases`, `LinkTableUse`, `MultiaddrForms`, `WireFormat`).

`dafny verify dfyconfig.toml` checks the whole project.

| layer | files |
|---|---|
| words, bytes, bits | `Words.dfy`, `Chunks.dfy` |
| carrier lane: selective-repeat ARQ of nested links | `LaneCodec.dfy`, `Lane.dfy`, `LaneProtocol.dfy`, `LaneSafety.dfy`, `LaneProgress.dfy`, `LaneWrap.dfy`, `LaneResends.dfy` |
| ADP association: reliable mode, replay window, keys, timers | `Replay.dfy`, `Adp.dfy`, `Association.dfy`, `AdpProtocol.dfy`, `AdpSafety.dfy`, `AdpFreshness.dfy`, `AdpProgress.dfy`, `AdpResends.dfy`, `AdpArrivals.dfy`, `RttLearning.dfy` |
| session: nonces, epochs, rekey, handshake | `Session.dfy`, `Nonces.dfy`, `Rekey.dfy`, `Symbols.dfy`, `Handshake.dfy`, `HandshakeAgreement.dfy`, `HandshakeRun.dfy`, `HandshakeRepeats.dfy`, `HandshakeEnds.dfy` |
| channels: frames, send queue, mux, reassembly | `ChannelWire.dfy`, `SendQueue.dfy`, `Reassembly.dfy`, `ReassemblyLaws.dfy`, `ReassemblyCases.dfy`, `Mux.dfy`, `MuxOpening.dfy`, `MuxFragments.dfy`, `MuxProtocol.dfy`, `MuxTransparency.dfy`, `MuxDelivery.dfy`, `MuxStranding.dfy`, `MuxLimits.dfy`, `MshChunks.dfy`, `Capability.dfy`, `WireFormat.dfy` |
| composition, links, addresses | `Budgets.dfy`, `Credit.dfy`, `LinkTable.dfy`, `LinkTableUse.dfy`, `Multiaddr.dfy`, `MultiaddrForms.dfy` |

How the models work:

- The network towards an end is everything its peer ever sent; a step may hand it any element, any number of
  times, or never. Loss, duplication and reordering are all covered by that. The mux runs over a transport that
  keeps order, as the layers below it provide.
- Ghost histories (`sent`, `delivered`, `calls`, `claims`) say what happened; the theorems relate them.
- Cryptography is ideal: a datagram verifies under the key it was made with and no other, hash and MAC are
  injective, a KEM secret is known to outsiders only if it was made for a key that is not an honest end's, or
  by an outsider. In the handshake, texts are sequences of symbolic bytes, so that concatenation is real.
- C++ arithmetic is written out: 32- and 64-bit wrap-around, division that truncates toward zero, 16-bit
  fragment counts, `static_cast<int32_t>`.

Where the code does less than its documentation says, the model follows the code and the condition is exact:

- a lane has no wrap check: from the 2^32nd frame on it may be idle with frames undelivered, and exactly from there
  (`IdleMeansDeliveredExactly`, `WrappedFrameForgotten`);
- SendData's check before fragmenting ignores fragment headers, so a full queue can still cut a message short, with
  or without credit (`CutShortExactlyWhen`, `CutShortHappens`);
- an opener is not told that the peer grants its channel less than its own limit, nor how many cut-short messages the
  peer still holds: SendData accepts a fragmented message all the same, and its first fragment ends the channel at the
  peer, exactly when it is above the grant or one partial too many (`RefusedExactlyWhen`). There are runs to either
  (`AboveTheGrant`, `SixtyFifthMessage`). A payload that rides one DATA frame is never checked
  (src/L3/ChannelMux.cpp:422-433);
- the answer to a rekey request helps only if sealed before the answerer moves. On a direct link it is sealed anew
  at every resend, so once its first transmission is lost, or if the mux had no credit or no room for it then, the
  ends stay one epoch apart (`LostAnswerSplitsForGood`, `SplitIsReachable`). (A lane resends the first ciphertext.)
- two rekey requests that cross are both answered and applied, and then neither answer is for its reader's next epoch:
  both ends wait for good, and since an end asks only when it is not waiting, the link is never rekeyed again
  (`CrossedStayPending`, `CrossingHappens`);
- a round trip at or above min(256 * rtx_interval, max(kMaxRtoMs, rtx_interval)) may never be learnt
  (`SlowerPathNeverLearns`);
- a strict replay window of size 0 calls the next number too far and then accepts it (`ClassifyForetellsAccept`);
- SetPresence checks nothing, and told wrongly leaves an index entry behind its link (`UntruthDangles`).

## Model

| member | source | states |
|---|---|---|
| LaneSafety.DeliversInOrder | src/link/CarrierLane.cpp:16-106 | Two lanes, any loss, duplication and reordering: what OnData released is a prefix of what Wrap took, in order, once each (fewer than 2^32 frames) |
| LaneSafety.HoldsRightBytes | src/link/CarrierLane.cpp:82-93 | Every held frame is the sender's own, byte for byte, and its number is past the next one and within the window |
| LaneSafety.NothingForgotten | src/link/CarrierLane.cpp:33-62 | Every wrapped frame is in flight or its peer holds or delivered it |
| LaneSafety.IdleMeansDelivered | src/link/CarrierLane.cpp:16-62 | Nothing in flight means the peer has released everything |
| LaneSafety.AcksAreSound | src/link/CarrierLane.cpp:95-106 | An ack on the network never settles a frame its sender does not have |
| LaneSafety.TransmissionsBounded | src/link/CarrierLane.cpp:64-80 | No frame goes out more than max(1, max_attempts) times |
| LaneWrap.IdleMeansDeliveredExactly | src/link/CarrierLane.cpp:16-62 | Of n frames: in every run an idle lane has delivered them all, if and only if n < 2^32 |
| LaneWrap.IdleButUndelivered | src/link/CarrierLane.cpp:16-62 | For every n from 2^32 - 1 on, a run of n frames that ends idle with 2^32 - 1 of them delivered |
| LaneWrap.WrappedFrameForgotten | src/link/CarrierLane.cpp:16-27 | A run of 2^32 - 1 frames, all delivered, after which the next is numbered 0: every receiver refuses it and any ack settles it |
| LaneSafety.SmoothedBetweenSamples | src/link/CarrierLane.cpp:108-120 | SRTT stays between the least and greatest sample, RTTVAR is not negative, the timeout stays in its bounds |
| LaneSafety.BackoffMonotone | src/link/CarrierLane.cpp:122-128 | Waits never shrink with attempts and never pass max_rto_ms |
| LaneSafety.RunKeepsInv | src/link/CarrierLane.cpp:16-106 | The two-lane invariant holds in every reachable state |
| LaneProgress.NeverWedged | src/link/CarrierLane.cpp:33-106 | From every reachable state deliveries alone bring the lane to rest: everything delivered, nothing in flight |
| Lane.AckForMeans | src/link/CarrierLane.cpp:95-106 | Selective bit i is set exactly when cumulative + 2 + i is held, for i < 64 |
| Lane.AckedMeans | src/link/CarrierLane.cpp:33-62 | The 32-bit test of OnAck is the mathematical one for every ack and number |
| Lane.CarrierLane.Wrap | src/link/CarrierLane.cpp:16-27 | New state and wire are those of the specification; a full window changes nothing |
| Lane.CarrierLane.OnAck | src/link/CarrierLane.cpp:33-62 | The erase-while-walking loop leaves exactly the unsettled frames, samples by Karn's rule, and marks passed-by frames for fast resend |
| Lane.CarrierLane.DueResends | src/link/CarrierLane.cpp:64-80 | Each due frame once, in order; one out of attempts fails the lane |
| Lane.CarrierLane.OnData | src/link/CarrierLane.cpp:82-93 | Takes a frame in the window once, releases in order, answers the current ack |
| Lane.CarrierLane.ReleaseHeld | src/link/CarrierLane.cpp:82-93 | The release loop, from the hold's least key |
| Lane.CarrierLane.CurrentAck | src/link/CarrierLane.cpp:95-106 | The bit loop over the hold's keys gives the specified word |
| Lane.CarrierLane.SampleRtt | src/link/CarrierLane.cpp:108-120 | RFC 6298 section 2 update |
| Lane.CarrierLane.BackoffRto | src/link/CarrierLane.cpp:122-128 | The doubling loop equals min(rto * 2^(attempts-1), max_rto) |
| LaneCodec.LaneDataRoundTrip | src/link/AmpAdpCarrier.cpp:130-153 | A lane frame comes back exactly when it is numbered and not empty, and never reads as an ack |
| LaneCodec.LaneAckRoundTrip | src/link/AmpAdpCarrier.cpp:155-177 | A lane ack comes back, and never reads as data |
| LaneCodec.LaneDataInjective | src/link/AmpAdpCarrier.cpp:130-137 | Equal wires carry equal numbers and bytes |
| LaneCodec.WriteLaneData | src/link/AmpAdpCarrier.cpp:130-137 | Pushed bytes are the wire form |
| LaneCodec.ReadLaneData | src/link/AmpAdpCarrier.cpp:139-153 | The moving offset reads the wire form, refusals included |
| LaneCodec.WriteLaneAck | src/link/AmpAdpCarrier.cpp:155-163 | Pushed bytes are the wire form |
| LaneCodec.ReadLaneAck | src/link/AmpAdpCarrier.cpp:165-177 | The moving offset reads the wire form; bytes past the thirteenth are ignored |
| Replay.ReplayWindow.Accept | src/L1/ReplayWindow.cpp:18-43 | The loop over pending numbers gives the specified window |
| Replay.AcceptMeans | src/L1/ReplayWindow.cpp:18-43 | A number is taken iff it was not seen and is not refused as too far; what was seen stays seen |
| Replay.ClassifyForetellsAccept | src/L1/ReplayWindow.cpp:8-43 | Classify says fresh iff Accept takes it, exactly unless a strict window of size 0 meets the next number |
| Replay.AcceptedAtMostOnce | src/L1/ReplayWindow.cpp:18-43 | Over any calls, in both modes, a number is taken at most once |
| Replay.StrictRemembersAll | src/L1/ReplayWindow.cpp:18-43 | Strict mode: the numbers taken are exactly 1..last and the pending ones |
| AdpSafety.DeliversInOrder | src/L1/Connection.cpp:213-232 | OnMessage was given a prefix of what Send took, numbered 1, 2, 3, ..., through the plain-to-sealed switch and key upgrades |
| AdpSafety.NothingForgotten | src/L1/Connection.cpp:324-371 | Every reliable number is in flight, taken by the peer, or counted in reliable_lost, once |
| AdpSafety.IdleMeansDelivered | src/L1/Connection.cpp:389-422 | Nothing in flight and nothing lost: the peer's handler was given everything |
| AdpSafety.TransmissionsBounded | src/L1/Connection.cpp:389-422 | A reliable packet goes out at most 1 + max_rtx times |
| AdpSafety.WindowAndHoldInLockstep | src/L1/Connection.cpp:516-537 | The hold's keys are the window's pending numbers, delivery stands where the window does, the hold is within reliable_window |
| AdpSafety.AcksAreSound | src/L1/Connection.cpp:601-616 | Every ack sent is for a number that was taken |
| AdpSafety.PreUpgradeKeyHarmless | src/L1/Connection.cpp:476-493 | A packet under the pre-session key delivers nothing and moves no key, timer, path or liveness |
| AdpFreshness.DataCountsOnce | src/L1/Connection.cpp:504-616 | Over any run, whatever arrives: once a data packet moved the path or liveness, was recorded, held or delivered, no later arrival of its number ever does; at most it draws an ack |
| AdpFreshness.ActedKeepsSeen | src/L1/ReplayWindow.cpp:18-43 | Over any run neither window forgets a number it has seen |
| AdpFreshness.ControlCountsIfNewest | src/L1/Connection.cpp:539-551 | Over any run with stamps of a 2^31 ms span: an ack, close or keepalive moves path and liveness exactly when it was sent after every unsealed packet heard so far |
| AdpFreshness.ControlCountsOnce | src/L1/Connection.cpp:539-551 | So once an unsealed packet was heard, no control packet sent no later ever counts |
| AdpFreshness.ControlCountsOnceBetweenEnds | src/L1/Connection.cpp:183-191 | The same with only the sender's clock bounded: a control packet that counted never does again |
| AdpFreshness.StampIsNewest | src/L1/Connection.cpp:543-547 | The stamp kept is always that of the newest unsealed packet let through, by true times |
| AdpFreshness.SentClocked | src/L1/Connection.cpp:275-293 | Every unsealed packet an end sends, resends included, tells the true time it went out |
| AdpFreshness.RunIsActed | src/L1/Connection.cpp:424-618 | The second end of a two-ended run is such a run, fed with what its peer sent |
| AdpFreshness.SwappedIsRun | src/L1/Connection.cpp:424-618 | A run with its ends swapped is a run, so this holds of either end |
| AdpFreshness.FreshWindows | src/L1/Connection.cpp:24-42 | A new association satisfies what these theorems ask of the state they start from |
| AdpProgress.NeverWedged | src/L1/Connection.cpp:324-422 | From every state of every run with both ends up under the same keys, what is in flight sealed and nothing given up, deliveries alone lead to rest: the handler given everything, nothing in flight |
| AdpProgress.RunKeepsCopies | src/L1/Connection.cpp:353-371 | Every packet in flight went out at least once just as it is kept |
| AdpProgress.PlainNeverArrives | src/L1/Connection.cpp:458-474 | A packet sent in the clear only, not taken before its receiver got keys, is never taken, whatever happens after |
| AdpProgress.PlainLeftBehind | src/L1/Connection.cpp:458-474 | A run to such a state |
| AdpSafety.RunKeepsInv | src/L1/Connection.cpp:324-618 | The two-ended invariant holds in every reachable state |
| AdpProtocol.ArrivalKeepsOrder | src/L1/Connection.cpp:516-537 | One reliable arrival keeps window, hold and delivery together, and is acked only if taken |
| Adp.AcceptSkewMeans | src/L1/Connection.cpp:183-191 | The 32-bit skew test judges the true clock difference whenever it is under 2^31 ms |
| Adp.IntervalBounds | src/L1/Connection.cpp:82-100 | The authenticated resend interval is monotone in doublings, within [rtx_interval, max(kMaxRtoMs, rtx_interval)] |
| RttLearning.AssociationLearns | src/L1/Connection.cpp:353-422 | The association itself, packets sent one at a time: at most 8 exchanges count a retransmit; after the ninth the timer has the round trip and none is counted any more |
| RttLearning.ExchangeAgrees | src/L1/Connection.cpp:353-422 | Send, ticks and ack of the whole association make of the timer what the exchange says, and count a retransmit exactly when it says resent |
| RttLearning.LearnsWithinEight | src/L1/Connection.cpp:353-359 | On a lossless path of constant round trip below the bound, at most 8 packets are resent before the first sample |
| RttLearning.NoResendOnceLearned | src/L1/Connection.cpp:373-422 | After the first sample none is resent |
| RttLearning.SlowerPathNeverLearns | src/L1/Connection.cpp:82-100 | The bound is exact: on any slower path, however many packets, the timer can stay without a sample |
| RttLearning.SmoothedBetweenSamples | src/L1/Connection.cpp:373-387 | With division truncating toward zero SRTT stays between the least and greatest sample, RTTVAR between 0 and the greatest |
| Association.Connection.Send | src/L1/Connection.cpp:324-371 | The whole new state and the answer: closed, too large, numbers run out, window full, or sent |
| Association.Connection.Tick | src/L1/Connection.cpp:389-422 | Resends what is due, backs off, drops what failed for good |
| Association.Connection.ResendDue | src/L1/Connection.cpp:389-415 | The resend loop: each due packet once, under the key it first went out under |
| Association.Connection.DropFailed | src/L1/Connection.cpp:416-421 | The loop over the front of the queue |
| Association.Connection.NoteRttSample | src/L1/Connection.cpp:373-387 | The estimator step, with C++ division |
| Association.Connection.UpgradeBinder | src/L1/Connection.cpp:117-124 | Keeps the first key for the handshake's own packets, takes the new one |
| Association.Connection.DeliverReliableInOrder | src/L1/Connection.cpp:213-232 | The release loop |
| Association.Connection.ReliableArrived | src/L1/Connection.cpp:516-537 | Judge, make room, accept, hold, release: whether fresh, whether acked |
| Association.Connection.HandleDatagram | src/L1/Connection.cpp:424-456 | Which key a datagram is under decides what it may do |
| Association.Connection.RefusePlainAfterKeys | src/L1/Connection.cpp:458-474 | Once sealed, plain data is refused, and a duplicate acked |
| Association.Connection.HandlePreUpgradeKeyPacket | src/L1/Connection.cpp:476-493 | Settles or re-acks handshake packets only |
| Association.Connection.HandleAuthenticated | src/L1/Connection.cpp:495-618 | Skew, refusal, then by kind |
| Association.Connection.AckReceived | src/L1/Connection.cpp:554-565 | Samples from a packet never resent, then forgets the number |
| Association.Connection.BestEffortData | src/L1/Connection.cpp:511-600 | The sliding window decides what is handed up |
| Nonces.OnePlaintextPerNonce | src/L1/Connection.cpp:234-251 | Over any run and any schedule of rekeys, two packets an end seals under one nonce are one packet, header and plaintext |
| Nonces.SameNumberSamePacket | src/L1/Connection.cpp:408-413 | Equal space and number mean the same packet, resends included |
| Nonces.CarrierSealer.SealCarrierFrame | src/link/PeerLink.cpp:343-362 | Counts up and seals; a counter that ran out refuses |
| Nonces.CarrierSealer.CarrierNoncesDistinct | src/link/PeerLink.cpp:343-362 | No two carrier packets of an end share a nonce |
| Nonces.CarrierNeverMeetsDirect | src/L2/SessionCrypto.cpp:14-24 | Nor does a carrier packet share one with a direct packet |
| Session.PacketNonce | src/L2/SessionCrypto.cpp:14-24 | The byte loop lays out direction, space, epoch, number, zeros |
| Session.NonceInjective | src/L2/SessionCrypto.cpp:14-24 | Equal nonces mean equal direction, space, epoch and number |
| Session.AmpSession.Rekey | src/L2/Session.cpp:61-72 | Next epoch, no grace key |
| Session.AmpSession.ApplyRekey | src/L2/Session.cpp:74-88 | Only to the next epoch, keeping the old receive key for the grace window |
| Session.AmpSession.Open | src/L2/Session.cpp:49-59 | Current key first, then the grace key |
| Session.OpensWhere | src/L2/Session.cpp:42-92 | A packet sealed at epoch s opens at epoch r iff s = r, or s = r - 1 inside the grace window |
| Session.OpensOnlyInPlace | src/L2/Session.cpp:49-59 | It opens under no other space, number or header |
| Session.NoReflection | src/L2/Session.cpp:34-59 | An end's own packets never open at that end |
| Rekey.EpochsStayTogether | src/link/PeerLink.cpp:690-772 | With control messages lost, repeated, reordered or crossing, the epochs never differ by more than 1 |
| Rekey.PacketsOpenAcrossRekeys | src/link/PeerLink.cpp:690-772 | In every state of every run, what opens where |
| Rekey.GraceKeyIsPrevious | src/L2/Session.cpp:74-92 | The grace key is always the receive key of the epoch before |
| Rekey.OnlyABridgeFinishes | src/link/PeerLink.cpp:760-771 | With one end an epoch behind: it moves exactly when a packet sealed before the other moved reaches it, and then the ends are level |
| Rekey.LostAnswerSplitsForGood | src/link/PeerLink.cpp:748-757 | Whatever the ends send, resend and receive short of that, no further such packet is ever sealed and the ends stay one epoch apart |
| Rekey.SplitIsReachable | src/link/PeerLink.cpp:748-757 | A run to such a state for each fate of the answer: sent at once (one such packet, resent only under newer keys), made to wait, refused (none) |
| Rekey.BridgeFinishes | src/link/PeerLink.cpp:760-771 | As long as one is on its way, its arrival brings the ends level |
| Rekey.RekeyingLink.RequestSessionRekey | src/link/PeerLink.cpp:690-728 | One request at a time, for the next epoch, only with the control channel open |
| Rekey.RekeyingLink.HandleSessionControl | src/link/PeerLink.cpp:730-772 | A message for any but the next epoch changes nothing; a request is acked, then applied, even when the mux refused the ack |
| HandshakeAgreement.InitiatorAgreement | src/link/MshAdpHandshake.cpp:169-402 | Against a network that may make up anything but honest signatures and MACs under secrets it cannot know: an initiator that completes with the responder's identity shares its six-part transcript, master secret and mirrored keys |
| HandshakeAgreement.ResponderAgreement | src/link/MshAdpHandshake.cpp:271-289 | A responder that completes with the initiator's identity was vouched for by it, on the same secret and four parts |
| HandshakeAgreement.LossyAgreement | src/link/MshAdpHandshake.cpp:169-402 | On a network that only loses, repeats and reorders both hold without conditions |
| HandshakeAgreement.RunKeepsInv | src/link/MshAdpHandshake.cpp:169-402 | The invariant behind agreement holds in every reachable state |
| HandshakeAgreement.SameAtFour | src/L2/SessionKeys.cpp:37-47 | The hashed concatenation tells the initiator's and the responder's parts apart, repeats included |
| HandshakeAgreement.SameAtFive | src/L2/SessionKeys.cpp:37-47 | Likewise with the first Finished appended |
| Symbols.ConcatUnambiguous | src/L2/SessionKeys.cpp:37-47 | Concatenating parts of known sizes is unambiguous |
| HandshakeRun.BothCanComplete | src/link/MshAdpHandshake.cpp:169-402 | Some lossless delivery order establishes both ends, each under the other's identity |
| Handshake.MshAdpHandshake.Start | src/link/MshAdpHandshake.cpp:169-188 | The client hello, once |
| Handshake.MshAdpHandshake.HandleMsh | src/link/MshAdpHandshake.cpp:190-373 | The whole two-role machine, repeats and errors included |
| Handshake.MshAdpHandshake.TakeClientHello | src/link/MshAdpHandshake.cpp:204-227 | The responder's first step |
| Handshake.MshAdpHandshake.TakeClientPayload | src/link/MshAdpHandshake.cpp:228-270 | Verify, decapsulate, answer, combine the master secret |
| Handshake.MshAdpHandshake.TakeClientFinished | src/link/MshAdpHandshake.cpp:271-289 | Verify over four parts, answer over five, complete |
| Handshake.MshAdpHandshake.TakeServerHello | src/link/MshAdpHandshake.cpp:296-322 | The initiator's second step |
| Handshake.MshAdpHandshake.TakeServerPayload | src/link/MshAdpHandshake.cpp:323-359 | Verify, combine, vouch over four parts |
| Handshake.MshAdpHandshake.TakeServerFinished | src/link/MshAdpHandshake.cpp:360-369 | Verify over five parts, complete |
| Handshake.MshAdpHandshake.MaybeComplete | src/link/MshAdpHandshake.cpp:375-402 | Completes only with a master secret and six parts |
| Handshake.HelloRoundTrip | src/L2/MshMessages.cpp:53-100 | A hello comes back |
| Handshake.PayloadRoundTrip | src/L2/MshMessages.cpp:102-155 | A payload comes back |
| Handshake.FinishedRoundTrip | src/L2/MshMessages.cpp:157-183 | A Finished comes back |
| SendQueue.RunKeepsInv | src/L3/ChannelMux.cpp:94-149 | Over any operations and credit: the byte count is exact and within the cap, no stored queue is empty, every waiting channel is in the order |
| SendQueue.FlushedMeans | src/L3/ChannelMux.cpp:117-137 | After a flush frames wait only when the credit is gone |
| SendQueue.DirectOnlyWhenNobodyWaits | src/L3/ChannelMux.cpp:94-115 | A frame goes straight to the transport iff there is credit left, and then no channel waits; exactly when it is refused |
| SendQueue.ChannelOrderKept | src/L3/ChannelMux.cpp:94-137 | Over any run a channel's frames leave in the order they came, none lost, none twice |
| SendQueue.EveryChannelGetsItsTurn | src/L3/ChannelMux.cpp:117-137 | A channel at position k is served after at most k frames of others |
| SendQueue.TurnShrinks | src/L3/ChannelMux.cpp:117-137 | Every turn takes a frame or an order entry: a flush ends without a credit limit |
| SendQueue.SendQueues.SendWire | src/L3/ChannelMux.cpp:94-115 | Whole new state and outcome |
| SendQueue.SendQueues.FlushQueued | src/L3/ChannelMux.cpp:117-137 | The round-robin loop |
| SendQueue.SendQueues.TakeTurn | src/L3/ChannelMux.cpp:119-136 | One turn |
| SendQueue.SendQueues.DropQueued | src/L3/ChannelMux.cpp:139-149 | The subtraction loop |
| Chunks.JoinSplit | src/L3/ChannelMux.cpp:497-534 | Joining a payload's chunks gives it back, whatever the size |
| Chunks.NeededBounds | src/L3/ChannelMux.cpp:498-499 | The rounded-up division is enough, and one less is not |
| ReassemblyLaws.WholeOnTheLastMissingPiece | src/L3/MessageReassembly.cpp:20-79 | Fragments in any order, repeated, of any number of messages mixed, at most max_partials unfinished at a time: nothing until the last missing one, then exactly the payload |
| ReassemblyLaws.FedRefines | src/L3/MessageReassembly.cpp:20-79 | After any such arrivals the reassembler holds just what came of each unfinished message |
| ReassemblyLaws.FewMessagesFit | src/L3/MessageReassembly.cpp:20-52 | The cap on unfinished messages is kept whenever there are no more messages than that |
| ReassemblyLaws.SplitIsWellCut | src/L3/ChannelMux.cpp:497-534 | What SendData cuts is what the law asks for, exactly when it is not empty, fits 16-bit counts and the receiver's limit |
| ReassemblyLaws.PartialsBounded | src/L3/MessageReassembly.cpp:8-52 | Never more partials than the cap; a lossy one always makes room, at the price of its oldest alone |
| Reassembly.MessageReassembly.DropOldestPartial | src/L3/MessageReassembly.cpp:8-18 | The scan finds the oldest, of equals the first in key order |
| Reassembly.MessageReassembly.Push | src/L3/MessageReassembly.cpp:20-79 | Whole new state and answer, every refusal included |
| Reassembly.MessageReassembly.File | src/L3/MessageReassembly.cpp:53-79 | From the partial on |
| Reassembly.MessageReassembly.SweepExpired | src/L3/MessageReassembly.cpp:81-89 | Exactly the expired ones go |
| MshChunks.MessageOnTheLastMissingChunk | src/link/PeerLink.cpp:394-438 | Chunks of any handshake message up to 12288 bytes, in any order and repeated: nothing until the last missing one, then the message |
| MshChunks.LongerNeverComes | src/link/PeerLink.cpp:394-438 | And only those: no chunk ever yields a longer message |
| MshChunks.EncodeMshChunked | src/link/AmpAdpCarrier.cpp:36-64 | The chunking loop, its 16-bit count included |
| MshChunks.ChunkedDecodes | src/link/AmpAdpCarrier.cpp:100-109 | Each chunk decodes to its type, index, count and bytes |
| MshChunks.MshAssembly.PushMshChunk | src/link/PeerLink.cpp:394-438 | Whole new state and answer |
| Mux.ChannelMux.SendData | src/L3/ChannelMux.cpp:473-536 | Whole new state and verdict |
| Mux.ChannelMux.SendFragments | src/L3/ChannelMux.cpp:512-534 | The fragment loop, stopped by a full queue where it stands |
| Mux.ChannelMux.DispatchFrame | src/L3/ChannelMux.cpp:393-463 | Opens and their answers, data, fragments and channel ends |
| Mux.ChannelMux.PushFragment | src/L3/ChannelMux.cpp:434-459 | A bad fragment resets the channel |
| Mux.ChannelMux.ResetChannel | src/L3/ChannelMux.cpp:546-561 | What waits is dropped, the peer told, the record gone |
| Mux.ChannelMux.OpenOutbound | src/L3/ChannelMux.cpp:159-211 | Whole new state and the id given; the record stays when its OPEN found no room |
| Mux.ChannelMux.HandleOpen | src/L3/ChannelMux.cpp:305-363 | Parity, cap and handler checks, the size granted, the answer |
| Mux.ChannelMux.HandleOpenAck | src/L3/ChannelMux.cpp:365-381 | Open, or gone |
| Mux.ChannelMux.CloseChannel | src/L3/ChannelMux.cpp:563-575 | CLOSE behind what waits |
| Mux.ChannelMux.OnFrameInbound | src/L3/ChannelMux.cpp:465-471 | Decode, then dispatch |
| MuxDelivery.Transparent | src/L3/ChannelMux.cpp:393-536 | On a channel opened at any time on a link in use, whatever the credit and the other channels do, their opening and closing included: a handler gets a beginning of the payloads whose SendData succeeded, in order, and all of them once nothing waits or is under way |
| MuxDelivery.NeverRefused | src/L3/ChannelMux.cpp:422-459 | With the sender's limit within the receiver's and room for one more partial the receiver never answers a frame of the channel with an error |
| MuxDelivery.AcceptingStarts | src/L3/ChannelMux.cpp:305-363 | An end that accepts an OPEN stands where transparency starts, its OPEN_ACK still queued or on the way |
| MuxDelivery.RefusedExactlyWhen | src/L3/ChannelMux.cpp:422-459 | In every state of every fair run the channel's next frame is answered Done, but for the first fragment of a message longer than the receiver's limit or coming with all its partials in use: that one, and only that one, ends the channel there with nothing delivered |
| MuxDelivery.WelcomeWithRoom | src/L3/MessageReassembly.cpp:20-52 | No such fragment comes while the sender's limit is within the receiver's and the beginnings it holds of cut-short messages leave room |
| MuxDelivery.FewCutShort | src/L3/MessageReassembly.cpp:20-52 | For which it is enough that fewer messages were cut short than the receiver holds partials |
| MuxLimits.AcceptedThenReset | src/L3/ChannelMux.cpp:434-459 | From any quiet state of any fair run: any fragmented message the receiver has no room for, sent whole, is accepted by SendData and ends the channel at the receiver |
| MuxLimits.AboveTheGrant | src/L3/ChannelMux.cpp:305-334 | From two new ends, after OPEN and OPEN_ACK of a control channel with a limit of 300000: every payload above the 262144 granted is accepted by SendData and ends the channel |
| MuxLimits.BeginningsPileUp | src/L3/ChannelMux.cpp:508-534 | Any number of partials up to the receiver's cap can be left behind by messages that SendData itself cut short |
| MuxLimits.OnePartialTooMany | src/L3/MessageReassembly.cpp:41-52 | With the cap reached so, the next message, sent whole and accepted, ends the channel |
| MuxLimits.SixtyFifthMessage | src/L3/MessageReassembly.cpp:41-52 | Such a run from two new ends: 64 messages cut short, and the 65th |
| MuxDelivery.AnsweredStarts | src/L3/ChannelMux.cpp:365-381 | So does an end whose OPEN was answered, whatever its own message limit |
| MuxDelivery.AnswerArrives | src/L3/ChannelMux.cpp:365-381 | The OPEN_ACK is taken and opens the channel ahead of its first payload |
| MuxDelivery.FrameArrives | src/L3/ChannelMux.cpp:422-459 | One frame further in the sender's history |
| MuxDelivery.RanInv | src/L3/ChannelMux.cpp:94-536 | The invariant holds along every fair run |
| MuxTransparency.SentHere | src/L3/ChannelMux.cpp:512-534 | The fragments that went in are the ones the history says, and all of them iff SendData succeeded |
| MuxStranding.CutShortExactlyWhen | src/L3/ChannelMux.cpp:508-511 | With any credit, any queue: a message goes out in full exactly when the payload alone fits now and what the slots left over by the flush do not take of it fits with its headers; it is cut short exactly when only the first holds and a first fragment still went in |
| MuxStranding.CutShortInNumbers | src/L3/ChannelMux.cpp:508-511 | The same by slots and frames waiting before the call; never without a credit function, nor when the caller counts the headers in |
| MuxStranding.SentExactlyWhen | src/L3/ChannelMux.cpp:512-534 | From any fragment on: the rest goes in exactly when what the slots do not take fits |
| MuxStranding.FlushSettles | src/L3/ChannelMux.cpp:117-137 | A flush leaves exactly the slots not needed for the frames waiting, or the frames not covered by slots |
| MuxStranding.CutShortHappens | src/L3/ChannelMux.cpp:508-511 | Concrete messages for which it happens, without credit and with credit that runs out in mid-message |
| ChannelWire.EncodedComesBack | src/L3/ChannelWire.cpp:90-264 | Decode undoes Encode on every frame that has a wire form |
| ChannelWire.EncodedInjective | src/L3/ChannelWire.cpp:90-138 | No two frames share a wire |
| ChannelWire.Encode | src/L3/ChannelWire.cpp:90-138 | Pushed bytes are the wire form |
| ChannelWire.EncodeFrag | src/L3/ChannelWire.cpp:140-154 | Likewise |
| ChannelWire.Decode | src/L3/ChannelWire.cpp:156-264 | The moving span reads the wire form, every refusal included |
| ChannelWire.AppendU64 | src/L3/ChannelWire.cpp:19-23 | The shift loop writes the little-endian bytes |
| ChannelWire.ReadU64 | src/L3/ChannelWire.cpp:44-54 | The or-loop reads them |
| ChannelWire.EncodeLenUtf8Le | src/L3/ChannelWire.cpp:65-73 | Length, then text |
| ChannelWire.DecodeLenUtf8Le | src/L3/ChannelWire.cpp:75-88 | Text, and how much was read |
| Capability.OfferRoundTrip | src/L3/Capability.cpp:45-91 | An offer with any lists comes back, and with one byte more is refused |
| Capability.ExtensionIgnoresSuffix | src/L3/Capability.cpp:93-126 | An extension comes back whatever follows it |
| Capability.AppendStringList | src/L3/Capability.cpp:7-21 | The append loop |
| Capability.ReadStringList | src/L3/Capability.cpp:23-41 | The read loop |
| Capability.EncodeOffer | src/L3/Capability.cpp:45-62 | Pushed bytes are the wire form |
| Capability.DecodeOffer | src/L3/Capability.cpp:64-91 | The moving span reads it |
| Capability.EncodeExtension | src/L3/Capability.cpp:93-104 | Likewise for the extension |
| Capability.DecodeExtension | src/L3/Capability.cpp:106-126 | Likewise, later fields ignored |
| Multiaddr.FormatParsesBack | src/link/AdpMultiaddr.cpp:125-198 | A formatted IPv4 address parses back to its endpoint and peer, exactly when the port is not 0 and the peer id has no slash |
| Multiaddr.SplitText | src/link/AdpMultiaddr.cpp:23-36 | The find loop gives the specified parts |
| Multiaddr.ReadNumber | src/link/AdpMultiaddr.cpp:38-47 | The digits' value within the type's range, or nothing |
| Multiaddr.ParseIp4HostPort | src/link/AdpMultiaddr.cpp:49-72 | The octet loop |
| Multiaddr.CheckDnsName | src/link/AdpMultiaddr.cpp:97-113 | The label loops |
| Multiaddr.ParseAdpMultiaddr | src/link/AdpMultiaddr.cpp:125-177 | The whole parser but for IPv6 hosts |
| Budgets.FragmentFits | src/L3/ChannelMux.cpp:497-534 | Every fragment fits its mux's budget |
| Budgets.DataFits | src/L3/ChannelMux.cpp:482-495 | A DATA frame fits exactly when its payload leaves room for the header |
| Budgets.FitsAtEveryDepth | src/link/PeerLink.cpp:333-341 | A frame within the budget of its nesting depth leaves as a datagram of at most 1232 bytes |
| Budgets.RidesOneFrame | src/link/PeerLink.cpp:333-341 | An inner packet rides one outer DATA frame exactly up to its budget |
| Budgets.OuterSendsOneFrame | src/link/PeerLink.cpp:333-341 | So the outer SendData takes its one-frame branch |
| Budgets.NestingLimit | src/link/PeerLink.cpp:333-341 | Carriers nest 32 deep and no deeper |
| Credit.NeverOverfills | src/link/PeerLink.cpp:604-634 | Over any run of a mux on an association whose room is its credit: Connection::Send never answers a frame of the mux that its window is full, nor a frame in budget that it is too large |
| Credit.LaneNeverOverfills | src/link/PeerLink.cpp:604-634 | Likewise on a carrier lane at any depth: Wrap never refuses a frame, and every frame in budget, sealed and laned, rides one outer DATA frame |
| Credit.HandedByOp | src/L3/ChannelMux.cpp:94-137 | What any operation of the mux hands over: no more reliable frames than there was credit, each within budget but for an OPEN or CLOSE |
| Credit.OpMoves | src/L3/ChannelMux.cpp:94-561 | Every operation spends a slot a reliable frame, adds to what was handed over, and keeps all frames within budget |
| Credit.GivenIsWelcome | src/L1/Connection.cpp:324-371 | An association with that much room takes them all |
| Credit.LanedIsWelcome | src/link/CarrierLane.cpp:16-31 | So does a lane |
| LinkTable.NothingDangles | src/link/LinkTable.cpp:86-182 | Over any operations with fresh ids: each dial-key entry names a live link of that key, each presence slot a live link of that peer and transport |
| LinkTable.ErasedHandleStaysDead | src/link/LinkTable.cpp:27-33 | A handle whose link was erased never resolves again |
| LinkTable.PresenceSoundExactlyWhen | src/link/LinkTable.cpp:148-158 | SetPresence keeps the peer index sound exactly when told a live link of that peer and transport |
| LinkTable.UntruthDangles | src/link/LinkTable.cpp:98-112 | Told otherwise, the index outlives its link |
| LinkTable.BindKeepsInv | src/link/LinkTable.cpp:122-142 | When a dial key can be bound, and that it then is |
| LinkTable.LinkTable.Insert | src/link/LinkTable.cpp:86-96 | Fresh id and generation, indexed by its key |
| LinkTable.LinkTable.EraseById | src/link/LinkTable.cpp:98-112 | Only the index entries that name this link go |
| LinkTable.LinkTable.BindDialKey | src/link/LinkTable.cpp:122-142 | Whole new state and answer |
| LinkTable.LinkTable.SetPresence | src/link/LinkTable.cpp:148-158 | Whole new state |
| LinkTable.LinkTable.FindByPeerId | src/link/LinkTable.cpp:39-80 | A connected link of the peer iff there is one, the preferred slot first |
| LinkTable.LinkTable.Resolve | src/link/LinkTable.cpp:27-33 | A handle resolves only to its own generation |
| Association.Connection.EraseOutstanding | src/L1/Connection.cpp:561-563 | The remove_if loop |
| Association.Connection.Dispatch | src/L1/Connection.cpp:504-618 | By kind, once past the checks |
| Association.Connection.ReliableData | src/L1/Connection.cpp:516-616 | Take in, hear, ack what was taken or seen |
| Lane.CarrierLane.HighestNamed | src/link/CarrierLane.cpp:33-62 | The highest number an ack names, bit by bit |
| Lane.SelectiveMeans | src/link/CarrierLane.cpp:95-106 | What each bit of the selective word says |
| SendQueue.OpExtendsStream | src/L3/ChannelMux.cpp:94-137 | An operation adds to a channel's stream exactly the frame it took in |
| ChannelWire.DecodeOpen | src/L3/ChannelWire.cpp:169-199 | The OPEN body, with or without its last field |
| ChannelWire.DecodePiece | src/L3/ChannelWire.cpp:236-259 | The FRAG fields |
| MshChunks.MshAssembly.Joined | src/link/PeerLink.cpp:426-429 | The joining loop |
| MshChunks.ChunkRoundTrip | src/link/AmpAdpCarrier.cpp:48-60 | A chunk's wire decodes to it |
| Multiaddr.Find | src/link/AdpMultiaddr.cpp:26-28 | The next delimiter, or the end |
| Multiaddr.DecimalReads | src/link/AdpMultiaddr.cpp:204-206 | A number's decimal digits read back as it |
| Handshake.MshAdpHandshake.AnswerClientPayload | src/link/MshAdpHandshake.cpp:243-269 | The accepted payload, answered |
| Handshake.MshAdpHandshake.AnswerServerPayload | src/link/MshAdpHandshake.cpp:340-358 | The accepted payload, vouched for |
| HandshakeAgreement.ICompletes | src/link/MshAdpHandshake.cpp:360-369 | What an initiator's completion proves of the responder |
| HandshakeAgreement.RCompletes | src/link/MshAdpHandshake.cpp:271-289 | What a responder's completion proves of the initiator |
| MuxStranding.SentWithoutCredit | src/L3/ChannelMux.cpp:512-534 | Without credit all fragments go in exactly when their bytes fit |
| Budgets.BudgetIs | src/link/PeerLink.cpp:333-341 | 1203 bytes less 35 a level |
| Rekey.UnbridgedStays | src/link/PeerLink.cpp:690-772 | One step short of that keeps both epochs and the set of such packets |
| LaneResends.ResentExactlyWhen | src/link/CarrierLane.cpp:64-80 | In every reachable state: DueResends puts one copy more of a frame on the network iff nowMs >= its next_resend_ms and it has attempts left, none of any other; the lane fails iff some frame is due with none left |
| LaneResends.ResendExactly | src/link/CarrierLane.cpp:64-80 | Attempts, skips and the next time of a frame after such a call |
| LaneResends.WrapStartsTimer | src/link/CarrierLane.cpp:16-27 | A frame wrapped at t is out once and due at t + rto |
| LaneResends.NotBeforeItsTime | src/link/CarrierLane.cpp:64-80 | Whatever else the lane does, as long as no ack speaks of the frame and no call comes at its time: still as many copies, still due then |
| LaneResends.ResentAtItsTime | src/link/CarrierLane.cpp:64-80 | At the first call from its time on one copy more; after the k-th transmission the wait is min(rto * 2^(k-1), max_rto) |
| LaneResends.FirstResend | src/link/CarrierLane.cpp:16-80 | From Wrap on: one copy until t + rto, the second at the first call from then on |
| LaneResends.PassedByOne | src/link/CarrierLane.cpp:33-62 | An ack for a later frame and not for this one counts against it; at fast_retransmit_skips it is due at once |
| LaneResends.FastResend | src/link/CarrierLane.cpp:33-62 | So many acks, exactly: fewer leave its time alone |
| LaneResends.OnlyCleanSamples | src/link/CarrierLane.cpp:33-62 | No sample from frames that went out more than once |
| LaneResends.SampleMoves | src/link/CarrierLane.cpp:108-120 | SRTT moves an eighth of the way to a sample, RTTVAR a quarter of the way to the error |
| LaneResends.TakenWithinWindow | src/link/CarrierLane.cpp:82-93 | A frame not had is taken exactly when it is within the window |
| AdpResends.ClearCopiesUnderFirstKey | src/L1/Connection.cpp:408-413 | Over any run: two clear copies of a reliable packet sent before the first Upgrade are under one key, that of its first sending |
| AdpResends.StillUnderKeyTakes | src/L1/Connection.cpp:495-618 | A peer still under that key takes such a resend, new and with room, and acks it |
| AdpResends.MovedOnReacks | src/L1/Connection.cpp:476-493 | A peer that moved on acks it again if it had it, and takes nothing new |
| AdpResends.EarlyAckSettlesEarly | src/L1/Connection.cpp:476-493 | An ack under the first key settles early packets of its number alone |
| AdpResends.TickResends | src/L1/Connection.cpp:389-415 | A Tick sends packet i again iff its time has come and it has resends left |
| AdpResends.TickLeaves | src/L1/Connection.cpp:389-422 | What a Tick leaves of the queue, what it counts, and which packets at the front are lost |
| AdpResends.IntervalIs | src/L1/Connection.cpp:82-100 | The wait in numbers: min(rto * 2^min(d, 8), max(2000, rtx)) when authenticated, rtx * 2^min(d, 16) for a dialer, else rtx |
| AdpResends.SendStartsTimer | src/L1/Connection.cpp:324-371 | A new packet is due that wait after it went out, at the back-off it starts from |
| AdpResends.SealedOnceSealing | src/L1/Connection.cpp:324-371 | With session keys new data goes out sealed; in the clear only what was in the clear before |
| AdpResends.SendAnswers | src/L1/Connection.cpp:324-371 | When each refusal comes, limits in numbers, and the datagram sent otherwise |
| AdpResends.ResendsAllowed | src/L1/Connection.cpp:24-42 | 2 resends before authentication, 6 for a dialer, max_rtx after |
| AdpArrivals.ReliableArrives | src/L1/Connection.cpp:516-616 | Taken iff new, in reach and with room; acked then or as a copy; path and liveness move only then |
| AdpArrivals.BestEffortArrives | src/L1/Connection.cpp:511-515 | Handed up once, when new |
| AdpArrivals.SlidesOnlyPastTheWindow | src/L1/ReplayWindow.cpp:29-42 | A sliding window starts over at a number past it; within it each number is kept for itself |
| AdpArrivals.CloseHeeded | src/L1/Connection.cpp:566-600 | A close is heeded exactly by an authenticated end or a dialer; nothing else of control closes |
| AdpArrivals.AckSettlesItsNumber | src/L1/Connection.cpp:554-565 | An ack settles the packets of its number and no other |
| AdpArrivals.CleanAckTeaches | src/L1/Connection.cpp:554-560 | The sample is the round trip of a packet that went out once |
| AdpArrivals.OnlyCleanAcksTeach | src/L1/Connection.cpp:554-560 | Otherwise an ack teaches nothing |
| AdpArrivals.SampleMoves | src/L1/Connection.cpp:373-387 | How far the estimates move, and that the back-off is cleared |
| AdpArrivals.StaleIgnored | src/L1/Connection.cpp:495-503 | A packet sent more than the skew away from now does nothing |
| AdpArrivals.ClearDataRefused | src/L1/Connection.cpp:458-474 | Clear data after session keys is never taken; a reliable packet had before is acked again |
| Rekey.OneRekey | src/link/PeerLink.cpp:690-772 | From ends level and at rest with epochs left: request, answer and ack lead to ends level and at rest one epoch on |
| Rekey.ManyRekeys | src/link/PeerLink.cpp:690-772 | So for every n within the epochs a run of n rekeys asked by one end |
| Rekey.PendingWhen | src/link/PeerLink.cpp:690-772 | Pending from the request the mux took until an ack for the next epoch is accepted, and then no longer |
| Rekey.OneRequestAtATime | src/link/PeerLink.cpp:690-728 | A pending end seals no new request |
| Rekey.OpensAsSealed | src/L2/Session.cpp:34-59 | What the runs call opening is what the session does with a packet so sealed |
| Rekey.CrossedStayPending | src/link/PeerLink.cpp:730-772 | Two requests that crossed were answered and applied, yet neither end ever stops waiting: no later ack is for its next epoch |
| Rekey.CrossingHappens | src/link/PeerLink.cpp:730-772 | A run without loss to such a state |
| Session.GraceLasts | src/L2/Session.cpp:74-92 | After a rekey at t the epoch before opens through t + 1000 ms, and not after |
| Session.OwnRekeyShutsOut | src/L2/Session.cpp:61-72 | A rekey on one end alone shuts the epoch before out at once |
| Session.NonceLayout | src/L2/SessionCrypto.cpp:14-24 | The 24 bytes one by one |
| Nonces.HeadersInjective | src/L1/WireCodec.cpp:120-128 | A sealed header tells its type, association and number |
| Nonces.NumberedInTurn | src/link/PeerLink.cpp:343-362 | Each kind of carrier packet is numbered one past its last, up to 2^32 - 1 |
| HandshakeRepeats.RepeatAnswered | src/link/MshAdpHandshake.cpp:195-198 | Over a carrier: a hello or payload just answered, again, is answered with the same message and changes nothing |
| HandshakeRepeats.RepeatsAnswered | src/link/MshAdpHandshake.cpp:195-198 | Any number of times |
| HandshakeRepeats.RepeatPassedOver | src/link/MshAdpHandshake.cpp:296-326 | The initiator takes a reply it has with Ok, no output and no change |
| HandshakeRepeats.LostReplyRecovered | src/link/MshAdpHandshake.cpp:137-198 | With any one of the responder's replies lost at first, and only a repeat of the request to bring it, both ends still complete |
| HandshakeRepeats.RepeatOverUdp | src/link/MshAdpHandshake.cpp:204-207 | Over UDP a repeat is refused |
| HandshakeEnds.ClientHelloComes | src/link/MshAdpHandshake.cpp:204-227 | By the bytes: when a client hello is answered, with what, and when it ends the handshake |
| HandshakeEnds.ClientPayloadComes | src/link/MshAdpHandshake.cpp:228-270 | Likewise a client payload: its own key, its identity's signature, the master secret it makes |
| HandshakeEnds.ClientFinishedComes | src/link/MshAdpHandshake.cpp:271-289 | Likewise the client's Finished; complete with six parts |
| HandshakeEnds.ServerHelloComes | src/link/MshAdpHandshake.cpp:296-322 | Likewise a server hello |
| HandshakeEnds.ServerPayloadComes | src/link/MshAdpHandshake.cpp:323-359 | Likewise a server payload |
| HandshakeEnds.ServerFinishedComes | src/link/MshAdpHandshake.cpp:360-369 | Likewise the server's Finished |
| HandshakeEnds.FailedForGood | src/link/MshAdpHandshake.cpp:161-193 | After its first bad message an end says nothing more and never establishes anything |
| MuxOpening.OpenedHere | src/L3/ChannelMux.cpp:159-211 | The record of a channel opened here is best-effort and lossy iff its class is 3, and its OPEN goes out in that class with its limit |
| MuxOpening.OpenedInVain | src/L3/ChannelMux.cpp:159-211 | With no room for the OPEN, or too long a protocol, the record is there all the same; under a number in use nothing is |
| MuxOpening.OpenArrives | src/L3/ChannelMux.cpp:305-363 | An OPEN accepted is granted min(n, 4259840) in class 2, min(n, 262144) in any other, 262144 for n = 0, best-effort and lossy iff class 3; the answer goes in that class |
| MuxOpening.RefusedWhen | src/L3/ChannelMux.cpp:305-334 | Which of 3, 2, 1 refuses it |
| MuxOpening.OwnIds | src/L3/ChannelMux.cpp:159-174 | Ids given out: of one parity, two apart, never 2^32 - 1 |
| MuxOpening.NoGlare | src/L3/ChannelMux.cpp:305-316 | Ends of different parity never refuse each other's numbers nor pick the same |
| MuxOpening.AnswerComes | src/L3/ChannelMux.cpp:365-381 | 0 opens, anything else ends, of an unknown channel nothing |
| MuxOpening.DataTakenWhen | src/L3/ChannelMux.cpp:422-433 | Exactly when a DATA frame is handed up, and what changes |
| MuxOpening.PeerEnds | src/L3/ChannelMux.cpp:404-421 | The record and what waited are gone; other channels keep theirs |
| MuxOpening.ResetHere | src/L3/ChannelMux.cpp:546-561 | RESET with code 1 under the next number is the last word |
| MuxOpening.CloseHere | src/L3/ChannelMux.cpp:563-575 | CLOSE behind what waits, under the next number |
| MuxOpening.SentInOneFrame | src/L3/ChannelMux.cpp:482-495 | When one DATA frame is sent, or waits, or is refused, in numbers |
| MuxFragments.FragmentedHere | src/L3/ChannelMux.cpp:497-534 | A long payload on a reliable channel: its fragments from the channel's next number on, under one message id, up to the first for which there is no room; Done iff none |
| MuxFragments.NoRoomForIt | src/L3/ChannelMux.cpp:508-511 | Without room for its bytes in the queue: a message id used up, and nothing else |
| MuxFragments.LooseSentHere | src/L3/ChannelMux.cpp:497-534 | On a best-effort channel all of them, at once, whatever waits |
| MuxFragments.CutAsSaid | src/L3/ChannelMux.cpp:512-534 | Each fragment in full: id, index, count, total length, its bytes |
| MuxFragments.FullFrames | src/L3/ChannelMux.cpp:497-499 | All but the last fill the frame to the byte |
| ReassemblyCases.RefusedAtOnce | src/L3/MessageReassembly.cpp:20-53 | Impossible fragments, one message too many, other counts or lengths: refused, nothing kept |
| ReassemblyCases.PlaceFilled | src/L3/MessageReassembly.cpp:53-79 | A fragment fills its place and no other; the last ends the message |
| ReassemblyCases.RepeatIgnored | src/L3/MessageReassembly.cpp:54-56 | A fragment had before changes nothing |
| ReassemblyCases.FirstOfItsMessage | src/L3/MessageReassembly.cpp:44-49 | The first begins a partial, at that time |
| ReassemblyCases.OldestMakesRoom | src/L3/MessageReassembly.cpp:8-18 | The one begun first of all makes room, of equals the lowest numbered |
| ReassemblyCases.LivesFromItsFirst | src/L3/MessageReassembly.cpp:81-89 | Over any fragments and sweeps a partial keeps its first fragment's time: a sweep takes it iff that is more than the timeout ago |
| MshChunks.CutIn900s | src/link/AmpAdpCarrier.cpp:36-64 | Up to 900 bytes whole, else chunks of 900 with their places and count |
| MshChunks.ChunkRefusedWhen | src/link/PeerLink.cpp:394-438 | Exactly which chunks are refused, and that they take no place |
| WireFormat.HeaderLayout | src/L3/ChannelWire.cpp:90-100 | Type, channel and number of a frame, byte by byte |
| WireFormat.BodyLayout | src/L3/ChannelWire.cpp:90-154 | Every field of every kind of frame in its place, nothing between |
| WireFormat.OnlyFramesDecode | src/L3/ChannelWire.cpp:156-264 | Decode takes nothing but what Encode writes, an OPEN without its last field, a CLOSE with an empty text |
| WireFormat.LaneDataLayout | src/link/AmpAdpCarrier.cpp:130-137 | 3, number, frame |
| WireFormat.LaneAckLayout | src/link/AmpAdpCarrier.cpp:155-163 | 4, cumulative, selective |
| WireFormat.OnlyLaneFramesDecode | src/link/AmpAdpCarrier.cpp:139-177 | Nothing but these is read as one; an ack may have bytes after it |
| WireFormat.MshChunkLayout | src/link/AmpAdpCarrier.cpp:36-64 | 2, type, index, count, bytes |
| WireFormat.OnlyMshChunksDecode | src/link/AmpAdpCarrier.cpp:100-109 | Nothing else is read as one |
| WireFormat.OnlyCapabilitiesDecode | src/L3/Capability.cpp:64-126 | An offer is read from nothing but its own wire, an extension from its own with any suffix |
| WireFormat.OfferLayout | src/L3/Capability.cpp:45-62 | 1, peer, addresses, protocols |
| WireFormat.TextIs | src/L3/ChannelWire.cpp:75-88 | A text is read exactly from its length in four bytes and itself |
| MultiaddrForms.Ip4ExactlyWhen | src/link/AdpMultiaddr.cpp:125-177 | Read as an IPv4 address: the eight parts with four numbers to 255, a port from 1 to 65535, wire 2 or the legacy text, a peer; and nothing else |
| MultiaddrForms.DnsExactlyWhen | src/link/AdpMultiaddr.cpp:125-177 | Likewise the three DNS forms |
| MultiaddrForms.DnsNameExactlyWhen | src/link/AdpMultiaddr.cpp:97-113 | Host names character by character: no dot or hyphen at an end or beside a dot, 63 at most between dots, 253 in all |
| MultiaddrForms.NumberIs | src/link/AdpMultiaddr.cpp:38-47 | A text is a number iff it is its decimal digits, perhaps after zeros, in range |
| LinkTableUse.InsertedIs | src/link/LinkTable.cpp:86-96 | Next id, next generation, its key; every other entry as it was |
| LinkTableUse.ErasedExactly | src/link/LinkTable.cpp:98-112 | Of either index exactly the entries that named it |
| LinkTableUse.BoundExactly | src/link/LinkTable.cpp:122-142 | When binding is refused, and each key's entry after |
| LinkTableUse.AbsentExactly | src/link/LinkTable.cpp:160-175 | The one slot, if it names that link |
| LinkTableUse.PresentExactly | src/link/LinkTable.cpp:148-158 | The one slot |
| LinkTableUse.HandleGoodUntilErased | src/link/LinkTable.cpp:27-33 | Over any operations a handle resolves until its link is erased by id or by the key that names it |
| Credit.RoomIsExact | src/link/PeerLink.cpp:604-634 | The association takes a packet exactly while there is credit, one for each |
| Credit.LaneRoomIsExact | src/link/PeerLink.cpp:604-634 | So does the lane |

## Left out

- Sockets, host resolution, threads, drive loops and the in-memory transports: a failed send of the socket is a datagram lost on the way.
- Times are mathematical integers: 64-bit millisecond overflow is not modelled.
- Callbacks that call back into the same object in mid-step: handlers do not touch the modelled state, and are set from the start (the mux's data handlers, an association's message handler).
- HMAC, AEAD, HKDF, ML-KEM and ML-DSA internals: ideal, as said above; a signature of an identity that is not an honest end's is taken to verify.
- Handshake runs have one session an end; resends are of whole messages, their pieces being `MshChunks`.
- Connection: keepalive cadence and echo, version negotiation, Abandon, liveness windows, the statistics other than resends, losses and sends; endpoints are opaque numbers.
- ChannelMux: a payload kept for a channel still opening (a SendData right after its OPEN_ACK), ApplyChannelPolicy, read timeouts (a ResetChannel at some time), terminal notices, DetachAllChannels and the capability exchange; a transport that refuses a frame it was handed (`Credit` shows the window is never the reason).
- MuxDelivery.Transparent: for channels that stay open at both ends, whose live partial no sweep takes, as long as no message arrives that the receiver must refuse (MuxDelivery.RefusedExactlyWhen says when it must), and for fewer than 2^64 - 1 messages. A channel number reused after an earlier channel under it must have been reliable then too.
- AdpProgress.NeverWedged: for ends under the same keys with sealed packets in flight; of a plain packet only AdpProgress.PlainNeverArrives is proved, and ends under different keys are not covered.
- Best-effort channels: what they send and how they reassemble is proved, but no delivery theorem over runs.
- LaneSafety.DeliversInOrder: for fewer than 2^32 frames; past that numbers repeat, and what can happen to an idle lane is in LaneWrap.
- Rekey: a run uses fewer than 2^32 - 2 epochs; which application callback hears of a finished rekey is not modelled, only whether one is pending.
- PeerLink: dialing, phases other than connected, the lane backlog cap before Connected, the peer-speaks-lane probe, keepalive tiers; PeerLinkManager, DualDialElector, DialBook and ChannelBridge altogether.
- Multiaddr.ParseAdpMultiaddr: does not parse IPv6 hosts, whose text form is the operating system's.
- LinkTable: Insert of a link that brings its own id (the one caller that does takes it from the same counters); links are held by value, so a pointer kept across an erase is not modelled.
