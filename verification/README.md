# OAAT: verified models of the transport's hard parts

OAAT streams audio from a controller to the endpoints of a multi-room zone.
This project models the stateful components on that path in Dafny and proves
what they guarantee over every input and every run:

- **Forward error correction** (`FecSender`, `FecEncoder`, `FecReceiver`, `FecTimes`,
  `FecGroup`, `AudioLoop`, `Datagrams`, `FecStream`, `FecNumbers`,
  `FecEndToEnd`, `FecTurns`, `FecLedger`, `Xor`): the
  controller numbers packets and adds one XOR parity packet per group; the
  receiver reorders a group, rebuilds one lost packet and emits in order; the
  receive loop flushes it at the packet flagged last. The outcome of a stream is
  proved for every loss, every order inside a group and every flag, with 16-bit
  sequence wrap-around, and exactly when it is what was sent.
- **Clock filter** (`Medians`, `Clock`, `ClockGate`, `ClockRuns`): four-timestamp exchanges, an outlier
  gate on the median and MAD of the last 16 round trips, exponential averages.
  Delay spikes are invisible, a new path is re-admitted, the offset error is
  bounded by half a normal round trip.
- **Scheduled start and drift servo** (`Sync`, `Playback`, `PlaybackRuns`,
  `PlaybackContent`, `ServoLoop`): the
  output ring with its corrections and audio callback, clock-domain
  conversions, the ring-head start and the timeline rebase, up to the start
  skew between two endpoints of a zone.
- **FLAC splitter** (`Crc`, `CrcTheory`, `Flac`, `FlacFormat`, `FlacStream`): frames cut
  out of arbitrarily chunked bytes. What it takes for a header, a metadata block
  or a footer is what sections 8.1, 9.1 and 9.3 of RFC 9639 write, and the CRCs are remainders of polynomial division over GF(2).
- **ALSA writer** (`Alsa`, `AlsaRuns`), **endpoint loop** with its drift servo
  (`EndpointLoop`, `EndpointSpec`), **deferred FormatAccept** (`Accept`) and **control framing**
  with its handshake (`Framing`, `Handshake`).

Each mutable object of the source is a class whose methods are proved equal to
a function on a state value; the results are lemmas about runs of that function.
What each event of a run causes is also stated without that state, in terms of
the events before it.
Time, arrivals, the network, the codec, JSON and the audio device are inputs:
event sequences, oracles (`accepts`, `parse`) or a script of device replies.

Check everything with `dafny verify dfyconfig.toml`.

## Where the code differs from its description

- **The end of a stream.** The receive loop flushes as soon as it has fed the
  packet flagged last, before the group's parity arrives. In order, the last full
  group is protected only against the loss of that packet or of the parity:
  `AudioLoop.LastGroupInOrder`, and `FecEndToEnd.LastGroupUnprotected` for a
  stream of two packets. `AudioLoop.GroupWhole` and `AudioLoop.FlagDecides` are
  the exact conditions.
- **A partial last group.** Slots the sender never filled count as lost at the
  flush. With nothing lost the count is right if and only if the number of calls
  is a multiple of the group size: `FecEndToEnd.PartialTail`.
- **A repeat after recovery.** A group whose n + 1 packets all arrive comes out
  with one packet repeated unless the parity is the first or the last to arrive:
  `FecGroups.WholeGroup`. A parity that arrives before any data packet of its
  group is useless (`FecGroups.ParityFirst`).
- **Large payloads.** `send_audio_all` checks no size, while the receive loop has
  room for 8192 bytes and drops a datagram whose length is not the announced one.
  A larger payload costs its group that packet and the parity, so that the group
  cannot come out whole: `Datagrams.SizesDecide`, `Datagrams.OversizeSpoils`. Two
  packets of 10000 bytes on a channel that loses nothing are lost:
  `FecEndToEnd.OversizedLost`.
- **Silent groups.** A group of which no data arrives is neither delivered nor
  counted as lost: `AudioLoop.SilentGroup`.
- **Turns of the numbers.** The receiver remembers two numbers: that of the group
  it has open and that of the one it closed last. After an outage, a group sent a
  multiple of 65536 packets after one of these is not taken for a group of its
  own: `FecNumbers.ReadyExactly` is the exact condition. Numbered like the closed
  group, its data go straight through and its parity is useless
  (`AudioLoop.LateArrivals`, `FecTurns.FullTurnUnprotected`); numbered like the
  open one, it merges into that, and a mixture of two groups comes out as one
  (`AudioLoop.MergesOpen`, `AudioLoop.MergeEmitsMixture`, `FecTurns.TurnMixes`).
- **A group of one.** Header decoding checks neither group size nor index, so a
  data packet of a group of one with an index above 0 can arrive. It opens an
  empty group, and the parity of that group then indexes an empty list and
  panics: `FecReceiving.GroupOfOne`. `FecReceiving.PanicsExactly` shows that this
  is the only packet the receiver cannot take.
- **Extrapolated times past 2^63.** A rebuilt timestamp or sample offset is
  computed in i64 and clamped at zero; it is close if and only if the estimate,
  and the distance it halves, fit: `FecTimes.EstimateClose`.
- **Timeline rebase.** The shift is a 64-bit product; past 2^64 it wraps and the
  rebase misses. `Sync.RebaseResidual` proves it lands if and only if the
  product fits, `Sync.RebaseWraps` gives an input that does not.
- **Half a window of spread.** The gate averages the two middle deviations of an
  even window. A strict majority of round trips at distance d or more from the
  median sets the threshold accordingly (`ClockGate.WideAccepts`); exactly half of
  them does not: `ClockGate.HalfIsNotEnough`. `ClockGate.GateByRanks` is the exact
  condition.
- **The content position.** A skip counts at once in `content_position`, while the
  frames before it are still queued, so the position can run ahead of the frame
  that is heard next: `PlaybackContent.PositionRunsAhead`. With skips alone and no
  overflow the two are equal if and only if no frame is missing between the head
  of the ring and the last frame received: `PlaybackContent.HeadIsPosition`.
- **Backoff after a healthy run.** The comment on the stable-run constant says a
  device that played 5 s restarts the backoff. An idle close forgets when the
  device was opened, so the next failed open doubles the old delay:
  `AlsaRuns.IdleCloseForgets`, and `AlsaRuns.ReopenForgets` for a device that is
  reopened and fails in that very write. `AlsaRuns.StableRunRestarts` is the exact
  condition for every failure.
- **Idle ticks and the stop hook.** The count of idle ticks survives a stop: an
  output idle for one tick, stopped and played again is given up at its first idle
  tick. `EndpointSpec.HooksExactly` says when each hook fires.
- **Seek while released.** A comment says audio is ignored until the next
  negotiation or play; a seek reopens and restarts the output as well:
  `EndpointLoop.ReleasedUses`.
- **Answers per proposal.** A stream proposed once and answered once by the
  application gets two answers if and only if the first was immediate or came
  from the fail-open timer, and nothing is outstanding in an open session when
  the application's arrives: `DeferredAccept.SecondAnswer`, with the failing runs
  `LateAnswerForwarded` and `CounteredThenAnswered`.
- **Messages that come with Hello.** Until Hello, the session decodes one message
  per read. Messages that share the read that completes Hello wait for the next
  one: `Handshake.DelayedWithHello`, `Handshake.NoneDelayed`.
- **Spread corrections.** A drift of up to a second need not be gone at the next
  tick: a skip of at most 1200 frames, or a delay, is applied two frames a packet.
  What the next tick measures is exactly what is still pending, plus the slip of
  the output: `ServoLoop.ServoCloses`.
- **Undecided FLAC headers.** The fields in bytes 2 and 3 are looked at only once
  five bytes are there, so three or four bytes that no header starts with are kept
  for a while; otherwise Invalid means that no continuation is a header:
  `FlacFormat.InvalidExactly`. Coded numbers longer than their value needs are
  taken as well.
- **FLAC splitting.** A chance CRC-16 match inside a frame is harmless if and only
  if the next byte is not 0xFF and the codec rejects the cut:
  `FlacStream.CutsExactly`, with what is lost otherwise in
  `FlacStream.HarmfulMatch`.

## Model

| member | source | states |
|---|---|---|
| `Xor.ColumnErasure` | crates/oaat-core/src/fec.rs:201-210 | XORing the known payloads out of a column of the zero-extended group leaves the missing payload's byte |
| `Xor.LenXorErasure` | crates/oaat-core/src/fec.rs:202-211 | XORing the known lengths out of the XOR of all lengths leaves the missing length |
| `FecEncoding.XorInto` | crates/oaat-core/src/fec.rs:64-66 | the XOR loop combines a payload into an accumulator column by column, zero-extended, without growing it |
| `FecEncoding.FecEncoder.Feed` | crates/oaat-core/src/fec.rs:54-80 | parity comes out with the group's last payload and is the column-wise XOR of the whole group, with the XOR of its lengths |
| `FecReceiving.GroupOfOne` | crates/oaat-core/src/fec.rs:225-234 | two arriving packets, a data packet of a group of one with index above 0 and its parity, bring the receiver to rebuild a packet with none at hand |
| `FecReceiving.PanicsExactly` | crates/oaat-core/src/fec.rs:185-234 | the parity of an open group is the packet the receiver cannot take exactly when one slot is empty and no other is filled |
| `FecReceiving.XorOut` | crates/oaat-core/src/fec.rs:201-211 | the rebuild loop yields the parity with every held payload XORed out, cut to the recovered length |
| `FecReceiving.Feed` | crates/oaat-core/src/fec.rs:134-181 | for every packet but that one, keeps: an idle receiver holds nothing, an open group lacks a packet, a stored parity implies two empty slots |
| `FecReceiving.FecReceiver.FeedPacket` | crates/oaat-core/src/fec.rs:134-181 | the mutable receiver does exactly the specified step on any data, parity, late or plain packet it can take |
| `FecReceiving.FecReceiver.Complete` | crates/oaat-core/src/fec.rs:185-220 | a full group is emitted, a group one short is rebuilt if its parity is there, nothing happens otherwise |
| `FecReceiving.FecReceiver.FlushGroup` | crates/oaat-core/src/fec.rs:275-282 | a flush emits what is held in index order and counts the empty slots as lost |
| `FecGroups.RebuildExact` | crates/oaat-core/src/fec.rs:201-211 | for any payload lengths and any missing index, recovery returns the lost payload byte for byte at its own length |
| `FecGroups.AnyNOfGroup` | crates/oaat-core/src/fec.rs:134-220 | any n of the n + 1 packets, in any order that starts with data, give the n packets in index order at the n-th arrival, timestamps within the extrapolation slack; recovered grows iff the parity was needed, lost never |
| `FecGroups.AfterClosed` | crates/oaat-core/src/fec.rs:149-163 | once a group is out, its parity is dropped and a late original is emitted again |
| `FecGroups.WholeGroup` | crates/oaat-core/src/fec.rs:134-181 | with all n + 1 packets delivered in any order the group comes out without a repeat if and only if the parity is first or last |
| `FecGroups.ParityFirst` | crates/oaat-core/src/fec.rs:144-155 | parity before any data packet of its group changes nothing and emits nothing |
| `FecSending.Zone.SendAudioAll` | crates/oaat-controller/src/zone.rs:495-582 | each call numbers one data packet with its group index and, at the end of a group, a parity packet with the next number |
| `FecSending.SendGroup` | crates/oaat-controller/src/zone.rs:504-579 | n calls make one well-formed group with wrapping consecutive numbers; the next group starts n + 1 further |
| `FecSending.SentFields` | crates/oaat-controller/src/zone.rs:504-579 | over any calls, with or without FEC, the k-th data packet on the wire carries the payload, stream, format, PTS, sample offset and flags of call k, and every parity repeats those of the packet before it with the FEC flag alone |
| `FecNumbers.SenderStream` | crates/oaat-controller/src/zone.rs:504-579 | over any number of groups from any starting number the sender's packets are exactly consecutive well-formed groups carrying the audio |
| `Datagrams.ReceiveLoop` | crates/oaat-endpoint/src/transport.rs:739-797 | the loop reads at most 8192 bytes of payload, drops a datagram of another length than announced, feeds the rest and flushes at once after one flagged last |
| `Datagrams.DropsExactly` | crates/oaat-endpoint/src/transport.rs:762-772 | a datagram counts if and only if what was read of it has the length its header announces, and is then fed with exactly those bytes; otherwise the receiver is left as it was |
| `Datagrams.PlainInOrder` | crates/oaat-core/src/fec.rs:134-143 | packets outside any group come out in the order they arrive, after all that was held when the first of them came |
| `Datagrams.SizesDecide` | crates/oaat-endpoint/src/transport.rs:762-771 | a data packet passes if and only if its payload is at most 8192 bytes, the parity if and only if all of the group's are |
| `Datagrams.OversizeSpoils` | crates/oaat-endpoint/src/transport.rs:762-771 | one payload of more than 8192 bytes keeps its group from coming out whole, whatever arrives |
| `AudioLoop.LateArrivals` | crates/oaat-core/src/fec.rs:156-163 | data packets of a group that bears the number of the one closed last go straight through and its parity is dropped, whether or not another group is open |
| `AudioLoop.MergesOpen` | crates/oaat-core/src/fec.rs:165-181 | data packets of a group that bears the number of the open one take its slots |
| `AudioLoop.MergeEmitsMixture` | crates/oaat-core/src/fec.rs:165-190 | when they fill the last gap, one group comes out made of packets of both |
| `AudioLoop.SilentGroup` | crates/oaat-core/src/fec.rs:144-155 | a group of which nothing, or only the parity, arrives adds nothing to output, recovered or lost |
| `AudioLoop.GroupStep` | crates/oaat-endpoint/src/transport.rs:774-780 | one group under any loss, order and flags: what the loop delivers and still holds grows by exactly the group's outcome, the counters by its losses and recovery |
| `AudioLoop.GroupWhole` | crates/oaat-endpoint/src/transport.rs:774-780 | a group comes out complete, once, with nothing counted lost, if and only if n useful packets arrive, none of the first n - 1 flagged last, and no data after them |
| `AudioLoop.FlagDecides` | crates/oaat-endpoint/src/transport.rs:774-780 | n or more packets, data first, parity last: only a flag on one of the first n - 1 to arrive spoils the group |
| `AudioLoop.LastGroupInOrder` | crates/oaat-endpoint/src/transport.rs:774-780 | the last group in order with one packet lost: nothing is lost if and only if it is the flagged packet or the parity |
| `FecStreams.StreamDelivery` | crates/oaat-endpoint/src/transport.rs:745-797 | over a whole stream under any losses, orders, flags and sizes, output plus what is held is the concatenation of the outcomes of what passes of each group, and the counters add up by group |
| `FecNumbers.ReadyExactly` | crates/oaat-core/src/fec.rs:144-181 | while all groups before were told apart, the receiver is ready to take a group as its own if and only if neither the group it has open nor the one it closed last was sent a multiple of 65536 packets before |
| `FecNumbers.NumberedIsStream` | crates/oaat-core/src/fec.rs:144-163 | so for a whole stream, through any outage |
| `FecTurns.FullTurn` | crates/oaat-core/src/fec.rs:156-163 | a whole turn after a group that came out whole, a group's data come out as they arrive, nothing is rebuilt and nothing counted lost |
| `FecTurns.FullTurnUnprotected` | crates/oaat-core/src/fec.rs:156-163 | 15 packets a group and 4095 silent groups: 15 of the 16 packets of the next group give 14 of its 15 payloads |
| `FecTurns.TurnMixes` | crates/oaat-core/src/fec.rs:165-181 | two packets a group, the first group half received and 65535 silent ones: half of each comes out as one group |
| `FecEndToEnd.StreamWhole` | crates/oaat-endpoint/src/transport.rs:774-780 | every group comes out complete and once and nothing is counted lost if and only if each group meets the condition of GroupWhole |
| `FecEndToEnd.EndToEnd` | crates/oaat-endpoint/src/transport.rs:745-797 | sender to receive loop: if what passes of every group meets that condition, at most one loss in each, the payloads delivered are exactly those sent; every packet that was not rebuilt has the stream, format, PTS, sample offset and flags of its call; nothing is lost or held back |
| `FecEndToEnd.PlainEndToEnd` | crates/oaat-controller/src/zone.rs:504-527 | with FEC off, whatever packets of at most 8192 bytes arrive, in any order and any number of times, come out at once in that order, each with the fields of its call |
| `FecEndToEnd.OversizedLost` | crates/oaat-endpoint/src/transport.rs:762-771 | two payloads of more than 8192 bytes sent over a lossless channel leave the receiver as it was |
| `FecEndToEnd.LastGroupUnprotected` | crates/oaat-cli/src/main.rs:1962-1971 | a stream of one group of two, the first packet lost, the second flagged last: the parity comes too late and one packet is lost |
| `FecEndToEnd.PartialTail` | crates/oaat-core/src/fec.rs:275-282 | a stream delivered in full whose last group is partial: every payload comes out and lost is the number of packets never sent, 0 iff the calls are a multiple of the group size |
| `FecLedger.StepBalance` | crates/oaat-core/src/fec.rs:134-282 | one arrival or flush: packets held, fed or rebuilt come out, stay held or are discarded; slots are emitted, lost or open |
| `FecLedger.RunBalances` | crates/oaat-core/src/fec.rs:134-282 | the same over every run, as multisets of packets; group output plus lost plus open slots equals slots opened, recoveries equal packets rebuilt |
| `FecLedger.NoParityOut` | crates/oaat-core/src/fec.rs:144-155 | no run ever emits or holds a parity packet as data |
| `FecTimes.EstimateClose` | crates/oaat-core/src/fec.rs:234-244 | for any 64-bit counter with steps of s or s + 1 the estimate is within max(1, e - 1) of the lost value at position e if and only if it fits an i64 |
| `FecTimes.EstimateUniform` | crates/oaat-core/src/fec.rs:234-244 | with uniform steps the estimate is the lost value if and only if it fits |
| `FecTimes.SynthesizedTimes` | crates/oaat-core/src/fec.rs:225-247 | the synthesized header uses the first two surviving packets; in a group of two it repeats the survivor's times |
| `FecTimes.RebuiltTimes` | crates/oaat-core/src/fec.rs:225-265 | a rebuilt packet's PTS is within that slack, and for uniform packets PTS and sample offset are exact, in each case if and only if the estimate fits |
| `FecGroups.DeliveredTimes` | crates/oaat-core/src/fec.rs:225-265 | the same for every packet rebuilt in a delivered group of three or more |
| `Medians.MajorityMedian` | crates/oaat-core/src/clock.rs:189-197 | a strict majority of values in an interval puts the median there |
| `Medians.MedianOf` | crates/oaat-core/src/clock.rs:189-197 | the slice is sorted in place and its middle returned |
| `ClockFilter.ClockState.UpdateWith` | crates/oaat-core/src/clock.rs:74-115 | one exchange: gate, window of the last 16 round trips accepted or not, averages and jitter |
| `ClockFilter.ClockState.IsRttOutlier` | crates/oaat-core/src/clock.rs:119-129 | outlier exactly above median plus the larger of the scaled MAD and the 1 ms floor; never on an empty window |
| `ClockGate.MedianByRanks` | crates/oaat-core/src/clock.rs:189-197 | the median is the mean of the two values that rank in the middle, by counts on either side |
| `ClockGate.GateByRanks` | crates/oaat-core/src/clock.rs:119-129 | after ten samples an RTT is rejected if and only if it exceeds the mean m of the two middle round trips by more than max(5 * 1.4826 * d, 1 ms), d being the mean of the two middle distances to m, all by counts |
| `ClockGate.RanksExist` | crates/oaat-core/src/clock.rs:119-129 | every window has such middle values, so that decides the gate always |
| `ClockGate.WideAccepts` | crates/oaat-core/src/clock.rs:119-129 | if most of the window lies at distance d or more from m, no RTT up to m + max(5 * 1.4826 * d, 1 ms) is rejected |
| `ClockGate.NarrowRejects` | crates/oaat-core/src/clock.rs:119-129 | if most of it lies within d of m, every RTT above that is |
| `ClockGate.HalfIsNotEnough` | crates/oaat-core/src/clock.rs:119-129 | a window of ten, five of them 10 ms from the median, that rejects an RTT that bound would admit |
| `ClockFilter.ThresholdInBand` | crates/oaat-core/src/clock.rs:119-129 | with a majority of the window in a band, the threshold lies between the band's bottom plus 1 ms and its top plus the MAD reach |
| `ClockFilter.RunWindow` | crates/oaat-core/src/clock.rs:83-86 | over any run the window is the bounded queue of all round trips measured, whatever the gate did |
| `ClockFilter.LastSixteen` | crates/oaat-core/src/clock.rs:83-86 | that is the last 16 of them, or all if fewer |
| `ClockFilter.SpikesInvisible` | crates/oaat-core/src/clock.rs:74-129 | a run mixing in-band exchanges and spikes of any size, the band keeping the window's majority, ends with the offset, RTT, jitter and sample count of the run without the spikes and rejects exactly them |
| `ClockRuns.Readmitted` | crates/oaat-core/src/clock.rs:3-10 | after nine exchanges on a new path every further one is accepted, whatever the window held |
| `ClockRuns.PathChangeCost` | crates/oaat-core/src/clock.rs:82-90 | a durable path change costs at most nine rejections in any run |
| `ClockRuns.PathChangeDelay` | crates/oaat-core/src/clock.rs:82-90 | and, from a full window of the old path, at least eight, during which the estimates do not move |
| `ClockRuns.OffsetHull` | crates/oaat-core/src/clock.rs:92-104 | the offset never leaves the hull of accepted measurements |
| `ClockRuns.RttHull` | crates/oaat-core/src/clock.rs:92-104 | nor the RTT estimate that of accepted round trips |
| `ClockRuns.JitterForgets` | crates/oaat-core/src/clock.rs:107-114 | over runs of any length the jitter mean stays in the hull and its variance below 7/8 of the squared width |
| `ClockRuns.JitterIsVariance` | crates/oaat-core/src/clock.rs:107-114 | the jitter mean and variance are the mean and the variance of the accepted offsets under exponential weights of one eighth |
| `ClockRuns.ExchangeIsHonest` | crates/oaat-core/src/clock.rs:75-79 | nonnegative path delays: RTT is their sum, the offset error half their difference |
| `ClockRuns.ErrorBound` | crates/oaat-core/src/clock.rs:75-105 | with a constant true offset the filter stays within half the largest accepted RTT of it |
| `ClockRuns.SpikeProofError` | crates/oaat-core/src/clock.rs:74-129 | after an in-band bootstrap that error is half the band's top whatever spikes follow |
| `ClockRuns.Convergence` | crates/oaat-core/src/clock.rs:97-102 | a constant measurement is approached by exactly the product of the per-sample factors |
| `ClockRuns.RttConvergence` | crates/oaat-core/src/clock.rs:97-103 | so is a constant round trip |
| `ClockRuns.DecayRates` | crates/oaat-core/src/clock.rs:97-101 | those factors are 1/2 per bootstrap sample and 7/8 per later one |
| `Playback.CpalOutput.WriteAudio` | crates/oaat-endpoint/src/audio_output.rs:608-663 | a write drops, repeats or passes frames as the pending correction allows, pushes whole frames that fit, and returns their number |
| `Playback.CpalOutput.OnCallback` | crates/oaat-endpoint/src/audio_output.rs:429-450 | the callback takes what it asks for or what there is, and counts the samples |
| `PlaybackRuns.WriteShape` | crates/oaat-endpoint/src/audio_output.rs:656-662 | a write pushes exactly the frames offered less those that overflow |
| `PlaybackRuns.Conservation` | crates/oaat-endpoint/src/audio_output.rs:429-450 | over every interleaving the ring holds whole frames; frames consumed plus net skipped plus queued equal frames received less overflowed; nothing is reordered |
| `PlaybackRuns.PositionOfRingHead` | crates/oaat-endpoint/src/audio_output.rs:687-691 | the content position is frames received less overflowed less queued |
| `PlaybackRuns.BitPerfect` | crates/oaat-endpoint/src/audio_output.rs:573-606 | without correction or overflow what is heard and queued is byte for byte what was received |
| `PlaybackRuns.CorrectionConserved` | crates/oaat-endpoint/src/audio_output.rs:620-654 | between two `set_correction` calls pending correction plus net skipped frames is constant, the pending part only moves toward zero |
| `PlaybackRuns.CorrectionSettles` | crates/oaat-endpoint/src/audio_output.rs:620-654 | each write of three or more frames removes at least two of the pending frames, so a correction is applied within half as many writes |
| `PlaybackContent.CorrectionLaw` | crates/oaat-endpoint/src/audio_output.rs:620-654 | more than 1200 frames behind, a write skips as many leading frames as it can; otherwise it skips at most two, never the last one, or repeats the first at most twice |
| `PlaybackContent.WriteContent` | crates/oaat-endpoint/src/audio_output.rs:635-663 | frame j of what a write pushes is frame a + j of the payload after a skip of a, and after a delay of d frame 0 for the first d and frame j - d from there on; a full ring cuts only the end |
| `PlaybackContent.StreamContent` | crates/oaat-endpoint/src/audio_output.rs:608-663 | over every run each frame pushed is a copy of the stream frame that skips, repetitions and overflows make it |
| `PlaybackContent.RingHead` | crates/oaat-endpoint/src/audio_output.rs:429-450 | and so is each frame waiting in the ring, counted from those heard |
| `PlaybackContent.HearsExactly` | crates/oaat-endpoint/src/audio_output.rs:429-450 | in every run a callback for k frames takes k from the head of the ring, or all there are, and none while stopped or muted |
| `PlaybackContent.HeadIsPosition` | crates/oaat-endpoint/src/audio_output.rs:687-691 | with skips alone and no overflow the content position is at least the stream frame at the ring head, and equal if and only if the ring holds the latest frames without a gap |
| `PlaybackContent.PositionRunsAhead` | crates/oaat-endpoint/src/audio_output.rs:687-691 | a skip behind queued frames moves the position past the frame at the head |
| `Sync.SharedClock.Update` | crates/oaat-endpoint/src/sync.rs:57-64 | the published offset, RTT and bootstrap flag follow the filter after every exchange |
| `Sync.RoundExactly` | crates/oaat-core/src/clock.rs:136-142 | rounding is to the nearest integer and from halfway away from zero, and no other integer does that |
| `Sync.ConversionsInverse` | crates/oaat-endpoint/src/sync.rs:81-90 | the two clock-domain conversions undo each other wherever neither clamps |
| `Sync.ConversionsClamp` | crates/oaat-endpoint/src/sync.rs:81-90 | for times up to 2^63 ns both conversions are exact sums and stop at 0 and at 2^63 - 1 |
| `Sync.RebaseResidual` | crates/oaat-cli/src/main.rs:725-744 | after a rebase the drift at the same instant is 0 or 1 frame up to a rate of 10^9 (at most 5 for any u32 rate) if and only if the 64-bit product does not wrap |
| `Sync.RebaseWraps` | crates/oaat-cli/src/main.rs:741 | a stall of 4.6 days at 48 kHz wraps the product and leaves a large residual |
| `Sync.HeadIsStart` | crates/oaat-cli/src/main.rs:897-900 | from any packet and its queued frames the head PTS is the stream start to within the stamping slack |
| `Sync.ScheduledStart` | crates/oaat-cli/src/main.rs:901-911 | on the scheduled branch the local start is head PTS minus clock offset plus the timer gap, if and only if both times fit 63 bits |
| `Sync.StartSkew` | crates/oaat-cli/src/main.rs:884-917 | two endpoints start within the sum of their clock errors, twice the stamping slack and the larger timer gap |
| `Sync.BufferedIsOffset` | crates/oaat-endpoint/src/audio_output.rs:666-672 | while stopped and without overflow the buffer level is the number of frames received |
| `Sync.ZoneStartSkew` | crates/oaat-cli/src/main.rs:884-917 | ring, clock filter and start composed: the skew is at most half of each endpoint's band RTT plus 1 ns, twice the slack and the gap, whatever spikes, arming packets and buffering |
| `Sync.InSyncEndpoint` | crates/oaat-cli/src/main.rs:897-911 | such an endpoint exists for every stopped overflow-free ring history, true offset and RTT band, so the composed bound is never empty |
| `ServoLoop.DriftNext` | crates/oaat-cli/src/main.rs:719-765 | the drift of the next tick is the last one, less the correction applied, plus what the clock asks for beyond what the output consumes |
| `ServoLoop.JumpSettles` | crates/oaat-endpoint/src/audio_output.rs:620-634 | of a skip of more than 1200 frames at most 1200 are left once as many frames have been written |
| `ServoLoop.ServoCloses` | crates/oaat-cli/src/main.rs:719-765 | a drift up to one second becomes what of its correction is pending plus the slip; inside the deadband it is left alone; a larger one shrinks by a second and is not taken for a stall |
| `ServoLoop.ServoRests` | crates/oaat-cli/src/main.rs:719-765 | at the nominal rate, with the correction applied and jitter below the deadband, the next tick is within the deadband and corrects nothing |
| `Crc.Crc16Update` | crates/oaat-endpoint/src/flac_decoder.rs:359-369 | the bit loop advances the CRC-16 by one byte |
| `Crc.ComputeCrc8` | crates/oaat-endpoint/src/flac_decoder.rs:343-356 | the loops compute the CRC-8 of the bytes |
| `Crc.Crc16IsRegister` | crates/oaat-endpoint/src/flac_decoder.rs:359-369 | the byte-wise CRC-16 equals feeding the message bit by bit to the shift register |
| `CrcTheory.Crc8IsRegister` | crates/oaat-endpoint/src/flac_decoder.rs:343-356 | the byte-wise CRC-8 is the same register with its own generator |
| `FlacFormat.CheckValues` | crates/oaat-endpoint/src/flac_decoder.rs:343-369 | the CRC-16 and the CRC-8 of the nine ASCII digits 1 to 9 are 0xFEE8 and 0xF4 |
| `CrcTheory.FeedLinear` | crates/oaat-endpoint/src/flac_decoder.rs:343-369 | the CRC of the XOR of two messages is the XOR of their CRCs |
| `CrcTheory.CrcIsRemainder` | crates/oaat-endpoint/src/flac_decoder.rs:343-369 | message times x^16 equals quotient times generator plus the CRC |
| `CrcTheory.RemainderUnique` | crates/oaat-endpoint/src/flac_decoder.rs:343-369 | no other quotient and remainder of those lengths exist |
| `CrcTheory.Crc16Burst` | crates/oaat-endpoint/src/flac_decoder.rs:359-369 | two equal-length messages that differ only inside one 16-bit window, at any bit, have different CRC-16 |
| `CrcTheory.Crc8Burst` | crates/oaat-endpoint/src/flac_decoder.rs:343-356 | the same for the CRC-8 and an 8-bit window |
| `Flac.ParseFrameHeader` | crates/oaat-endpoint/src/flac_decoder.rs:263-319 | the parse returns the specified verdict for any bytes |
| `Flac.HeaderStable` | crates/oaat-endpoint/src/flac_decoder.rs:263-319 | a Valid or Invalid verdict never changes when more bytes arrive |
| `FlacFormat.EncodedIsValid` | crates/oaat-endpoint/src/flac_decoder.rs:263-319 | the encoding of any legal fields, block size, rate, channels, depth and coded number by value, followed by anything, parses as Valid with its own length |
| `FlacFormat.ValidIsEncoded` | crates/oaat-endpoint/src/flac_decoder.rs:263-319 | and every header that parses as Valid is the encoding of legal fields, byte for byte |
| `FlacFormat.Completes` | crates/oaat-endpoint/src/flac_decoder.rs:263-319 | five or more undecided bytes can be continued to a valid header |
| `FlacFormat.InvalidExactly` | crates/oaat-endpoint/src/flac_decoder.rs:263-319 | of up to two or at least five bytes the verdict is Invalid if and only if no continuation is a header |
| `Flac.FindFrameEnd` | crates/oaat-endpoint/src/flac_decoder.rs:324-340 | the scan with a running CRC finds the first admissible frame end |
| `FlacFormat.FooterBytes` | crates/oaat-endpoint/src/flac_decoder.rs:324-340 | the footer is the CRC-16 of all bytes before it, high byte first |
| `Flac.ScanStreamHeader` | crates/oaat-endpoint/src/flac_decoder.rs:220-234 | the metadata walk ends at the last block once it is fully buffered |
| `Flac.StreamHeaderPrefix` | crates/oaat-endpoint/src/flac_decoder.rs:220-234 | no proper prefix of a stream header looks complete |
| `FlacFormat.BlocksMeasured` | crates/oaat-endpoint/src/flac_decoder.rs:220-234 | any list of metadata blocks with 24-bit big-endian lengths, the last one flagged, is measured exactly whatever surrounds it |
| `FlacFormat.MeasuredAreBlocks` | crates/oaat-endpoint/src/flac_decoder.rs:220-234 | and what is measured is such a list |
| `FlacStream.FlacStreamDecoder.FeedData` | crates/oaat-endpoint/src/flac_decoder.rs:108-138 | a fed chunk initializes, waits, discards or drains as specified |
| `FlacStream.FlacStreamDecoder.DrainFrames` | crates/oaat-endpoint/src/flac_decoder.rs:168-215 | the drain loop terminates, hands over the specified frames and keeps the rest |
| `FlacStream.HarmfulMatch` | crates/oaat-endpoint/src/flac_decoder.rs:187-204 | at the first inner position that is not harmless some chunking loses the frame |
| `FlacStream.CutsExactly` | crates/oaat-endpoint/src/flac_decoder.rs:168-215 | a well-formed frame survives every cut into two chunks if and only if it is harmless throughout |
| `FlacStream.DrainFrameBytes` | crates/oaat-endpoint/src/flac_decoder.rs:168-215 | draining any prefix of a sequence of frames yields exactly the frames whole within it |
| `FlacStream.ChunkInvariant` | crates/oaat-endpoint/src/flac_decoder.rs:108-138 | at every moment of every chunking the whole frames received are out and only a proper prefix of the next is held |
| `FlacStream.EveryChunking` | crates/oaat-endpoint/src/flac_decoder.rs:108-215 | every chunking of a stream hands over the same frames and leaves nothing |
| `FlacFormat.EncodedFrameIsGood` | crates/oaat-endpoint/src/flac_decoder.rs:168-215 | a frame written by fields, of at most 4 MiB, decodable and without a harmful match inside, is one of the frames these results are about |
| `FlacFormat.EncodedHeaderIsGood` | crates/oaat-endpoint/src/flac_decoder.rs:108-138 | so is a stream header of any metadata blocks the codec opens |
| `FlacStream.JunkSkipped` | crates/oaat-endpoint/src/flac_decoder.rs:176-182 | bytes none of which can start a header are passed over before what follows |
| `FlacStream.NoEndInSight` | crates/oaat-endpoint/src/flac_decoder.rs:206-210 | a valid header to which no end is found is kept up to 4 MiB, past that one byte is given up |
| `FlacStream.RefusedSkipped` | crates/oaat-endpoint/src/flac_decoder.rs:187-205 | a frame the codec refuses is passed over whole, or kept if it ends the buffer |
| `FlacStream.StartsOver` | crates/oaat-endpoint/src/flac_decoder.rs:108-138 | a decoder fed something else than a stream header, or one the codec refuses, is as new |
| `AlsaWriter.WriteFramesEnds` | crates/oaat-endpoint/src/alsa_direct.rs:645-674 | for every device a payload ends within frames plus recoveries plus one calls, complete exactly unless the device failed or refused |
| `AlsaWriter.PayloadEnds` | crates/oaat-endpoint/src/alsa_direct.rs:645-674 | every call but the last takes frames or recovers; it fails if and only if the last reply is fatal, its recovery fails, or it is the fourth interruption, and is given up if and only if the device takes none; frames and underruns counted from the replies |
| `AlsaWriter.DeviceSlot.WriteAll` | crates/oaat-endpoint/src/alsa_direct.rs:645-674 | the device takes, in order, a whole-frame prefix of the payload; a failure closes it and schedules a retry |
| `AlsaWriter.DeviceSlot.TryOpen` | crates/oaat-endpoint/src/alsa_direct.rs:568-614 | the device is opened only when closed with no backoff pending; a refusal schedules a retry |
| `AlsaRuns.WriterLoop` | crates/oaat-endpoint/src/alsa_direct.rs:677-735 | the loop serves every payload and timeout of a run as specified and closes at the end |
| `AlsaRuns.ServesExactly` | crates/oaat-endpoint/src/alsa_direct.rs:568-627 | in every run a payload is served if and only if the device is held, or no failure is recent enough to wait for and it opens; failed opens and writes, nothing else, are recorded; the device is held afterwards if and only if the payload was served without failing |
| `AlsaRuns.TakenWhole` | crates/oaat-endpoint/src/alsa_direct.rs:645-674 | all whole frames of a payload are taken exactly if the device neither failed nor refused |
| `AlsaRuns.FlagIsTruth` | crates/oaat-endpoint/src/alsa_direct.rs:590-640 | in every run the open flag equals "a device is held" |
| `AlsaRuns.FailuresChainedAndSpaced` | crates/oaat-endpoint/src/alsa_direct.rs:568-627 | consecutive failures are at least the current backoff apart, each backoff following from the last |
| `AlsaRuns.RunBackoff` | crates/oaat-endpoint/src/alsa_direct.rs:603-614 | k failures without a stable run give the smaller of 250 times 2^(k-1) and 8000 ms |
| `AlsaRuns.StableRunRestarts` | crates/oaat-endpoint/src/alsa_direct.rs:603-627 | every failure a payload adds to a run with earlier ones restarts the backoff at 250 ms if and only if the device had been held for 5 s, from the event that opened it, and doubles it up to 8 s otherwise |
| `AlsaRuns.IdleCloseForgets` | crates/oaat-endpoint/src/alsa_direct.rs:629-640 | in any run, a held device closed for idling that cannot be reopened doubles the old delay however long it had played |
| `AlsaRuns.ReopenForgets` | crates/oaat-endpoint/src/alsa_direct.rs:629-640 | so does one that is reopened and fails in that write, unless the write lasts 5 s |
| `EndpointLoop.Endpoint.Handle` | crates/oaat-cli/src/main.rs:649-1257 | one pass of the event loop changes the state, timeline and drift included, and acts as the run results below say |
| `EndpointLoop.ServoBounded` | crates/oaat-cli/src/main.rs:719-765 | in every run a correction is queued only by the tick of a started, unreleased playback with a timeline, and is at most one second of frames |
| `EndpointLoop.PauseEndsServo` | crates/oaat-cli/src/main.rs:1008-1058 | a pause or seek of a started playback ends corrections until a negotiation, stop or release, whatever comes in between |
| `EndpointLoop.ArmingTracksStart` | crates/oaat-cli/src/main.rs:884-938 | whichever packet arms a start, the timeline given to the servo is the stream start to within the stamping slack |
| `EndpointLoop.TickRebases` | crates/oaat-cli/src/main.rs:719-745 | a stalled tick leaves only rounding in the drift measured again, if and only if the shift fits 64 bits |
| `EndpointLoop.ReleaseIsRespected` | crates/oaat-cli/src/main.rs:1232-1257 | in every run, from a release until the next negotiation, play, seek or disconnect, nothing writes audio, starts the output or configures the device |
| `EndpointLoop.ReleasedUses` | crates/oaat-cli/src/main.rs:1051-1056 | while released the device is taken exactly by a negotiation, a seek, or a play that can reopen or cannot wait |
| `EndpointLoop.HooksAlternate` | crates/oaat-cli/src/main.rs:982-985 | in every run the hooks alternate start, stop, beginning with start, and tell whether the output is in use |
| `EndpointSpec.ToldByEvents` | crates/oaat-cli/src/main.rs:649-1257 | in every run released, negotiated, connected, rate, started, scheduled, armed and tracked are what the events so far say |
| `EndpointSpec.StartedSince` | crates/oaat-cli/src/main.rs:884-938 | playback is started if and only if some event began it and no negotiation, stop or release came since |
| `EndpointSpec.DueSince` | crates/oaat-cli/src/main.rs:664-678 | a start is due if and only if a packet scheduled it and neither its moment nor a new beginning came since |
| `EndpointSpec.ActsExactly` | crates/oaat-cli/src/main.rs:649-1257 | event k writes audio if and only if it is a nonempty packet and no release is in force; it starts the output if and only if it is the deadline of a start due, a play of a started or non-buffering output, or the packet that arms a start not scheduled; all other operations and messages likewise, in order |
| `EndpointSpec.TimelineExactly` | crates/oaat-cli/src/main.rs:897-938 | the timeline of a start is the head PTS on the controller clock, or the local clock if that is unsynchronized or the head is 30 s late |
| `EndpointSpec.TickCorrects` | crates/oaat-cli/src/main.rs:719-765 | a tick measures elapsed time times rate less the position, queues that drift clamped to a second unless within max(4, rate / 2000) frames, and shifts the timeline on a stall |
| `EndpointSpec.BetweenTicks` | crates/oaat-cli/src/main.rs:719-1257 | in every run, but for a tick that steers, the last drift is forgotten by a new beginning, the timeline by that, a pause or a seek, and nothing but a start changes either |
| `EndpointSpec.HooksExactly` | crates/oaat-cli/src/main.rs:679-691 | the start hook fires exactly on a play of an output not in use, the stop hook exactly when one in use is stopped, released, disconnected or idle for a second tick |
| `DeferredAccept.Session.Handle` | crates/oaat-endpoint/src/transport.rs:400-505 | one pass of the session loop writes and resolves as specified |
| `DeferredAccept.WritesExactly` | crates/oaat-endpoint/src/transport.rs:400-505 | what event k of a run writes, told by the events: the verdict at once unless deferred, the application's own answer for the stream awaited, nothing else of the application while one is awaited, the auto accept at a timer 5 s after the proposal, nothing once closed |
| `DeferredAccept.AcceptsTakeTurns` | crates/oaat-endpoint/src/transport.rs:395-505 | in every run at most one accept is outstanding and each one opened is ended before the next |
| `DeferredAccept.EndsOnce` | crates/oaat-endpoint/src/transport.rs:410-446 | no deferred accept ends twice |
| `DeferredAccept.PendingIsLatest` | crates/oaat-endpoint/src/transport.rs:495-504 | the outstanding accept belongs to the latest accepted proposal |
| `DeferredAccept.AnswersMatch` | crates/oaat-endpoint/src/transport.rs:428-445 | while one is outstanding no application answer for another stream is written |
| `DeferredAccept.AutoAcceptIsTimeout` | crates/oaat-endpoint/src/transport.rs:410-414 | an auto accept is written only by the timer, past the deadline of the accept it resolves |
| `DeferredAccept.DeadlineIsFiveSeconds` | crates/oaat-endpoint/src/transport.rs:498-503 | that deadline is 5 s after the proposal it answers |
| `DeferredAccept.NoAcceptAfterRelease` | crates/oaat-endpoint/src/transport.rs:416-427 | after a release no auto accept is written before a new accepted proposal |
| `DeferredAccept.AnswerCount` | crates/oaat-endpoint/src/transport.rs:400-505 | in every run, the answers to a stream proposed and answered once: the immediate or fail-open one, plus the application's if it goes through |
| `DeferredAccept.SecondAnswer` | crates/oaat-endpoint/src/transport.rs:436-446 | two answers if and only if the first was immediate or the timer fired before the application answered, and nothing is outstanding then in an open session |
| `DeferredAccept.ForwardedExactly` | crates/oaat-endpoint/src/transport.rs:441-445 | an application answer is forwarded if and only if the session is open and nothing is outstanding |
| `DeferredAccept.LateAnswerForwarded` | crates/oaat-endpoint/src/transport.rs:441-445 | a confirmation after the fail-open is forwarded as a second answer |
| `DeferredAccept.CounteredThenAnswered` | crates/oaat-endpoint/src/transport.rs:466-493 | so is the application's answer to a proposal countered, rejected or accepted at once |
| `Framing.Be32RoundTrip` | crates/oaat-core/src/message.rs:333-340 | the length prefix decodes to the length encoded |
| `Framing.Be32Horner` | crates/oaat-core/src/message.rs:333-340 | the prefix is the big-endian numeral of the length, both ways |
| `Framing.FrameCodec.Next` | crates/oaat-core/src/codec.rs:22-41 | one decode consumes a whole frame, waits for it, or reports an oversized or malformed one |
| `Framing.DecodesExactly` | crates/oaat-core/src/codec.rs:22-41 | a prefix that announces n bytes is refused if n exceeds 16777216, waits for n bytes, and then yields the message in them or an error, and the bytes after them |
| `Framing.FrameCodec.DrainAll` | crates/oaat-endpoint/src/transport.rs:456 | the receive loop decodes until nothing whole is left or an error |
| `Framing.DrainExtend` | crates/oaat-core/src/codec.rs:18-41 | draining early and then the rest equals draining all at once, errors included |
| `Framing.ChunkInvariant` | crates/oaat-core/src/codec.rs:18-41 | for every byte stream, valid or not, chunking changes neither the messages nor the error, and the buffer is the undelivered suffix |
| `Framing.PrefixDecodes` | crates/oaat-core/src/codec.rs:18-41 | any prefix of encoded messages decodes to exactly the messages whole within it |
| `Framing.EverySplit` | crates/oaat-core/src/codec.rs:18-41 | every split of the encoding of a list of messages of at most 16 MiB delivers that list in order |
| `Handshake.Converse` | crates/oaat-endpoint/src/transport.rs:305-324 | until Hello one message per read is decoded and others than Hello thrown away; after it every whole message |
| `Handshake.HelloIsFirst` | crates/oaat-endpoint/src/transport.rs:315-322 | in every session what is taken for Hello is one and nothing dropped before it is |
| `Handshake.NothingLost` | crates/oaat-endpoint/src/transport.rs:305-324 | in every session what was decoded, then the messages delayed, are exactly the messages of the bytes read; errors come in their turn |
| `Handshake.DelayedWithHello` | crates/oaat-endpoint/src/transport.rs:312-316 | every message that shares the read that brings Hello is delayed, none handled |
| `Handshake.NoneDelayed` | crates/oaat-endpoint/src/transport.rs:448-456 | and none is once another read has followed |

## Left out

- FecReceiving.SynthesizeHeader: models i64 wrap-around as in a release build; a debug build panics there instead.
- Datagrams.ReceiveLoop: asks that every data packet of a group of one has index 0, so that no packet panics; what happens otherwise is explained above.
- ClockFilter.Update: exact reals instead of f64, and no limit on the sample counter.
- Sync.DriftFrames: unbounded frame counts; the casts to i64 of positions past 2^63 frames are not modelled.
- AlsaWriter.WriteFrames: takes a device that reports more frames than it was given to have taken what it was given.
- Writer threads left behind after a timeout: a single writer is modelled.
- Interleavings inside one write or one audio callback: both are single steps on the ring and its counters.
- A channel that mixes groups or repeats packets: the stream theorems keep groups apart; the receiver's accounts hold for any arrivals.
- Wire encoding of packet headers, wire identifiers, session and volume state: one-step facts that would only add easy members.
- Format negotiation (`negotiate_format`, sample-rate families): its verdict is an input of the deferred accept.
- Protocol version check after Hello: a session that ends there decodes nothing more.
- STREAMINFO lookup and codec construction: the `opens` oracle.
- Sample conversion, software volume, DSD decimation and underrun counting in the callback.
- Stream statistics, metadata, zone messages and the web UI: no state the results depend on.
- Process shutdown: the loop ends without firing a stop hook, and is not an event of the model.
- Sockets, TLS, discovery, command line and configuration.
