# Transit Pulse: a model of the telemetry path and its proofs

Transit Pulse receives bus telemetry as NDTP frames over TCP, matches every point to the line of a
trip, predicts delays in one-minute passes, opens and closes incidents, and replicates its state to
dashboards over WebSockets. A replayer drives it all in simulated time. This project models the six
parts whose correctness spans many steps, and proves what they are for.

**NDTP codec and framer** (`Bytes`, `Crc`, `Modbus`, `Cells`, `Codec`, `Wire`, `RoundTrip`, `Unreproduced`,
`Framing`, `Resync`, `Delivery`, `Detection`). Bytes are 8-bit vectors, the checksum register a 16-bit vector. A
realtime frame decodes to what was encoded, and a frame is reproduced by re-encoding exactly when it is canonical;
`Wire` says where every field lies. Any partition of the byte stream gives the same frames, error counts and
pending bytes; the number of resynchronisations does depend on the partition, and by how much is stated exactly.
Any frames the codec encodes, the greeting of a connection among them, are delivered exactly, decoded and without
errors, with garbage before, between and behind them that may hold signatures as long as no position of it can
begin a frame. A good frame changed within sixteen consecutive bits, within two adjacent bytes, or in an odd number
of bits of the covered bytes never decodes with a good checksum, at any length (the checksum is that of MODBUS over
Serial Line V1.02, section 6.2.2: `Modbus` derives its polynomial and its check value).

**Replication** (`Client`, `Replication`, `Registration`, `WsHub`). The server and its clients are a system of
atomic steps: flush, incident events, session reset, join, leave, send, receive, cut-off. In every reachable
state, folding what is pending for a registered client over its store gives the server's session,
vehicles and incidents; and a client is cut off by nothing but messages that do not fit into its queue.

**Map matching and arrivals** (`RouteLine`, `LineBuild`, `Candidates`, `Scoring`, `Matching`, `MatchRules`,
`MatchEnv`, `MatchTrack`, `EmptyLines`, `RouteMatching`, `StopsDetector`, `Approach`, `Visits`, `Features`). Lengths
and times are reals. Over whole tracks on the lines of any plan, times never run back, progress on a trip never
falls unless the trip was searched anew, the line stays or advances by one, and every point is accounted for once.
Only a line without length makes the matcher raise an error, which costs one match and breaks none of this. Planned
time is monotone along a line, clusters of coincident stops included. A point is projected onto the nearest point of a segment and
matched to the cheapest projection in sight. Detected arrivals are in plan order, bounded, complete, and the
first moment at which the stop comes within the radius, or else the nearest one.

**Incidents and passes** (`Incidents`, `AlertPass`, `Verdicts`, `IncidentBook`, `Streaks`, `Scheduler`). Over any
interleaving of passes and dispatcher reactions a vehicle has at most one unresolved incident, each
target is opened once, and a resolved incident keeps its outcome, a hit exactly when it was late. When a pass opens,
refreshes and closes an incident is stated exactly. Offline run lengths equal the online
counters exactly when the passes of the series are one minute apart. A pass prepared in one session is
never applied in another.

**Replay** (`ReplayClock`, `ReplayEngine`, `Replayer`, `SimClock`). Simulated time never falls over any
orderly interleaving, switching to the main speed is invisible, and the one operation order that makes
the clock jump is characterised exactly. Every session hands out each of its rows once, in order,
within the loop. Over any messages and packets the backend's own clock falls back at exactly two kinds of
event: a message that lags, unless it is a running message of the running session that lags by at most what
one wall second is worth; and a packet from before the time shown that finds no session or a stopped one.

**Indexes and bounds** (`SegmentSpeed`, `Conformal`, `LeadBins`, `Ingest`). The chunked segment search
equals a scan of all segments. Conformal widening always covers the rows asked for exactly when no gap is
narrower than its guard. The bucketed packet count equals a count over the whole history, and the bounded
queue conserves what is put into it.

`Options`, `Numbers` and `Searching` hold what several parts share.

The specification of each stateful object is a function on its fields; a class beside it updates the
fields in place, and its methods are proved equal to that function.

## Where the code falls short of its documentation

The model follows the code. For each of these the exact condition is proved, and a lemma gives an input that
fails.

- `codec.py:54-56` promises that re-encoding a decoded frame reproduces its bytes. This holds exactly
  for canonical frames (`RoundTrip.ReencodeIffCanonical`). A second navigation cell, a cell of an unknown type, a
  nonzero reserved field and a wrong stored checksum are not reproduced (`Unreproduced.SecondNavLost`,
  `UnknownCellLost`, `ReservedLost`, `WrongChecksumLost`).
- `framing.py:57-69`: the resynchronisation counter depends on how the stream is cut
  (`Framing.ResyncsDependOnChunks`); by how much is part of `Framing.ChunkInvariance`.
- `services/backend/app/state/clock.py:74-89` ignores a small lag of the replayer's messages so that simulated
  time does not go back, but a pause, a stop or a resumption of the same session moves it back on any lag:
  `SimClock.PauseRewinds` goes from 100 to 99.5. `SimClock.UpdateRewindsIff` says when a message does.
- `services/backend/app/state/clock.py:3-5` says that packets only pull the clock forward. A packet that finds no
  session or a stopped one begins a session at its own time (`services/backend/app/ingest/worker.py:46-47`): after
  the replayer has stopped at 160, a straggler of 159 moves the clock back (`SimClock.StragglerRewinds`).
  `SimClock.PacketRewindsIff` says when a packet does, `SimClock.RunRewindsIff` when a whole run does not.
- `services/replayer/replayer/clock.py:70-80`: a pause taken after the warm-up has run out but before the next
  `advance` makes `resume` jump (`ReplayClock.ResumeFallsBack`); it is continuous if and only if nothing is
  overdue or the two speeds are equal (`ReplayClock.ResumeJump`).
- `alert_replay.py:69-78` counts consecutive minutes, the incident book counts consecutive passes. Passes at
  minutes 0 and 2 give one and two (`Streaks.SkippedMinuteDiffers`); the counts agree if and only if no minute
  was skipped (`Streaks.OfflineEqualsOnlineIff`).
- `calibration.py:108-119` promises to cover a share of the rows. With a quantile gap below the guard it may not:
  one row without gaps is missed at four fifths (`Conformal.OneRowEscapes`). It keeps the promise for all
  observations and shares if and only if every gap is at least the guard (`Conformal.AlwaysCoversIffApart`);
  it is then one row more generous than its formula.
- `route_line.py:66-70`: the window at the start of a line of no length is empty, and a plan with a trip between
  two stops at one place has such a line (`LineBuild.CoincidentStopsLeaveNoWindow`). Taking the smallest score
  there raises an error, exactly when such a line is looked ahead to (`Candidates.Track`) or rolled to
  (`Candidates.Arrival`): on a plan of two trips the second of two ordinary points raises it
  (`EmptyLines.SecondPointRaises`).

A remark, not a lemma: `features.py:190` speaks of 45 minutes of history, the constant is 40 minutes.

## Model

| member | source | states |
|---|---|---|
| Bytes.UnpackPack | packages/transit_core/transit_core/ndtp/codec.py:31-32 | values that fit their little-endian struct fields unpack to themselves |
| Bytes.PackUnpack | packages/transit_core/transit_core/ndtp/codec.py:31-32 | bytes of the right length are reproduced by packing what they unpack to |
| Crc.Crc16Modbus | packages/transit_core/transit_core/ndtp/codec.py:74-81 | the double loop over bytes and bits computes the register function |
| Crc.RunIsBitSerial | packages/transit_core/transit_core/ndtp/codec.py:74-81 | the byte loop equals a register fed one message bit at a time, low bit first |
| Crc.BurstDetected | packages/transit_core/transit_core/ndtp/codec.py:74-81 | messages of any length differing only within sixteen consecutive bits have different checksums |
| Crc.ChecksumParity | packages/transit_core/transit_core/ndtp/codec.py:74-81 | the checksum has the bit parity of the message |
| Modbus.CheckValue | packages/transit_core/transit_core/ndtp/codec.py:74-81 | the register after the ASCII digits 1 to 9 is the check value of CRC-16/Modbus, 0x4B37 |
| Modbus.StoredCheckValue | packages/transit_core/transit_core/ndtp/codec.py:84-86 | stored with its bytes swapped it is 0x374B |
| Modbus.TurnTimesX | packages/transit_core/transit_core/ndtp/codec.py:74-81 | a zero bit multiplies the register, read as a polynomial with its lowest bit first, by x modulo x^16 + x^15 + x^2 + 1 |
| Modbus.TurnLinear | packages/transit_core/transit_core/ndtp/codec.py:74-81 | and is linear over exclusive or |
| Cells.PayloadSizes | packages/transit_core/transit_core/ndtp/cells.py:114-165 | the payload size of every known cell type, none for others |
| Cells.NavRoundTrip | packages/transit_core/transit_core/ndtp/cells.py:184-226 | an in-range navigation cell decodes to itself with its flags normalised, the sign of a zero coordinate included |
| Cells.NavBytesRoundTrip | packages/transit_core/transit_core/ndtp/cells.py:184-226 | any 26 bytes are reproduced by re-encoding the navigation cell they decode to |
| Cells.CellRoundTrip | packages/transit_core/transit_core/ndtp/cells.py:229-252 | an encodable cell decodes to itself with missing fields zero, the packed door flags included |
| Cells.CellBytesRoundTrip | packages/transit_core/transit_core/ndtp/cells.py:229-252 | any payload of the right size is reproduced by re-encoding the decoded cell |
| Wire.NavOnWire | packages/transit_core/transit_core/ndtp/cells.py:184-202 | the byte, the width and the byte order of every field of the navigation cell, and which bits of the flag byte are north, east and valid |
| Wire.CellOnWire | packages/transit_core/transit_core/ndtp/cells.py:114-165 | the bytes of every column of every cell type; exactly the external voltage, the engine temperature and that of type 16 are two's complement |
| Wire.FlagsOnWire | packages/transit_core/transit_core/ndtp/cells.py:229-239 | the door flags are the bits of the last byte, the lowest first |
| Codec.DecodeCells | packages/transit_core/transit_core/ndtp/codec.py:137-159 | the loop finds the first navigation cell and the other cells in order, stops at an unknown type and reports truncation, as the recursive scan does |
| RoundTrip.RealtimeRoundTrip | packages/transit_core/transit_core/ndtp/codec.py:89-179 | decoding an encoded realtime report returns unit, request, normalised navigation cell and cells with a good checksum, for any number of cells |
| RoundTrip.HandshakeRoundTrip | packages/transit_core/transit_core/ndtp/codec.py:98-134 | decoding an encoded handshake returns its fields with a good checksum |
| RoundTrip.ResultRoundTrip | packages/transit_core/transit_core/ndtp/codec.py:114-120 | the server's answer decodes to the asking unit, its request number and the code |
| Wire.FrameOnWire | packages/transit_core/transit_core/ndtp/codec.py:162-179 | the bytes a decoder takes unit, request, service and type from, and that it calls the checksum right exactly when the stored one, high byte first, is that of the covered bytes |
| Wire.HandshakeOnWire | packages/transit_core/transit_core/ndtp/codec.py:123-134 | the bytes of every field of a handshake |
| Wire.BuiltOnWire | packages/transit_core/transit_core/ndtp/codec.py:89-95 | the bytes of every header field of a built frame, the size and the checksum among them |
| Wire.HandshakeSent | packages/transit_core/transit_core/ndtp/codec.py:98-103 | the bytes of a greeting: version 6.2, the unit, 65535 |
| Wire.ResultSent | packages/transit_core/transit_core/ndtp/codec.py:114-120 | the bytes of an answer: to the unit and request that asked, with the code |
| Wire.ReportSent | packages/transit_core/transit_core/ndtp/codec.py:106-111 | the bytes of a report: the navigation cell numbered 0, then the other cells |
| RoundTrip.EncodedIsCanonical | packages/transit_core/transit_core/ndtp/codec.py:106-111 | every encoded report is a canonical frame |
| RoundTrip.CanonicalReencodes | packages/transit_core/transit_core/ndtp/codec.py:54-56 | re-encoding a decoded canonical frame reproduces its bytes |
| RoundTrip.ReencodeIffCanonical | packages/transit_core/transit_core/ndtp/codec.py:54-56 | a frame is reproduced by re-encoding if and only if it is canonical |
| Unreproduced.SecondNavLost | packages/transit_core/transit_core/ndtp/codec.py:137-159 | a frame with two navigation cells is accepted with the first, and re-encoding does not reproduce it |
| Unreproduced.UnknownCellLost | packages/transit_core/transit_core/ndtp/codec.py:137-159 | a cell of an unknown type is lost with everything behind it, and re-encoding does not reproduce the frame |
| Unreproduced.ReservedLost | packages/transit_core/transit_core/ndtp/codec.py:84-95 | a nonzero reserved field is accepted and not reproduced |
| Unreproduced.WrongChecksumLost | packages/transit_core/transit_core/ndtp/codec.py:162-179 | any wrong checksum is reported, the frame is accepted all the same and not reproduced |
| Framing.ChunkInvariance | packages/transit_core/transit_core/ndtp/framing.py:45-92 | cutting the stream anywhere changes neither the cut frames nor the pending bytes; the resynchronisation count changes by one exactly when the cut falls inside garbage |
| Framing.ResyncsDependOnChunks | packages/transit_core/transit_core/ndtp/framing.py:57-69 | two garbage bytes count once together and twice apart |
| Framing.RestIsShort | packages/transit_core/transit_core/ndtp/framing.py:40-43 | what is pending is shorter than one frame of the largest admitted size |
| Framing.FindSignature | packages/transit_core/transit_core/ndtp/framing.py:57-59 | the first position of the signature, none only when there is none |
| Framing.TallyConcat | packages/transit_core/transit_core/ndtp/framing.py:94-104 | frames and error counts of a sequence of cut frames add up over its parts |
| Framing.TallyIs | packages/transit_core/transit_core/ndtp/framing.py:94-104 | every cut frame is given out or counted as undecodable, and those given out with a bad checksum are counted |
| Framing.FrameDecoder.SkipToSignature | packages/transit_core/transit_core/ndtp/framing.py:57-69 | the buffer is moved to the first signature with the count the stream asks for, or keeps at most one byte |
| Framing.FrameDecoder.NextRaw | packages/transit_core/transit_core/ndtp/framing.py:76-92 | the next whole frame of the stream is cut off, or the buffer waits as it must |
| Framing.FrameDecoder.Decode | packages/transit_core/transit_core/ndtp/framing.py:94-104 | one cut frame changes the counters by its tally |
| Framing.FrameDecoder.Feed | packages/transit_core/transit_core/ndtp/framing.py:45-55 | frames, all four counters and the buffer after a chunk are those of the whole stream so far |
| Delivery.AnyChunks | packages/transit_core/transit_core/ndtp/framing.py:45-55 | any partition of a stream cuts the same frames and leaves the same bytes as one piece |
| Delivery.AnyChunksTally | packages/transit_core/transit_core/ndtp/framing.py:45-104 | any two partitions of a stream give the same decoded frames and error counts |
| Delivery.FramesCutExactly | packages/transit_core/transit_core/ndtp/framing.py:76-92 | a concatenation of well-framed frames is cut into exactly those frames |
| Delivery.GarbageSkipped | packages/transit_core/transit_core/ndtp/framing.py:57-69 | garbage without a signature and not ending in half of one is skipped entirely |
| Resync.FirstPlausibleIsNext | packages/transit_core/transit_core/ndtp/framing.py:57-92 | whatever lies before it, the next frame is cut at the first position whose bytes are 7E 7E, a size from 10 to the largest and the type 2, once those before it can be seen not to be |
| Resync.NothingPlausible | packages/transit_core/transit_core/ndtp/framing.py:57-92 | with no such position nothing is cut and only the last bytes are kept |
| Resync.DroppedAreCounted | packages/transit_core/transit_core/ndtp/framing.py:57-92 | how many resynchronisations such garbage counts |
| Resync.FrameFound | packages/transit_core/transit_core/ndtp/framing.py:57-92 | behind garbage that may hold signatures, but no position that can begin a frame, a frame is cut exactly and the stream goes on behind it |
| Delivery.NoisyCutExactly | packages/transit_core/transit_core/ndtp/framing.py:57-92 | frames with garbage before, between and behind them, signatures included as long as no position of it can begin a frame, are cut into exactly those frames |
| Delivery.SentDecodes | packages/transit_core/transit_core/ndtp/codec.py:98-179 | each encoded report, handshake and answer decodes to what was sent, with a good checksum |
| Delivery.FramesDelivered | packages/transit_core/transit_core/ndtp/framing.py:45-104 | any encoded reports, handshakes and answers, with such garbage before, between and behind them, in any chunks, are delivered decoded, in order, counted, without a checksum or parse error |
| Detection.ChecksumInjective | packages/transit_core/transit_core/ndtp/codec.py:84-95 | equal stored checksums mean equal registers, byte swap included |
| Detection.BurstReported | packages/transit_core/transit_core/ndtp/codec.py:162-171 | a received frame differing from a good one within sixteen consecutive covered bits has a bad checksum if it decodes at all |
| Detection.TwoBytesReported | packages/transit_core/transit_core/ndtp/codec.py:162-171 | so has one changed within two adjacent covered bytes |
| Detection.OddFlipsReported | packages/transit_core/transit_core/ndtp/codec.py:162-171 | so has one with an odd number of covered bits flipped |
| Client.StreamStore.ReplaceAll | dashboard/src/store/stream.ts:36-45 | a snapshot replaces the session, vehicles, incidents, indicators and status |
| Client.StreamStore.UpsertVehicles | dashboard/src/store/stream.ts:46-52 | changed vehicles are stored by key, then removed ones deleted |
| Client.StreamStore.Receive | dashboard/src/api/ws.ts:6-19 | the store after a message is that of the message function: snapshots always, other messages only of the own session |
| Client.OnMessagesConcat | dashboard/src/api/ws.ts:6-19 | processing a sequence of messages is processing its parts in turn |
| Client.ShowsLatest | dashboard/src/api/ws.ts:6-19 | after any messages a client shows the session of the latest snapshot and the indicators and status told last in it |
| Replication.DeltaExact | services/backend/app/ws.py:98-107 | applying the changed and removed vehicles to what was sent last gives exactly the current states |
| Replication.ChangedAt | services/backend/app/ws.py:98-107 | a vehicle is sent exactly when it is new or differs from what was sent last |
| Replication.RemovedAt | services/backend/app/ws.py:98-107 | and named as removed exactly when it was sent last and is gone |
| Replication.PutIsUpdate | services/backend/app/alerts/engine.py:68-70 | storing an incident in the book is the keyed update the client performs |
| Replication.JoinKeeps | services/backend/app/ws.py:147-152 | a late client agrees once it has processed its snapshot, whatever it showed before |
| Replication.FlushKeeps | services/backend/app/ws.py:98-107 | a flush of any states keeps every registered replica in agreement, overflow included |
| Replication.NewSessionKeeps | services/backend/app/ws.py:86-92 | a session reset with its snapshot and status keeps the agreement |
| Replication.StepKeepsInvariant | services/backend/app/ws.py:66-107 | every step of server, connections and clients keeps the agreement |
| Replication.ReplicasAgree | services/backend/app/ws.py:66-152 | after any run, folding what is pending over a registered client's store gives the server's session, vehicles and incidents, with the queue within its bound |
| Registration.StepServes | services/backend/app/ws.py:66-107 | over every step not its own a client gets exactly the messages of the step behind its queue and stays registered if they fit into 1000, and is cut off only if they do not |
| Registration.OwnSteps | services/backend/app/ws.py:147-160 | joining registers, leaving removes, sending and receiving leave registered |
| Registration.NothingToTell | services/backend/app/ws.py:98-107 | a flush sends nothing exactly when the vehicles are those sent last |
| Registration.RoomKeepsRegistered | services/backend/app/ws.py:66-160 | over any run a client whose queue has room for what each step sends stays registered |
| WsHub.Fanout.SendAll | services/backend/app/ws.py:76-84 | a message is appended to every queue with room, and every client with a full queue is cut off |
| WsHub.Fanout.FlushDelta | services/backend/app/ws.py:98-107 | only changed and removed vehicles are sent, if any, and what was sent is remembered |
| WsHub.Fanout.StoreIncidents | services/backend/app/ws.py:86-94 | incidents are stored and announced in order |
| WsHub.Fanout.ResetSession | services/backend/app/ws.py:86-92 | the book and vehicles start empty and every client gets a snapshot and the status |
| WsHub.Fanout.Serve | services/backend/app/ws.py:147-152 | a new connection is registered with a snapshot as its first message |
| WsHub.Fanout.Leave | services/backend/app/ws.py:157-158 | a closed connection leaves nothing behind |
| Incidents.OpenKeeps | services/backend/app/alerts/engine.py:72-93 | opening keeps the book consistent: numbered, one active incident a vehicle, targets opened once |
| Incidents.UpdateKeeps | services/backend/app/alerts/engine.py:125-136 | updating keeps the book consistent and no incident changes its status |
| Incidents.ResolveKeeps | services/backend/app/alerts/engine.py:138-148 | resolving frees exactly that vehicle and keeps the book consistent |
| Incidents.AckKeeps | services/backend/app/alerts/engine.py:150-158 | a reaction never changes a resolved incident's status, outcome or actual delay |
| Incidents.SettleKeeps | services/backend/app/alerts/engine.py:160-177 | settling keeps the book consistent |
| Verdicts.HitIffLate | services/backend/app/alerts/engine.py:138-148 | over every session of passes and reactions, a resolved incident is a hit exactly when its actual delay is known and exceeds the red threshold |
| Verdicts.PassClosesIff | services/backend/app/alerts/engine.py:160-177 | a pass resolves the vehicle's incident exactly when its target was reached or is overdue by 20 minutes beyond the predicted delay, with the delay of the arrival or else the current deviation |
| Verdicts.PassKeepsOthers | services/backend/app/pipeline/scheduler.py:143-180 | it leaves the incidents of all other vehicles and all resolved ones as they are |
| Verdicts.PassRefreshes | services/backend/app/alerts/engine.py:125-136 | else the first prediction about the target, from the window or the follow-up, refreshes the card if the delay differs by 30 seconds or the risk differs |
| Verdicts.PassOpens | services/backend/app/alerts/engine.py:72-123 | over an idle vehicle, fresh and warmed up, with alerts on, a pass opens an incident with all its fields on the first visit that has earned one, counting this pass |
| Verdicts.PassOpensNone | services/backend/app/pipeline/scheduler.py:143-180 | and otherwise none |
| Verdicts.PassCounts | services/backend/app/alerts/engine.py:95-106 | a pass counts in the series of its vehicle and of no other |
| Verdicts.PassTells | services/backend/app/pipeline/scheduler.py:143-180 | it tells of at most two incidents, each by what its card says, first the one it has closed |
| AlertPass.Between | services/backend/app/pipeline/prepare.py:101-108 | the visits planned in a half-open window, in plan order |
| AlertPass.PassSafe | services/backend/app/pipeline/scheduler.py:143-180 | a pass keeps the book consistent and evolving |
| AlertPass.PassTold | services/backend/app/pipeline/scheduler.py:143-180 | the events of a pass tell its whole effect on the incidents |
| AlertPass.PassOpensOnlyWindowVisits | services/backend/app/pipeline/scheduler.py:143-180 | a pass opens at most one incident, only on the first window visit that is ahead, new and has the series, only while alerts are on |
| AlertPass.OpenedInWindow | services/backend/app/pipeline/prepare.py:101-108 | an incident is opened only on a visit planned more than ten and at most fifteen minutes after the pass, never on the follow-up |
| AlertPass.FollowOpensNothing | services/backend/app/pipeline/prepare.py:150-159 | the follow-up is about the target, still ahead, not reached and not in the window, and may never open an incident |
| AlertPass.HorizonIs | services/backend/app/pipeline/prepare.py:101-108 | every visit 10 to 15 minutes ahead is predicted for alerts, or else, not for alerts, the first of the following 45 minutes |
| AlertPass.PredictsHorizon | services/backend/app/pipeline/prepare.py:129-148 | every visit of the horizon is predicted in plan order with what the model answered for it |
| AlertPass.FollowIs | services/backend/app/pipeline/prepare.py:150-159 | the first visit of the target still ahead is predicted when it is not reached and not in the window |
| AlertPass.SessionSafe | services/backend/app/alerts/engine.py:72-177 | over every run of passes and reactions: one unresolved incident a vehicle, active exactly the unresolved ones, each target once, outcomes never change |
| IncidentBook.Ledger.Clear | services/backend/app/alerts/engine.py:57-59 | a new session takes over nothing |
| IncidentBook.Ledger.Raise | services/backend/app/alerts/engine.py:72-93 | the whole new state of opening; a valid book stays valid when the vehicle has no active incident and the target is new |
| IncidentBook.Ledger.Count | services/backend/app/alerts/engine.py:95-106 | the series are rebuilt from the visits of this pass, visits out of the window dropped |
| IncidentBook.Ledger.Update | services/backend/app/alerts/engine.py:125-136 | the whole new state of a noticeable update, nothing otherwise; a valid book stays valid and only evolves |
| IncidentBook.Ledger.Resolve | services/backend/app/alerts/engine.py:138-148 | the whole new state of resolving; a valid book stays valid when the incident is active |
| IncidentBook.Ledger.Acknowledge | services/backend/app/alerts/engine.py:150-158 | the whole new state of a reaction, nothing for an unknown incident; a valid book stays valid and resolved incidents keep their outcome |
| IncidentBook.Ledger.SettleVehicle | services/backend/app/alerts/engine.py:160-177 | resolves on arrival at the target, else on the timeout, else nothing; a valid book stays valid |
| IncidentBook.Ledger.PassVehicle | services/backend/app/pipeline/scheduler.py:143-180 | the book and the events after one vehicle's pass; a valid book stays valid and only evolves |
| Streaks.NextSeriesAt | services/backend/app/alerts/engine.py:95-110 | a visit's series grows by one when it alerts in the window, and is zero otherwise |
| Streaks.OnlineIsSuffix | services/backend/app/alerts/engine.py:95-110 | the online counter is the length of the maximal suffix of passes that hit |
| Streaks.SuffixIsMaximal | services/backend/app/alerts/engine.py:108-110 | that suffix is all hits and cannot be extended |
| Streaks.RunLengthStep | scripts/alert_replay.py:69-78 | the vectorised run length obeys the recurrence of a counter |
| Streaks.OfflineIsDense | scripts/alert_replay.py:69-78 | it is the length of the maximal suffix of hits in consecutive minutes |
| Streaks.OfflineEqualsOnlineIff | scripts/alert_replay.py:69-78 | it never exceeds the online counter, and equals it exactly when the passes of the series are one minute apart |
| Streaks.SkippedMinuteDiffers | scripts/alert_replay.py:69-78 | two passes that hit, at minutes 0 and 2, count one offline and two online |
| Scheduler.StepKeeps | services/backend/app/pipeline/scheduler.py:45-94 | every step keeps the guard, and what was applied stays applied |
| Scheduler.EpochGuard | services/backend/app/pipeline/scheduler.py:82-94 | over every interleaving, results are applied only in the epoch they were prepared in, with strictly increasing minutes |
| Scheduler.StartsIff | services/backend/app/pipeline/scheduler.py:45-68 | a round starts a pass exactly when a session runs and the minute is the first of its epoch, or a later one after half a second's rest |
| Scheduler.FinishedIsApplied | services/backend/app/pipeline/scheduler.py:82-94 | whatever rounds and resets come in between, a finished pass is applied once, exactly when no session has begun since it started; else the next round starts a pass whatever the minute |
| Scheduler.FailedUsesMinute | services/backend/app/pipeline/scheduler.py:64-68 | a pass that raises is not applied and uses up its minute, unless a session has begun |
| Scheduler.PipelineRunner.DueMinute | services/backend/app/pipeline/scheduler.py:45-55 | a new epoch forgets the last minute; a minute is due once and not before half a second |
| Scheduler.PipelineRunner.Round | services/backend/app/pipeline/scheduler.py:57-86 | a due minute starts a pass with the epoch of that moment |
| Scheduler.PipelineRunner.ResetSession | services/backend/app/runtime.py:102-110 | a reset starts a new epoch |
| Scheduler.PipelineRunner.FinishPass | services/backend/app/pipeline/scheduler.py:90-94 | results are applied and remembered unless the epoch has changed |
| Scheduler.PipelineRunner.FailPass | services/backend/app/pipeline/scheduler.py:64-68 | a pass that raises still uses up its minute |
| Searching.BinarySearch | packages/transit_core/transit_core/route_line.py:66-70 | both sorted searches return the number of entries below, or at most, a value |
| Searching.LeftSplits | packages/transit_core/transit_core/route_line.py:66-70 | a left search separates the entries below a value from the others |
| Searching.RightSplits | packages/transit_core/transit_core/route_line.py:66-70 | a right search separates the entries at most a value from the others |
| RouteLine.WindowNonempty | packages/transit_core/transit_core/route_line.py:66-70 | a window is a range of segments, nonempty exactly when it starts before the end of the line |
| RouteLine.ProjectionOnLine | packages/transit_core/transit_core/route_line.py:72-86 | a projection lies within its segment, hence on the line, at a nonnegative distance |
| RouteLine.WindowIs | packages/transit_core/transit_core/route_line.py:66-70 | the window holds exactly the segments that begin before its end and end after its start |
| RouteLine.ProjectionIsNearest | packages/transit_core/transit_core/route_line.py:72-86 | with Euclidean distances no point of the segment is nearer than the projection onto it, and the distance is that of the point at its progress |
| RouteLine.CosineIsPartAlong | packages/transit_core/transit_core/route_line.py:81-86 | the cosine is the part of the course along the segment |
| RouteLine.StopsAroundBracket | packages/transit_core/transit_core/route_line.py:88-93 | the stops around a point are the last not after it and the first after it, with none after it exactly at the end |
| RouteLine.PlannedBounds | packages/transit_core/transit_core/route_line.py:95-111 | planned time lies within the window of the stops at the point, or between the stops around it |
| RouteLine.PlannedMonotoneInProgress | packages/transit_core/transit_core/route_line.py:95-111 | planned time never falls along the line, coincident stops included |
| RouteLine.PlannedMonotoneInTime | packages/transit_core/transit_core/route_line.py:95-111 | nor with the moment it is asked for |
| RouteLine.DeviationFallsWithProgress | packages/transit_core/transit_core/matching.py:104-118 | schedule deviation never rises with progress |
| RouteLine.WaitingIsOnTimeIff | packages/transit_core/transit_core/matching.py:104-118 | at stops the deviation is zero exactly inside their planned window |
| RouteLine.BetweenIsLinear | packages/transit_core/transit_core/route_line.py:95-111 | between two stops planned time passes in proportion to the distance |
| RouteLine.PlannedIsLinear | packages/transit_core/transit_core/route_line.py:95-111 | so does the plan more than half a metre from any stop |
| RouteLine.WaitingIs | packages/transit_core/transit_core/matching.py:104-118 | the deviation while waiting, from the stops within half a metre: late after the last plan, early before the first unless the trip begins there, else zero |
| RouteLine.UnderwayIs | packages/transit_core/transit_core/matching.py:104-118 | the deviation between stops: the moment less the plan in proportion to the way, zero before the trip |
| LineBuild.RowsOf | packages/transit_core/transit_core/route_line.py:134-145 | the positions of a trip's stops, all of them, in order |
| LineBuild.LineIsValid | packages/transit_core/transit_core/route_line.py:114-131 | a line built from a plan sorted by time satisfies everything the searches rely on |
| LineBuild.BuiltSegment | packages/transit_core/transit_core/route_line.py:114-131 | the places, plans and length of each segment of a built line are those of the stops it joins |
| LineBuild.SegmentsLeadOn | packages/transit_core/transit_core/route_line.py:114-131 | each segment of a built line leads in a unit direction from one stop of the trip to the next |
| LineBuild.LinesAreValid | packages/transit_core/transit_core/route_line.py:134-145 | the lines of trips are valid and for different trips |
| LineBuild.LinesAreComplete | packages/transit_core/transit_core/route_line.py:134-145 | every trip that has a line, which is every trip of two or more stops, is among them |
| LineBuild.BuildLines | packages/transit_core/transit_core/route_line.py:134-145 | the loop returns those lines in order of first appearance, one for each trip of two or more stops |
| LineBuild.CoincidentStopsLeaveNoWindow | packages/transit_core/transit_core/route_line.py:66-70 | a trip between two stops at one place gets a line of no length, whose first window is empty |
| Candidates.FirstBest | packages/transit_core/transit_core/matching.py:130-134 | the first of the best candidates, none only when all are absent |
| Candidates.InterpIsBetween | packages/transit_core/transit_core/matching.py:121-127 | the interpolation of the schedule prior equals the planned time between the stops around the point |
| Candidates.InterpMonotone | packages/transit_core/transit_core/matching.py:121-127 | and never falls along the line |
| Candidates.Track | packages/transit_core/transit_core/matching.py:239-254 | the choice lies on the current line or the next one; there is none, an error, exactly when a next line of no length is looked ahead to |
| Candidates.Arrival | packages/transit_core/transit_core/matching.py:256-270 | the choice at the terminus lies on the next line; there is none, an error, exactly when that line has no length |
| Candidates.SearchAll | packages/transit_core/transit_core/matching.py:272-283 | the loop over all lines finds the first best candidate among those the schedule admits |
| Candidates.ArrivalIsNearest | packages/transit_core/transit_core/matching.py:256-270 | no point of the first 60 metres of the next line is nearer than the choice at the terminus |
| Scoring.ScoreIsPrice | packages/transit_core/transit_core/matching.py:121-127 | the score is a price in metres: the distance, up to 80 against the course, the weight for each second off the plan, two for each metre back beyond 30 |
| Scoring.OnwardIsCheapest | packages/transit_core/transit_core/matching.py:239-247 | following takes the first cheapest projection onto the segments from 300 metres back to what 120 km/h allow and 300 metres |
| Scoring.TrackIsCheapest | packages/transit_core/transit_core/matching.py:239-254 | or a cheaper one onto the beginning of the next line, near the end of the line or of the trip, from half an hour before the next one |
| Scoring.SearchIsCheapest | packages/transit_core/transit_core/matching.py:272-283 | the search finds something when a trip is in plan, and no projection onto any such trip is cheaper |
| Scoring.SearchFindsNone | packages/transit_core/transit_core/matching.py:272-286 | and nothing when none is |
| MatchEnv.EnvOfIsValid | packages/transit_core/transit_core/matching.py:239-308 | on the lines of any trips the choices by score and the match record meet what the state machine relies on |
| MatchEnv.RecordTells | packages/transit_core/transit_core/matching.py:288-313 | the record of a match: the last stop not after it, the first after it and how far, none at the end; on the route only within 120 metres |
| MatchRules.EarlyIsCounted | packages/transit_core/transit_core/matching.py:204-206 | a point from before the anchor is only counted |
| MatchRules.FarIsPutOff | packages/transit_core/transit_core/matching.py:207-211 | and one beyond 50 metres and 120 km/h, 80 after a minute, twice in a row |
| MatchRules.FirstIsSearched | packages/transit_core/transit_core/matching.py:200-214 | the first point, and the third in a row that is too far, becomes the anchor and is searched for, within 300 metres |
| MatchRules.LapsedIsSearched | packages/transit_core/transit_core/matching.py:220-224 | so is a point without a match, or half an hour past the end of its trip |
| MatchRules.NearIsFollowed | packages/transit_core/transit_core/matching.py:225-237 | a candidate within 400 metres is followed, never back on the same line |
| MatchRules.FarIsKept | packages/transit_core/transit_core/matching.py:226-230 | farther away the match is kept off the route seven times in a row |
| MatchRules.LostIsSearched | packages/transit_core/transit_core/matching.py:226-229 | and then searched for |
| MatchRules.StandingIsKept | packages/transit_core/transit_core/matching.py:182-218 | below 3 km/h and within 30 metres the place and the match are kept at the new time |
| MatchRules.StandingRolls | packages/transit_core/transit_core/matching.py:256-270 | but standing within 60 metres of the end past the planned end moves the match to the next trip, if that is within 120 metres |
| Matching.ScreenSteps | packages/transit_core/transit_core/matching.py:194-218 | a point is rejected only if it is early or farther than the vehicle can have moved; an outlier changes neither match nor anchor; fewer than three follow each other |
| Matching.FollowSteps | packages/transit_core/transit_core/matching.py:220-237 | following a candidate keeps progress on the same line, or moves to the next line |
| Matching.StraySteps | packages/transit_core/transit_core/matching.py:228-232 | for fewer than eight far points in a row only their number changes and the match is given again off the route, at the same progress; at the eighth the trip is searched anew |
| Matching.AcquireSteps | packages/transit_core/transit_core/matching.py:272-286 | a search leaves the vehicle matched exactly when it emits a match, and is counted |
| Matching.StoodSteps | packages/transit_core/transit_core/matching.py:182-186 | standing keeps progress on the line or rolls to the next one, at the new time; an error is raised only before a line of no length and leaves the match alone |
| Matching.UpdateSteps | packages/transit_core/transit_core/matching.py:168-192 | every point, errors included, keeps the fields coherent: the last match agrees with line and progress, progress lies on the line, an on-route match is within 120 metres |
| MatchTrack.TrackIsChained | packages/transit_core/transit_core/matching.py:316-339 | over any track, times never run back and offsets stay within their limits; without a search the trip is kept without losing progress, or the next line is taken |
| MatchTrack.ChainedAt | packages/transit_core/transit_core/matching.py:316-339 | this holds of any two consecutive rows |
| MatchTrack.FreshTrackIsChained | packages/transit_core/transit_core/matching.py:316-339 | of a new matcher, the first row is found by a search |
| MatchTrack.PlannedTrackIsChained | packages/transit_core/transit_core/matching.py:140-153 | the same from the plan on: on the lines built from any plan sorted by time, for any track |
| MatchTrack.TrackIsCounted | packages/transit_core/transit_core/matching.py:168-192 | every point is counted once as invalid, outlier, still, matched or unmatched, and every match is a row; one that raised an error is counted at most as still |
| MatchTrack.TrackNeverRaises | packages/transit_core/transit_core/matching.py:239-270 | no point raises an error when every line after the first has a length |
| EmptyLines.SecondPointRaises | packages/transit_core/transit_core/matching.py:239-254 | on a plan whose second trip stands between two stops at one place, the second of two ordinary points raises an error |
| MatchTrack.PlannedTrackIsCounted | packages/transit_core/transit_core/matching.py:140-192 | the counting from the plan on, exact when every line after the first has a length |
| MatchTrack.RunConcat | packages/transit_core/transit_core/matching.py:316-326 | going through a track in two parts is going through it at once |
| RouteMatching.RouteMatcher.Update | packages/transit_core/transit_core/matching.py:168-192 | the fields and the result after a point, with the fields coherent |
| RouteMatching.RouteMatcher.Screen | packages/transit_core/transit_core/matching.py:194-218 | the fields and the verdict of the filter |
| RouteMatching.RouteMatcher.Match | packages/transit_core/transit_core/matching.py:220-237 | the fields and the match of an accepted point |
| RouteMatching.RouteMatcher.RollToNext | packages/transit_core/transit_core/matching.py:256-270 | the fields after standing at the terminus, unchanged after an error |
| RouteMatching.RouteMatcher.Acquire | packages/transit_core/transit_core/matching.py:272-286 | the fields and the match after a search |
| StopsDetector.ArrivalInside | packages/transit_core/transit_core/stops_detector.py:91-116 | an arrival lies between the first and the last point of its window |
| StopsDetector.DepartureInside | packages/transit_core/transit_core/stops_detector.py:73-88 | so does a departure |
| StopsDetector.EntryIsFirst | packages/transit_core/transit_core/stops_detector.py:58-70 | the entry fraction is the first moment of the segment at which the stop is within the radius |
| StopsDetector.ArrivalIsFirstEntry | packages/transit_core/transit_core/stops_detector.py:91-116 | when any allowed segment comes within 15 metres, the arrival is the first such moment of the first such segment |
| Approach.SegmentIsNearest | packages/transit_core/transit_core/stops_detector.py:46-55 | a segment counts unless driven against the route for more than five metres, at the distance of its first nearest point |
| Approach.ArrivalIsEntry | packages/transit_core/transit_core/stops_detector.py:91-116 | when the way driven comes within 15 metres of the stop, the arrival is the first moment of it that does |
| Approach.ArrivalIsNearest | packages/transit_core/transit_core/stops_detector.py:91-116 | else it is the first moment nearest to the stop, if that is within 80 metres and the last point 30 metres farther, and none until then |
| Approach.ArrivalWithout | packages/transit_core/transit_core/stops_detector.py:91-116 | driven against the route all the way there is no arrival; a single point arrives within 80 metres |
| Approach.DepartureIsLeaving | packages/transit_core/transit_core/stops_detector.py:73-88 | the departure is the moment the circle of 35 metres is first left, the distance taken to grow evenly |
| Approach.DepartureNoneIff | packages/transit_core/transit_core/stops_detector.py:73-88 | there is none exactly when the circle is never left again once entered |
| StopsDetector.DetectIsSound | packages/transit_core/transit_core/stops_detector.py:128-167 | arrivals never decrease in plan order, are not later than `until`, and lie in [-720, 1200) seconds around the plan |
| StopsDetector.DetectIsAsOf | packages/transit_core/transit_core/stops_detector.py:128-167 | points after `until` change nothing |
| StopsDetector.WalkVisits | packages/transit_core/transit_core/stops_detector.py:147-159 | the loop with its last arrival computes the walk over the visits |
| Visits.WalkIsComplete | packages/transit_core/transit_core/stops_detector.py:147-159 | the walk lists the arrivals of exactly the visits found, in plan order, and remembers the latest |
| Visits.AnswerAt | packages/transit_core/transit_core/stops_detector.py:147-159 | each visit is looked for after the latest moment found before it |
| Visits.SelectedIff | packages/transit_core/transit_core/stops_detector.py:134-137 | the visits walked over are those planned in (since, until], each as often as planned |
| Visits.SelectedConcat | packages/transit_core/transit_core/stops_detector.py:134-137 | in plan order |
| Visits.ValidTrackIff | packages/transit_core/transit_core/stops_detector.py:37-43 | the points looked at are the valid ones up to `until` |
| Visits.WindowHolds | packages/transit_core/transit_core/stops_detector.py:148-149 | the window of a visit is the part of them from 12 minutes before its plan, and from the previous arrival, to 20 minutes after |
| Visits.FoundArrives | packages/transit_core/transit_core/stops_detector.py:150-153 | a visit that does not start a trip is found where its window first comes within 15 metres |
| Visits.FoundDeparts | packages/transit_core/transit_core/stops_detector.py:150-153 | one that does, where its window first leaves the circle |
| Visits.DetectKeepsFound | packages/transit_core/transit_core/stops_detector.py:128-167 | the arrivals detected are those of the visits found |
| Visits.DetectIsComplete | packages/transit_core/transit_core/stops_detector.py:128-167 | every selected visit whose window yields a moment is in the output, with its delay |
| StopsDetector.DetectArrivals | packages/transit_core/transit_core/stops_detector.py:128-181 | the arrivals of a plan and a track are those of the walk |
| StopsDetector.OnlineDeviationBounds | packages/transit_core/transit_core/stops_detector.py:183-197 | the online deviation lies in the same bounds and depends on no later point |
| Visits.OnlineDeviationIs | packages/transit_core/transit_core/stops_detector.py:183-197 | it is how late the last visit found was reached, of those planned in the last 45 minutes, and none when none was found |
| Features.SliceIsAsOf | packages/transit_core/transit_core/features.py:189-200 | points after the moment of the forecast change nothing the features are computed from |
| Features.SliceIsWindow | packages/transit_core/transit_core/features.py:189-200 | the slice holds exactly the points of the window and ends with the latest one |
| ReplayClock.NowMonotone | services/replayer/replayer/clock.py:48-57 | simulated time never falls between two readings, across the switch of speeds |
| ReplayClock.DueIff | services/replayer/replayer/clock.py:48-68 | the warm-up is over exactly when its wall time has passed |
| ReplayClock.StartShows | services/replayer/replayer/clock.py:35-40 | a started clock shows its start, and warms up exactly when a nonzero end ahead is asked for |
| ReplayClock.NowAdds | services/replayer/replayer/clock.py:48-57 | once the warm-up is over the clock gains the main speed a second |
| ReplayClock.AdvanceIsInvisible | services/replayer/replayer/clock.py:59-68 | switching to the main speed changes no later reading |
| ReplayClock.AdvanceIsContinuous | services/replayer/replayer/clock.py:59-68 | with two readings of the wall clock the simulation goes on from the first |
| ReplayClock.SetSpeedIsContinuous | services/replayer/replayer/clock.py:87-91 | a new speed does not move simulated time |
| ReplayClock.SpeedCounts | services/replayer/replayer/clock.py:87-91 | a new speed counts from the moment it is set |
| ReplayClock.StopHolds | services/replayer/replayer/clock.py:70-85 | a stopped clock shows its moment for good, a paused one until it is resumed |
| ReplayClock.PauseIsContinuous | services/replayer/replayer/clock.py:70-74 | a pause freezes the reading, and is safe exactly when the warm-up is not overdue |
| ReplayClock.ResumeJump | services/replayer/replayer/clock.py:76-80 | the size of the jump on resuming, zero if and only if nothing is overdue or the speeds are equal |
| ReplayClock.ResumeFallsBack | services/replayer/replayer/clock.py:70-80 | a concrete pause after which resuming falls back from 120 to 61 |
| ReplayClock.RunIsMonotone | services/replayer/replayer/clock.py:48-96 | over any orderly interleaving simulated time never falls |
| ReplayEngine.IndexSplits | services/replayer/replayer/source.py:42-44 | the index separates the rows before a moment from the others |
| ReplayEngine.EmitKeeps | services/replayer/replayer/engine.py:177-185 | handing out rows continues the run of rows of the session without gap or repetition |
| ReplayEngine.TickKeeps | services/replayer/replayer/engine.py:165-194 | so does a tick, the end of the loop included |
| ReplayEngine.ExactIsOnce | services/replayer/replayer/engine.py:165-185 | a session hands out exactly the rows from the start of its warm-up to the latest second reached, each once and in order, none past the loop |
| ReplayEngine.PlaysExactlyOnce | services/replayer/replayer/engine.py:127-215 | this holds of every session of every run |
| ReplayEngine.LoopIsComplete | services/replayer/replayer/engine.py:165-194 | a session that reaches the end of the loop has handed out every row up to it |
| ReplayEngine.BeginIs | services/replayer/replayer/engine.py:127-136 | a session begins the warm-up before its target, though not before the day, and shows that moment |
| ReplayEngine.LoopStartsAnew | services/replayer/replayer/engine.py:187-194 | a loop begins anew at the preset start with nothing handed out |
| ReplayEngine.TickReaches | services/replayer/replayer/engine.py:165-185 | before the end of the loop a tick reaches the moment the clock shows |
| ReplayEngine.WatchIs | services/replayer/replayer/engine.py:196-215 | a session begins anew exactly when, after a loss of all links, nine tenths are back in a running session at main speed |
| Replayer.ReplayClock.Start | services/replayer/replayer/clock.py:35-40 | a missing, zero or past warm-up end counts as none; the clock is valid whenever its speeds are |
| Replayer.ReplayClock.Advance | services/replayer/replayer/clock.py:59-68 | the fields after switching, and whether it switched; a valid clock stays valid and its time does not fall |
| Replayer.ReplayClock.Pause | services/replayer/replayer/clock.py:70-74 | the fields after a pause; the time shown stays, and a valid clock stays valid exactly when the warm-up is not overdue |
| Replayer.ReplayClock.Resume | services/replayer/replayer/clock.py:76-80 | the fields after resuming; a valid clock stays valid and shows the same time |
| Replayer.ReplayClock.Stop | services/replayer/replayer/clock.py:82-85 | the fields after stopping, at the time shown |
| Replayer.ReplayClock.SetSpeed | services/replayer/replayer/clock.py:87-91 | the fields after a change of speed, which does not move the time shown |
| Replayer.ReplayEngine.Begin | services/replayer/replayer/engine.py:127-136 | a new session from no earlier than the start of the day, with the cursor at its first row |
| Replayer.ReplayEngine.Tick | services/replayer/replayer/engine.py:165-175 | the engine after a tick, with the invariant kept |
| Replayer.ReplayEngine.EmitUntil | services/replayer/replayer/engine.py:177-185 | the loop hands out the rows from the cursor to the last one due |
| Replayer.ReplayEngine.FinishLoop | services/replayer/replayer/engine.py:187-194 | the next session or a stopped clock |
| Replayer.ReplayEngine.WatchBackend | services/replayer/replayer/engine.py:196-215 | a new session only after all links were lost and nine tenths came back, and only while running at main speed |
| SegmentSpeed.ScanIsFirstNearest | packages/transit_core/transit_core/segment_speed.py:88-110 | a scan finds the first of the nearest admissible segments within 60 metres, or none |
| SegmentSpeed.FirstNearestIsUnique | packages/transit_core/transit_core/segment_speed.py:107-109 | there is only one first nearest segment |
| SegmentSpeed.ScansAreNearest | packages/transit_core/transit_core/segment_speed.py:88-110 | each point is given the first of the nearest segments whose window holds its time, if within 60 metres |
| SegmentSpeed.ChunkSlice | packages/transit_core/transit_core/segment_speed.py:100-103 | the slice searched for a chunk holds every segment admissible at any time in it |
| SegmentSpeed.SliceIsEnough | packages/transit_core/transit_core/segment_speed.py:106-109 | a slice holding every admissible segment gives the answer of a scan |
| SegmentSpeed.Assign | packages/transit_core/transit_core/segment_speed.py:88-110 | for every chunk size, each point is given what a scan of all segments gives it |
| SimClock.NowMonotone | services/backend/app/state/clock.py:55-69 | the backend's time never falls between two readings, and a warm-up that is not over holds it |
| SimClock.NowGains | services/backend/app/state/clock.py:58-69 | a running clock gains its speed a wall second |
| SimClock.NowWaits | services/backend/app/state/clock.py:58-69 | and waits at the end of a warm-up |
| SimClock.UpdateRewindsIff | services/backend/app/state/clock.py:74-89 | any message moves the clock back if and only if it lags and its lag is not ignored: by more than one wall second is worth in a session that runs on, by anything otherwise |
| SimClock.PauseRewinds | services/backend/app/state/clock.py:74-89 | a pause that lags by half a second moves the clock from 100 to 99.5, a running message with the same lag does not |
| SimClock.UpdateSetsExactly | services/backend/app/state/clock.py:74-89 | a new session, and any message that stops or resumes the clock, is taken exactly |
| SimClock.UpdateRunsOn | services/backend/app/state/clock.py:74-89 | after a message the clock runs on at the speed it names, or stands still |
| SimClock.PacketsOnlyPull | services/backend/app/state/clock.py:109-116 | observing a packet moves the clock only in a session without a replayer, and only forward |
| SimClock.PacketRewindsIff | services/backend/app/ingest/worker.py:46-52 | what the worker does with a packet moves the clock back if and only if the packet begins a session and is behind the clock |
| SimClock.TakenIff | services/backend/app/ingest/worker.py:46-52 | a packet is taken exactly when it is not older than the history and, in a session of the replayer, at most 30 seconds or one wall second ahead |
| SimClock.StartRewindsIff | services/backend/app/state/clock.py:91-97 | a session begun by a packet shows its time, under a new number |
| SimClock.TakenPulls | services/backend/app/ingest/worker.py:46-52 | a packet that is taken pulls a session of packets up to its time, one that is not leaves the clock alone |
| SimClock.StragglerRewinds | services/backend/app/ingest/worker.py:46-52 | after a session run and stopped by the replayer at 160 a packet of 159 begins a session and moves the clock back to it |
| SimClock.AcceptanceLasts | services/backend/app/state/clock.py:99-107 | what is accepted once is accepted at any later moment, and so is anything earlier |
| SimClock.RunRewindsIff | services/backend/app/state/clock.py:55-116 | over any messages and packets, sessions begun by packets included, no event moves the clock back if and only if every message is level, ahead or ignored in its lag and no packet behind the clock begins a session |
| SimClock.RunNeverRewinds | services/backend/app/state/clock.py:55-116 | then the time shown never falls, whenever it is looked at, pauses, resumptions and new sessions of either kind included |
| SimClock.BackendClock.ApplyUpdate | services/backend/app/state/clock.py:74-89 | the fields after a message, and whether it began a session |
| SimClock.BackendClock.StartOnPackets | services/backend/app/state/clock.py:91-97 | the fields of a session begun by packets |
| SimClock.BackendClock.ObservePacket | services/backend/app/state/clock.py:109-116 | the mark after observing a packet |
| SimClock.BackendClock.ReceivePacket | services/backend/app/ingest/worker.py:46-52 | the fields after a packet, and whether it is taken |
| LeadBins.Collect | services/ml/app/calibration.py:95-102 | the loop closes a bin as soon as it holds enough rows, the bins tiling the edges so far |
| LeadBins.Bins | services/ml/app/calibration.py:88-106 | the bins tile all edges; each holds enough rows unless one bin is all there is; none but the last could have ended earlier |
| LeadBins.LeadInItsBin | services/ml/app/inference.py:30-35 | a lead lies above the lower and not above the upper edge of the bin it is given, the outer bins open outwards |
| Conformal.CoversIff | services/ml/app/calibration.py:108-119 | with wide enough gaps the widened row covers an observation exactly when its score is within the factor |
| Conformal.WidenScales | services/ml/app/inference.py:163-168 | widening keeps the median and stretches both gaps by the factor |
| Conformal.FaithfulIffApart | services/ml/app/calibration.py:114-116 | of one row of ordered quantiles, score and coverage agree for every observation and factor exactly when both gaps are at least the guard |
| Conformal.RankIs | services/ml/app/calibration.py:117-119 | which order statistic the quantile takes |
| Conformal.ScaleIsOfRank | services/ml/app/calibration.py:108-119 | the factor is the score of that rank: more scores are at most the factor, and no smaller number has as many |
| Conformal.ConformalCovers | services/ml/app/calibration.py:108-119 | with gaps of at least the guard, widening by the factor covers at least the rows asked for, one more unless that is all |
| Conformal.NarrowGapEscapes | services/ml/app/calibration.py:108-119 | with one narrower gap, observations exist that give a factor of one and leave that row uncovered though all are asked for |
| Conformal.AlwaysCoversIffApart | services/ml/app/calibration.py:108-119 | a calibration set of ordered rows is covered as asked for, whatever is observed and asked, if and only if no gap is narrower than the guard |
| Conformal.OneRowEscapes | services/ml/app/calibration.py:108-119 | one row without gaps, missed at four fifths |
| Conformal.ConformalKeepsOrder | services/ml/app/inference.py:163-168 | the factor is never negative, so widened quantiles stay ordered |
| Conformal.PExceedFalls | services/ml/app/inference.py:144-160 | the probability of exceeding a threshold lies in [0, 1] and never rises with the threshold |
| Conformal.CdfIsEven | services/ml/app/inference.py:144-160 | the distribution rises evenly through the three quantiles and beyond |
| Conformal.PExceedAtQuantiles | services/ml/app/inference.py:144-160 | so they are exceeded with nine tenths, one half and one tenth |
| Ingest.IngestStats.OnFrame | services/backend/app/ingest/stats.py:34-45 | the buckets keep agreeing with the full history at every edge a later window can ask for |
| Ingest.IngestStats.InWindow | services/backend/app/ingest/stats.py:65-69 | the total behind the packet rate is the count of frames in the last ten whole seconds of the full history |
| Ingest.CountIs | services/backend/app/ingest/stats.py:65-69 | the count is the number of frames later than an edge |
| Ingest.DropOldestQueue.Put | services/backend/app/ingest/stats.py:92-100 | a full queue loses exactly its oldest element, counted; the content stays the newest suffix of all puts |
| Ingest.DropOldestQueue.GetNowait | services/backend/app/ingest/stats.py:105-106 | the oldest element is taken, none from an empty queue |
| Ingest.DropOldestQueue.Clear | services/backend/app/ingest/stats.py:111-117 | everything is discarded and its number returned; puts equal taken, dropped, cleared and queued |

## Left out

- Sockets, asyncio tasks, HTTP, SQLite, metrics, logging and JSON models: only the atomic steps between awaits are modelled.
- Floating-point rounding: lengths, times, delays and probabilities are reals; rounding of stored results to one or three digits is left out.
- Coordinates in degrees: a navigation cell holds a sign and the value in units of 1e-7 degree; that rounding a decoded degree value returns the same unit is not part of the model.
- Cell names and named fields: a field is keyed by its column or flag position, the cell's display name is derived and left out.
- Replication.ReplicasAgree: indicators, status and sim time are opaque values the agreement does not speak about, because the server recomputes them at every send; that a client shows those told last is `Client.ShowsLatest`.
- The REST answer to a reaction, which the client also stores directly: it is outside the order of the stream.
- Incident texts, segments, recommendations and the prediction's interval: opaque to the lifecycle.
- AlertPass.PassSafe: a pass that raises midway through a vehicle is not modelled.
- Scheduler.EpochGuard: the wall-clock interval is a given fact of each round; copying the inputs happens in the round that starts the pass.
- scripts/alert_replay.py beyond the run lengths: the simulation and evaluation of policies.
- Matching: match confidence and the counter it depends on; the course is given as sine and cosine, positions as local metres.
- Candidates.Track: distance is a parameter, Euclidean where a nearest point is meant; the choice is proved to be the cheapest, not the true position.
- MatchTrack.PlannedTrackIsChained: a point whose matching raises an error is skipped, as the backend's store does with it; run over a table offline, the error ends the run.
- StopsDetector: the direction of the route at a stop is part of a visit; the square root is a parameter with its defining property where that matters.
- Features: only the part of the track a forecast may depend on; feature values are computed from it and the plan alone.
- ReplayEngine: rows are handed out by index; the copies for cloned units, their links and link losses are left out, and a tick reads the wall clock once.
- SegmentSpeed.Assign: the distance to a segment is a parameter; typical and current speeds and dwell times are left out.
- Conformal: the quantile is that of exact arithmetic; isotonic fitting is left out.
- Ingest.IngestStats.InWindow: the division by the window length and its rounding.
- SimClock: session identifiers are names, or numbers where packets alone started the session; packets of unknown vehicles, which leave the clock alone, are no events.
- Machine-learning models, training, user interface, report and data scripts: their outputs are arbitrary inputs here.
