# quic-hop, modelled and proved in Dafny

quic-hop runs QUIC over a UDP socket that changes its address every time slot and hides the connection IDs
of short-header packets. This project models the protocol core and the task exchange on top of it:

- **Connection-ID hiding.** `Bytes`, `FisherYates`, `SimpleRng`, `CidCodec`: seeded index tables, the
  noise generator, and the self-seeded 16-byte encoding done and undone in place. `CidSession`: the
  receiver's cache (an exact map and a 56-bit prefix index over shared entries) and the server's table of one
  cache per source address. `Transport`: `WriteTo` and `ReadFrom`. `Transparency`: runs of one sender and
  one receiver over a network that loses, repeats and reorders packets, through the bounded receive queue.
  `ManySources`: runs of the server's one queue and its caches with any number of senders. `Endpoints`: the
  same runs played through the connection objects. The header form and the place of the ID follow section 17.3
  of RFC 9000.
- **Port hopping.** `HopClock`: slots, hop delay, prebind target. `Hopping`: the state machine over current,
  next, pending and closed sockets. `HopLoop`: the loop that waits and hops. `Serving`: which addresses are open over
  a run, when binds may fail and slots may share addresses. `LoopServing`: the loop's own sockets are those.
  `Arrival`: the client's double send against the open addresses, with the exact tolerance for a wrong prediction.
- **Clock calibration.** `Calibration`: the three-attempt estimator. `Delivery` puts estimate, prediction and
  open port together.
- **Address masks.** `AddressMask`: 64-of-128-bit masks and their cache.
- **Task exchange.** `Exchange`: two sequential stream programs over two bounded byte streams, and a general
  theorem that two programs following one conversation never deadlock, fail or over-read. `Tasks`: the four
  upload and download routines as such programs. `Transcript`: the very bytes that pass
  and are delivered. `TaskLoops`: the same routines as loops over a stream.

FNV, `math/rand` and address formatting are uninterpreted: the draws of the shuffle are any values in range,
the start words of the noise and the address of a slot are any function. Moments are integers in nanoseconds;
clock reads, bind outcomes, timer lateness, read sizes and packet loss are inputs. Clocks are taken to read after
1970, where Go's truncating division rounds down.

## Results worth reading first

- `Transparency.TransparencyExactly`: with good IDs a run is byte-for-byte transparent *if and only if* no
  scrambled packet is read before its ID is known. The unconditional law is false of the code: an unknown
  wire ID is learnt as real, so a scrambled packet that overtakes the clear ones comes out wrong and
  stays in the cache (`Transparency.OvertakingBreaks`). `Transparency.OrderDecides` states the condition by the order of
  delivery alone: every changed packet after an unchanged one with its ID. `Transparency.ReadFaithful` gives the exact
  condition for one read with any cache.
- `ManySources.SourceSeesItsOwnRun`: every run of a server shared by many senders is, to each of them, a run of its own;
  so sources are isolated (`SourcesAreIsolated`) and the law above holds for each (`SourceTransparency`).
- `Arrival.ToleranceExactly`: for a slot that is served, when hops may be over up to `late` after the slot boundary, the
  client's prediction may be wrong by exactly `-(slot - late)` to `threshold - 1 ms + delay`; a threshold below 1 ms
  counts as 1 ms, because no moment has less than 1 ms left. The hopping loop itself is late by up to 1 ms less 1 ns, its
  timer's lag and the time the hop takes (`LoopServing.LoopStaysOnSchedule`).
- `Arrival.ServedExactly`: with a close delay shorter than a slot, a slot survives all tolerable errors if and only if the
  socket current in it has its address.
  `hop` binds before it retires the previous socket, so a bind fails when the slot has the address of the slot before
  last: `Serving.AllServedExactly` says all slots are served if and only if no address returns after one slot elsewhere.
  Where slots do not share addresses, a bind that fails for another reason costs its own slot and no other
  (`Serving.FailedBindCostsOneSlot`).
- `Delivery.LaunchedServerReceives`: launch, loop and arrival put together.
- `Tasks.UploadRuns`, `Tasks.DownloadRuns`: every run, for every stream capacity and chunking.
  `Transcript.UploadDelivers`, `Transcript.DownloadDelivers`: what each side has read, byte for byte.
- `SimpleRng.StatesRepeat`, `SimpleRng.StatesAllVisited`: full period 2^64.
- `Hopping.OwnershipThroughout`: over all runs of hops and timers. `Hopping.InStepExactly`: over all runs of timely hops.
- `Hopping.LaunchInStepExactly`: `NewServerConn` computes the prebind target from a clock read made before its first
  bind. Clock reads here are whole milliseconds into their slots, rounded down. The "next" socket is for the launch slot
  itself when the second read is at least two further in than the first; it skips a slot when the first read is the last
  of its slot and the second the first of one; otherwise it is for the slot after the launch slot
  (`Hopping.LaunchOutOfStep` has both failures). `Hopping.LaunchByElapsedTime`: the server is in step with the slot of
  the second read if and only if both reads are in one slot and their millisecond readings differ by at most one, which
  they may when almost 2 ms pass.

Where comments and code differ, the model follows the code. The calibration comment calls the three-attempt
result the mean of three sums; two truncating divisions make it so only to within 2 ns, which is what
`Calibration.SyncWithServer` states next to the exact value. The comment on the address hash says session code calls `GenerateMask`;
nothing does.

## Model

| member | source | states |
|---|---|---|
| `Bytes.BitIsShift` | pkg/magic/algo.go:153-154 | the recursive bit test is the source's shift and mask |
| `Bytes.BitAtIsShift` | pkg/magic/algo.go:151-154 | bit j of a byte string is bit j & 7 of byte j >> 3 |
| `Bytes.OrBitAt` | pkg/magic/algo.go:160-163 | OR-ing one bit into a byte array turns on that bit of the row and no other |
| `Bytes.BigEndianRoundTrip` | server/main.go:384-392 | big-endian fields decode to the value encoded, for any width that holds it |
| `Bytes.BigEndianAt` | server/main.go:384-385 | byte i of a field counts 256^(w-1-i) |
| `Bytes.FromBigEndianOnto` | server/main.go:351-354 | every byte string is the field of exactly the value read from it |
| `FisherYates.ShuffleInPlace` | pkg/magic/algo.go:69-72 | the in-place swap loop leaves exactly the shuffle that the draws determine |
| `FisherYates.SwapAt` | pkg/magic/algo.go:71 | two elements change places and no other moves |
| `FisherYates.IdentityAt` | pkg/magic/algo.go:66-68 | the table starts as 0, 1, 2, ... |
| `FisherYates.ShuffleIsPermutation` | pkg/magic/algo.go:65-72 | for any n and any draws in range the table is a permutation of 0..n-1 |
| `FisherYates.ShuffleInjective` | pkg/magic/algo.go:69-72 | distinct draw vectors give distinct arrangements |
| `FisherYates.ShuffleOnto` | pkg/magic/algo.go:69-72 | every arrangement is reached by some draws |
| `SimpleRng.SimpleRNG.Next` | pkg/magic/algo.go:52-55 | advances the state by one wrapping step and returns it |
| `SimpleRng.StepsInNumbers` | pkg/magic/algo.go:52-54 | one step in the generator's own constants |
| `SimpleRng.SimpleRNG.Intn` | pkg/magic/algo.go:56 | one step, then the state modulo n |
| `SimpleRng.DrawIsState` | pkg/magic/algo.go:56-98 | the draw for position i of n is the (n - i)-th state after the seed, modulo i + 1 |
| `SimpleRng.LowBitPeriod` | pkg/magic/algo.go:51-55 | the low k bits of the state repeat after n steps iff 2^k divides n |
| `SimpleRng.StatesRepeat` | pkg/magic/algo.go:51-55 | two moments share a state iff they are a multiple of 2^64 steps apart |
| `SimpleRng.StatesAllVisited` | pkg/magic/algo.go:51-55 | from any seed every 64-bit state occurs within 2^64 steps |
| `AddressMask.MaskWeight` | pkg/magic/algo.go:92-106 | every mask has exactly 64 of its 128 bits set |
| `AddressMask.MaskBits` | pkg/magic/algo.go:92-106 | a bit is set iff its position is among the first 64 of the 128 positions shuffled by those draws |
| `AddressMask.FreshMask` | pkg/magic/algo.go:87-106 | the shuffle and OR loops set exactly the first 64 shuffled positions |
| `AddressMask.MaskCache.GenerateMask` | pkg/magic/algo.go:81-110 | the mask returned and remembered is always the one that would be recomputed |
| `CidCodec.PrecomputeIndices` | pkg/magic/algo.go:58-79 | all 2^16 rows of the table are the shuffles of their seeds' draws |
| `CidCodec.RowIsPermutation` | pkg/magic/algo.go:73-76 | every row is a permutation of 0..111 and survives narrowing to bytes |
| `CidCodec.MakeNoise` | pkg/magic/algo.go:134-143 | noise byte i is byte i mod 8 of generator state 1 + i/8 |
| `CidCodec.EncodedBits` | pkg/magic/algo.go:150-165 | each of the 112 cipher bits by its one writer |
| `CidCodec.NoiseIsOneStep` | pkg/magic/algo.go:134-143 | the noise is the low 56 bits of state * 6364136223846793005 + 1442695040888963407, in 64-bit arithmetic |
| `CidCodec.DecodeEncode` | pkg/magic/algo.go:148-201 | payload and noise are recovered for every noise and permutation, so encoding is one-to-one |
| `CidCodec.EncodeDecode` | pkg/magic/algo.go:148-201 | every 14-byte cipher text is the encoding of exactly what it decodes to, so encoding is onto |
| `CidCodec.ScrambleRoundTrip` | pkg/magic/algo.go:125-209 | decoding a scrambled ID gives its first 7 bytes and 9 zeros, for every ID and seed |
| `CidCodec.ScrambledMeans` | pkg/magic/algo.go:134-169 | all 128 bits on the wire: the seed, high byte first; noise bits at the row's second half; noise plus ID bits at its first half |
| `CidCodec.UnscrambledMeans` | pkg/magic/algo.go:185-208 | bit i recovered is the sum of the two wire bits that the row of the wire's seed points to; 9 zero bytes follow |
| `CidCodec.Codec.Obfuscate` | pkg/magic/algo.go:125-170 | rewrites the 16 bytes to the big-endian seed and the bijective encoding of the first 7 |
| `CidCodec.Codec.Deobfuscate` | pkg/magic/algo.go:180-209 | rewrites any 16 bytes to the one payload they decode to, then zeros |
| `CidSession.PrefixHashFaithful` | pkg/magic/session.go:80-87 | the prefix hash is below 2^56, zero only for zero prefixes, and otherwise equal iff the first 7 bytes match |
| `CidSession.PrefixHashValue` | pkg/magic/session.go:80-87 | the hash is the 7 bytes read lowest first |
| `CidSession.LookupFindsLatest` | pkg/magic/session.go:66-77 | a lookup yields the most recently first-added ID matching the query's 7 bytes, and nothing for the zero prefix |
| `CidSession.LookupAfterAdds` | pkg/magic/session.go:25-77 | after any sequence of additions a lookup yields exactly the ID, among those with the query's first 7 bytes, that was first added last |
| `CidSession.CidCache.AddReal` | pkg/magic/session.go:25-42 | appends an unknown ID to the list the cache represents and leaves a known one; both maps keep sharing entries |
| `CidSession.CidCache.FindByReal` | pkg/magic/session.go:45-52 | exact membership in that list |
| `CidSession.CidCache.FindByDecoded56` | pkg/magic/session.go:66-77 | agrees with the list lookup |
| `CidSession.ServerSessionMap.GetCache` | pkg/magic/session.go:106-115 | returns the address's own cache, sharing no object with any other, and changes nothing that is known |
| `CidSession.ServerSessionMap.AddRealFor` | pkg/magic/conn.go:239-263 | learning an ID for one address leaves every other address's cache as it was |
| `Transport.MagicConn.Offer` | pkg/magic/conn.go:138-144 | a datagram joins the queue's end iff fewer than 2048 wait and the closed arm is not taken; otherwise it is dropped |
| `Transport.MagicConn.Close` | pkg/magic/conn.go:342-345 | closes the connection for reads and leaves the queue |
| `Transport.LeftAlone` | pkg/magic/conn.go:218-229 | long headers and packets under 17 bytes go out and come in untouched, uncounted and unlearnt |
| `Transport.EmitInBytes` | pkg/magic/conn.go:271-293 | a short-header packet is counted under its bytes 1..16, which are scrambled once ten have been counted and hiding is on |
| `Transport.ReadInBytes` | pkg/magic/conn.go:231-265 | what a read returns and learns of bytes 1..16, by whether they are known, decode to a known ID, or neither |
| `Transport.MagicConn.WriteTo` | pkg/magic/conn.go:268-293 | counts the packet under its ID and rewrites the buffer in place exactly when due |
| `Transport.MagicConn.Classify` | pkg/magic/conn.go:244-255 | the clear match decides first, then the decoded prefix |
| `Transport.MagicConn.ReadFrom` | pkg/magic/conn.go:199-266 | buffer, length, address, cache and which error after each kind of packet; other addresses' caches unchanged |
| `Transparency.ReceivedIsRestored` | pkg/magic/conn.go:255-259 | the caller's buffer is the restored packet cut to the buffer, with no byte beyond it touched |
| `Transparency.LearntFullLength` | pkg/magic/conn.go:231-263 | only IDs of full length are learnt, so the cut above is always the restored packet |
| `Transparency.ReadFaithful` | pkg/magic/conn.go:244-265 | exactly when one read gives back the packet written, for any cache |
| `Transparency.ReadAmongGood` | pkg/magic/conn.go:244-265 | among good IDs a read is faithful iff it is in order, and then only real IDs are learnt |
| `Transparency.TrafficIsGood` | pkg/magic/conn.go:138-144 | over every run, whatever is queued or delivered was written, and the queue stays within 2048 |
| `Transparency.TransparencyExactly` | pkg/magic/conn.go:199-306 | a run over the faulty network, from any known good IDs, is transparent iff no scrambled packet is read before its ID is known; then the cache holds only real IDs |
| `Transparency.OrderDecides` | pkg/magic/conn.go:199-306 | the same by order of delivery alone: transparent iff every changed packet comes after a clear one with its ID, and then the cache is what the clear ones showed |
| `Transparency.OvertakingBreaks` | pkg/magic/conn.go:262-265 | for every secret and short-header packet, a run in which the scrambled copy overtakes the clear ones is not transparent |
| `Transparency.QueueIsFifo` | pkg/magic/conn.go:119-146 | over every run, delivered and waiting packets are exactly the accepted ones, in order of arrival |
| `Transparency.ReadsDecide` | pkg/magic/conn.go:199-266 | over every run, results and cache follow from the datagrams read, in their order |
| `Transparency.CountsAreOccurrences` | pkg/magic/conn.go:278-285 | over every run the counter of an ID is the number of its short-header packets so far |
| `Transparency.WarmUpExactly` | pkg/magic/conn.go:278-291 | in every run the j-th short-header packet of an ID is untouched iff j <= 10 or hiding is off; later ones differ only in the ID and are classified alike |
| `Transparency.SentIsWritten` | pkg/magic/conn.go:268-304 | over every run the packets sent are the packets written, in order |
| `ManySources.SourceSeesItsOwnRun` | pkg/magic/session.go:104-115 | every run of the shared server and its one queue is, to each source, a run of that sender and receiver alone |
| `ManySources.SourcesAreIsolated` | pkg/magic/session.go:106-115 | in any two runs with any other traffic, a source whose packets are read in the same order gets the same results and the same known IDs |
| `ManySources.SourceTransparency` | pkg/magic/conn.go:199-306 | the central law for each source of a shared server, whatever IDs the others use |
| `Endpoints.PlayRun` | pkg/magic/conn.go:199-306 | any run played through a sender's and a receiver's connection delivers and learns what the run model says |
| `Endpoints.PlayHub` | pkg/magic/conn.go:199-306 | the same for a server connection and any number of senders |
| `HopClock.HopLandsInNextSlot` | pkg/magic/algo.go:31-36 | waiting the hop delay lands in the next slot, as far after its start as the clock was after a full millisecond |
| `HopClock.PrebindTargetsNextSlot` | pkg/magic/conn.go:179 | the prebind target is the slot after the second clock read iff the two floored reads are close enough |
| `HopClock.PrebindByPosition` | pkg/magic/conn.go:79 | for any two reads, the prebound slot is the first read's, the next, or the one after, decided by how far into their slots the reads are |
| `HopClock.GoDivMeans` | pkg/magic/calibration.go:116-149 | division truncates: the remainder is below the divisor and never has the other sign than the dividend |
| `HopClock.SlotInNumbers` | pkg/magic/algo.go:17-18 | the slot of a moment is its milliseconds divided by the slot's |
| `Hopping.HoppingConn.constructor` | pkg/magic/conn.go:64-87 | the sockets NewServerConn leaves, with and without a successful prebind |
| `Hopping.LaunchMeans` | pkg/magic/conn.go:64-87 | which sockets a launch holds, for either setting and bind outcome |
| `Hopping.HoppingConn.Hop` | pkg/magic/conn.go:161-196 | the whole new socket state of one hop, for any bind outcome |
| `Hopping.HopMeans` | pkg/magic/conn.go:161-196 | which socket a hop promotes, retires (and until when) and binds, for every outcome |
| `Hopping.HoppingConn.CloseExpired` | pkg/magic/conn.go:191-194 | a closing goroutine closes exactly its socket |
| `Hopping.TimerClosesItsSocket` | pkg/magic/conn.go:190-194 | a timer closes the very socket it was started for and changes nothing in use |
| `Hopping.TimersOnlyClose` | pkg/magic/conn.go:161-196 | over every run, current and next are what the hops alone make them, and what is pending or closed is exactly what they retired |
| `Hopping.ClosedWereRetired` | pkg/magic/conn.go:189-195 | every socket closed in a run was current until a hop of that run replaced it |
| `Hopping.OwnershipThroughout` | pkg/magic/conn.go:161-196 | in every run every bound socket is in exactly one of current, next, pending and closed |
| `Hopping.OwnedMeans` | pkg/magic/conn.go:189-195 | so nothing in use is scheduled to close, and nothing is closed twice |
| `Hopping.AtMostThreeOpen` | pkg/magic/conn.go:189 | with hops at least the close delay apart at most three sockets are open |
| `Hopping.LaunchInStepExactly` | pkg/magic/conn.go:64-82 | for any two clock reads, exactly when a new server prebinds the launch slot itself, the next one, or skips one |
| `Hopping.LaunchByElapsedTime` | pkg/magic/conn.go:64-82 | in step with the slot of the second read iff both reads are in one slot and their millisecond readings differ by at most 1; with the launch slot also when a boundary is crossed more slowly |
| `Hopping.LaunchOutOfStep` | pkg/magic/conn.go:64-82 | concrete launches that skip a slot and that prebind their own |
| `Hopping.SelfStabilises` | pkg/magic/conn.go:161-187 | from any state two timely consecutive hops with successful binds put current on this slot and next on the following |
| `Hopping.InStepExactly` | pkg/magic/conn.go:161-187 | hopping every slot, the server is in step iff its last two binds succeeded |
| `Hopping.NoPrebindNoHop` | pkg/magic/conn.go:172-178 | with prebinding off the first socket is used for ever |
| `HopLoop.ServerHoppingLoop` | pkg/magic/conn.go:149-159 | the loop leaves the sockets that the hops of its turns determine, for any lags, durations and bind outcomes |
| `HopLoop.TurnHopsInNextSlot` | pkg/magic/conn.go:149-159 | one turn wakes in the next slot, as far in as its clock read was after a full millisecond, plus the timer's lag |
| `HopLoop.LoopReads` | pkg/magic/conn.go:149-158 | the loop reads its clock at its start and when each hop is over |
| `HopLoop.LoopHopsEverySlot` | pkg/magic/conn.go:149-196 | over any number of turns, prompt timers and hops mean one timely hop in every slot |
| `HopLoop.LoopStaysInStep` | pkg/magic/conn.go:149-196 | from any sockets, the loop is in step after two successful binds, and if started in step only then |
| `Serving.ListeningExactly` | pkg/magic/conn.go:161-196 | which slots' sockets are open at a moment, derived from the run of the hop machine, whichever binds fail and whatever addresses coincide |
| `Serving.BindOutcome` | pkg/magic/conn.go:178-190 | a hop's bind fails exactly when something else fails it or one of the last two current sockets has the new address |
| `Serving.ReturnIsUnserved` | pkg/magic/conn.go:178-195 | a slot with the address of the slot before last, but not the last one's, is not served |
| `Serving.AllServedExactly` | pkg/magic/conn.go:161-196 | if binds fail only where the server holds the address itself, all slots are served iff no address returns after one slot elsewhere |
| `Serving.FailedBindCostsOneSlot` | pkg/magic/conn.go:180-187 | without shared addresses a slot is served iff its own bind succeeded: one failure costs one slot |
| `LoopServing.LoopStaysOnSchedule` | pkg/magic/conn.go:149-159 | the whole run of a prompt loop hops once in every slot and is done, bind included, at most `late` after its start |
| `LoopServing.LoopSockets` | pkg/magic/conn.go:149-196 | after any number of turns the loop's own sockets are those of the run that the coverage results speak of |
| `LoopServing.LaunchedServerRuns` | pkg/magic/conn.go:53-93 | a launch whose reads and loop start are in one slot, the millisecond readings at most 1 apart, followed by a prompt loop, meets the assumptions of the coverage results with its own sockets |
| `Arrival.ClientWrite` | pkg/magic/conn.go:308-328 | the destinations are exactly the addresses of the target slots, without repeats |
| `Arrival.TargetsMean` | pkg/magic/conn.go:313-326 | a packet goes to its slot, and to the next too exactly when less than the threshold is left of it |
| `Arrival.Coverage` | pkg/magic/conn.go:308-328 | with hops over at most `late` after the boundary, every packet for a served slot and every error within the tolerance meets an open address, whichever other binds fail |
| `Arrival.ServedExactly` | pkg/magic/conn.go:161-196 | for any addresses and failing binds, all packets of a slot survive all tolerable errors iff the slot is served |
| `Arrival.ToleranceExactly` | pkg/magic/conn.go:308-328 | over all worlds that serve the slot and all hops within `late` of the boundary, all its packets survive an error iff it is within [-(slot - late), threshold - 1 ms + delay] |
| `Calibration.DeltaPlusHalf` | pkg/magic/calibration.go:131-133 | delta plus half the round trip is receive clock minus send clock, whatever the path asymmetry |
| `Calibration.TruncatedMean` | pkg/magic/calibration.go:146-149 | the truncated averages are within 2 ns of the exact mean |
| `Calibration.ReplyMeans` | pkg/magic/calibration.go:53-59 | the server answers 0 exactly when the stamp is its own clock |
| `Calibration.SyncWithServer` | pkg/magic/calibration.go:103-152 | the answer on every path, to the nanosecond: fixed answers, the last sample exactly, or the twice truncated mean, which is within 2 ns of the exact one |
| `Calibration.AnswerByPath` | pkg/magic/calibration.go:111-152 | which answer each combination of losses and agreements gives, in the probes' own readings |
| `Calibration.AlignedIsExact` | pkg/magic/calibration.go:53-128 | a confirmed stamp means the estimate is that probe's own forward difference, unless the prediction was negative |
| `Calibration.EstimateError` | pkg/magic/calibration.go:111-152 | an estimate is off by at most the samples' spread and 1 ns |
| `Delivery.CalibratedPacketReaches` | client/main.go:174-178 | calibrate, predict, send: a packet for a served slot reaches an open address while its jitter stays within the tolerance less 1 ns |
| `Delivery.LaunchedServerReceives` | pkg/magic/conn.go:53-196 | a launched server with a prompt loop receives every packet within the tolerance unless an address returns after one slot elsewhere |
| `Exchange.NoOverRead` | server/main.go:363-372 | a bulk loop never has more bytes before it than it still expects |
| `Exchange.MovesAllowed` | server/main.go:361-372 | a party may write any part that fits and read any part that waits, up to what it asked for |
| `Exchange.EndOfStream` | server/main.go:363-371 | at the end of its stream a full read fails and a bulk loop leaves with its count |
| `Exchange.MoveKeepsTune` | server/main.go:346-461 | every move keeps half duplex and agreement on the rest of the conversation, and uses up work |
| `Exchange.Progress` | server/main.go:346-461 | some move is enabled unless both parties have finished |
| `Exchange.ConversationRuns` | server/main.go:346-461 | two programs of one conversation: safe at every point of every run, bounded, and finished when stuck |
| `Tasks.ChunksMean` | client/main.go:305-317 | data goes out in writes of 64 KiB, the last one shorter |
| `Tasks.ClientPlaysUpload` | client/main.go:280-343 | the client's upload follows the upload conversation |
| `Tasks.ServerPlaysUpload` | server/main.go:346-403 | the server, told to upload, follows it too and ends with the announced byte count and the client's loss |
| `Tasks.ClientPlaysDownload` | client/main.go:345-406 | the client's download follows the download conversation and ends with the size it asked for |
| `Tasks.ServerPlaysDownload` | server/main.go:405-461 | the server, told to download, follows it too and ends with the client's loss |
| `Tasks.UploadRuns` | server/main.go:305-403 | every upload run: half duplex, no over-read, no failure, at most 2n+56 moves, both sides finish with the right outcome |
| `Tasks.DownloadRuns` | server/main.go:405-461 | the same for download |
| `Transcript.WholeConversation` | server/main.go:346-461 | every finished run has said its conversation word for word |
| `Transcript.StreamsKeepOrder` | server/main.go:346-461 | over every run each stream is first in, first out |
| `Transcript.UploadDelivers` | client/main.go:288-341 | in a finished upload the server has read type 1, the size, the client's very data and its loss; the client two acknowledgements, the speed and a third |
| `Transcript.TurnsOfUpload` | client/main.go:288-341 | who says what after what in an upload |
| `Transcript.DownloadDelivers` | server/main.go:405-461 | in a finished download the client has read the size, bytes 100, 101, ... modulo 256, and an acknowledgement; the server type 2, size, speed and loss |
| `Transcript.TurnsOfDownload` | client/main.go:353-403 | who says what after what in a download |
| `TaskLoops.ReceiveBulk` | server/main.go:361-372 | the receive loop ends with received equal to expectedSize, for any chunking |
| `TaskLoops.SendBulk` | client/main.go:305-317 | the chunked send loop sends exactly the data |
| `TaskLoops.HandleSingleTask` | server/main.go:305-344 | known task types are carried out to their end; any other type byte is an error after which nothing more is read |
| `TaskLoops.RunUploadServer` | server/main.go:346-403 | carries out the server's upload program and returns its outcome |
| `TaskLoops.RunDownloadServer` | server/main.go:405-461 | carries out the server's download program and returns its outcome |
| `TaskLoops.RunUploadClient` | client/main.go:280-343 | carries out the client's upload program |
| `TaskLoops.RunDownloadClient` | client/main.go:345-406 | carries out the client's download program and returns the bytes received |

## Left out

- `MagicConn` is split in two classes, `Transport.MagicConn` for packets and `Hopping.HoppingConn` for sockets; the final socket call of `WriteTo`, its closed-socket error and the closing of sockets by `Close` are not modelled.
- Serving.ListeningExactly: old sockets are closed exactly when due, and the close delay with `late` fits into a slot; a closing goroutine that is itself late is not covered.
- Real sockets, goroutines, locks, `select` and `sync.Pool`: a hop is one atomic step, reads and writes are sequential, and a hop racing with `Close` is not covered.
- Transport.MagicConn.Offer: models datagrams only; the blocking send of a socket error into the queue is not modelled.
- Byte slices handed out by the cache are values here, so aliasing of the returned `real` slice with the entry is not captured.
- FNV, `math/rand` and address strings are uninterpreted; nothing is said about how hard the hidden IDs are to recover.
- Calibration.SyncWithServer: int64 wrap-around is not modelled; nanosecond clocks fit until 2262.
- HopClock.HopLandsInNextSlot: for clocks before 1970 Go's remainder is negative and the delay longer than a slot; only non-negative clocks are covered.
- The exchange covers streams without faults; write errors, resets and deadlines are not modelled, and the speed and loss figures are arbitrary 64-bit values, since floating point, CPU and loss statistics are left out.
- The calibration client's dial failure, which returns 0 at once, and probes shorter than 8 bytes, which it never sends.
- TLS, random connection IDs, flags, printing, CSV, `sync.go`, `cpumon`, and the retry and auto-slot drivers.
- quic-go itself and its qlog tracers.
- `SetDeadline` stubs, `LocalAddr` and `GetReals`, which would only add easy members.
