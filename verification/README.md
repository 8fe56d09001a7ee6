# Dragonboat, modelled and proved in Dafny

A model of the parts of dragonboat, a multi-group Raft library, whose correctness rests on several
functions working together, and proofs of what they promise over every input and every run:

- **Entry codec and framing** (`Bits`, `EntryFormat`, `EntryRoundTrip`, `EntryStability`,
  `EntryCanonical`, `EntryCodec`, `Framing`, `FramingRecords`, `FramingSkip`, `FramingWraps`,
  `FramingPrescan`, `FramingRoundTrip`, `FramingCodec`, `FramingEnvelope`, `WireBytes`). The Colfer form of a Raft
  entry inside Protocol Buffers records. `EntryFormat` and `Framing` say what the bytes are, `Framing`
  also what the code makes of them with its 64-bit ints; the codec modules hold the loops that
  compute sizes, write buffers in place and scan bytes, each proved against them.
- **Queues and wake-ups** (`DoubleBuffer`, `EntryQueue`, `ReadQueue`, `ReadyCluster`). Two arrays behind a bounded
  FIFO, and two maps behind a set of ready clusters with a one-token channel.
- **Request tracking** (`PendingReads`, `LinearizableReads`, `ReadTimeouts`, `ReadContexts`, `Proposals`,
  `ProposalRuns`, `ConfigChanges`, on the ticks of `Clock`). The client side of linearizable reads, section 6.4 of Ongaro's thesis "Consensus:
  Bridging Theory and Practice", the proposal tables and the membership change tracker.
- **Workers of a node** (`SnapshotHandoff`, `PublishedStream`, `ExecNodes`, `Compaction`). The hand-off
  of a node between commit and snapshot workers, the stream of committed entries, the order of
  sending, saving and publishing, and the compaction of snapshots and log.
- **Drummer's control loop** (`ClusterImage`, `ImageConvergence`, `ImageTicks`, `NodeHostImage`,
  `Repair`, `Placement`, `Scheduler`, `ClosedLoop`, `LoopSchedule`, `LoopRepairs`). The image built from
  reports, the repair decisions, the choice of hosts, and the loop they close with Raft.

Objects that the source updates in place are classes whose methods are proved to take their state to
the one given by a function of a state value (`ensures Now() == old(Now()).Update(h)`). Concurrency is
a machine over such values: `Enabled` says when a step is possible, `Next` what it does, `Run` follows
a list of steps, and the theorems hold of every run.

What the machines take from parts that are not modelled:

- `LinearizableReads`: random system contexts never repeat; Raft confirms a context it was given, at an
  index not below the commit index of the moment it was given; an index reported as applied has been.
- `ProposalRuns`, `ConfigChanges`: random keys never repeat.
- `PublishedStream`: committed batches have consecutive indexes.
- `Compaction`: the log database lists snapshots in ascending order.
- `ClosedLoop`: Raft accepts a membership change only when the index it names is the current one
  (ordered configuration changes), a complete report shows a configuration Raft had, a new node id has
  not been used before in its cluster, and clusters start at their launched size on different hosts.
  Reports may be late, a round may use any context ever handed out, and a request may be lost, delayed
  or delivered again. The schedules of `LoopRepairs` keep, besides, to the database's own clock and to
  reports of nodes that were launched, created or have reported before.

Where the code and its promises part, the code is modelled and the exact condition is proved:

- A record of exactly the size limit is written but not read back; below it every record is
  (`RoundTripExactly`, `LimitIsReached`).
- Accepted bytes need not be the encoder's own, not even at the same size (`SameSizeOtherBytes`); a
  test on the bytes of each field decides it (`CanonicalExactly`).
- The pre-scan that sizes the entry list of a message has no bounds checks: it can panic or never end
  on bytes the format merely rejects (`PanicInput`, `HangInput`). A negative length alone decides
  nothing (`BackwardYetReturns`).
- The decoders add a length to a position in a 64-bit int. A record that would end past the largest
  one makes them panic where the format says the input is too short (`MessagePanics`, `BatchPanics`);
  in an undeclared field they report a bad length instead (`MessageMisreports`). The message decoder
  does what the format says if and only if the pre-scan ends inside the input and no field it reaches
  would end past the largest int (`ReturnsExactly`), the batch decoder if and only if no field it
  reaches would (`BatchReturnsExactly`); both hold of everything the marshallers write
  (`MessageRoundTrip`, `BatchRoundTrip`).
- The publishing guards refuse a correct batch exactly at the last 64-bit index (`AcceptsExactly`,
  `RefusedAtLastIndex`).
- The timeout bound fails for a caller that sleeps between computing its deadline and entering the
  table (`OverdueLingers`); `TimeoutExactly` says for which waiting proposals it holds, and with
  proposing as one step it holds for all (`AtomicTimeoutBound`). For reads it fails in the same way
  (`LateReadLingers`) and `ReadTimeoutExactly` says when.
- A read context confirmed only after a collection has passed its time is never forgotten
  (`ContextKeptExactly`).
- Adding a node costs the quorum of an odd cluster with a bare majority (`AddMayCostQuorum`).

## Model

| member | source | states |
|---|---|---|
| EntryRoundTrip.DecodeEncode | raftpb/raft_optimized.go:160-650 | every entry whose record is shorter than the limit reads back from its record followed by anything, with the record's length as the count |
| EntryRoundTrip.DecodeAtLimit | raftpb/raft_optimized.go:639-650 | a record of exactly the limit is written but refused by the decoder |
| EntryRoundTrip.RoundTripExactly | raftpb/raft_optimized.go:642-649 | of the entries the encoder accepts, exactly those with a record below the limit read back |
| EntryRoundTrip.LimitIsReached | raftpb/raft_optimized.go:138-152 | a payload six bytes short of 2^28 makes a record of exactly the limit of 2^28 |
| EntryRoundTrip.EncodePrefixFree | raftpb/raft_optimized.go:160-294 | records of different entries are never prefixes of one another, whatever follows |
| EntryRoundTrip.Uint64Reads | raftpb/raft_optimized.go:309-346 | an integer field reads back wherever it was written, on both sides of the switch at 2^49 |
| EntryRoundTrip.KindReads | raftpb/raft_optimized.go:386-442 | the entry type reads back from sign and magnitude, down to -2^31 |
| EntryRoundTrip.CmdReads | raftpb/raft_optimized.go:598-637 | the payload reads back after its length |
| WireBytes.EntryByName | raftpb/raft_optimized.go:160-294 | the record of every entry, byte for byte: term, index, type, key, client, series, responded-to and payload, each under its own header and in that order, closed by 0x7f |
| WireBytes.FixedByte | raftpb/raft_optimized.go:26-26 | byte i of the fixed form of x is x / 2^(8(7-i)) mod 256: most significant first |
| WireBytes.FixedReads | raftpb/raft_optimized.go:309-346 | what the decoder reads in the fixed form is the sum of the eight bytes times those powers, or the end of the input |
| WireBytes.FixedExample | raftpb/raft_optimized.go:163-166 | the ten bytes of the entry of term 2^49 |
| WireBytes.UvarintBytes | raftpb/raft_optimized.go:167-177 | a varint is its value's 7-bit groups, least significant first, all but the last marked |
| WireBytes.FieldExact | raftpb/raft_optimized.go:311-335 | on every byte string the varint of an integer field is the weighted sum of its groups up to an unmarked byte or the ninth, or the end of the input |
| WireBytes.LengthExact | raftpb/raft_optimized.go:598-637 | the same for the length of the payload, without the ninth |
| WireBytes.HeaderErrorAt | raftpb/raft_optimized.go:639-650 | an unexpected header is reported with its position |
| EntryStability.EncodeNoLonger | raftpb/raft_optimized.go:302-650 | the bytes an accepted input consumes are within it, and the encoding of the entry read is no longer, canonical input or not |
| EntryStability.DecodeEncodeDecode | raftpb/fuzz.go:24-49 | whatever the decoder accepts, encoding the result and decoding again gives the same entry |
| EntryCanonical.CanonicalExactly | raftpb/raft_optimized.go:302-650 | the bytes an accepted input consumed are the encoder's own if and only if every field passes a test on its bytes: at most seven groups or 2^49 and up, no empty last group, a magnitude that fits its sign, a payload length of 64 bits |
| EntryCanonical.FieldCanonical | raftpb/raft_optimized.go:309-637 | the same for one field |
| EntryCanonical.VarintBytes | raftpb/raft_optimized.go:315-333 | a varint is the shortest of its value exactly when its last group is not zero |
| EntryStability.SameSizeOtherBytes | raftpb/raft_optimized.go:309-346 | an accepted input of the encoder's size that is not the encoder's output: size does not decide canonicity |
| EntryStability.VarintFits | raftpb/raft_optimized.go:315-333 | a varint cut at its ninth group always fits 64 bits |
| EntryFormat.GetFieldsStuck | raftpb/raft_optimized.go:302-650 | once input ran out no later field changes anything |
| EntryCodec.OrTruncates | raftpb/raft_optimized.go:315-333 | accumulating groups with shift and "or" in a register is addition modulo its width |
| EntryCodec.GroupByte | raftpb/raft_optimized.go:170-176 | truncating x with bit 7 set to a byte gives 0x80 plus the low seven bits |
| EntryCodec.EntrySize | raftpb/raft_optimized.go:78-152 | the computed size is the length of the record, or a panic when that exceeds the limit |
| EntryCodec.MarshalTo | raftpb/raft_optimized.go:160-294 | the buffer holds the record at the offset and nothing else changed; the count is the record's length; which bytes these are is `WireBytes.EntryByName` |
| EntryCodec.PutVarint | raftpb/raft_optimized.go:170-176 | the varint loop writes exactly the groups of the value, and nothing else |
| EntryCodec.PutFixed | raftpb/raft_optimized.go:163-166 | the eight bytes of the fixed form, most significant first |
| EntryCodec.ScanVarint | raftpb/raft_optimized.go:310-333 | the varint loop computes the value, position or end of input the format says, within 64 bits |
| EntryCodec.Unmarshal | raftpb/raft_optimized.go:302-650 | on every byte string, with every index in bounds, the outcome the format prescribes: entry and count, or which error |
| FramingRoundTrip.BatchRoundTrip | raftpb/raft.pb.go:2978-3058 | an entry batch decodes from its bytes to the same entries in order |
| FramingRoundTrip.MessageRoundTrip | raftpb/raft_optimized.go:653-977 | a message decodes from its bytes to the same message, entries in order, and the call always gets past its pre-scan |
| FramingRecords.EntryCountExact | raftpb/raft_optimized.go:979-1012 | on marshalled bytes the pre-scan after the first entry, plus one, is the number of entries |
| FramingRecords.CountsRun | raftpb/raft_optimized.go:979-1047 | a run of records of one field, whatever they hold, is counted exactly |
| FramingRecords.MessageCountExact | raftpb/raft_optimized.go:1014-1047 | on a marshalled message batch the pre-scan after the first message, plus one, is the number of messages |
| FramingPrescan.PrescanExact | raftpb/raft_optimized.go:979-1012 | on every slice: the pre-scan counts what it jumps over before it ends, indexes outside exactly when some jump takes it there, and is given up exactly when it would jump for ever |
| FramingPrescan.EndlessJumpsBack | raftpb/raft_optimized.go:992-1005 | only a jump backward, by a negative length, makes it endless |
| FramingPrescan.ReturnsExactly | raftpb/raft_optimized.go:890-903 | on every byte string the decoder gives what the format prescribes if and only if the pre-scan, where an entry is reached, ends inside the input and no field reached would end past the largest int |
| FramingWraps.BatchReturnsExactly | raftpb/raft.pb.go:3015-3051 | on every byte string the batch decoder gives what the format prescribes if and only if no field it reaches would end past the largest int |
| FramingWraps.MessagePanics | raftpb/raft_optimized.go:890-903 | ten bytes on which the message decoder panics and the format reports a short input |
| FramingWraps.BatchPanics | raftpb/raft.pb.go:3026-3036 | ten bytes on which the batch decoder panics and the format reports a short input |
| FramingWraps.MessageMisreports | raftpb/raft_optimized.go:957-970 | ten bytes whose undeclared field the decoder reports as of a bad length and the format as cut short |
| FramingPrescan.PanicInput | raftpb/raft_optimized.go:979-992 | an input with a format error on which the pre-scan panics instead |
| FramingPrescan.HangInput | raftpb/raft_optimized.go:992-1005 | an input on which the pre-scan never ends |
| FramingPrescan.BackwardYetReturns | raftpb/raft_optimized.go:992-1009 | an input with a negative length on which it ends all the same |
| FramingRecords.EntryBound | raftpb/raft_optimized.go:70-75 | the size of an entry is within its declared upper limit |
| FramingRecords.BatchBound | raftpb/raft_optimized.go:57-68 | the size of an entry batch is within its declared upper limit, for every list |
| FramingRecords.MessageBound | raftpb/raft_optimized.go:1203-1216 | the size of a message is within its declared upper limit |
| FramingRecords.MessageBatchBound | raftpb/raft_optimized.go:1218-1226 | the size of a message batch is within its declared upper limit |
| FramingSkip.FieldSkipped | raftpb/raft.pb.go:5139-5237 | any well-formed field, nested groups included, is skipped to exactly its end |
| FramingRoundTrip.CountOfItems | raftpb/raft_optimized.go:979-1012 | on any sequence of well-formed fields the pre-scan ends, having counted the entries at its start |
| FramingRoundTrip.ItemsDecode | raftpb/raft_optimized.go:653-977 | declared fields in any order, with undeclared ones anywhere, decode to the declared ones alone, pre-scan included |
| FramingRoundTrip.UndeclaredFieldsIgnored | raftpb/raft_optimized.go:957-970 | a message decodes the same with any undeclared fields before, between and after its own |
| FramingRoundTrip.UndeclaredFieldsIgnoredInBatch | raftpb/raft.pb.go:3038-3051 | an entry batch decodes the same with any undeclared fields before, between and after its entries |
| FramingCodec.SkipRaft | raftpb/raft.pb.go:5139-5237 | on every byte string the position after the field, or its error; an end beyond the largest int included |
| FramingCodec.Sov | raftpb/raft.pb.go:2347-2356 | the computed length of a varint is the number of its groups |
| FramingCodec.BatchSize | raftpb/raft.pb.go:2131-2144 | the computed size is the length of the batch's bytes |
| FramingCodec.MessageSize | raftpb/raft.pb.go:2219-2245 | the computed size is the length of the message's bytes |
| FramingCodec.MarshalBatch | raftpb/raft.pb.go:1559-1577 | the buffer starts with the batch's bytes and keeps the rest |
| FramingCodec.MarshalMessage | raftpb/raft.pb.go:1747-1811 | the buffer starts with the message's bytes and keeps the rest |
| FramingCodec.ScanGroups | raftpb/raft.pb.go:2984-2997 | the varint loop reads the groups the encoding prescribes, modulo 2^64, or its error |
| FramingCodec.UnmarshalBatch | raftpb/raft.pb.go:2978-3058 | on every byte string the outcome of the decoder, the panic of an end past the largest int included |
| FramingCodec.UnmarshalMessage | raftpb/raft_optimized.go:653-977 | on every byte string the outcome of the decoder with its pre-scan: a panic or an endless scan there, and the panic of an end past the largest int, are outcomes of their own |
| FramingEnvelope.UnmarshalMessageBatch | raftpb/raft_optimized.go:1050-1201 | on every byte string the outcome of the message batch decoder, its own pre-scan and that of each message included |
| FramingEnvelope.MessageBatchRoundTrip | raftpb/raft_optimized.go:1050-1201 | a message batch decodes from its bytes to the same messages in order, deployment id, source address and version |
| WireBytes.MessageByName | raftpb/raft.pb.go:1747-1811 | the bytes of every message: each field by name under its own tag, in order |
| WireBytes.MessageReadsByName | raftpb/raft_optimized.go:653-888 | any 64-bit value under the tag of a scalar field is read into that field: the type from its low 32 bits, a rejection from anything but zero |
| WireBytes.BatchByName | raftpb/raft.pb.go:1559-1577 | an entry batch is a run of records tagged 0x0a |
| WireBytes.MessageBatchByName | raftpb/raft.pb.go:1929-1962 | the bytes of every message batch: its messages, deployment id, source address and version under their tags |
| WireBytes.GroupsExact | raftpb/raft.pb.go:2984-2997 | on every byte string a varint is what ends within ten bytes; one that goes on overflows, one cut short is the end of the input |
| WireBytes.TagExact | raftpb/raft.pb.go:2998-3005 | a tag's wire type and field number in terms of its bytes, with the two refusals |
| FramingCodec.CountRecords | raftpb/raft_optimized.go:979-1047 | on every slice the pre-scan counts, panics or is endless as specified, negative lengths and wrapped positions included |
| EntryQueue.EntryQueue.constructor | queue.go:36-44 | an empty queue with two arrays of the given size |
| EntryQueue.EntryQueue.Add | queue.go:62-77 | the entry goes to the buffer in write or is refused; a slice handed out is not in the frame |
| EntryQueue.EntryQueue.Gc | queue.go:79-92 | which payloads are dropped |
| EntryQueue.EntryQueue.Get | queue.go:94-105 | hands out the filled prefix and switches buffers |
| EntryQueue.QueueRefinesFifo | queue.go:36-105 | over every run the queue answers exactly as a bounded FIFO drained whole |
| EntryQueue.DrainedSliceStable | queue.go:62-105 | a drained slice keeps its contents through any additions until the next drain |
| EntryQueue.RunNoRetention | queue.go:79-105 | freeing on every cycle, no run leaves a payload outside the two live prefixes |
| EntryQueue.QueueFromNew | queue.go:36-105 | both of these from an empty queue on |
| EntryQueue.FreedEveryNth | queue.go:79-105 | freeing every n cycles, each drain that is a multiple of n leaves no payload in the buffer producers go on with; freeing never, no drain changes one |
| ReadQueue.ReadIndexQueue.Add | queue.go:148-163 | the read goes to the buffer in write or is refused, as the FIFO answers |
| ReadQueue.ReadIndexQueue.Get | queue.go:165-173 | hands out what the FIFO drains and switches buffers |
| DoubleBuffer.RefinesFifo | queue.go:117-173 | over every run two buffers that take turns answer exactly as a bounded FIFO drained whole |
| DoubleBuffer.DrainedBatchStable | queue.go:148-173 | a drained batch keeps its contents through any additions until the next drain |
| ReadQueue.MachineUsesFifo | requests.go:420-457 | each step of the read machine uses its queue as that FIFO |
| ReadyCluster.ReadyCluster.SetClusterReady | queue.go:190-194 | the id joins the map in use and the other map is untouched |
| ReadyCluster.ReadyCluster.GetReadyClusters | queue.go:196-208 | hands out the map in use and goes on with the other, emptied, across the wrap of the 8-bit index |
| ReadyCluster.NoLostWakeUp | execengine.go:67-84 | in every interleaving a ready cluster has a token, a producer about to send one or a worker about to swap; once producers are quiet the next pass hands it over |
| ReadyCluster.HandedMapUntouched | queue.go:190-208 | producers never change the map the worker holds |
| ReadyCluster.AnnouncedUntilSwap | queue.go:190-208 | every cluster announced since the last swap is handed over by the next |
| ReadyCluster.OnlyAnnounced | queue.go:190-208 | only clusters that were announced are ever in a map or handed over |
| PendingReads.PendingReadIndex.NextCtx | requests.go:475-487 | hands out the unissued context, dates its expiry and replaces it |
| PendingReads.PendingReadIndex.AddPendingRead | requests.go:507-521 | the batch enters both tables under its context, or is dropped when stopped |
| PendingReads.PendingReadIndex.Applied | requests.go:523-576 | which reads get which result and leave, when collection runs, and the panic of a missing mapping |
| PendingReads.PendingReadIndex.Gc | requests.go:578-604 | late reads time out and expired contexts are forgotten; which contexts that is, over every run, is `ReadContexts.ContextKeptExactly` |
| PendingReads.PendingReadIndex.Close | requests.go:420-434 | queued and pending reads are told they are terminated |
| LinearizableReads.CompletedReadsAreLinearizable | requests.go:475-604 | in every run a completed read was completed with at least everything applied that was committed when it was submitted |
| LinearizableReads.CounterExact | node.go:687-779 | in every run the counter that decides whether to issue a context is positive exactly when the pass has drained reads and not yet taken the counter |
| LinearizableReads.NoReadStranded | node.go:652-697 | after every pass of the step worker each pending read waits for a context that has been issued |
| LinearizableReads.EachReadInOnePlace | requests.go:420-604 | in every run each read is in one place, notified at most once, and both tables have the same keys |
| LinearizableReads.TerminateTells | requests.go:420-434 | closing terminates each queued and pending read once and changes no earlier result |
| LinearizableReads.AppliedServes | requests.go:523-576 | serving answers only pending reads, completing one only when its context is confirmed at an applied index |
| LinearizableReads.AppliedServesAll | requests.go:523-576 | on a running table every pending read with a context confirmed at or below the applied index is answered, completed if in time, and leaves |
| ReadTimeouts.ReadTimeoutExactly | requests.go:523-604 | a pending read meets the bound `deadline > now - gcTick` at every application that can come next if and only if it was not late at the last collection, or a collection is due, or it is readable at once |
| ReadTimeouts.InTimeReadsMeetTheBound | requests.go:523-604 | in every run a read not late at the last collection meets the bound at every later application while it is pending |
| ReadTimeouts.AppliedLeaves | requests.go:523-604 | a read stays pending exactly when it is not readable and no collection that is due finds it late |
| ReadTimeouts.LateReadLingers | requests.go:436-457 | a run in which a client sleeps through a collection and its read is then not collected in time |
| ReadTimeouts.ReadCanComplete | requests.go:436-576 | a run in which a read goes through every stage and completes |
| ReadContexts.ContextKeptExactly | requests.go:475-604 | over every run a confirmed context stays confirmed at its index through every step, except a collection later than its issue tick plus 15000 ms in ticks, the first such to pass |
| ReadContexts.ConfirmedReadCompletes | requests.go:523-576 | over every run a pending read whose context was confirmed at x is completed by the first application of an index of at least x before its deadline, within the time the context is kept |
| ReadContexts.GcForgets | requests.go:578-590 | a collection forgets exactly the listed contexts past their time |
| Proposals.ProposalShard.Close | requests.go:751-761 | every waiting proposal is told it is terminated |
| Proposals.ProposalShard.GetProposal | requests.go:763-780 | a proposal is taken only for its own key, client and series and in time |
| Proposals.ProposalShard.Applied | requests.go:782-800 | a report, then at most one collection per tick, take the shard where `Proposals.ReportAnswers` says |
| Proposals.ReportAnswers | requests.go:763-830 | what a report does to each waiting proposal: its own, if in time, is completed or rejected with the report's value as the report says; a late one times out when a collection runs; any other stays |
| Proposals.ReportAnswersNoOther | requests.go:763-830 | no other result is delivered or changed |
| Proposals.ProposalShard.GcAt | requests.go:807-830 | exactly the late proposals time out, when a collection is due |
| ProposalRuns.ProposalsAnsweredOnce | requests.go:694-830 | in every run an accepted proposal is waiting, being answered or answered, never two of them, and answered once |
| ProposalRuns.CompletedForItself | requests.go:763-800 | in every run Completed(v) comes only from an unrejected report of that proposal's key, client and series with value v, Rejected(v) only from a rejected one |
| ProposalRuns.WaitingIsAnswered | requests.go:763-800 | in every run a report of a waiting proposal, read in time, takes it out and delivers its verdict and value |
| ProposalRuns.OtherReportsLeaveIt | requests.go:763-780 | in every run any other report leaves it waiting |
| ProposalRuns.CloseTerminates | requests.go:751-761 | in every run the close terminates every waiting proposal |
| ProposalRuns.TimeoutExactly | requests.go:802-830 | in every reachable state of a running shard a waiting proposal meets the bound `deadline > now - gcTick` at every collection that can come next if and only if its deadline is not before the last collection, or the tick before it when the clock has not moved |
| ProposalRuns.OverdueExactly | requests.go:694-730 | the waiting proposals that arrived after a collection that should have timed them out are exactly those with a deadline before the last collection |
| ProposalRuns.TimeoutUnlessOverdue | requests.go:694-830 | once the clock has moved on, the bound holds exactly for the others |
| ProposalRuns.OverdueLingers | requests.go:694-730 | a run in which a proposal arriving overdue breaks the bound |
| ProposalRuns.AtomicTimeoutBound | requests.go:694-830 | with proposing as one step the bound holds of every waiting proposal in every run |
| ConfigChanges.PendingConfigChange.Ask | requests.go:329-360 | which request is accepted or refused, in the order of the checks |
| ConfigChanges.PendingConfigChange.Close | requests.go:316-327 | a waiting change is terminated and the channel closed, once |
| ConfigChanges.PendingConfigChange.Gc | requests.go:362-377 | a change past its deadline times out when a collection is due |
| ConfigChanges.PendingConfigChange.Apply | requests.go:379-394 | only the change with that key is answered |
| ConfigChanges.ChangesAnsweredOnce | requests.go:316-394 | in every run an accepted change is waiting or answered, answered once and with a result it earned, and none waits after the close |
| ConfigChanges.WaitingChangeIsAnswered | requests.go:316-394 | in every run the waiting change is completed, rejected, timed out or terminated by the next step that concerns it, and no other step touches it |
| ConfigChanges.AskedExactly | requests.go:336-370 | when a change is taken, and which refusal it gets otherwise |
| ConfigChanges.AcceptedIsSent | requests.go:336-370 | an accepted change waits with its deadline and is what the step worker receives |
| SnapshotHandoff.SnapshotRecord.SetRecord | node.go:54-62 | fills the slot, or panics exactly when it is full |
| SnapshotHandoff.SnapshotRecord.GetRecord | node.go:64-70 | empties the slot and returns what it held |
| SnapshotHandoff.HandoffSafe | execengine.go:230-374 | in every interleaving no panic is reached, a paused node has exactly one snapshot task and another none, and commits never run beside a save or recovery |
| SnapshotHandoff.PauseEnds | execengine.go:296-374 | from every reachable state not aborted, some nine worker steps at most resume the node |
| SnapshotHandoff.SnapshotsAsAsked | execengine.go:316-374 | in every run an available snapshot that was found is recovered, a request without one saved, the completion says which, nothing asked for is dropped, and a new node starts at the index its recovery ended |
| PublishedStream.Node.EntriesToApply | node.go:288-310 | the modulo-2^64 skip leaves exactly the entries above the published index, or panics by the guards |
| PublishedStream.Node.PublishCommitRec | node.go:312-323 | a record is sent or, when stopped, nothing is |
| PublishedStream.Node.PublishEntries | node.go:325-335 | the published index becomes that of the last entry sent |
| PublishedStream.Node.PublishSnapshot | node.go:342-362 | the stream jumps to the snapshot, or panics when it is stale |
| PublishedStream.Node.Handle | node.go:584-608 | a whole update ends as specified; stopped early, nothing is published after |
| PublishedStream.HandledExactly | node.go:584-608 | after an update without panic the published index is that of the last committed entry, else of the snapshot, else as before, and the stream has gained the snapshot and exactly the committed entries above it |
| PublishedStream.PanicsExactly | node.go:288-362 | an update panics exactly on a stale snapshot or on entries that neither overlap nor continue what is published, or at the last 64-bit index |
| PublishedStream.PublishesGreatest | node.go:288-362 | over every run without panic the published index is the greatest index handed over |
| PublishedStream.AcceptsExactly | node.go:288-310 | the guards accept a batch exactly when it overlaps or continues what was published, below the last index |
| PublishedStream.RefusedAtLastIndex | node.go:288-310 | at the last 64-bit index the guards panic on a batch that only repeats the entry published last |
| PublishedStream.SkipCount | node.go:288-310 | the wrapping subtraction counts the entries published before |
| PublishedStream.StreamExact | node.go:288-362 | over every run each index up to the published one is delivered exactly once, by entry or snapshot, and no other |
| PublishedStream.NewerKeepsAll | node.go:288-310 | an entry of the batch is in its published part exactly when above the published index |
| ExecNodes.ExecNodes | execengine.go:432-523 | the pass emits exactly the specified trace, take-snapshot records and local messages included, cut short by a panic right before the first step that fails: saving, removing a flag file, giving a snapshot to the log reader or compacting |
| ExecNodes.PersistBeforeSendAlways | execengine.go:451-518 | in a pass that panics too, what was sent that is not Replicate or Ping, and what was published with a snapshot in the pass, came after the saving |
| ExecNodes.EachExactlyOnce | execengine.go:451-563 | in the trace every message is sent exactly once, stamped with its cluster, every update published, its confirmed reads passed on, appended and committed once, the state saved once, and flag files removed, snapshots requested and local messages sent just for the updates that call for it |
| ExecNodes.PersistBeforeSend | execengine.go:451-518 | a message precedes the saving exactly when it is Replicate or Ping; an update with a snapshot in the pass is published after it |
| ExecNodes.FlagsBeforePublish | execengine.go:541-563 | with a snapshot, every flag file is removed before anything is published |
| ExecNodes.StepsInOrder | node.go:610-626 | what may not precede the saving goes update by update: log appended, messages in order, log compacted, snapshot requested, local message, committed; all after everything published |
| ExecNodes.EarlyInOrder | execengine.go:471-483 | before the saving, what is published comes first, then update by update the early messages in order and the confirmed reads |
| ExecNodes.PublishedInTurn | execengine.go:541-563 | updates are published, and flag files removed, in the order of the updates |
| Compaction.LogDB.Compaction | snapshotter.go:157-179 | keeps exactly the last three snapshots and those not below the limit |
| Compaction.LogDB.GetMostRecentSnapshot | snapshotter.go:142-151 | the greatest recorded index, or none |
| Compaction.CompactionKeepsMostRecent | snapshotter.go:157-179 | the three most recent snapshots survive, and of the others exactly those below the target go |
| Compaction.AlwaysReplayable | node.go:414-524 | in every interleaving entries are removed only up to the most recent recorded snapshot, which with the remaining log is contiguous |
| Compaction.MostRecentAdvances | node.go:414-462 | the most recent snapshot is never deleted and only moves forward |
| Compaction.ShortListAllowed | snapshotter.go:163-168 | the deletions the source lists are among those the machine allows |
| Compaction.CompactsExactly | node.go:458-524 | a compaction pass removes exactly the entries up to the snapshot's index less the overhead |
| Compaction.NothingToCompact | node.go:458-460 | with an overhead not below the index nothing is asked for |
| ClusterImage.SyncCluster | drummer/clusterimage.go:455-517 | rejects older configurations, panics on the three contradictions, else keeps the records of known nodes and adds the new ones |
| ClusterImage.HasDuplicate | drummer/clusterimage.go:507-515 | true exactly when two nodes share an address |
| ClusterImage.MultiCluster.ApplyReport | drummer/clusterimage.go:365-403 | one report creates, replaces or keeps the record of its cluster, or asks for a kill |
| ClusterImage.MultiCluster.DoUpdate | drummer/clusterimage.go:363-407 | the reports one by one, then the ticks |
| ClusterImage.MultiCluster.UpdateNodeTick | drummer/clusterimage.go:348-358 | the reporting nodes, and only they, get the tick |
| ClusterImage.MultiCluster.SyncLeaderInfo | drummer/clusterimage.go:318-341 | leader flags follow reports that are not outdated |
| ClusterImage.MultiCluster.Update | drummer/clusterimage.go:305-316 | the three passes together |
| ImageConvergence.SyncIsExact | drummer/clusterimage.go:455-517 | with truthful reports none of the panics of a sync can happen and the members become the reported ones |
| ImageConvergence.ImageConverges | drummer/clusterimage.go:305-517 | after any truthful reports in any order: no panic; each cluster shows the complete report with the greatest index; one leader at most; a kill only for a node absent from a strictly newer reported configuration |
| ImageConvergence.OutdatedIsKilled | drummer/clusterimage.go:305-406 | a report older than the image's configuration, of a node not in it, has that node killed at the reporting host |
| ImageConvergence.SyncPanicsExactly | drummer/clusterimage.go:454-517 | on any report: left aside exactly when older; otherwise a panic exactly when it has other nodes at the same index, moves a node or puts two at one address |
| ImageConvergence.OrderIrrelevant | drummer/clusterimage.go:363-407 | two runs with the same complete reports agree on every cluster's members and index |
| ImageConvergence.IndexNeverDecreases | drummer/clusterimage.go:363-407 | no report, truthful or not, lowers a cluster's index or removes it |
| ImageConvergence.UpdateShows | drummer/clusterimage.go:305-316 | truthful reports keep every cluster of the image at a configuration it had |
| ImageTicks.TicksExact | drummer/clusterimage.go:348-358 | the nodes reported get the tick and nothing else about any node changes |
| ImageTicks.UpdateTicks | drummer/clusterimage.go:305-407 | after a host's report its nodes carry its tick; any other keeps its ticks or is new and unstarted |
| ImageTicks.ReportedIsOkForTtl | drummer/clusterimage.go:148-168 | a node that reported counts as working for exactly 60 ticks, then as failed |
| ImageTicks.UnheardIsToBeStarted | drummer/clusterimage.go:157-170 | after any reports, a member shown while the clock ran that has not reported since is to be started, neither failed nor working, at every tick |
| ImageTicks.UnheardAtZeroIsFailed | drummer/clusterimage.go:157-163 | a node first seen at tick zero counts as failed until it reports |
| ImageTicks.LedMakesLeader | drummer/clusterimage.go:318-341 | a leader's report that is not outdated makes its node the only leader |
| ImageTicks.LedIgnoresOutdated | drummer/clusterimage.go:318-341 | an outdated report says nothing about who leads |
| NodeHostImage.MultiNodeHost.Update | drummer/nodehostimage.go:95-148 | a new host is recorded, a known one brought up to date |
| NodeHostImage.MultiNodeHost.SyncNodeHostSpec | drummer/nodehostimage.go:150-175 | region, tick and clusters are replaced; logs and their set only when included |
| NodeHostImage.MultiNodeHost.SyncClusterInfo | drummer/nodehostimage.go:103-111 | each known host lists every cluster with a node on it |
| NodeHostImage.MultiNodeHost.HasLog | drummer/nodehostimage.go:49-66 | the lazily built set never gives an answer other than the log list's |
| NodeHostImage.DB.ApplyNodeHostInfo | drummer/db.go:241-257 | the report, stamped with the database's tick, updates both images, and what waited for the host becomes what it is handed |
| NodeHostImage.DB.ApplyRequests | drummer/db.go:290-308 | a round's requests, grouped by host in order, replace what waited for those hosts |
| NodeHostImage.WaitingIsLastPosting | drummer/db.go:241-308 | over every run a host waits for exactly the last posting to it since its last report, so nothing is handed over twice |
| NodeHostImage.HandedIsLastPosting | drummer/db.go:241-257 | over every run a report hands its host exactly the last posting to it since its previous report |
| NodeHostImage.ForInOrder | drummer/db.go:297-305 | the requests for a host are those of the batch that name it, each once, in the batch's order |
| NodeHostImage.HostsAsReported | drummer/nodehostimage.go:95-175 | over every run exactly the hosts that reported are known, with tick, region and clusters of their last report and the logs of the last report that included them |
| NodeHostImage.JustReported | drummer/nodehostimage.go:95-175 | right after its report a host lists the clusters it reported and those with a node on it, no other |
| NodeHostImage.ReportedListsMembers | drummer/db.go:241-248 | after every report each member's known host lists its cluster |
| Repair.Collect | drummer/clusterimage.go:182-210 | exactly the nodes with the status, in id order; which nodes those are is `ImageTicks.UnheardIsToBeStarted` and `ImageTicks.ReportedIsOkForTtl` |
| Repair.GetClusterForRepair | drummer/clusterimage.go:275-303 | one entry for each cluster with a failed node or one to start, and for no other |
| Repair.StatusesPartition | drummer/clusterimage.go:148-210 | every node is exactly one of ok, failed and to be started, so both quorums agree |
| Repair.DeleteKeepsQuorum | drummer/clusterimage.go:69-90 | a deletion is called for only above the expected size and leaves a working majority of the rest |
| Repair.AddOnlyWhenSmall | drummer/clusterimage.go:74-90 | an addition is called for only at or below the expected size |
| Repair.AddMayCostQuorum | drummer/clusterimage.go:69-81 | an addition costs availability exactly for an odd size with a bare working majority |
| Placement.Filter.Run | drummer/filter.go:29-74 | each filter keeps what passes it, in order |
| Placement.RunCombined | drummer/filter.go:86-92 | the filters are applied one after another |
| Placement.ChainIsOnePass | drummer/filter.go:76-125 | the chain keeps exactly the hosts passing every filter, in order |
| Placement.InChained | drummer/filter.go:76-125 | a host is kept if and only if it was there and passes every filter |
| Placement.FindSuitable | drummer/selector.go:54-80 | too few hosts give none; otherwise that many at different positions, exactly when enough different draws come up |
| Placement.DrawnExactly | drummer/selector.go:69-74 | the sampling loop ends exactly when enough different positions are drawn |
| Placement.ToArray | drummer/nodehostimage.go:122-128 | every host once, no two with the same address |
| Placement.GetReplacementNode | drummer/scheduler.go:257-278 | a live host without the cluster, in the failed node's region if any is; none exactly when there is none |
| Placement.EligibleIsElsewhere | drummer/filter.go:29-37 | a host that passes is at the address of no member of the cluster |
| Scheduler.GetRepairAddRequest | drummer/scheduler.go:230-255 | an ADD to such a host through a working member, or an error exactly when there is no such host |
| Scheduler.GetRepairDeleteRequest | drummer/scheduler.go:286-302 | a DELETE naming the image's index, through a working member |
| Scheduler.GetRepairCreateRequest | drummer/scheduler.go:280-284 | a CREATE spelling out the members and their addresses, each once |
| Scheduler.RepairClusters | drummer/scheduler.go:175-228 | one request in order for each cluster that needs one and is not being restored; requests at all exactly when every such cluster can be answered |
| Scheduler.Round | drummer/scheduler.go:86-98 | every request of a round follows from the image it worked from, and every cluster that needs one and is not being restored gets its own |
| Scheduler.DecidesExactly | drummer/clusterimage.go:66-95 | the decision by the status of the nodes: a due deletion of the lowest failed node, else the start of the lowest unstarted one, else with a working majority an addition for the lowest failed one |
| Scheduler.UnstartedIsCreated | drummer/scheduler.go:201-209 | unless a deletion is due, a cluster with unstarted nodes gets the CREATE of the lowest, at its own address, with every member and its address spelled out, to join |
| Scheduler.AddGoesWhere | drummer/scheduler.go:231-278 | an ADD goes through a working member to a host live within 60 ticks without a node of the cluster, in the region of the lowest failed node whenever there is one |
| Scheduler.DeleteGoesWhere | drummer/scheduler.go:286-302 | a DELETE goes through a working member and names the lowest failed node of a cluster with a deletion due |
| ClosedLoop.SizeStaysBounded | drummer/scheduler.go:175-302 | in every run each cluster has its expected size or one node more, at pairwise different addresses |
| ClosedLoop.AcceptedDeleteIsSafe | drummer/clusterimage.go:87-90 | in every run an accepted DELETE names a member failed in the image it was decided on, brings the size back to the expected one and leaves a working majority |
| ClosedLoop.AcceptedAddIsElsewhere | drummer/scheduler.go:231-278 | in every run an accepted ADD finds the expected size and goes to a host without a member |
| ClosedLoop.DatabaseNeverPanics | drummer/clusterimage.go:507-515 | in every run no panic of the image, "duplicated addr" among them, is reached |
| LoopRepairs.FailedMemberLeaves | drummer/scheduler.go:175-302 | from every world reached on the database's clock, for each member of a cluster of expected size three or more, a spare host and an unused id, some schedule on that clock, in which only nodes launched or created report, brings the cluster to its expected size without that member, with the others, all running |
| LoopSchedule.Replaced | drummer/scheduler.go:175-302 | at the expected size that schedule has an ADD to the spare host accepted, the CREATE of the new node issued, and then a DELETE of the silent member accepted |
| LoopSchedule.AllStarted | drummer/scheduler.go:201-209 | members not yet running can all be started, each by its CREATE before it first reports |
| LoopRepairs.NoAddBelowThree | drummer/clusterimage.go:66-90 | no round issues an ADD for a cluster of fewer than three nodes |
| LoopRepairs.LoopCanRepair | drummer/scheduler.go:175-302 | from three nodes just launched, a run in which an ADD and then a DELETE are accepted |
| ClosedLoop.AcceptInv | nodehost.go:699-704 | an accepted change keeps everything the loop relies on |

## Left out

- FramingCodec.UnmarshalMessage: a nested snapshot is carried as the bytes of its record.
- FramingCodec.CountRecords: stops an endless scan after as many jumps as the slice has positions; the source goes on for ever.
- FramingEnvelope.MessageBatchRoundTrip: the bytes of a message batch are a function; its marshalling loop is not modelled.
- EntryRoundTrip.DecodeEncode: nil and empty payloads are one value.
- ClusterImage.MultiCluster.Update: nodes and clusters are values in a map, so sharing of node records between maps is not modelled; copies made by deepCopy are equal values.
- NodeHostImage.MultiNodeHost.Update: host records are values in a map, likewise.
- NodeHostImage.DB.ApplyNodeHostInfo: the launch deadline it may clear and the copy of the report it keeps are left out.
- NodeHostImage.DB.ApplyRequests: launch requests, which set the launched flag and the deadline, are left out.
- Placement.FindSuitable: the random source is a finite list of draws, and a list that is too short leaves the call drawing.
- PublishedStream.Node.Handle: the channel of commit records is a list that never blocks.
- Raft, the replicated state machines and the log database themselves: used only through the contracts above.
- Launching clusters, restoring failed nodes, the key-value records and the launch deadline of Drummer's database: they start nodes and record flags, change no membership, and no theorem here depends on them; `ClosedLoop` starts from launched clusters.
- Drummer's leader election: the code does not give the single-leader claim one would want to prove.
- Snapshot directories, flag files on disk and orphan processing: they depend on files outside this model; `ExecNodes` has only the order of their steps.
- Quiesce, flow feedback and client sessions: quiesce stops the ticks of an idle group, flow feedback throttles what is proposed, sessions number a client's proposals; no theorem here depends on them.
- The remaining generated decoders and map-valued membership records: they read configuration and snapshot records, which the modelled messages carry as bytes; no theorem here depends on them.
- RPC, timers, logging, configuration, language bindings and test knobs.
