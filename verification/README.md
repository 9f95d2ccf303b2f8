# Verified model of the mesh network's core

Dafny models of the parts of the mesh network that carry its guarantees, with proofs of those
guarantees. `dafny verify dfyconfig.toml` checks everything.

**Erasure codec** (`GF256`, `Powers`, `CarryLess`, `LinearAlgebra`, `GaussJordan`, `Cauchy`, `Fec*`).
The UDP codec is a systematic Cauchy code over GF(2^8). Bytes are polynomials over GF(2); field
multiplication is tied to carry-less multiplication modulo 0x11D, and x is shown to generate the
whole field, so the log/exp tables built by the codec's loops are correct. Elimination is given as
a recursive function that the in-place loops refine; it keeps the solution set, and succeeds if and
only if the matrix is regular. Any k rows of the encoding matrix are regular, by eliminating one x
and one y at a time from a Cauchy system. From this follows the codec's promise: any k of the k + m
frames, in any order, give back exactly the k payloads, also when frames of other groups and
malformed datagrams arrive in between; and whatever arrives for one group, genuine or not, has no
influence on another (`FecIsolation`). A sender numbers its groups so that any of them can be mixed,
thinned out and reordered (`FecStream`).

**Router** (`RouterModel`, `MeshRouter`, `UpdateStream`, `RouterTiming`, `RouterSchedule`, `Convergence`,
`MeshRuns`, `AsyncConvergence`, `RoundsHappen`, `FixedPoint`). One node is a state machine whose
tie-breaks between equally good next hops are left open, as they depend on hash-map order; the `Router`
class implements its steps. Proved: the table invariant over all events, triggered updates against full
tables, who is a neighbour and when changes, tables and losses are announced and forgotten, convergence
of the network and freedom from loops. The network is asynchronous: links are first-in first-out, nodes
handle events in any interleaving, and a round is any stretch in which a full table has been sent and handled over
every link. Fifteen rounds make all costs exact, from any stale views and messages under way that name
only destinations which their sender has not already settled as unreachable and dropped; that is what
every run keeps, as a loss is sent before it is forgotten. Rounds are also shown to be possible.
Assumptions: a node is never its own neighbour, links stay up, and time is monotone.

**Data plane** (`DedupSet`, `DataPlane`, `DedupRuns`, `Unicast`, `Flooding`, `FloodCallbacks`,
`TtlBound`). Duplicate suppression over whole runs, the journey of addressed packets, coverage and cost
of floods in every asynchronous schedule, and how often a broadcast is handed to the application.

**Requests and sessions** (`RequestTracker`, `RequestOutcomes`, `Session`). Exactly-once completion
across lock-release gaps and what each callback is given, and message framing over a byte stream in
arbitrary pieces.

Times are integers in milliseconds and are passed in, sockets and threads appear only as events, and
packets are values.

## Where the code and its documentation differ

The model follows the code.

- README.md:201 says that the dedup layer makes each node process a broadcast exactly once. The local
  callback runs before the dedup test, so it runs for every arriving copy: exactly once if and only if the
  network is a tree (`FloodCallbacks.CalledOnceIffTree`, and `TriangleCallsTwice` for a run with two calls).
- FecCodec.h:85 has a `delivered` flag, but a delivered group is erased, so late frames can rebuild it.
  At-most-once delivery needs m < k (`FecDelivery.AtMostOnceIff`).
- The TTL is unsigned and decremented before it is tested, so a TTL of zero wraps around
  (`DataPlane.TtlDecreases`, `DataPlane.ZeroTtlWrapsAround`).
- The session sender accepts payloads up to 2^32 - 1 bytes, the reader stops above 10 MiB
  (`Session.StreamIsReadIff`).

## Model

| member | source | states |
|---|---|---|
| `GF256.XorAssoc` | src/mesh/net/udp/FecCodec.cpp:28-48 | addition of field elements is associative (with `XorComm`, `XorSelf`: an abelian group in which everything is its own inverse) |
| `GF256.TimesXAdd` | src/mesh/net/udp/FecCodec.cpp:34-35 | shift-and-reduce, one round of the table loop, is linear |
| `GF256.MulAddLeft` | src/mesh/net/udp/FecCodec.cpp:45-48 | multiplication distributes over XOR on the left |
| `GF256.MulAddRight` | src/mesh/net/udp/FecCodec.cpp:45-48 | multiplication distributes over XOR on the right |
| `GF256.MulComm` | src/mesh/net/udp/FecCodec.cpp:45-48 | multiplication is commutative |
| `GF256.MulAssoc` | src/mesh/net/udp/FecCodec.cpp:45-48 | multiplication is associative |
| `CarryLess.MulIsProductModulo` | src/mesh/net/udp/FecCodec.cpp:28-48 | the product is the one and only byte congruent to the carry-less product modulo 0x11D (both directions) |
| `CarryLess.RemainderIsUnique` | src/mesh/net/udp/FecCodec.cpp:28-36 | two bytes congruent modulo 0x11D are equal |
| `Powers.ExpAdd` | src/mesh/net/udp/FecCodec.cpp:45-48 | adding exponents multiplies powers, which is why a sum of logarithms indexes the product |
| `Powers.Primitive` | src/mesh/net/udp/FecCodec.cpp:31-36 | x^i differs from 1 for every 0 < i < 255: the table loop does not repeat itself |
| `Powers.ExpInjective` | src/mesh/net/udp/FecCodec.cpp:31-36 | the 255 powers written by the loop are distinct |
| `Powers.EveryByteIsAPower` | src/mesh/net/udp/FecCodec.cpp:31-36 | every non-zero byte is reached, so the log table is defined for all of them |
| `Powers.ExpPeriod` | src/mesh/net/udp/FecCodec.cpp:37-40 | powers repeat with period 255, which justifies the doubled table |
| `Powers.Log` | src/mesh/net/udp/FecCodec.cpp:33 | the logarithm of a non-zero byte is below 255 and exponentiates back to it |
| `Powers.Inv` | src/mesh/net/udp/FecCodec.cpp:50-53 | every non-zero byte has a multiplicative inverse |
| `Powers.InverseIsUnique` | src/mesh/net/udp/FecCodec.cpp:50-53 | the inverse is unique |
| `Powers.NoZeroDivisors` | src/mesh/net/udp/FecCodec.cpp:45-53 | a product is zero exactly when a factor is |
| `FecCodec.FillTables` | src/mesh/net/udp/FecCodec.cpp:29-36 | the loop fills exp with the first 255 powers and log with their exponents |
| `FecCodec.DoubleTable` | src/mesh/net/udp/FecCodec.cpp:37-40 | the second loop continues the powers up to index 511 |
| `FecCodec.BuildGfTables` | src/mesh/net/udp/FecCodec.cpp:29-43 | the two tables hold all powers of x and all logarithms |
| `FecCodec.Codec.GfMul` | src/mesh/net/udp/FecCodec.cpp:45-48 | the table lookup, always within its 512 entries, is the field product for every pair of bytes |
| `FecCodec.Codec.GfInv` | src/mesh/net/udp/FecCodec.cpp:50-53 | the table lookup is the multiplicative inverse for every non-zero byte |
| `LinearAlgebra.Pivot` | src/mesh/net/udp/FecCodec.cpp:229-234 | the first row at or below the diagonal with a non-zero entry, with all rows before it zero in that column |
| `GaussJordan.NormalizeSolves` | src/mesh/net/udp/FecCodec.cpp:236-244 | swapping the pivot row up and scaling it keeps exactly the solutions, although only columns from the pivot on are scaled |
| `GaussJordan.EliminateSolves` | src/mesh/net/udp/FecCodec.cpp:246-254 | elimination restricted to columns from the pivot on keeps exactly the solutions |
| `GaussJordan.EliminateReduces` | src/mesh/net/udp/FecCodec.cpp:246-254 | after a column is processed, it is a unit column and earlier unit columns stay |
| `GaussJordan.RoundKeepsSolutions` | src/mesh/net/udp/FecCodec.cpp:228-255 | one column's work keeps the solution set of M*X = B, column by column of B |
| `GaussJordan.GaussSolves` | src/mesh/net/udp/FecCodec.cpp:204-259 | a non-empty result is, in packet order, the one and only X with M0*X = B0 (both directions) |
| `GaussJordan.GaussSomeMeansRegular` | src/mesh/net/udp/FecCodec.cpp:228-259 | when every column has a pivot, only zero is mapped to zero |
| `GaussJordan.GaussNoneMeansSingular` | src/mesh/net/udp/FecCodec.cpp:234 | the singular exit comes with a non-zero null vector of the original matrix |
| `GaussJordan.GaussDecidesRegularity` | src/mesh/net/udp/FecCodec.cpp:227-259 | the elimination returns a result if and only if the matrix is regular |
| `FecCodec.Codec.ScaleRow` | src/mesh/net/udp/FecCodec.cpp:243-244 | the in-place scaling loop refines scaling from a column on |
| `FecCodec.Codec.AddMulRow` | src/mesh/net/udp/FecCodec.cpp:250-253 | the in-place row-addition loop refines adding a multiple from a column on |
| `FecCodec.Codec.SystemMatrix` | src/mesh/net/udp/FecCodec.cpp:211-225 | unit rows for data frames and Cauchy rows for parity frames, in order of the received indices |
| `FecCodec.Codec.FindPivot` | src/mesh/net/udp/FecCodec.cpp:229-234 | the search loop finds the specified pivot row |
| `FecCodec.Codec.NormalizeRow` | src/mesh/net/udp/FecCodec.cpp:236-244 | swap and scale on both matrices refine the specified step |
| `FecCodec.Codec.EliminateColumn` | src/mesh/net/udp/FecCodec.cpp:246-254 | the row loop on both matrices refines the specified elimination, for rows above and below the pivot |
| `FecCodec.Codec.GaussDecode` | src/mesh/net/udp/FecCodec.cpp:204-259 | the in-place elimination over two matrices refines `Gauss` |
| `Cauchy.Entry` | src/mesh/net/udp/FecCodec.cpp:57-65 | the coefficient is the non-zero inverse of x + y for distinct x and y |
| `Cauchy.CauchyIsRegular` | src/mesh/net/udp/FecCodec.h:15-16 | a square Cauchy system with distinct x, distinct y and no x among the y has only the zero solution |
| `Cauchy.EnoughParities` | src/mesh/net/udp/FecCodec.cpp:329-351 | k received frames contain at least as many parity frames as data frames are missing |
| `Cauchy.AnyRowsAreRegular` | src/mesh/net/udp/FecCodec.h:15-16 | any k distinct rows of the identity stacked on the Cauchy rows are linearly independent, for every k up to 256 |
| `FecCodec.Codec.EncRow` | src/mesh/net/udp/FecCodec.cpp:57-65 | one row of the Cauchy matrix |
| `FecCodec.Codec.BuildEncMatrix` | src/mesh/net/udp/FecCodec.cpp:57-65 | row j of the stored matrix is the Cauchy row with y = k + j |
| `FecWire.ParseOfMake` | src/mesh/net/udp/FecCodec.cpp:67-124 | a header with any payload behind it parses to itself, and its configuration is read back |
| `FecWire.MakeOfParse` | src/mesh/net/udp/FecCodec.cpp:88-124 | a datagram that parses starts with exactly the header it parses to |
| `FecWire.WireFormat` | src/mesh/net/udp/FecCodec.h:17-25 | magic, version, group id, index, k, m and length are at their documented places, multi-byte numbers with the most significant byte first |
| `FecFrames.MaxLen` | src/mesh/net/udp/FecCodec.cpp:129-132 | an upper bound on all payload lengths that is attained |
| `FecFrames.Manifest` | src/mesh/net/udp/FecCodec.cpp:173-176 | two big-endian bytes per length, at their positions |
| `FecFrames.ParityOfOne` | src/mesh/net/udp/FecCodec.cpp:57-65 | where only payload i has a non-zero byte, parity j times i + (k + j) in the field is that byte: the code's coefficients, stated without the matrix |
| `FecCodec.Codec.Accumulate` | src/mesh/net/udp/FecCodec.cpp:140-144 | the byte loop adds coefficient times the zero-padded payload at every position |
| `FecCodec.Codec.ParityRow` | src/mesh/net/udp/FecCodec.cpp:137-146 | parity row j is at every byte the Cauchy row times the payload bytes |
| `FecCodec.Codec.ComputeParity` | src/mesh/net/udp/FecCodec.cpp:126-148 | the nested loops compute all m parity vectors |
| `FecCodec.Codec.SendManifest` | src/mesh/net/udp/FecCodec.cpp:173-176 | the loop writes the lengths of all payloads in the send buffer |
| `FecCodec.Codec.ParityFrames` | src/mesh/net/udp/FecCodec.cpp:165-187 | the m parity frames, with manifest, never exceed the 16-bit length |
| `FecCodec.Codec.Encode` | src/mesh/net/udp/FecCodec.cpp:150-197 | the data frame at once, the parity frames with the k-th payload, the group id then going up by one and wrapping at 32 bits, and rejection exactly of payloads over 65535 - 2k bytes |
| `FecEndToEnd.Create` | src/mesh/net/udp/FecCodec.cpp:8-26 | a codec exists exactly for 1 <= k, 1 <= m, k + m <= 254 |
| `FecEndToEnd.EncodeGroup` | tests/test_fec.cpp:22-32 | encoding k payloads emits exactly the k + m frames of the group in index order |
| `FecEndToEnd.EncodeGroups` | src/mesh/net/udp/FecCodec.cpp:150-195 | encoding n groups in a row emits all their frames under the n consecutive ids, modulo 2^32, from the current one on |
| `FecReceiver.FilledSlots` | src/mesh/net/udp/FecCodec.cpp:343-351 | the first k filled slots, strictly increasing |
| `FecReceiver.FilledSlotsSize` | src/mesh/net/udp/FecCodec.cpp:326-351 | their number is the smaller of k and the number of filled slots |
| `FecReceiver.EvictKeeps` | src/mesh/net/udp/FecCodec.cpp:372-382 | eviction only removes groups, never changes one, and keeps the group just registered |
| `FecReceiver.Register` | src/mesh/net/udp/FecCodec.cpp:280-289 | a known group is left alone, a new one starts with all slots empty |
| `FecReceiver.StoreShaped` | src/mesh/net/udp/FecCodec.cpp:291-315 | storing a frame keeps one slot per frame and the received count equal to the filled slots |
| `FecReceiver.Run` | src/mesh/net/udp/FecCodec.cpp:261-317 | every run keeps all stored groups well shaped and answers every event |
| `FecReceiver.DecodeAllIsRun` | src/mesh/net/udp/FecCodec.cpp:261-278 | a run over raw datagrams is the run over what they parse to |
| `FecReceiver.EventIff` | src/mesh/net/udp/FecCodec.cpp:261-278 | a datagram reaches the group table if and only if it is a header with this k and m and an index below k + m, followed by at least the announced bytes |
| `FecInvariant.ReassembleSucceeds` | src/mesh/net/udp/FecCodec.cpp:353-355 | with k filled slots of any content the elimination never fails: the singular exit is unreachable |
| `FecInvariant.RegisterOnce` | src/mesh/net/udp/FecCodec.cpp:372-382 | registering appends the group to the order queue and drops at most the oldest one |
| `FecInvariant.HandleKeepsInv` | src/mesh/net/udp/FecCodec.cpp:261-382 | after every frame: at most 256 remembered groups, every stored group remembered, not delivered, and fewer than k slots filled |
| `FecInvariant.EveryRunKeepsInv` | src/mesh/net/udp/FecCodec.cpp:261-382 | the same for every sequence of arbitrary datagrams |
| `FecCodec.Codec.RememberReceiveGroup` | src/mesh/net/udp/FecCodec.cpp:372-382 | the eviction loop refines `Remember` |
| `FecCodec.Codec.CollectRows` | src/mesh/net/udp/FecCodec.cpp:329-351 | symbol length, indices and zero-padded rows of the first k filled slots |
| `FecCodec.Codec.TruncateAll` | src/mesh/net/udp/FecCodec.cpp:359-366 | recovered rows cut to their recorded lengths |
| `FecCodec.Codec.TryDeliverGroup` | src/mesh/net/udp/FecCodec.cpp:319-370 | delivery refines the specification and erases the group |
| `FecCodec.Codec.AcceptFrame` | src/mesh/net/udp/FecCodec.cpp:280-317 | registering, duplicate test, manifest and storing refine the specification |
| `FecCodec.Codec.DecodeDatagram` | src/mesh/net/udp/FecCodec.cpp:261-317 | the whole receive path refines the specification for every datagram and leaves the sender alone |
| `FecRecovery.FrameIsOwnEvent` | src/mesh/net/udp/FecCodec.cpp:67-124 | the receiver reads back from every frame the group, index and payload that the sender put in |
| `FecRecovery.ManifestRoundTrip` | src/mesh/net/udp/FecCodec.cpp:296-309 | the manifest of a parity frame gives back all payload lengths, and what follows it is the parity vector |
| `FecRecovery.StoreFrame` | src/mesh/net/udp/FecCodec.cpp:291-315 | a frame of the group turns the state for a set of frames into the state for that set plus the frame |
| `FecRecovery.SymbolLenIsMaxLen` | src/mesh/net/udp/FecCodec.cpp:335-341 | with k frames of the group the symbol length is the longest payload's length |
| `FecRecovery.LensAreExact` | src/mesh/net/udp/FecCodec.cpp:303-313 | with k frames of the group all recorded lengths are exact |
| `FecRecovery.EliminationFindsPayloads` | src/mesh/net/udp/FecCodec.cpp:353 | the elimination returns the zero-padded payloads for any k distinct frames of the group |
| `FecRecovery.ReassembleGroup` | src/mesh/net/udp/FecCodec.cpp:319-370 | any k frames of a group decode to exactly its payloads |
| `FecRuns.Progress` | src/mesh/net/udp/FecCodec.cpp:261-370 | before the k-th distinct frame nothing is returned for the group and its frames are kept, amid datagrams of other groups, unreadable ones and parity frames too short for their manifest, while the run opens at most 256 groups |
| `FecRuns.KthFrameRecovers` | src/mesh/net/udp/FecCodec.cpp:261-382 | the k-th distinct frame returns exactly the payloads in every such interleaving |
| `FecRuns.AnyKFramesRecover` | src/mesh/net/udp/FecCodec.h:11-16 | for all legal k, m, all k payloads and any k distinct frames in any order: nothing for the first k - 1, exactly the payloads on the k-th |
| `FecIsolation.OwnFrameAgrees` | src/mesh/net/udp/FecCodec.cpp:280-370 | two receivers that hold the same frames of a group answer any frame for it alike and hold the same frames afterwards |
| `FecIsolation.ForeignFrameKeeps` | src/mesh/net/udp/FecCodec.cpp:261-382 | a frame of another group leaves the group alone |
| `FecIsolation.GroupsAreIsolated` | src/mesh/net/udp/FecCodec.cpp:261-382 | for every sequence of datagrams, genuine or not: the frames of a group return exactly what they would return to a fresh receiver that gets nothing else, and the same frames stay stored, while the run opens at most 256 groups |
| `FecEndToEnd.RoundTrip` | tests/test_fec.cpp:34-45 | two codec objects end to end: any k kept frames give back the payloads |
| `FecStream.StreamRecovers` | src/mesh/net/udp/FecCodec.cpp:150-382 | any frames of any consecutive groups of a sender, in any order and none twice: while at most 256 openings occur, every k-th frame of a group returns exactly its payloads and any other frame nothing |
| `FecStream.FewerParities` | src/mesh/net/udp/FecCodec.cpp:150-195 | with m < k no group arrives in two full sets |
| `FecStream.StreamDelivers` | src/mesh/net/udp/FecCodec.cpp:150-382 | then, if the number of groups plus the number of those of which more than k frames arrive is at most 256, exactly the k-th frame of each group returns its payloads |
| `FecStream.WindowRecovers` | src/mesh/net/udp/FecCodec.cpp:261-382 | in a stream of any length, up to 2^32 groups: if at most 256 frames arrive from the first to the k-th frame of a group, the k-th returns exactly its payloads, whatever is lost, reordered or evicted elsewhere |
| `FecEndToEnd.StreamRoundTrip` | tests/test_fec.cpp:22-45 | one sender object, one receiver object and many groups over a lossy, reordering link: as `StreamDelivers` says |
| `FecDelivery.RunAccount` | src/mesh/net/udp/FecCodec.cpp:319-370 | k frames are used up per delivery, over every run |
| `FecDelivery.DeliveredAtMostOnce` | src/mesh/net/udp/FecCodec.cpp:357-368 | with m < k and no repeated frame index, a group is delivered at most once |
| `FecDelivery.DeliveredTwice` | src/mesh/net/udp/FecCodec.cpp:357-368 | with k <= m, frames 0..k-1 followed by k..2k-1 are delivered twice: the erased `delivered` flag does not prevent it |
| `FecDelivery.AtMostOnceIff` | src/mesh/net/udp/FecCodec.cpp:357-368 | at-most-once delivery holds for all runs without repeats if and only if m < k |
| `RouterModel.MergeMatches` | src/mesh/routing/MeshRouter.cpp:272-303 | after merging, the finite part of the table is exactly what the views call for, and everything else is at infinity |
| `RouterModel.RecalculateKeepsInv` | src/mesh/routing/MeshRouter.cpp:249-309 | recomputation re-establishes the table and keeps a trigger pending for every unsent change, due at most 100 ms after it |
| `RouterModel.DeadRoutesAreSent` | src/mesh/routing/MeshRouter.cpp:329-351 | a dead route is not collected with an unsent change: the trigger that sends it as 16 to all neighbours comes first |
| `RouterModel.MaintainKeepsInv` | src/mesh/routing/MeshRouter.cpp:311-354 | expiry, triggered and full updates and collection keep the invariant, with a later clock reading in the recomputation than in the tick |
| `RouterModel.StepKeepsInv` | src/mesh/routing/MeshRouter.cpp:74-96 | at every event boundary: self at 0, neighbours at 1 via themselves, other finite entries one more than the least offer via a neighbour that makes it, all else at 16, and costs never overflow |
| `MeshRouter.OfferKeepsBest` | src/mesh/routing/MeshRouter.cpp:259-269 | considering one more offer keeps the routes best among the offers considered, in any order |
| `MeshRouter.Router.ComputeRoutes` | src/mesh/routing/MeshRouter.cpp:250-270 | the loops over hash maps in any order compute a best route for exactly the offered destinations |
| `MeshRouter.Router.MergeRoutes` | src/mesh/routing/MeshRouter.cpp:272-303 | both merge loops refine `Merge` and report a change exactly when there is one |
| `MeshRouter.Router.RecalculateForwardingTable` | src/mesh/routing/MeshRouter.cpp:249-309 | refines `Recalculate` with some best routes |
| `MeshRouter.Router.constructor` | src/mesh/routing/MeshRouter.cpp:12-17 | a new router satisfies the invariant |
| `MeshRouter.Router.PeerConnected` | src/mesh/routing/MeshRouter.cpp:76-80 | one step of the model, keeping the invariant |
| `MeshRouter.Router.PeerDisconnected` | src/mesh/routing/MeshRouter.cpp:81-85 | one step of the model, keeping the invariant |
| `MeshRouter.Router.ApplyCosts` | src/mesh/routing/MeshRouter.cpp:237-243 | the update loop withdraws infinite and replaces finite costs |
| `MeshRouter.Router.ProcessRoutingUpdate` | src/mesh/routing/MeshRouter.cpp:233-246 | one step of the model, keeping the invariant |
| `MeshRouter.Router.Heard` | src/mesh/routing/MeshRouter.cpp:104-109 | refreshing a timer changes no route |
| `MeshRouter.Router.ExpireNeighbors` | src/mesh/routing/MeshRouter.cpp:315-325 | keeps exactly the neighbours heard of within the last 180 s, and reports a loss exactly when there is one |
| `MeshRouter.Router.TakeDue` | src/mesh/routing/MeshRouter.cpp:359-364 | collects exactly the dirty or infinite entries and clears their flags |
| `MeshRouter.Router.SendTriggeredUpdates` | src/mesh/routing/MeshRouter.cpp:356-396 | sends exactly the due entries, poisoned per neighbour |
| `MeshRouter.Router.BroadcastFullTable` | src/mesh/routing/MeshRouter.cpp:399-429 | sends the whole table, poisoned per neighbour |
| `MeshRouter.Router.CollectDeadRoutes` | src/mesh/routing/MeshRouter.cpp:340-351 | removes exactly the entries at infinity for more than 15 s |
| `MeshRouter.Router.RunPeriodicMaintenance` | src/mesh/routing/MeshRouter.cpp:311-354 | one step of the model, with its two clock readings, keeping the invariant; what is unsent afterwards has changed less than 100 ms before the tick |
| `UpdateStream.TraceKeepsInv` | src/mesh/routing/MeshRouter.cpp:74-96 | the node invariant holds after every event of every run |
| `UpdateStream.StepStream` | src/mesh/routing/MeshRouter.cpp:233-411 | every event keeps a neighbour's view current wherever nothing is unsent |
| `UpdateStream.IncrementalRefinesFull` | src/mesh/routing/MeshRouter.cpp:356-429 | over every run after a full table, with all messages applied in order, the neighbour's view is the full poisoned table on every destination without unsent change |
| `UpdateStream.ForgottenOnlyAfterWithdrawal` | src/mesh/routing/MeshRouter.cpp:340-396 | in every run from the start, a route is dropped only after its loss was sent as 16 to all neighbours of that moment, after its last change |
| `RouterTiming.NeighborIff` | src/mesh/routing/MeshRouter.cpp:74-96 | over every run: n is a neighbour if and only if it has connected or sent an update, has not been disconnected since, and no tick since came more than 180 s after the latest event from n before it, data packets included |
| `RouterTiming.OfferIsLatest` | src/mesh/routing/MeshRouter.cpp:233-243 | what a neighbour is taken to offer is what its latest update that mentions the destination said, since it became a neighbour |
| `RouterTiming.TickSends` | src/mesh/routing/MeshRouter.cpp:329-333 | after every tick, what is still unsent has changed less than 100 ms before it |
| `RouterTiming.AnnouncedInTime` | src/mesh/routing/MeshRouter.cpp:303-333 | over every run: each change is told to all neighbours, poisoned for the next hop, by the first tick 100 ms or more after it |
| `RouterSchedule.NotBeforeDebounce` | src/mesh/routing/MeshRouter.cpp:303-333 | a triggered update never goes out earlier than 100 ms after the change that armed it, the first one with nothing else unsent |
| `RouterSchedule.TriggeredTells` | src/mesh/routing/MeshRouter.cpp:356-380 | a triggered update mentions a destination if and only if its route has changed since the last triggered update or is lost, with the cost poisoned for the next hop |
| `RouterSchedule.FullGoesOut` | src/mesh/routing/MeshRouter.cpp:334-338 | a full table goes to all neighbours at exactly the ticks more than 10 s after the last one, and nothing goes out but full and triggered updates |
| `RouterSchedule.ForgottenIff` | src/mesh/routing/MeshRouter.cpp:340-351 | an entry is dropped at exactly the ticks more than 15 s after its last change, while it is at 16 |
| `Convergence.CostsAreReal` | src/mesh/routing/MeshRouter.cpp:255-270 | where the views are right below radius r, a finite cost of at most r is the length of a real path |
| `Convergence.DistancesAreKnown` | src/mesh/routing/MeshRouter.cpp:255-270 | there, every destination at most r links away is known at its distance or less |
| `Convergence.CostIsDistance` | src/mesh/routing/MeshRouter.cpp:249-309 | there, costs and hop distances up to r are the same |
| `Convergence.HopIsCloser` | src/mesh/routing/MeshRouter.cpp:255-270 | there, the next hop is a neighbour one link closer |
| `Convergence.NotPoisoned` | src/mesh/routing/MeshRouter.cpp:372-376 | poison reverse never hides the neighbour on a shortest path |
| `Convergence.UpdateIsGood` | src/mesh/routing/MeshRouter.cpp:356-380 | whatever part of its table such a node sends is right up to radius r |
| `Convergence.FullTableIsGood` | src/mesh/routing/MeshRouter.cpp:399-413 | its full table makes a neighbour's view right up to radius r |
| `Convergence.ConvergedCostsAreDistances` | src/mesh/routing/MeshRouter.cpp:372-408 | where every view equals its neighbour's current poisoned table, a cost below 16 is the shortest hop count, and conversely |
| `Convergence.ConvergedHopsDecrease` | src/mesh/routing/MeshRouter.cpp:255-270 | there, following next hops lowers the cost by one each time: no forwarding loop of any length |
| `Convergence.NoLoopOfTwo` | src/mesh/routing/MeshRouter.cpp:372-376 | poison reverse: a node whose view of a neighbour is current does not route through it what it routes back, however wrong the tables are otherwise |
| `FixedPoint.ShortestPathExists` | src/mesh/routing/MeshRouter.cpp:255-270 | towards every destination within 15 links some neighbour is one link closer |
| `FixedPoint.ExactIsConverged` | src/mesh/routing/MeshRouter.cpp:249-309 | the converse of convergence: exact distances with any next hops on shortest paths agree with their views, and every view with its neighbour's poisoned table |
| `FixedPoint.ConvergedExists` | src/mesh/routing/MeshRouter.cpp:249-309 | every network has such a converged state |
| `MeshRuns.StepKnown` | src/mesh/routing/MeshRouter.cpp:233-354 | every event of a node keeps: what its neighbour's view will hold after all messages under way, the node still has an entry for, and has not settled as unreachable |
| `MeshRuns.NextKeepsInv` | src/mesh/routing/MeshRouter.cpp:58-354 | every step of the network, by any node at any time, with dead routes collected on the way, keeps this and the node invariants |
| `AsyncConvergence.NextKeepsGood` | src/mesh/routing/MeshRouter.cpp:233-413 | every step keeps a link right from a position of its message stream on |
| `AsyncConvergence.FullTickMakesGood` | src/mesh/routing/MeshRouter.cpp:335-338 | a full table makes its link right one radius farther, once it has been handled |
| `AsyncConvergence.RoundRaisesLevel` | src/mesh/routing/MeshRouter.cpp:311-354 | when over every link a full table has been sent and handled, in whatever interleaving with triggered updates, ticks and other messages, the radius has grown by one |
| `AsyncConvergence.ConvergesInFifteenRounds` | src/mesh/routing/MeshRouter.cpp:311-429 | bounded count to infinity: from any stale views and messages under way, at every moment after 15 such rounds, cost k below 16 if and only if the hop distance is k, so no finite route to anything farther or gone |
| `AsyncConvergence.HopsAreCloserAfterFifteenRounds` | src/mesh/routing/MeshRouter.cpp:255-270 | and every next hop is one link closer |
| `RoundsHappen.RoutesExist` | src/mesh/routing/MeshRouter.cpp:249-270 | the recomputation always has an outcome |
| `RoundsHappen.RoundHappens` | src/mesh/routing/MeshRouter.cpp:311-354 | every run that has reached a state in which no neighbour is silent for too long can go on with a round, to such a state again |
| `RoundsHappen.EveryNetworkConverges` | src/mesh/routing/MeshRouter.cpp:58-354 | every network, once connected, has a run of 15 rounds after which all costs are exact |
| `DedupSet.TimedDedupSet.Insert` | src/mesh/utils/DedeupSet.h:31-43 | reports and inserts exactly the new values, does not renew old ones, and keeps set and queue in agreement |
| `DedupSet.TimedDedupSet.Contains` | src/mesh/utils/DedeupSet.h:45-48 | membership is membership in the queue |
| `DedupSet.TimedDedupSet.Cleanup` | src/mesh/utils/DedeupSet.h:50-67 | removes exactly the entries older than the maximum age; the queue stays ordered and free of duplicates |
| `DedupRuns.EntryIff` | src/mesh/utils/DedeupSet.h:31-67 | over every run of packets and cleanups: an entry is in the queue if and only if some event made it and no cleanup has found it too old since |
| `DedupRuns.PassesIff` | src/mesh/routing/MeshRouter.cpp:160-168 | a received packet gets past the dedup test if and only if every record of its key has been cleaned up after more than 30 s |
| `DedupRuns.NeverTwiceWithinWindow` | src/mesh/routing/MeshRouter.cpp:160-168 | two received packets with one key that are both forwarded are more than 30 s apart, whatever happens in between |
| `DataPlane.NextHopsAreBest` | src/mesh/routing/MeshRouter.cpp:123-140 | the next hop of an addressed packet is a neighbour with the least offer, and there is one if and only if the advertisements give a route |
| `DataPlane.TtlDecreases` | src/mesh/routing/MeshRouter.cpp:181-187 | forwarded copies carry a smaller TTL if and only if the packet's TTL is not zero |
| `DataPlane.ZeroTtlWrapsAround` | src/mesh/routing/MeshRouter.cpp:181-187 | a broadcast that arrives with TTL 0 is sent on with TTL 2^32 - 1 |
| `DataPlane.SamePacket` | src/mesh/routing/MeshRouter.cpp:160-168 | a received packet changes the forwarding of a later one if and only if both agree in id and in whether a response is expected, and never its delivery |
| `DataPlane.SameAsSent` | src/mesh/routing/MeshRouter.cpp:160-168 | the same for a packet that the node has sent itself |
| `DataPlane.OwnPacketsPass` | src/mesh/routing/MeshRouter.cpp:161 | what a node sends itself is forwarded whatever it has seen |
| `DataPlane.Forwarder.ForwardTo` | src/mesh/routing/MeshRouter.cpp:175-187 | one copy per next hop, not back to the sender, only with TTL left |
| `DataPlane.Forwarder.RouteDataPacket` | src/mesh/routing/MeshRouter.cpp:142-198 | delivery, remembered keys, their queue and the copies sent on are as specified; what is not for this node is remembered by id and response flag, and what is remembered is not forwarded again |
| `DataPlane.Forwarder.HandleDataPacket` | src/mesh/routing/MeshRouter.cpp:99-117 | refreshes the neighbour's timer and routes the packet; a node ignores what it sent itself |
| `DataPlane.Forwarder.CleanUpSeen` | src/mesh/routing/MeshRouter.cpp:353 | the maintenance part of the specified run of seen keys |
| `Unicast.ForwardsCloser` | src/mesh/routing/MeshRouter.cpp:160-187 | neither the dedup nor the send-back test stops a fresh packet on its way |
| `Unicast.PacketArrivesIff` | src/mesh/routing/MeshRouter.cpp:123-187 | a fresh packet visits distinct nodes and reaches its destination in exactly its table cost k of hops if and only if k <= TTL - 1; then, for k >= 1, the callback runs exactly once, at the destination, and otherwise nowhere |
| `Unicast.ResponseReturns` | src/mesh/node/MeshNode.cpp:232-254 | after the journey of a request, the response under the same id is not taken for a duplicate anywhere: it reaches the origin in exactly its table cost k of hops if and only if k <= TTL - 1 |
| `Unicast.RoundTripIff` | src/mesh/node/MeshNode.cpp:232-254 | in a converged network request and response over k links are both handed over, exactly once each, if and only if both TTLs are larger than k |
| `Unicast.ConvergedIsDownhill` | src/mesh/routing/MeshRouter.cpp:255-270 | this applies to every converged network |
| `Unicast.FifteenRoundsAreDownhill` | src/mesh/routing/MeshRouter.cpp:255-270 | and to every moment of an asynchronous run after 15 rounds |
| `Flooding.ArrivalKeepsInv` | src/mesh/routing/MeshRouter.cpp:142-198 | every arrival keeps: TTL plus nodes reached at least the origin TTL, every neighbour of a reached node reached or awaited, no link direction used twice |
| `Flooding.FloodCoversNetwork` | src/mesh/routing/MeshRouter.cpp:142-198 | in every schedule, on a connected network with origin TTL at least the number of nodes, every node other than the origin has got the broadcast when nothing is in flight |
| `Flooding.FloodIsBounded` | src/mesh/routing/MeshRouter.cpp:160-187 | for every TTL, one broadcast uses each link at most once per direction and the flood ends after that many arrivals |
| `Flooding.FloodFinishes` | src/mesh/routing/MeshRouter.cpp:142-198 | every schedule of arrivals, however far it has come, can be completed until nothing is in flight |
| `FloodCallbacks.NextKeepsCallInv` | src/mesh/routing/MeshRouter.cpp:142-198 | every arrival keeps: each copy that has landed has run a callback, each link between reached nodes has been crossed, and each reached node leaves one direction unused |
| `FloodCallbacks.CalledOnceIffTree` | src/mesh/routing/MeshRouter.cpp:150-168 | in every schedule, on a connected network with origin TTL at least the number of nodes: at the end each node other than the origin has had exactly one callback if and only if the network is a tree |
| `FloodCallbacks.CycleCallsTwice` | src/mesh/routing/MeshRouter.cpp:150-168 | on every other connected network every broadcast has a run that calls some node at least twice |
| `FloodCallbacks.TriangleCallsTwice` | src/mesh/routing/MeshRouter.cpp:150-168 | such a run on three nodes linked in a triangle |
| `TtlBound.EveryRunEnds` | src/mesh/routing/MeshRouter.cpp:181-187 | without any duplicate suppression and with arbitrary, even looping, tables the TTL alone bounds every run |
| `RequestTracker.StepKeepsRequest` | src/mesh/utils/AsyncRequestTracker.h:44-58 | through every lock-delimited step a tracked request is in exactly one place: pending, taken, or called back; and its timeout is ahead while it is pending |
| `RequestTracker.StepKeepsBroadcast` | src/mesh/utils/AsyncRequestTracker.h:15-42 | a broadcast is active or completed, never both, and its timer is ahead while it is active |
| `RequestTracker.StepKeepsOrder` | src/mesh/utils/AsyncRequestTracker.h:77-92 | no response callback after the completion of its broadcast |
| `RequestTracker.StepKeepsGenuine` | src/mesh/utils/AsyncRequestTracker.h:110-126 | callbacks are given only answers that were received for that request |
| `RequestTracker.ExactlyOnce` | src/mesh/utils/AsyncRequestTracker.h:15-126 | under every interleaving, at quiescence each request's callback has run exactly once and each broadcast has completed exactly once |
| `RequestTracker.AtMostOnceAndGenuine` | src/mesh/utils/AsyncRequestTracker.h:110-126 | at every moment at most once, and with genuine answers |
| `RequestTracker.EveryRunFinishes` | src/mesh/utils/AsyncRequestTracker.h:15-126 | every run can be continued until no timer is armed and no thread is under way |
| `RequestOutcomes.FirstCompletionDecides` | src/mesh/utils/AsyncRequestTracker.h:110-126 | under every interleaving the one callback is given the result of the first completion that runs |
| `RequestOutcomes.AnswerBeatsTimer` | src/mesh/utils/AsyncRequestTracker.h:77-92 | if an answer has been looked at and no thread with one is on its way to complete when the timer has not yet fired, the callback is given an answer that was received for this request |
| `RequestOutcomes.CanBeAnswered` | src/mesh/utils/AsyncRequestTracker.h:77-126 | from every moment at which a request is pending, any answer can still become its result |
| `RequestOutcomes.NoTimerAfterCallback` | src/mesh/utils/AsyncRequestTracker.h:123 | once a request has called back its timer is cancelled |
| `RequestOutcomes.EveryResponseIsHeard` | src/mesh/utils/AsyncRequestTracker.h:77-88 | the response callback of a broadcast is given an answer exactly as often as that answer is looked at between its announcement and its completion |
| `Session.ConsumeInPieces` | src/mesh/net/Session.cpp:106-164 | the reader's result does not depend on how the bytes are split on arrival |
| `Session.StreamIsReadIff` | src/mesh/net/Session.cpp:106-164 | a stream of frames is read back as exactly its messages if and only if no payload exceeds 10 MiB |
| `Session.OversizedStops` | src/mesh/net/Session.cpp:129-135 | an oversized message stops the reader and everything after it is lost |
| `Session.FrameFormat` | src/mesh/net/Session.cpp:62-69 | a frame is the id, four bytes of length with the most significant one first, and the payload |
| `Session.ReadSoFar` | src/mesh/net/Session.cpp:106-164 | from any part of the stream, a prefix of the messages has been read |
| `Session.Writer.SendMessage` | src/mesh/net/Session.cpp:53-79 | posting appends one frame; a write is in flight exactly when the outbox is non-empty; over-long messages are dropped |
| `Session.Writer.WriteSome` | src/mesh/net/Session.cpp:88-93 | bytes leave in order: what is out plus what is queued is always the stream of posted frames |
| `Session.Writer.WriteCompleted` | src/mesh/net/Session.cpp:94-103 | the completion handler pops the front and writes on |
| `Session.Reader.Feed` | src/mesh/net/Session.cpp:106-164 | handles every complete header and payload, and only appends to what was received |
| `Session.Drain` | src/mesh/net/Session.cpp:106-164 | the alternation of header and payload reads refines `Consume` |
| `Session.EndToEnd` | src/mesh/net/Session.cpp:53-164 | what one end has handled is a prefix of what the other posted, and all of it in the end |

## Left out

- Sockets, TLS streams, executors, threads and timers as mechanisms; only their events are modelled.
- OpenSSL, certificates and packet security: thin wrappers over a library.
- RpcManager connection tables: the heartbeat path erases only one of its two indices, so there is no two-index invariant.
- Outgoing identity buffering in MeshNode: a packet is buffered before its payload is set.
- `track_request` and `fail_request` of the request tracker: they do not compile when instantiated.
- `stop` of a session while a write is in flight: it clears the queue under the completion handler.
- Late updates that recreate the view of a neighbour that is gone, and one-sided restarts: `UpdateStream` and `MeshRuns` speak of neighbours that stay connected and do not time out.
- Logging, configuration, graph export, protobuf encoding and id generation; ids are values and are taken to be fresh where a property says so.
- RequestTracker: modelled as a state machine over values, one step per locked section, because several threads are between their sections at once; the map of callbacks is represented by the set of its ids.
- Flooding: follows the copies of one broadcast; other packets only matter through their own dedup keys, and no key expires during the flood.
- FecCodec: vectors of vectors are sequences that the methods reassign, so aliasing between rows, which the original does not have either, is not represented. The test at line 293 for an index beyond the slots and the size test at line 180 can never be true and are not repeated.
- MeshRouter.Router: the mutex and the event queue are not modelled; each event is handled as a whole, as the single router thread does.
