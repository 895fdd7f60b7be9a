# Verified models of the explorer's core algorithms

Dafny models of the parts of the explorer whose correctness is not obvious, with
proofs of what their code and documentation promise. `dafny verify dfyconfig.toml`
checks everything.

- **Import-cycle audit** (`ImportGraph`, `Tarjan`, `CyclePath`, `CycleAudit`): Tarjan's
  algorithm with its mutable maps and stack, the search for a concrete cycle, and the
  verdict of the run.
- **Certificate mathematics** (`Bitwise`, `MachineXor`, `GF256`, `GFLogs`, `Polynomials`,
  `ReedSolomon`, `QrBits`, `QrPlacement`, `QrSymbol`, `Merkle`): the field GF(256) by
  logarithm tables, the in-place Reed-Solomon encoder (section 7.5.2 of ISO/IEC
  18004:2015), the QR symbol from bytes to modules and back (sections 7.4, 7.7.3 and 7.8),
  and the Merkle tree.
- **Cache** (`CacheKeys`, `CacheKeyLaws`, `LruCache`, `LruRuns`, `CacheCoherence`): key construction, the
  in-memory LRU with expiry times, and the protocol between processes, Redis and the
  invalidation channel as a state machine over atomic steps.
- **API surface and versions** (`Surface`, `ClientCalls`, `SemverPolicy`): the syntactic
  diff, what it means for client calls, and the policy over release histories.
- **Archives** (`Crc`, `Zip`, `ZipBytes`, `ZipReader`): the table-driven CRC-32 (section 8 of RFC 1952)
  and the ZIP writer (sections 4.3.7, 4.3.12 and 4.3.16 of PKWARE APPNOTE.TXT), with a
  reader to close the round trip.
- **Multi-signature login** (`Multisig`, `MultisigLogin`, `MultisigRuns`): the handlers as atomic calls and
  interleaved at their awaits.
- **Generation pipeline** (`Breaker`, `BreakerRuns`): retries, circuit breaker, fallbacks.
- **Agents** (`AgentEngine`, `AgentRuns`, `AgentSchedule`, `AgentLife`,
  `AgentInterleaved`, `AgentTotals`): life
  cycle, limits and accounting of one agent, with atomic calls and interleaved at their awaits.

What the program takes from outside is a parameter: SHA-256 is an arbitrary function to
64 hexadecimal digits (soundness results produce a collision instead of assuming there is
none), signature verification an arbitrary predicate, clock readings, strategy outcomes
and handler behaviour arbitrary inputs. Redis answers and messages may be delayed at will,
and are never lost.

Where the code departs from what is written about it, the model follows the code:

- `encodeQR` speaks of 47 bytes. A whole codeword fits up to 42 bytes
  (`QrSymbol.PlacedCodeword`); the text itself can be read back up to 69
  (`QrSymbol.PlacedReads`, `QrSymbol.PlacedAmbiguous`). Its terminator loop fills the
  whole data area with zeros, so the pad bytes 0xec and 0x11 never occur.
- The architecture notes of the agents say that a tripped breaker or an exhausted gas
  budget pauses the agent. A failed run makes the agent active, from where it cannot be
  paused (`AgentRuns.TripThrows`); exhausted gas pauses only a running agent
  (`AgentRuns.ExhaustedPauses`), and is never reset (`AgentRuns.ExhaustedForGood`) unless by
  an execution that was in flight already (`AgentInterleaved.StaysExhaustedIff`).
- One completion per login flow holds if handlers go on only while the store holds their
  flow, not completed, and a completion overlaps neither another completion nor a
  contribution (`MultisigRuns.CompletesOnce`). Each of these conditions is needed for every
  completable flow, those on contributions for every one that can take one more: overlap is fatal even if every read is up to date
  (`MultisigRuns.CompletesTwice`, `MultisigRuns.CompletionDuringContribution`,
  `MultisigRuns.ContributionDuringCompletion`), and an old read is fatal even without
  overlap (`MultisigRuns.StaleCompletion`, `MultisigRuns.ExpiredCompletion`,
  `MultisigRuns.StaleContribution`).
- A terminated or archived agent can come back, exactly through an execution that was past
  its guards before and fails after, or a transition to a live status that was past its
  check before and writes after (`AgentInterleaved.StaysDeadIff`,
  `AgentInterleaved.TerminationUndone`, `AgentInterleaved.DeletionUndone`).  The daily limit
  of runs is exceeded by as many executions as overlap the one it admits
  (`AgentTotals.DailyRunsAdmitted`, `AgentTotals.LimitExceeded`).
- The inactivity alert can not be raised: it is checked only after a run
  (`AgentLife.NeverInactive`).
- The surface diff reports any change of a parameter's type as breaking, also one to a
  larger type (`ClientCalls.WideningReported`); `ClientCalls.KeepsCallsIff` says which
  reported changes break no call.
- Memory and Redis can disagree after all calls have finished, for the lifetime of the
  entry (`CacheCoherence.OverlapGoesStale`, `CacheCoherence.SlowReadGoesStale`).
- Key escaping keeps parts apart only within the length limits
  (`CacheKeys.KeyDeterminesParts`, `CacheKeys.LongSegmentKeysCollide`); beyond them, only what
  `CacheKeyLaws.KeyTells` lists shares a key.

## Model

| member | source | states |
|---|---|---|
| `ImportGraph.NodesAreReachable` | scripts/detect-import-cycles.ts:100-101 | the files partitioned below are exactly those reachable from the keys of the graph, edge targets that are not keys included |
| `Tarjan.FindSccs` | scripts/detect-import-cycles.ts:100-142 | for every finite graph: the components are non-empty lists without repetition, each file of the graph is in exactly one, two files share one iff each reaches the other, and a component comes out only after all it reaches |
| `Tarjan.SccFinder.StrongConnect` | scripts/detect-import-cycles.ts:109-135 | a call numbers its file, leaves the files of the calls above it on the stack, keeps their lowlinks, and re-establishes the whole stack invariant (numbering, lowlink witnesses, closed finished components) |
| `Tarjan.SccFinder.ScanImport` | scripts/detect-import-cycles.ts:116-123 | one import scanned: the lowlink bound and the reachability facts extend to it in all three cases of the loop body |
| `Tarjan.SccFinder.PopComponent` | scripts/detect-import-cycles.ts:126-132 | the do-while loop pops exactly the files above and including v, and takes exactly those off onStack |
| `Tarjan.PoppedClosed` | scripts/detect-import-cycles.ts:125-134 | when lowlink equals index, no edge leaves the popped files and the components finished before |
| `Tarjan.PoppedConnected` | scripts/detect-import-cycles.ts:125-134 | when lowlink equals index, the popped files all reach each other |
| `Tarjan.ReachesEarlier` | scripts/detect-import-cycles.ts:137-141 | a component reaches only itself and components emitted before it |
| `Tarjan.ComponentsAreClasses` | scripts/detect-import-cycles.ts:137-141 | closed, connected, disjoint components that cover the graph are the mutual-reachability classes in reverse topological order |
| `CyclePath.CycleSearch.Dfs` | scripts/detect-import-cycles.ts:149-165 | a successful search leaves a simple closed path of real edges through start inside the component; a failed one restores the path and leaves every visited file a dead end |
| `CyclePath.DeadEndsExcludeCycles` | scripts/detect-import-cycles.ts:153-164 | if start is among the given-up files, no cycle through start stays inside the component |
| `CyclePath.FindCyclePath` | scripts/detect-import-cycles.ts:145-168 | a path is found iff start lies on a cycle inside the given set, and then it is a simple closed path of edges from start to start |
| `CycleAudit.CyclicTest` | scripts/detect-import-cycles.ts:190-191 | the test on length and self-loops is true of a component iff it contains a cycle |
| `CycleAudit.CycleStaysInClass` | scripts/detect-import-cycles.ts:201-207 | restricting the search to the component loses no cycle: every cycle through one of its files stays inside |
| `CycleAudit.CyclicFiles` | scripts/detect-import-cycles.ts:191 | the files of the filtered components are exactly the files on cycles |
| `CycleAudit.SelfLoops` | scripts/detect-import-cycles.ts:190 | the filter finds exactly the files that import themselves |
| `CycleAudit.ReportOn` | scripts/detect-import-cycles.ts:200-208 | each report is a real cycle of the component; the unordered fallback listing is never needed |
| `CycleAudit.Run` | scripts/detect-import-cycles.ts:187-208 | the exit code is 0 iff the graph is acyclic; otherwise one real cycle is reported per cyclic component, and these hold exactly the files on cycles |
| `MachineXor.XorIsBitwise` | src/api/audit-verify.ts:481 | the arithmetic exclusive-or used in the proofs is the machine operator on all 9-bit values |
| `GFLogs.OrderIs255` | src/api/audit-verify.ts:477-482 | doubling modulo 0x11d does not return to 1 before the 255th step |
| `GFLogs.EighthPower` | src/api/audit-verify.ts:480 | reducing x^8 leaves x^4 + x^3 + x^2 + 1, which fixes the polynomial |
| `GFLogs.LogExists` | src/api/audit-verify.ts:479 | every non-zero byte is a power of alpha below 255, so the logarithm table is complete |
| `GFLogs.MulAssoc` | src/api/audit-verify.ts:486 | field multiplication, defined by shift-and-add modulo 0x11d, is associative |
| `GFLogs.MulComm` | src/api/audit-verify.ts:486 | and commutative |
| `GFLogs.MulAdd` | src/api/audit-verify.ts:486 | and distributes over exclusive-or on both sides |
| `ReedSolomon.GaloisTables.constructor` | src/api/audit-verify.ts:473-490 | the tables hold alpha^i for all i below 512 and its inverse below 255 |
| `ReedSolomon.GaloisTables.FillPowers` | src/api/audit-verify.ts:476-482 | the doubling loop fills 255 powers and the logarithm of each |
| `ReedSolomon.GaloisTables.RepeatPowers` | src/api/audit-verify.ts:483 | the copying loop continues the powers up to 511 |
| `ReedSolomon.GaloisTables.MulByLogs` | src/api/audit-verify.ts:486 | multiplying by table look-up is field multiplication, zero included |
| `Polynomials.EvalPolyMul` | src/api/audit-verify.ts:498-499 | evaluation turns a product of polynomials into a product of values |
| `ReedSolomon.GeneratorRoot` | src/api/audit-verify.ts:494-501 | every alpha^i below the degree is a root of the generator |
| `ReedSolomon.BuildGenerator` | src/api/audit-verify.ts:494-501 | the nested loops compute the product of the factors x + alpha^i |
| `ReedSolomon.SubtractScaled` | src/api/audit-verify.ts:506-510 | one pass of the inner loop subtracts the scaled generator in place |
| `ReedSolomon.DivideStep` | src/api/audit-verify.ts:504-511 | a pass keeps message = quotient * generator + remainder and moves one coefficient on |
| `ReedSolomon.RsEncode` | src/api/audit-verify.ts:492-513 | for all data and every ecCount: data followed by the result is a multiple of the generator and vanishes at alpha^0 to alpha^(ecCount-1) |
| `ReedSolomon.CheckSymbolsUnique` | src/api/audit-verify.ts:512 | no other check symbols of that length complete the data to a multiple of the generator |
| `QrBits.BuildDataBits` | src/api/audit-verify.ts:524-539 | the stream is mode, count, data, then zeros up to 44 codewords (or the next full one): the terminator loop fills the whole data area and the pad-byte loop is never entered |
| `QrBits.PushBits` | src/api/audit-verify.ts:525-527 | appends the low bits, most significant first |
| `QrBits.PackBits` | src/api/audit-verify.ts:541-546 | packs eight bits at a time |
| `QrBits.UnpackBits` | src/api/audit-verify.ts:552-557 | the bits of all codewords in order and seven zeros |
| `QrBits.UnpackPack` | src/api/audit-verify.ts:541-555 | packing bits to codewords and unpacking them is the identity |
| `QrBits.ReadsMessage` | src/api/audit-verify.ts:528-530 | a byte-mode reader gets every text of fewer than 256 bytes back from the stream, whatever follows |
| `QrBits.ModeAt` | src/api/audit-verify.ts:528 | the first four bits are 0, 1, 0, 0 |
| `QrBits.CountAt` | src/api/audit-verify.ts:529 | bit 4 + i of the stream is bit 7 - i of the number of bytes |
| `QrBits.ByteAt` | src/api/audit-verify.ts:530 | bit 12 + 8k + i of the stream is bit 7 - i of the k-th byte |
| `QrPlacement.EveryColumnButSixOnce` | src/api/audit-verify.ts:624-638 | for every odd size from 7 on, the zigzag visits each cell outside column 6 exactly once and no other |
| `QrPlacement.OrderAt` | src/api/audit-verify.ts:624-638 | where each cell stands in the zigzag, in closed form: pairs of columns from the right without column 6, two cells a row, the first pair upwards and then in turn |
| `QrPlacement.PlaceCell` | src/api/audit-verify.ts:632-634 | an unreserved cell takes the next bit, or 0 after the last; a reserved one is left |
| `QrPlacement.PlaceBits` | src/api/audit-verify.ts:624-638 | for every odd size from 7 on and every set of reserved modules: the i-th unreserved cell of the zigzag holds the i-th bit, zeros follow, reserved modules are untouched |
| `QrPlacement.ApplyMask` | src/api/audit-verify.ts:641-646 | flips exactly the set, unreserved cells with even row plus column |
| `QrPlacement.MaskTwice` | src/api/audit-verify.ts:641-646 | applying the mask twice is the identity |
| `QrSymbol.ReserveModules` | src/api/audit-verify.ts:562-621 | the flags after all drawing loops are exactly finders with separators, timing, alignment and format areas |
| `QrSymbol.ReservedExactly` | src/api/audit-verify.ts:570-621 | in coordinates: the three corners, row and column 6 and one square |
| `QrSymbol.WriteFormat` | src/api/audit-verify.ts:650-691 | the format bits change reserved modules only |
| `QrSymbol.ColumnSix` | src/api/audit-verify.ts:586-594 | column 6, which the zigzag skips, is entirely reserved |
| `QrSymbol.DataCellCount` | src/api/audit-verify.ts:570-638 | exactly 567 distinct cells carry data, the unreserved ones |
| `QrSymbol.Draw` | src/api/audit-verify.ts:559-693 | the reader sees the first 567 bits, in order |
| `QrSymbol.EncodeQR` | src/api/audit-verify.ts:516-694 | unmasking the symbol, reading its unreserved cells in zigzag order and decoding byte mode gives the text back for every text of at most 69 bytes; what is placed is a Reed-Solomon codeword of it, cut at 567 bits |
| `QrSymbol.ModuleAt` | src/api/audit-verify.ts:624-646 | for every unreserved module its position in the stream in closed form, and that it shows that bit, inverted where row plus column is even |
| `QrSymbol.PlacedReads` | src/api/audit-verify.ts:517-557 | the placed bits decode to the text up to 69 bytes |
| `QrSymbol.PlacedAmbiguous` | src/api/audit-verify.ts:517-557 | the limit is exact: every longer text shares its placed bits with a different one of the same length |
| `QrSymbol.PlacedCodeword` | src/api/audit-verify.ts:518-557 | the whole codeword is placed iff the text has at most 42 bytes |
| `Merkle.ParentComm` | src/api/audit-verify.ts:333-337 | the canonical sort makes the parent independent of the order of its children |
| `Merkle.SmallerFirst` | src/api/audit-verify.ts:335-336 | the smaller of two nodes, compared character by character, is hashed first, on whichever side it stands |
| `Merkle.RootOfThree` | src/api/audit-verify.ts:346-355 | three leaves: the first two are paired, the last with itself, then both parents |
| `Merkle.BuildMerkleTree` | src/api/audit-verify.ts:339-358 | the loops compute the layers up to a single node, and its root; an empty list has no root |
| `Merkle.GetMerkleProof` | src/api/audit-verify.ts:360-382 | one step per layer below the root, each with the sibling (or the node itself at an odd end) and its side |
| `Merkle.ProofStepAt` | src/api/audit-verify.ts:367-379 | the k-th step of the proof of a leaf holds the sibling of its ancestor in layer k, on the left of a right child and on the right of a left one, or that ancestor itself at an odd end |
| `Merkle.ProofLeadsToRoot` | src/api/audit-verify.ts:360-382 | completeness: for every leaf of every non-empty list the proof leads to the root |
| `Merkle.DepthIsLog` | src/api/audit-verify.ts:346-355 | the depth, and so the proof length, is the base-2 logarithm of the leaf count rounded up |
| `Merkle.WalkSound` | src/api/audit-verify.ts:329-358 | soundness: a sorted-pair walk over exactly depth-many 64-character siblings that reaches the root starts from a leaf, or a computed pair of different inputs has the same hash |
| `Merkle.InnerNodesHaveShorterProofs` | src/api/audit-verify.ts:452-457 | the fixed length is needed: every inner node has a shorter walk to the root |
| `CacheKeys.NormalizeBoundedIdempotent` | src/cache.ts:131-136 | on every input the normalised key has at most 300 characters and normalises to itself |
| `CacheKeys.LongKeyHasAlias` | src/cache.ts:131-136 | every key over the limit shares its entry with another, short key |
| `CacheKeys.EscapeInjective` | src/cache.ts:151 | percent-encoding of % and : loses nothing |
| `CacheKeys.KeyDeterminesParts` | src/cache.ts:131-169 | within the limits of 128 per segment and 300 in all, equal stored keys come from equal lists of cleaned parts, lengths included |
| `CacheKeyLaws.SegmentsEqualIff` | src/cache.ts:149-155 | for parts of any length: segments are equal iff the cleaned parts are, or both are long and the digests of their whole escaped texts share 24 digits, or one part is literally what the other is replaced by |
| `CacheKeyLaws.NormalizeEqualIff` | src/cache.ts:131-136 | for keys of any length: they share an entry iff the cleaned keys are equal, or both are long with the same first 260 characters and digests of the whole keys that share 32 digits, or one is literally what the other is replaced by |
| `CacheKeyLaws.KeyTells` | src/cache.ts:131-169 | with no limit on any length, equal stored keys come from equal lists of cleaned parts, or such a confusion of two parts or of the two keys is exhibited |
| `CacheKeyLaws.PlainKey` | src/cache.ts:166-169 | two short plain parts are stored as they are, with colons, behind the namespace |
| `CacheKeyLaws.EscapeExactly` | src/cache.ts:151 | a colon is stored as %3a and a percent sign as %25, wherever they stand |
| `CacheKeyLaws.VisibleKept` | src/cache.ts:131-132 | text of visible characters and inner spaces without capital letters is not changed by cleaning |
| `CacheKeyLaws.ControlIgnored` | src/cache.ts:132 | control characters are ignored wherever they stand |
| `CacheKeyLaws.SpaceIgnored` | src/cache.ts:132 | each of the 20 white-space characters is ignored at either end |
| `CacheKeyLaws.CaseIgnored` | src/cache.ts:132 | the case of letters is ignored |
| `CacheKeys.LongSegmentHasAlias` | src/cache.ts:149-155 | the segment limit is exact: every longer part is escaped like a different short one |
| `CacheKeys.LongSegmentKeysCollide` | src/cache.ts:166-169 | and so two different lists of parts get the same key, whatever surrounds them |
| `LruCache.MemoryCache.LruSet` | src/cache.ts:189-200 | re-inserts at the end, evicts the oldest entry only when full and the key is new, counts evictions, keeps size and distinct keys |
| `LruCache.MemoryCache.LruGet` | src/cache.ts:202-209 | moves a present entry to the end and returns it |
| `LruCache.MemoryCache.PerformStaleCleanup` | src/cache.ts:460-471 | removes exactly the expired entries, keeps the order of the rest, and counts them as evictions |
| `LruCache.MemoryCache.CacheGet` | src/cache.ts:473-493 | without Redis: returns the unexpired payload or nothing and drops an expired entry |
| `LruCache.MemoryCache.CacheSet` | src/cache.ts:560-570 | without Redis: stores the payload with its expiry |
| `LruCache.MemoryCache.CacheDelete` | src/cache.ts:595-602 | without Redis: removes the key only |
| `LruRuns.RunValid` | src/cache.ts:189-209 | after every sequence of operations the store has at most MAX entries and distinct keys |
| `LruRuns.GetRefines` | src/cache.ts:473-493 | after every sequence of operations a get answers nothing or the unexpired value of an unbounded TTL map |
| `LruRuns.AnsweredUntil` | src/cache.ts:171-175 | an entry set at time n with a time to live of t > 0 seconds, and still in the store, is answered at time m iff m < n + 1000 t, without one always |
| `LruRuns.LossExplained` | src/cache.ts:189-200 | an entry disappears only by overwriting, deletion, expiry, or as the oldest of a full store |
| `LruRuns.EvictsLeastRecent` | src/cache.ts:192-197 | an entry evicted after any run was touched before all others |
| `LruRuns.AlwaysOrdered` | src/cache.ts:189-209 | after every sequence of operations the store is ordered by last touch |
| `LruRuns.StoreIsRecency` | src/cache.ts:189-209 | in every run in which nothing is deleted and nothing expires, cleanups that find nothing and deletions of absent keys included, the store holds exactly the last MAX distinct keys touched, oldest first |
| `LruRuns.PresentIffRecent` | src/cache.ts:189-209 | in every such run a key is present iff fewer than MAX distinct other keys were touched since its own last touch |
| `LruRuns.AbsentIfUntouched` | src/cache.ts:189-209 | in every such run a key never touched is absent |
| `CacheCoherence.NextInv` | src/cache.ts:473-617 | every atomic step of get, set, delete and the invalidation handler keeps the coherence invariant |
| `CacheCoherence.CoveredKept` | src/cache.ts:581-606 | an entry for which a write is in progress or an invalidation is on its way stays covered until it is gone |
| `CacheCoherence.SetAnswers` | src/cache.ts:560-570 | a process answers what it has set at once, until exactly the time to live is over |
| `CacheCoherence.SetStores` | src/cache.ts:573-581 | Redis answers it from the command on, until the time to live is over |
| `CacheCoherence.DeleteForgets` | src/cache.ts:595-606 | a process that deletes a key forgets it at once, Redis with the command |
| `CacheCoherence.DeliverForgets` | src/cache.ts:340-341 | an invalidation makes a process forget its key and nothing else |
| `CacheCoherence.MissForgets` | src/cache.ts:476-496 | a read that memory does not answer removes what it held there, and nothing else |
| `CacheCoherence.ReadFills` | src/cache.ts:496-531 | a read from Redis that nothing interrupts is answered from memory afterwards iff Redis has the key |
| `CacheCoherence.TtlAnswer` | src/cache.ts:498-500 | the reported time to live is the milliseconds left, -1 iff the key has no deadline, -2 iff Redis does not have it |
| `CacheCoherence.FillAnswers` | src/cache.ts:500-531 | what a read fills in is answered for exactly 0.8 of the reported time to live, or the memory default |
| `CacheCoherence.Coherence` | src/cache.ts:473-617 | in every interleaving of several processes, what a process answers from memory equals the Redis value, or a write is in progress, or the invalidation is on its way to it, or it was filled by a read that overlapped a write or was so slow that the value has expired meanwhile, and then it dies at the fill time plus 0.8 * PTTL or the memory default |
| `CacheCoherence.QuietAgrees` | src/cache.ts:473-617 | if no fill of a run comes from an overlapped or slow read, then whenever no call and no message is under way every answer from memory is what Redis holds |
| `CacheCoherence.OverlapGoesStale` | src/cache.ts:496-531 | the exception for overlapping reads is needed: from every state with a read past its first answer, a delete that runs to its end with its invalidation handled leaves the process answering the deleted value |
| `CacheCoherence.SlowReadGoesStale` | src/cache.ts:496-531 | so is the one for slow reads: from every state with a read past its first answer of a value with two milliseconds to live, an expired value can come to be answered without any write |
| `CacheCoherence.ReadStarts` | src/cache.ts:496 | such a read can be under way wherever Redis has the key and the process does not answer it from memory |
| `Surface.DiffParam` | scripts/sdk/surface.ts:71-87 | the breaking changes of one parameter are exactly the listed kinds: removed, retyped, became required, enum lost values, became an enum |
| `Surface.DiffOperation` | scripts/sdk/surface.ts:66-97 | the changes of one operation are exactly those of route, parameters, body and deprecation |
| `Surface.DiffSurfaces` | scripts/sdk/surface.ts:57-103 | the loops report exactly the breaking and additive changes between two surfaces |
| `ClientCalls.CompatibleIff` | scripts/sdk/surface.ts:57-103 | the breaking list is empty iff the surfaces are compatible: same routes, parameters kept with their types and at least their enum values, nothing newly required |
| `ClientCalls.CompatibleKeepsCalls` | scripts/sdk/surface.ts:57-103 | whatever values belong to which types, on compatible surfaces every call valid against the old one is valid against the new one |
| `ClientCalls.KeepsCallsIff` | scripts/sdk/surface.ts:57-103 | for all surfaces and all meanings of the types: every valid call stays valid iff each reported change is harmless, that is, about an operation no one can call, a parameter no one can pass, or a change of type or values that loses none |
| `ClientCalls.BreakingExactly` | scripts/sdk/surface.ts:57-103 | corollary: an empty breaking list means that every valid call stays valid, and the converse holds exactly if a non-empty list names a change that is not harmless |
| `ClientCalls.TellingIsExact` | scripts/sdk/surface.ts:57-103 | the two are equivalent whenever all operations can be called, all parameters passed, and each retyped or narrowed parameter has a value that it loses |
| `ClientCalls.WideningReported` | scripts/sdk/surface.ts:77 | where that fails the list over-reports: going from a type to a larger one is reported and keeps every call |
| `SemverPolicy.ParseDotted` | scripts/sdk/surface.ts:105-109 | three dotted runs of digits, leading zeros included, parse to their values, whatever follows |
| `SemverPolicy.ParsedIsDotted` | scripts/sdk/surface.ts:105-109 | nothing else parses |
| `SemverPolicy.Decimal` | scripts/sdk/surface.ts:108 | the values are decimal: a further digit d makes 10 n + d |
| `SemverPolicy.ParsePrinted` | scripts/sdk/surface.ts:105-109 | every version printed without leading zeros parses to its three numbers |
| `SemverPolicy.CheckVersionPolicy` | scripts/sdk/surface.ts:116-137 | each violation is reported iff its condition holds, none iff the policy is followed, and bad versions are rejected |
| `SemverPolicy.VersionOrder` | scripts/sdk/surface.ts:124 | major counts before minor before patch, and the order is reflexive and transitive |
| `SemverPolicy.AdditiveExactly` | scripts/sdk/surface.ts:89-103 | between compatible surfaces nothing is reported as added iff operations and parameters are the same and no operation is newly deprecated |
| `SemverPolicy.CompatibleTrans` | scripts/sdk/surface.ts:57-103 | an empty breaking list is transitive over releases |
| `SemverPolicy.GatedStep` | scripts/sdk/surface.ts:116-137 | a release that passes does not go backwards, is compatible within its major, and within its minor has the same operations and parameters and deprecates no operation |
| `SemverPolicy.HistoryMonotone` | scripts/sdk/surface.ts:124-125 | over a whole history of passing releases versions never decrease |
| `SemverPolicy.HistoryCompatible` | scripts/sdk/surface.ts:116-137 | over a whole history, any two releases of one major are compatible, and of one minor have the same operations and parameters, none of them deprecated in between |
| `SemverPolicy.OldClientsKeepWorking` | docs/sdk/versioning.md:48-49 | within a major, every call an older SDK can make is valid against every later release |
| `SemverPolicy.Gate` | scripts/sdk/check-breaking.ts:64-105 | the script passes exactly if there is no earlier surface, or every package of which both versions exist has readable ones and follows the policy |
| `SemverPolicy.GateSource` | scripts/sdk/check-breaking.ts:88-96 | one package passes iff a version file is missing or both versions parse and follow the policy |
| `Crc.StepsXor` | src/api/audit-embed.ts:728 | the shift register is linear over exclusive-or |
| `Crc.TableStep` | src/api/audit-embed.ts:719 | one table look-up is eight bitwise steps |
| `Crc.Crc32Table` | src/api/audit-embed.ts:724-732 | entry n is the register after eight steps from n |
| `Crc.Crc32` | src/api/audit-embed.ts:715-722 | for every byte sequence the table-driven loop computes the bit-at-a-time reflected CRC with polynomial 0xEDB88320 |
| `ZipBytes.XorBytes` | src/api/audit-embed.ts:719 | exclusive or acts on words byte by byte |
| `ZipBytes.CheckValues` | src/api/audit-embed.ts:715-732 | the checksum of nothing is 0 and that of one zero byte is 0xd202ef8d |
| `Crc.BurstsDetected` | src/api/audit-embed.ts:715-722 | any change confined to four consecutive bytes changes the checksum |
| `Zip.WriteUInt16LE` | src/api/audit-embed.ts:661-663 | stores the value little-endian iff it fits and leaves the other bytes alone |
| `Zip.WriteUInt32LE` | src/api/audit-embed.ts:660-668 | likewise for four bytes |
| `Zip.LocalHeader` | src/api/audit-embed.ts:659-671 | built iff the sizes fit their fields; every field is at its place |
| `Zip.CentralEntry` | src/api/audit-embed.ts:676-694 | likewise, with the recorded offset |
| `Zip.EndRecord` | src/api/audit-embed.ts:702-710 | likewise for the end record |
| `ZipBytes.LocalBytes` | src/api/audit-embed.ts:659-671 | the local header byte by byte, constants written out |
| `ZipBytes.CentralBytes` | src/api/audit-embed.ts:676-694 | likewise the directory entry |
| `ZipBytes.EndBytes` | src/api/audit-embed.ts:702-710 | likewise the end record |
| `Zip.BuildZip` | src/api/audit-embed.ts:646-713 | an archive is built iff every count, size and offset fits its field; sections, directory and end record lie at their positions, and each recorded offset is the true position of its local header |
| `ZipReader.ArchiveReadsBack` | src/api/audit-embed.ts:646-713 | a reader that starts at the end record, walks the directory, follows the offsets and checks the checksums recovers names, contents and order |
| `ZipReader.BuildThenRead` | src/api/audit-embed.ts:646-713 | writing and reading back is the identity on all file lists within the limits |
| `Multisig.OpenGrown` | src/api/authMultisig.ts:41-58 | a new flow is well-formed and its challenge names it |
| `Multisig.ChallengesDiffer` | src/api/authMultisig.ts:42-43 | two flows with different ids of one length have different challenges, so no signature serves both |
| `Multisig.ContributedGrown` | src/api/authMultisig.ts:78-96 | a contribution keeps the terms of the flow and adds only a signature verified over its challenge, for the first entry with that address |
| `Multisig.ContributionWeight` | src/api/authMultisig.ts:94-98 | a contribution raises the signed weight by the weight of exactly one signer |
| `Multisig.CompletedEntitled` | src/api/authMultisig.ts:114-125 | a completion passes only on distinct signed addresses with verified signatures and at least the threshold in weight |
| `Multisig.Server.Initiate` | src/api/authMultisig.ts:33-60 | atomic handler: stores exactly the opened flow, or rejects the request |
| `Multisig.Server.Contribute` | src/api/authMultisig.ts:70-105 | atomic handler: stores exactly the contribution or reports the error; ready iff a completion would now succeed |
| `Multisig.Server.Complete` | src/api/authMultisig.ts:108-126 | atomic handler: issues a token exactly if the stored flow is open and its threshold met, at most once per flow |
| `MultisigLogin.LogIn` | src/api/authMultisig.ts:33-126 | liveness from initiation: any different listed signers contribute valid signatures over the literal challenge in any order, each is accepted and told whether the listed weights so far reach the threshold, and the completion gives a token for that wallet iff they do, equality included |
| `MultisigLogin.InitiationAnswer` | src/api/authMultisig.ts:36-56 | a request is refused iff it names no wallet, signers or threshold; otherwise the flow lists the signers, none signed |
| `MultisigLogin.ContributionAnswer` | src/api/authMultisig.ts:74-92 | each refusal of a contribution occurs iff its condition holds of the first signer with the address, and it is accepted iff that one has not signed and the signature is valid |
| `MultisigLogin.CompletionAnswer` | src/api/authMultisig.ts:112-116 | likewise the refusals of a completion that do not concern the threshold |
| `MultisigRuns.TokensAreEarned` | src/api/authMultisig.ts:33-170 | under every interleaving of the handlers at their awaits, stale reads and lost updates included, every token stems from a flow with its original terms, distinct signed addresses, verified signatures over its own challenge and at least the threshold in weight |
| `MultisigRuns.CompletesTwice` | src/api/authMultisig.ts:114-126 | one completion per flow does not hold under interleaving: from every state with a completable flow two overlapping completions both get a token, with every read up to date |
| `MultisigRuns.CompletionDuringContribution` | src/api/authMultisig.ts:78-126 | nor if a completion runs while a contribution is between its read and its write: the write opens the flow again, with every read up to date |
| `MultisigRuns.ContributionDuringCompletion` | src/api/authMultisig.ts:78-126 | nor if a contribution reads while a completion is between its read and its write |
| `MultisigRuns.StaleCompletion` | src/api/authMultisig.ts:114-126 | nor without any overlap, if a second completion reads the state before the first |
| `MultisigRuns.ExpiredCompletion` | src/api/authMultisig.ts:114-126 | nor without any overlap, if the flow has left the store when the second completion reads its old state |
| `MultisigRuns.StaleContribution` | src/api/authMultisig.ts:78-126 | nor without any overlap, if a contribution after the completion reads the state before it |
| `MultisigRuns.ContributionLost` | src/api/authMultisig.ts:78-96 | of two interleaved contributions the one stored first is lost, from every state in which both are acceptable |
| `MultisigRuns.CompletesOnce` | src/api/authMultisig.ts:70-126 | if handlers go on only while the store holds their flow, not completed, and a completion overlaps neither another nor a contribution, no flow gets two tokens; contributions may overlap each other and read old states of an open flow |
| `MultisigRuns.CompletesOnceFromStart` | src/api/authMultisig.ts:70-126 | in particular in every such run that starts without flows |
| `Breaker.GracefulDegradation.IsCircuitBreakerOpen` | scripts/sdk/graceful-degradation.ts:153-164 | open iff the count has reached the threshold and the last failure is not too old; forgets failures that are |
| `Breaker.GracefulDegradation.RecordFailure` | scripts/sdk/graceful-degradation.ts:170-175 | adds one to the count and stores the time, for that component only |
| `Breaker.GracefulDegradation.ExecuteHandler` | scripts/sdk/graceful-degradation.ts:112-151 | the retry loop ends with the first attempt that returns, or records one failure after all of them |
| `Breaker.GracefulDegradation.ExecuteWithDegradation` | scripts/sdk/graceful-degradation.ts:34-110 | the two loops compute the specified outcome and breaker state, fail-fast included |
| `BreakerRuns.TurnCalls` | scripts/sdk/graceful-degradation.ts:112-151 | at most maxRetries calls, none when open; a turn fails exactly when no call returns, with the message of the last call, and is recoverable iff open or optional |
| `BreakerRuns.OpenStaysShut` | scripts/sdk/graceful-degradation.ts:116-124 | once open, a component is not called by any later turn checked within the timeout of its last failure, and its count stays |
| `BreakerRuns.CountBounded` | scripts/sdk/graceful-degradation.ts:153-175 | no count ever exceeds the threshold (or one) |
| `BreakerRuns.CountIsStreak` | scripts/sdk/graceful-degradation.ts:153-175 | for every history the stored count is the number of failed executions since the last success or timed-out check |
| `BreakerRuns.RefusedIff` | scripts/sdk/graceful-degradation.ts:116-175 | for every history a turn is refused iff the last execution failed within the timeout and at least the threshold of them failed in a row; the count starts again iff the last failure is older than the timeout |
| `BreakerRuns.OwnTurnsDecide` | scripts/sdk/graceful-degradation.ts:153-175 | what is stored for a component depends on its own turns only |
| `BreakerRuns.EndsAtFirstLost` | scripts/sdk/graceful-degradation.ts:50-70 | the turns of the critical handlers end exactly with the first one that was called and never returned; one with an open breaker does not end them |
| `BreakerRuns.SelectInOrder` | scripts/sdk/graceful-degradation.ts:47-48 | critical and optional handlers each keep their order |
| `BreakerRuns.Report` | scripts/sdk/graceful-degradation.ts:47-109 | success iff no critical handler fails; partial iff the optional ones were reached and one failed; files, failed names, errors and activated fallbacks are those of the turns that took place, in order, with fallback output in the place of the failed |
| `AgentEngine.Engine.TransitionStatus` | src/agents/engine.ts:77-108 | moves exactly along the table and throws otherwise; becoming active clears the last execution time |
| `AgentEngine.Engine.DeleteAgent` | src/agents/marketplace.ts:157-168 | for the owner, archives from any status; for others changes nothing |
| `AgentEngine.Engine.EnforceResourceLimits` | src/agents/engine.ts:367-395 | passes iff gas and runs of the day are below their limits; exhausted gas raises an alert and pauses where the table allows it |
| `AgentEngine.Engine.CheckCircuitBreakers` | src/agents/engine.ts:411-466 | raises the alert of the first tripped breaker and goes on only if the agent may be paused; raises the inactivity alert after a day |
| `AgentEngine.Engine.ExecuteAgent` | src/agents/engine.ts:110-278 | one call as a function of the agent, its runs, the time and the strategy outcome |
| `AgentRuns.ApplyCases` | src/agents/engine.ts:110-278 | a call records a run iff nothing stops it, and otherwise changes no account |
| `AgentRuns.AlwaysAccounted` | src/agents/engine.ts:232-263 | over every sequence of calls total executions = successes + failures = recorded runs, and total gas is the sum over them |
| `AgentRuns.AlwaysDayGas` | src/agents/engine.ts:258-271 | the gas of the day is that of the runs since some run, and below the limit before the last of them |
| `AgentRuns.ExhaustedForGood` | src/agents/engine.ts:271-278 | with atomic calls, an agent that has used up its gas never runs again, because the daily reset is reached only after a run |
| `AgentRuns.ExhaustionReached` | src/agents/engine.ts:110-278 | from the creation of any agent a single run can use up the gas, after which every later execution is refused, whatever else happens |
| `AgentRuns.AlwaysDailyRuns` | src/agents/engine.ts:383-394 | with a clock that does not run backwards and midnights of any time zone, no day has more recorded runs than the limit |
| `AgentRuns.DeadForGood` | src/agents/engine.ts:77-119 | with atomic calls, a terminated or archived agent never executes or revives |
| `AgentRuns.TripThrows` | src/agents/engine.ts:251-268 | a failed run that trips a breaker raises an alert and throws, leaving the agent active rather than paused |
| `AgentRuns.TripReached` | src/agents/engine.ts:411-437 | such a run can be reached from the creation of any agent: a failure, three good runs, and a failing fifth |
| `AgentRuns.ExhaustedPauses` | src/agents/engine.ts:372-381 | exhausted gas pauses the agent iff it is running |
| `AgentSchedule.RecordsIff` | src/agents/engine.ts:110-125 | a call records a run iff the agent is active or running, its gas of the day and the runs recorded on that day are below their limits, and its template exists |
| `AgentSchedule.SuccessResets` | src/agents/engine.ts:397-409 | a run that succeeds leaves status and alerts, and resets the gas of the day exactly if the last reset is more than a day ago |
| `AgentSchedule.PlanRun` | src/agents/engine.ts:505-583 | an agent with a plan waits for 100 gas unless the plan is unfinished and its interval has passed since the last execution, then skips for 5100 if the price is too far off, and otherwise counts one buy for 50000; only then can it lack the permission |
| `AgentSchedule.RaiseIsDue` | src/agents/engine.ts:505-583 | over every call, only a due execution within the tolerance raises the number of buys, and by one |
| `AgentSchedule.BuysApart` | src/agents/engine.ts:518-533 | over every run with a clock that does not run backwards, two buys are at least the interval apart unless the agent becomes active in between |
| `AgentSchedule.RateTripsIff` | src/agents/engine.ts:415-437 | the failure-rate breaker trips iff at least five runs are recorded in all and of the newest of the last day, at least five and at most 20, more than a tenth failed |
| `AgentLife.EntersIff` | src/agents/engine.ts:78-105 | from which status a transition to each one is accepted, and all it changes |
| `AgentLife.ValidatedFirst` | src/agents/engine.ts:78-119 | over every sequence of calls from creation: an agent that is active or has ever run was validated and then activated, and one that is running or paused was told to run after that |
| `AgentLife.StrategyRun` | src/agents/engine.ts:130-245 | a run without a plan costs the gas of its steps however it ends, and fails iff the strategy throws or its action is not permitted |
| `AgentLife.FailedRun` | src/agents/engine.ts:247-271 | a failed run leaves the agent active; a breaker that trips raises exactly its alert, throws, and keeps the gas of the day from being reset |
| `AgentLife.DrawdownTripsIff` | src/agents/engine.ts:439-452 | the drawdown breaker trips iff the failure rate does not, a limit is set, and the drawdown is beyond it in either direction |
| `AgentLife.NeverInactive` | src/agents/engine.ts:454-466 | over every sequence of calls the inactivity alert is never raised, because its check follows a run |
| `AgentRuns.NeverOverbuys` | src/agents/engine.ts:505-583 | buysExecuted never exceeds totalBuys while the plan is not edited |
| `AgentRuns.FromCreation` | src/agents/engine.ts:32-278 | accounts, the gas of the day and the runs of each day are right from the creation of an agent on |
| `AgentInterleaved.AtomicExecution` | src/agents/engine.ts:110-278 | with nothing in between, the pieces of an execution (every piece one read or one write of the store) are the atomic execution |
| `AgentInterleaved.RevivesIff` | src/agents/engine.ts:88-105 | one piece brings a dead agent back iff it is the update after a failed run or the write of a transition to a live status |
| `AgentInterleaved.StaysDeadIff` | src/agents/engine.ts:77-278 | a terminated or archived agent stays dead over a run of interleaved pieces iff no execution that was past its guards at the start books a failure, and no transition to a live status that was past its check at the start writes |
| `AgentInterleaved.TerminationUndone` | src/agents/engine.ts:88-105 | from every live status, every transition to a live status that overlaps a termination, checked before it and written after, undoes it |
| `AgentInterleaved.DeletionUndone` | src/agents/marketplace.ts:164-167 | likewise it undoes a deletion |
| `AgentInterleaved.RefillsIff` | src/agents/engine.ts:397-409 | used-up gas comes back with one piece iff that is the write of a daily reset (and the limit allows any gas) |
| `AgentInterleaved.StaysExhaustedIff` | src/agents/engine.ts:370-409 | an agent that has used up its gas stays so over a run iff the limit allows none at all, or no execution in flight at the start comes to write the daily reset |
| `AgentInterleaved.ExhaustionUndone` | src/agents/engine.ts:251-278 | any execution past its checks can: if it ends well more than a day after the last reset, the gas is back |
| `AgentTotals.ExhaustedInFlight` | src/agents/engine.ts:110-263 | that situation is reached from every state in which an agent without a plan may run |
| `AgentTotals.DailyRunsAdmitted` | src/agents/engine.ts:383-394 | with at most m executions past their checks and not yet recorded at a time, no day has more recorded runs than the limit plus m - 1 |
| `AgentTotals.DailyRunsFromCreation` | src/agents/engine.ts:383-394 | in particular from the creation of the agent on |
| `AgentTotals.LimitExceeded` | src/agents/engine.ts:383-394 | the excess is real: whenever an agent may run, with or without a plan and whatever else is in flight, any number of overlapping executions can all be recorded on that day |
| `AgentTotals.DayGasOpen` | src/agents/engine.ts:258-263 | the gas of the day is that of the runs booked since the last reset, and with at most m executions open at a time that of all but the last m is below the limit |
| `AgentTotals.AlwaysBalanced` | src/agents/engine.ts:232-263 | however executions overlap, the counters are those of the recorded runs without the ones between their record and their counter update; when there are none, those of all |
| `AgentTotals.BalancedFromCreation` | src/agents/engine.ts:232-263 | in particular from the creation of the agent on |
| `AgentTotals.NeverOverbooks` | src/agents/engine.ts:505-583 | buysExecuted stays within totalBuys however executions overlap |
| `AgentTotals.BuyNotCounted` | src/agents/engine.ts:578-583 | but it misses buys: two overlapping executions that are both due both buy and count once |

## Left out

- Reading TypeScript files and resolving imports: the audit starts from the finished graph; `Graph.files` stands for the key order of the JavaScript object.
- CycleAudit.Run: console output is reduced to the exit code and the list of reports.
- UTF-8 encoding and JSON: texts are byte or character sequences, and payloads are opaque strings.
- CacheKeys.NormalizeBoundedIdempotent: case folding is that of ASCII; Unicode folding is not part of this model.
- CacheKeys.KeyDeterminesParts: case folding is that of ASCII.
- Real SHA-256 and Ed25519: arbitrary functions; that the certificate hash matches the root (`src/api/audit-verify.ts:434`) is no property, since a root is compared with a single hash.
- Finder, timing and alignment colours, format-bit values and SVG output of the QR symbol: only which modules they occupy matters for reading back, and they do not follow the standard everywhere.
- MachineXor.XorIsBitwise: stated on 9-bit words, which the field arithmetic needs; the CRC uses the same arithmetic definition on 32-bit words, where it acts byte by byte (`ZipBytes.XorBytes`).
- Signed 32-bit intermediate values of the JavaScript operators in the CRC loop: the table entries and the result are unsigned words, on which both agree modulo 2^32.
- ZIP date and time fields: constants, laid out but not interpreted by the reader.
- Property names of JavaScript's own prototypes (`constructor`, `__proto__`) as operation or parameter keys: records are finite maps.
- SemverPolicy.ParsePrinted: version numbers beyond 2^53 lose precision in JavaScript and not in the model.
- Surface.DiffParam: the texts of the entries, each being a value that names its kind and place, and their order and repetition, since only emptiness and membership matter to the policy.
- Surface.DiffOperation: likewise.
- Surface.DiffSurfaces: likewise.
- `buildSurface` and the header-parameter filter: a sorted projection with nothing hard to state.
- Resolving a missing TTL from the per-route registry, the `v1:` prefix of stored keys and the metrics calls of the cache: a table look-up, a constant and output.
- The version hash of cache entries: the branch that compares it (`src/cache.ts:509-524`) stores the same entry as the other one, and only after the local entry was expired and removed.
- LruCache.MemoryCache.constructor: a CACHE_MAX_SIZE that is not a number turns the limit off in the program; the model has a limit of at least one.
- Redis failures, lost messages, reconnecting and Sentinel URLs: the coherence statement is about a Redis that answers and delivers.
- CacheCoherence.Coherence: all processes and Redis share one clock, and 0.8 * PTTL is computed without rounding; the eviction order of each memory level is abstracted to arbitrary drops, its exact form being the subject of `LruRuns`.
- CacheCoherence.NextInv: the protocol is modelled on values, one transition per atomic step, so update in place of the memory level appears only in `LruCache.MemoryCache`.
- MultisigRuns.TokensAreEarned: weights are integers, as JSON numbers with a fraction add nothing; initiating a flow is one step, since nobody else knows its random id before the answer; user and session rows written after the check are not modelled.
- MultisigRuns.CompletesOnce: the condition is sufficient for a whole run and each of its parts necessary for every completable flow; a run may by luck issue once although its handlers overlapped.
- The case of flow ids: the cache folds it, so that a request naming the id in another case acts on the same flow; requests of the model name the id as issued.
- `expiresAt` of a login flow: no handler reads it, and each contribution renews the cache entry.
- Listing flows and wallets, and the other routes: reads and writes of single rows.
- Waiting between retries, and the status report, manual reset and reconfiguration of the circuit breaker: the report repeats the check of a turn, the others set fields.
- BreakerRuns.CountIsStreak: stated for the turns of one component, to which `BreakerRuns.OwnTurnsDecide` reduces every run.
- Strategy bodies of the agents: arbitrary gas, failure and permission outcomes; the DCA strategy is modelled with its schedule and counter, its random price being a flag.
- AgentRuns.AlwaysDailyRuns: calls about one agent are atomic in `AgentEngine` and `AgentRuns`; `AgentInterleaved` and `AgentTotals` take every read and every write of the store as a piece of its own.
- AgentEngine.Engine.TransitionStatus: its read and its write are one step here, two in `AgentInterleaved`.
- AgentLife.NeverInactive: a call reads one clock; a program that stands still for a day between the end of a run and the check could raise the alert.
- AgentRuns.ExhaustedForGood: stated for atomic calls; `AgentInterleaved.StaysExhaustedIff` is the statement for interleaved ones.
- AgentRuns.DeadForGood: likewise, with `AgentInterleaved.StaysDeadIff`.
- The rows of alerts: each is one step with the piece that raises it, since nothing reads them; the read of a deletion, since the owner never changes.
- AgentEngine.Engine.DeleteAgent: the error for an unknown agent, as every call on an id that is not in the store.
- Trace hashing and signing, and editing of limits and configuration: hashing and assignments.
- Express routing, Prisma, metrics, logging, linters, emitters, badges, widgets and example clients: plumbing or string formatting.
