# Verified models of the humanymous audit log and gate

This project models the parts of humanymous whose correctness is hardest to see
from the code, and proves what they are for:

- the **tamper-evident audit log**: the Merkle tree of section 2.1 of RFC 6962 with its
  proof generators and the loop verifiers of sections 2.1.3.2 and 2.1.4.2 of RFC 9162, the
  hash-chained log with signed tree heads, WAL replay and an in-process witness, the offline
  verifier, the WAL's torn-tail recovery and the canonical record encoding;
- the **gate**: the streaming HTML injector, bans and the sliding-window limiter, the
  ledgers shared through an untrusted coordinator, dual-control erasure with the pseudonym
  vault, and the HTTP/2 frame monitor;
- the **adaptive-conformal threshold** and its long-run false-positive bound.

`dafny verify dfyconfig.toml` checks everything.

## How it is modelled

Code that updates objects or loops over buffers is a class or a method with loop
invariants, proved against a function on values (`View()` is the abstract value); whole-run
theorems are lemmas about those functions. Recursive code is functions. Every theorem is
about all inputs, all runs or all reachable states.

- **SHA-256** is a parameter, any function to 32-byte digests. No injectivity is assumed;
  soundness theorems require `CollisionFree(sha, inputs)`: no two different inputs of the
  finite set of byte strings actually hashed collide, and `Covers...` predicates say that
  the set holds those strings.
- **Ed25519** is ideal: a signature is its key and message. **HMAC**, JSON, Unicode
  normalisation, float formatting, case folding of multi-byte characters and the sort
  library are tables of which only their contracts are used (for example: sorting is an
  ascending permutation). **JSON** is partial both ways: some values cannot be rendered, some
  texts cannot be parsed; what it renders has no line break or NUL and parses. Whether a record
  comes back unchanged is a fact about that record. 64-bit floats are their bit patterns.
- Unsigned 64-bit sizes wrap explicitly, and their conversion to `int` is `AsInt64`. Sizes
  below 2^63 are required only where that conversion decides the result.
- Clocks, random ids and random keys, coordinator replies, upstream chunking and buffer
  sizes, crash points and map iteration order are inputs, and the theorems hold for all of
  them. Each exported operation runs under its lock, so operations are atomic steps.

| file | what it holds |
|---|---|
| `Hashing.dfy`, `Text.dfy` | byte strings, the hash parameter, hex, decimal, big-endian lengths |
| `Merkle.dfy` | tree roots, proofs and their memoised generators |
| `MerkleVerify.dfy`, `MerkleConsistency.dfy` | the two loop verifiers: exactness against the generators |
| `Canonical.dfy`, `RecordBinding.dfy` | record rendering, framing, record hash, and what the hash binds |
| `Witness.dfy`, `Verifier.dfy` | the witness state machine, offline verification, binding, edits |
| `ChainState.dfy`, `ChainRun.dfy`, `Chain.dfy` | the log as a state machine, its runs, and the object |
| `Wal.dfy` | segment files at byte level, with read and write errors |
| `ReadBack.dfy` | the chain as JSON gives it back |
| `DurableLog.dfy` | the log composed with its segment files: failures at any byte, with and without a restart |
| `SplitView.dfy` | two verifying histories under one witness |
| `FrameMonitor.dfy` | the incremental HTTP/2 parser against the frames sent |
| `InsertionPoint.dfy`, `Injector.dfy` | the insertion-point search and the streaming reader |
| `RateLimit.dfy`, `Ban.dfy` | limiter and ban store against stores that never forget |
| `Sealing.dfy`, `VerdictLedger.dfy`, `BanLedger.dfy` | sealed values and the shared ledgers |
| `Pseudonym.dfy`, `Approval.dfy`, `ErasureControl.dfy`, `ErasureEffect.dfy` | vault, approvals and hold queue, erasure runs: only by the book, and by the book always |
| `Conformal.dfy` | the threshold controller |

## Properties the code meets only under a condition

Each is stated with its exact condition, or with the half that holds for all inputs and a
concrete failing input.

- `ChainRun.HonestRunVerifies`: the witness refuses tree size 0, so a run verifies itself
  if and only if something was appended and no checkpoint was forced before that.
- `Injector.SafeExactly`: `findInsertionPoint` searches a lower-cased copy and uses the offset
  on the original. Lower-casing can lengthen a text (every byte that is not UTF-8 becomes
  three), so the offset can lie behind the end and the slice panics. A body panics under no
  delivery if and only if it is `Safe`: no prefix that chunks of at most 8 KiB can bring before
  the search has its offset behind its end. `AsciiSafe` is a simple sufficient condition,
  `NotAlwaysSafe` a failing body.
- `RateLimit.ChangeExactly`: a reconfigured limiter counts exactly if and only if the window
  does not widen; hits trimmed under the narrower window are gone.
- `Conformal.BoundExactly`: the long-run bound holds for all runs with human scores up to a cap
  if and only if the cap is at most 1 - gamma * (1 - budget); above it the clamp at 1 loses
  part of a correction. `Conformal.ReachExactly`: the budget is also reached in all runs with human
  scores from a least one on if and only if that is at least 0.5 + gamma * budget; below it the
  clamp at 0.5 loses part of one.
- What a record hash binds: `RecordBinding.HashBinds` is an equivalence on the record's fields, and
  shows two places where different records hash alike. A TLS fingerprint with all parts empty is
  hashed like a missing one (`TlsPresenceExactly`). Rules are joined by commas that are not escaped,
  so the one rule that joins a list of rules hashes like the list (`JoinedCollides`).
  `RulesBoundExactly`: the hash fixes a record's rules if and only if there is exactly one, not empty,
  that does not read like two rules in ascending order; among lists of rules that are not empty and
  hold no comma the multiset is always bound (`RulesBound`).
- The witness across restarts: the gate restores the head that is last in the checkpoint
  sidecar (cmd/gate/main.go:227-230), and the log writes a head there even when the witness
  refused it (internal/audit/chain.go:257-266). `Witness.RestartExactly`: a restart lets some
  co-signed size be co-signed with another root if and only if the head found fails to pin it
  (is smaller, or has that size and another root). `Witness.ForkExactly`: it lets a fork be
  co-signed if and only if the tree found does not extend every co-signed tree.
  `RefusedHeadRestored` and `RefusedForkRestored` are failing runs with real Merkle roots; an
  honest log always finds its tip (`ChainRun.ReachableSound`).
- `Wal.ReadErrorExactly`: a read error at the start of a line of the last segment is reported;
  anywhere inside the line it is taken for a torn tail, and the file is cut there although the
  lines behind it were complete.
- `Wal.RecoveredExactly`: recovery returns the records as written if and only if each of them
  survives its own JSON text (a string that is not UTF-8 does not).
- `DurableLog.DurableRunVerifies`: the log over its segment files verifies itself if and only if
  some line was completed, every completed record keeps its hash through its JSON text, no line
  landed while a landed failure was outstanding, and, under a witness, no checkpoint came before
  the first record. A landed failure is an append reported as failed whose whole line is on disk,
  for example after a failed sync: `Append` panics, the HTTP server recovers, the process goes on
  with the old number, and the next record repeats it. `DurableLog.UnsyncedThenAppended` is that
  run; a restart in between makes it harmless. `ReadBack.RewrittenReason` is a record that loses
  its hash (the handler that lifts a ban seals the raw query key as the reason,
  internal/gate/admin.go:620-628), and `DurableLog.RewrittenBreaks` its run.
- `ErasureControl.ErasureExactly`: an erased subject stays erased in all later states if and only
  if every later restart loads a snapshot sealed after the shred, or the tombstone was on disk
  before it; snapshots are sealed on clean shutdown only. `RestartRevives` is a run that brings
  the destroyed key back.
- `Ban.SweepingInvisible`: the answer of Lift is the one exception, false instead of true
  exactly when the key's ban is over and was removed before; `Ban.LiftTells` is such a run.

`verifyInclusion` walks like section 2.1.3.2 of RFC 9162 but leaves out that section's step that
fails when `sn` is 0 inside the loop. The model follows the code; `MerkleVerify.InclusionExact`
shows that no proof of the wrong length gets through all the same.

## Model

| member | source | states |
|---|---|---|
| `Merkle.LargestPow2Below` | internal/audit/merkle.go:34-40 | the doubling loop finds the one power of two k with k < n <= 2k |
| `Merkle.MRoot` | internal/audit/merkle.go:49-68 | with any valid shared memo the root of a range is the memo-free recursive root, and the memo stays valid |
| `Merkle.InclusionProof` | internal/audit/merkle.go:72-77 | the path made through a memo is the memo-free path; out of range there is none |
| `Merkle.IProof` | internal/audit/merkle.go:79-88 | the same for a sub-range, keeping the memo valid |
| `Merkle.ConsistencyProof` | internal/audit/merkle.go:92-97 | the proof made through a memo is the memo-free proof; out of range there is none |
| `Merkle.SubProof` | internal/audit/merkle.go:99-111 | the same for a sub-range and both values of the completeness flag |
| `Merkle.RootInjective` | internal/audit/merkle.go:18-31 | without a collision among the hashed inputs, two ranges of one size with one root have the same leaves |
| `Merkle.CheckPow2` | internal/audit/merkle.go:179-179 | the bit trick m & (m-1) == 0 holds exactly for powers of two |
| `MerkleVerify.RouteIsClimb` | internal/audit/merkle.go:119-133 | the turns of the bottom-up walk over the bits of (fn, sn) are the turns of the top-down recursive split, for every index and size |
| `MerkleVerify.VerifyInclusion` | internal/audit/merkle.go:115-135 | the loop accepts exactly when folding the proof along those turns gives the root |
| `MerkleVerify.InclusionComplete` | internal/audit/merkle.go:72-135 | every generated path is accepted for its leaf, and its length is at most ceil(log2 n) |
| `MerkleVerify.CeilLog2Meaning` | internal/audit/merkle.go:72-88 | the bound used there is ceil(log2 n): 2^c is at least n and half of it is less |
| `MerkleVerify.NoRightExtension` | internal/audit/merkle.go:119-133 | the turns of one leaf extended by the right turns of an exhausted walk are never the turns of another leaf, the argument that replaces the missing length check |
| `MerkleVerify.InclusionSound` | internal/audit/merkle.go:115-135 | against a real root an accepted leaf is the m-th leaf and the proof the generated one, for proofs of any length |
| `MerkleVerify.InclusionExact` | internal/audit/merkle.go:115-135 | acceptance if and only if the index is in range, the leaf is the m-th and the proof is the generated path |
| `MerkleConsistency.StripOnes` | internal/audit/merkle.go:153-157 | after the first loop the remaining walk is the route of the recursive sub-proof |
| `MerkleConsistency.VerifyConsistency` | internal/audit/merkle.go:139-177 | the two folds of the loop accept exactly when seed and siblings rebuild both roots along that route |
| `MerkleConsistency.SeedKnownIsPow2` | internal/audit/merkle.go:99-111 | the generator leaves the old root out exactly when the old size is a power of two, as the verifier expects |
| `MerkleConsistency.ConsistencyComplete` | internal/audit/merkle.go:92-177 | the generated proof is accepted between the real roots, for every 0 < m <= n |
| `MerkleConsistency.ConsistencySound` | internal/audit/merkle.go:139-177 | between real roots acceptance of any proof means the old leaves are exactly the first m new leaves, and the proof is the generated one |
| `MerkleConsistency.ConsistencyExact` | internal/audit/merkle.go:139-177 | acceptance if and only if the old leaves are a non-empty prefix and the proof is the generated one |
| `Canonical.FramingRoundTrip` | internal/audit/canonical.go:102-110 | a reader of the length-prefixed stream recovers every key and value shorter than 2^32 bytes |
| `Canonical.FramingInjective` | internal/audit/canonical.go:102-110 | equal framed bytes come from equal field lists |
| `Canonical.BuildCanonical` | internal/audit/canonical.go:35-98 | the string builder, run field by field, frames the fields of the frozen order, an absent one left out; `RecordBinding.FramedExactly` says what these bytes hold |
| `Canonical.HashIgnoresOrder` | internal/audit/canonical.go:35-98 | permuting the rules, or signals with distinct ids, never changes the record hash |
| `Canonical.HashIgnoresHashes` | internal/audit/canonical.go:113-118 | the integrity fields of a record do not enter its own hash |
| `RecordBinding.FramedExactly` | internal/audit/canonical.go:35-98 | two records are framed alike if and only if every field is the same: each scalar absent in both or equal after normalisation, equal numbers, upstream present in both or neither, equal fingerprint parts, equal rule and signal texts |
| `RecordBinding.HashBinds` | internal/audit/canonical.go:113-118 | without a collision, record hashes after heads of one length are equal if and only if every field and the previous hash are the same |
| `RecordBinding.TlsPresenceExactly` | internal/audit/canonical.go:88-92 | a fingerprint is hashed like a missing one if and only if all its parts are empty |
| `RecordBinding.RulesBound` | internal/audit/canonical.go:65-68 | rules that are not empty and hold no comma are bound as a multiset |
| `RecordBinding.RulesBoundExactly` | internal/audit/canonical.go:65-68 | the hash fixes a record's rules if and only if there is exactly one, not empty, that does not read like two in ascending order |
| `RecordBinding.JoinedCollides` | internal/audit/canonical.go:65-68 | commas are not escaped: in every record one rule that reads like all its rules joined hashes like them |
| `RecordBinding.SignalsBound` | internal/audit/canonical.go:70-77 | signals without commas and bars are bound one by one: normalised id, verdict and rendered confidence |
| `Witness.Witness.Restore` | internal/audit/witness.go:52-62 | the witness stands at the given head: its root is pinned, and no smaller unseen size can be signed again |
| `Witness.Witness.CounterSign` | internal/audit/witness.go:82-109 | it signs exactly the acceptable heads, names the reason of a refusal, and a refusal changes nothing |
| `Witness.NoEquivocation` | internal/audit/witness.go:82-109 | over whole runs, with restarts that restore any head that pins what was co-signed, one tree size is never co-signed with two chained roots |
| `Witness.RestartExactly` | internal/audit/witness.go:52-62 | after a restart a real head with another root for a co-signed size is acceptable if and only if the head found is smaller than some co-signed head, or of its size with another root |
| `Witness.RefusedHeadRestored` | internal/audit/chain.go:252-267 | a refused rewrite is last in the sidecar; restored from it, the witness co-signs the same size with a second root |
| `Witness.CoSignsExactlyExtensions` | internal/audit/witness.go:92-102 | shown a larger real head, a witness at a real head signs if and only if the old leaves are a prefix of the new and the proof is the generated one |
| `Witness.WitnessedPrefixChain` | internal/audit/witness.go:82-109 | all co-signed heads of a run with real roots, none smaller than the one before, are roots of leaf lists that form a prefix chain, across restarts that find an extension of what was co-signed |
| `Witness.ForkExactly` | internal/audit/witness.go:52-62 | after a restart, or a head co-signed again, some real head of a new size that leaves a co-signed tree behind is acceptable, checked without a collision, if and only if the tree found or shown again does not extend every co-signed tree |
| `Witness.RefusedForkRestored` | internal/audit/chain.go:252-267 | a refused fork is last in the sidecar; restored from it, the witness co-signs an extension of the fork |
| `Verifier.CheckRecords` | internal/audit/verifier.go:98-130 | none exactly when every record has the number of its place, the head before it as previous hash, the hash of its own content and, under a key, the MAC of that hash; otherwise the first record that fails one of them, with the class of the first it fails |
| `Verifier.CheckHeads` | internal/audit/verifier.go:132-175 | the checkpoint loop finds the first checkpoint that is not signed, linked and consistent with the records |
| `Verifier.Verify` | internal/audit/verifier.go:89-184 | OK exactly for chains whose records pass those four conditions and whose checkpoints are intact; otherwise the class and place of the first divergence |
| `Verifier.ClassExactly` | internal/audit/verifier.go:98-130 | whichever of the four conditions the first bad record fails first, that class is reported, at that record's number |
| `Verifier.EditReported` | internal/audit/verifier.go:98-130 | one record of an intact chain replaced by any other is reported there, with the first condition it fails |
| `Verifier.MacEditReported` | internal/audit/verifier.go:121-128 | another MAC under the same content is reported as an invalid HMAC |
| `Verifier.ContentEditReported` | internal/audit/verifier.go:115-120 | any field changed under the same number, link and hash is reported as a broken hash |
| `Verifier.EditExactly` | internal/audit/verifier.go:98-130 | inside an intact chain an edit of one record goes unnoticed if and only if every field, the number, the hashes and, under a key, the MAC stay the same |
| `Verifier.VerifyWitness` | internal/audit/witness.go:121-132 | OK exactly when every head is co-signed; otherwise the first that is not |
| `Verifier.HeadsAgree` | internal/audit/verifier.go:89-184 | two intact chains with one head after n records had equal heads after every smaller number |
| `Verifier.VerifyBinds` | internal/audit/verifier.go:89-184 | two accepted chains that share one signed head agree on every field, after normalisation, of every record behind it |
| `SplitView.NoSplitView` | internal/audit/witness.go:82-109 | two chains that verify, each under a head that one witness co-signed in one run, agree on every field, after normalisation, of every record up to the smaller head |
| `ChainState.HonestHeadAccepted` | internal/audit/chain.go:235-268 | in a sound log the head it makes is accepted by its witness if and only if the log is not empty |
| `ChainState.SealedIsIntact` | internal/audit/chain.go:161-207 | what Append seals passes the verifier's checks at its place |
| `ChainState.AppendSound` | internal/audit/chain.go:161-232 | an append, with the checkpoint it may trigger, keeps the invariant on chain, window, heads and witness |
| `ChainState.CheckpointSound` | internal/audit/chain.go:235-268 | a checkpoint keeps it too |
| `ChainRun.ReplaySame` | internal/audit/chain.go:115-141 | replay restores sequence number, chain head, leaves, checkpoints and checkpoint cadence |
| `ChainRun.CrashSound` | internal/audit/chain.go:203-232 | a crash between a record's line and its checkpoint leaves a sound log, one record longer, with the checkpoint still due |
| `ChainRun.ReachableSound` | internal/audit/chain.go:115-268 | every state reachable by appends, forced checkpoints, restarts and crashes behind a written record is sound: intact chain, real heads, and a window that is the end of the chain, at least ringCap records (or all) and at most 2 * ringCap |
| `ChainRun.HistoryIsSubmitted` | internal/audit/chain.go:161-232 | in every reachable state the chain holds one record for each append, in order, with everything the caller gave; only number, node id and missing id, time and version are filled in |
| `ChainRun.HeadMadeExactly` | internal/audit/chain.go:228-230 | in every run an event makes a head exactly when it is a forced checkpoint or the append that completes everyN records since the last head; the head has the size of the log, is signed and, unless the log is empty, co-signed |
| `ChainRun.CadenceKept` | internal/audit/chain.go:228-230 | in every reachable state fewer than everyN records are without a head, not counting those of crashes since the last append; right after an append fewer than everyN, whatever crashes came before |
| `ChainRun.HeadsAtMultiples` | internal/audit/chain.go:228-230 | in runs of appends and restarts the heads are exactly those of sizes everyN, 2 * everyN, and so on up to the log |
| `ChainRun.RestartsInvisible` | internal/audit/chain.go:115-141 | at every point a run with restarts has the state of the uninterrupted run |
| `ChainRun.SoundVerifies` | internal/audit/verifier.go:50-80 | a sound log verifies itself exactly when it is not empty and, under a witness, has no head of size 0 |
| `ChainRun.HonestRunVerifies` | internal/audit/verifier.go:50-80 | a run, crashes and restarts included, ends in a log that verifies itself with all heads co-signed, if and only if something was appended and no checkpoint came before it |
| `ChainRun.PublishedHeadsProvable` | internal/audit/proofs.go:44-58 | in every reachable state every record under every past head has a proof that verifies against that head's signed root |
| `ChainRun.PublishedHeadsConsistent` | internal/audit/proofs.go:60-70 | in every reachable state the proof between any two published heads verifies between their signed roots |
| `Chain.NewLog` | internal/audit/chain.go:80-141 | no log exactly when the WAL cannot be read |
| `Chain.Log.constructor` | internal/audit/chain.go:80-141 | boot gives the empty log, or the replay of the WAL with the witness restored from the last checkpoint found (cmd/gate/main.go:227-230); an unreadable sidecar counts as empty |
| `Chain.Log.ReplayWAL` | internal/audit/chain.go:115-141 | it fails exactly on a read error and then changes nothing; otherwise chain head, leaves, window and cadence come from the WAL alone, and an empty WAL leaves the log as it was |
| `Chain.Log.Append` | internal/audit/chain.go:161-232 | the new state is the step that `ChainRun` runs are made of, with the head it may complete; a missing key or a failed WAL write seals nothing and leaves memory as it was, but the line may be on disk all the same, and then it is the sealed record |
| `Chain.Log.CheckpointLocked` | internal/audit/chain.go:235-268 | the new state is the specified checkpoint, with the witness's answer |
| `Chain.Log.Checkpoint` | internal/audit/chain.go:271-276 | the forced checkpoint, returned |
| `Chain.Log.Recent` | internal/audit/chain.go:296-303 | the last n records of the window, all of them when n is out of range |
| `Chain.Log.SelfVerify` | internal/audit/verifier.go:50-80 | OK exactly when the WAL is readable, the full chain is intact and, under a witness, every head is co-signed; otherwise the class and place of the first divergence, an unreadable WAL counting as an empty chain |
| `Chain.Log.InclusionProofAt` | internal/audit/proofs.go:44-58 | a proof exactly for 1 <= seq <= size <= length, and it is the generated path in the tree of that size |
| `Chain.Log.ConsistencyProofFrom` | internal/audit/proofs.go:62-69 | a proof exactly for 0 < old size < length, and it is the generated one (empty for an old size that does not fit an int) |
| `Wal.ReadRecords` | internal/audit/sink_wal.go:261-309 | the loop's records and truncated content are those of a scan of the bytes delivered, with all its error cases: corrupt line, torn line inside, read error, failed truncation |
| `Wal.ReadErrorExactly` | internal/audit/sink_wal.go:269-307 | a read error is reported at the start of a line; inside a line of the last segment it cuts that line and everything behind it off the file |
| `Wal.RecoverTorn` | internal/audit/sink_wal.go:119-138 | with any newline-free tail on the last segment, reading returns exactly the stored records, as JSON reads them, and cuts exactly the tail |
| `Wal.WALSink.AppendRecord` | internal/audit/sink_wal.go:69-92 | rotation when full, then the line at the end of the last segment; a record that cannot be rendered, a failed open, write, flush or sync is reported, and what reached the disk is stated |
| `Wal.WALSink.ReadAll` | internal/audit/sink_wal.go:119-138 | records of all segments in order, the last one truncated in place, or the first error, whatever read or truncation errors each segment file has |
| `Wal.HealthyReadAll` | internal/audit/sink_wal.go:119-138 | without errors that is the reading the recovery theorems are about |
| `Wal.CrashRecovery` | internal/audit/sink_wal.go:69-138 | after any run of appends, appends that fail or stop at any byte of a line with or without a reboot, reads and reboots, reading returns in order exactly the records whose line was completed, as JSON reads them; only a failed writer leaves anything to cut, and only once |
| `Wal.RecoveredExactly` | internal/audit/sink_wal.go:69-138 | these are the records as written if and only if each survives its own JSON text |
| `ReadBack.ReadBackExactly` | internal/audit/verifier.go:98-130 | an intact chain reads back intact if and only if every record, as JSON gives it back, still hashes to its recorded hash |
| `ReadBack.HashKeptExactly` | internal/audit/canonical.go:113-118 | a record read back keeps its hash if and only if every field is the same after normalisation |
| `ReadBack.RewrittenReason` | internal/audit/canonical.go:35-98 | a reason that ends in a byte that is not UTF-8, which JSON replaces, costs the record its hash |
| `ChainState.TwiceSealed` | internal/audit/chain.go:161-209 | of two records sealed from one state either continues the chain, and both break it at the second |
| `DurableLog.BytesReadBack` | internal/audit/sink_wal.go:69-138 | whatever fails, the log always boots, and its bytes read back as the completed records |
| `DurableLog.BytesRefine` | internal/audit/chain.go:115-232 | as long as no line lands over a landed failure, memory is that of the run of appends, checkpoints, restarts and crashes its events amount to, and the disk is at most that one record ahead |
| `DurableLog.OutcomesKept` | internal/audit/sink_wal.go:69-92 | the outcomes that condition speaks of are those of the events, each in the state it met |
| `DurableLog.DurableRunVerifies` | internal/audit/verifier.go:50-80 | over all runs of appends under any fault, checkpoints, verifications and restarts, self-verification passes if and only if some line was completed, every completed record keeps its hash through JSON, no line landed over a landed failure before a restart, and, under a witness, no checkpoint came before the first record |
| `DurableLog.UnsyncedThenAppended` | internal/audit/chain.go:206-210 | a failed sync and one more append put one number on disk twice, and verification fails |
| `DurableLog.RewrittenBreaks` | internal/audit/verifier.go:58-64 | a record that loses its hash through JSON makes verification fail at once, without a restart |
| `FrameMonitor.Observer.FeedBytes` | cmd/server/h2monitor.go:49-77 | the loop consumes the complete frames of buffer and chunk behind the preface; what frames these are is `SentIsSeen` |
| `FrameMonitor.FeedConcat` | cmd/server/h2monitor.go:49-77 | two feeds are one feed of the concatenation, in any state |
| `FrameMonitor.ChunkInvariance` | cmd/server/h2monitor.go:49-114 | for every cutting of every stream, counters and verdict are the tally of the complete frames after the preface up to the first threshold crossed |
| `FrameMonitor.SentIsSeen` | cmd/server/h2monitor.go:63-76 | the monitor's reading of frames written in the layout of section 4.1 of RFC 9113, with any incomplete frame behind them, gives back exactly their types and payloads |
| `FrameMonitor.EveryStream` | cmd/server/h2monitor.go:63-76 | every byte string is a sequence of written frames and an incomplete one, so that covers every stream |
| `FrameMonitor.QuietExactly` | cmd/server/h2monitor.go:79-114 | the tally is quiet exactly when no count exceeds its limit, and then the counters are the counts |
| `FrameMonitor.FlaggedExactly` | cmd/server/h2monitor.go:49-114 | for every cutting into chunks of a preface and the frames sent, the connection is flagged if and only if one of the four counts over the frames sent in full passes its limit |
| `FrameMonitor.KindExactly` | cmd/server/h2monitor.go:79-114 | the verdict is a continuation flood exactly when that counter passed its limit, a rapid reset exactly when one of the other three did |
| `InsertionPoint.IndexFromFirst` | internal/gate/inject.go:142-160 | the search returns the first match, and -1 only without any |
| `InsertionPoint.PointExactly` | internal/gate/inject.go:142-160 | on ASCII text the offset is i if and only if i is right behind the first head tag's closing bracket, or there is no head tag and i is the first end of the head, or neither and i is the first body tag, in any letter case |
| `InsertionPoint.FoldingOvershoots` | internal/gate/inject.go:142-160 | three bytes that are not UTF-8 before a body tag put the offset behind the end |
| `InsertionPoint.HeadStable` | internal/gate/inject.go:142-160 | on ASCII text a closed head tag found in a prefix is the one found in the whole |
| `Injector.LookAheadSplits` | internal/gate/inject.go:64-106 | the look-ahead loses no byte, stays below 64 KiB + 8 KiB and inserts only at the searched offset |
| `Injector.InjectingReader.Resolve` | internal/gate/inject.go:123-137 | the staged output is the look-ahead, with the snippet inside it exactly when the result says injected |
| `Injector.InjectingReader.Read` | internal/gate/inject.go:53-120 | the loop answers and moves as specified, a panic included |
| `Injector.AddOnly` | internal/gate/inject.go:53-137 | for every body, chunking and buffer sizes the output is always a prefix of, and at the end equal to, the body or the body with the snippet once at the searched offset, as the result reports; it panics exactly when the decision does |
| `Injector.DrainEnds` | internal/gate/inject.go:53-120 | with non-empty buffers the end is reached within a bound on body, snippet and upstream turns |
| `Injector.SafeExactly` | internal/gate/inject.go:64-106 | for every body: no delivery panics if and only if no prefix that can be reached undecided, chunk by chunk, has its searched offset behind its end |
| `Injector.AsciiSafe` | internal/gate/inject.go:142-160 | ASCII bodies are safe |
| `Injector.NotAlwaysSafe` | internal/gate/inject.go:142-160 | some body makes the reader panic |
| `Injector.HeadBoundary` | internal/gate/inject.go:53-160 | on ASCII bodies an insertion after a head tag is at the first head boundary of the whole body |
| `Injector.AlwaysInjected` | internal/gate/inject.go:53-160 | a safe body below 64 KiB with an insertion point and no marker is injected under every delivery |
| `RateLimit.Limiter.Observe` | internal/abuse/ratelimit.go:40-57 | the loop keeps exactly the hits inside the window, in order, adds this one and counts them; an empty key counts nothing |
| `RateLimit.Limiter.Classify` | internal/abuse/ratelimit.go:60-71 | hard before soft before ok |
| `RateLimit.Limiter.Configure` | internal/abuse/ratelimit.go:76-83 | new limits, all hits kept |
| `RateLimit.Limiter.GC` | internal/abuse/ratelimit.go:93-106 | at most 4096 keys, in any order, are looked at, and only stale ones removed |
| `RateLimit.ObserveExact` | internal/abuse/ratelimit.go:40-57 | the count is the exact trailing-window count over every hit ever recorded |
| `RateLimit.SweepInvisible` | internal/abuse/ratelimit.go:93-106 | a sweep of any subset of keys changes no later count |
| `RateLimit.WideningLoses` | internal/abuse/ratelimit.go:76-83 | after any widening of the window there is a run whose count is wrong |
| `RateLimit.ChangeExactly` | internal/abuse/ratelimit.go:76-83 | a change of window keeps all counts exact if and only if it does not widen |
| `Ban.BanStore.CheckKey` | internal/gate/ban.go:87-100 | the ban in force, an expired one removed |
| `Ban.BanStore.Observe` | internal/gate/ban.go:105-126 | level, existing ban, or one more strike with its escalated ban |
| `Ban.BanStore.ObserveRate` | internal/gate/ban.go:130-134 | the request is counted and classified, bans and strikes untouched |
| `Ban.BanStore.ConfigureRate` | internal/gate/ban.go:137-139 | new limits, with rolling hits, bans and strikes kept |
| `Ban.BanStore.AddBan` | internal/gate/ban.go:142-157 | a manual ban replaces what was there |
| `Ban.BanStore.LiftBan` | internal/gate/ban.go:160-166 | the ban is gone, and whether one was stored |
| `Ban.BanStore.GC` | internal/gate/ban.go:187-203 | limiter swept, bans over and strikes decayed removed, nothing else |
| `Ban.BanStore.ListBans` | internal/gate/ban.go:207-220 | exactly the bans in force, the others removed |
| `Ban.CallAlike` | internal/gate/ban.go:87-220 | one call answers alike in stores that agree on what can still matter, and keeps that agreement |
| `Ban.SweepingInvisible` | internal/gate/ban.go:87-220 | in every run with a clock that never goes back and a window that never widens, every answer is that of a store that never sweeps, expires or trims; Lift alone answers false instead of true, exactly when the key's ban is over and was removed |
| `Ban.LiftTells` | internal/gate/ban.go:160-166 | a run in which it does |
| `Ban.LadderClimbs` | internal/gate/ban.go:105-126 | from a key without a ban in force or a strike of the last seven days, breaches that each follow the end of the ban before within seven days are banned for 1 h, 6 h, 24 h and then for good |
| `Ban.BanInForce` | internal/gate/ban.go:87-126 | until its end a ban, manual or automatic, is what every check answers, whatever calls about other keys, sweeps and listings come between |
| `Ban.BanOver` | internal/gate/ban.go:87-100 | from its end on, unless the key is banned again, a check answers nothing |
| `Ban.ManualBan` | internal/gate/ban.go:142-157 | a manual ban in numbers: for good if the duration is not positive, else up to now + duration and no longer |
| `Ban.BreachExactly` | internal/gate/ban.go:105-134 | over whole runs a request gets its key banned if and only if with it the hard limit of requests is reached in the trailing window, counted over all requests ever made |
| `Sealing.OpenExactly` | internal/gate/redisledger.go:24-47 | in keyed mode a value opens to a payload if and only if it is that payload sealed for that context |
| `Sealing.UniqueSplit` | internal/gate/redisledger.go:49-55 | with NUL-free payloads a tagged message determines context and payload |
| `Sealing.VerdictAuthentic` | internal/gate/redisledger.go:34-47 | a verdict that opens for a session was sealed as a verdict for that session |
| `Sealing.BanAuthentic` | internal/gate/redisledger.go:34-47 | the same for bans: no forging, no relocating, no crossing between the two kinds |
| `VerdictLedger.RedisVerdictLedger.Set` | internal/gate/redisledger.go:105-112 | mirrored locally, and the sealed value written if it can be rendered |
| `VerdictLedger.RedisVerdictLedger.Get` | internal/gate/redisledger.go:127-162 | answer, its origin and the new marks, for every reply |
| `VerdictLedger.RedisVerdictLedger.GC` | internal/gate/redisledger.go:116-125 | mirror and marks older than the ttl are gone, nothing else |
| `VerdictLedger.ServedWasSealed` | internal/gate/redisledger.go:127-162 | for any reply without a forged tag, a verdict served from the coordinator was sealed for this session and is fresh |
| `VerdictLedger.NeverSteppingBack` | internal/gate/redisledger.go:116-162 | over whole runs with arbitrary replies and sweeps, verdicts served from the coordinator for a session have nondecreasing stamps |
| `VerdictLedger.MirrorIsLastSet` | internal/gate/redisledger.go:105-162 | over whole runs an answer from the local mirror is the verdict this node set last for the session, and it is fresh |
| `VerdictLedger.OutageServesLastSet` | internal/gate/redisledger.go:127-162 | when the coordinator cannot be asked or its value does not open, the verdict this node set last is served exactly while it is fresh, unless the mirror was full when it was set |
| `VerdictLedger.SharedAcrossNodes` | internal/gate/redisledger.go:105-162 | what one node writes another serves, exactly when fresh and not behind the mark |
| `BanLedger.RedisBanLedger.Check` | internal/gate/redisledger.go:212-243 | report, its origin and the mirror's lazy expiry, for every reply |
| `BanLedger.RedisBanLedger.Observe` | internal/gate/redisledger.go:245-251 | the level as the limiter rates it, the mirror's verdict, and every reported ban written through sealed for its key while a millisecond of it is left |
| `BanLedger.RedisBanLedger.Add` | internal/gate/redisledger.go:262-266 | the manual ban in the mirror, written through in the same way |
| `BanLedger.RedisBanLedger.Lift` | internal/gate/redisledger.go:268-275 | the mirror's ban is gone, whether there was one, and the lift is remembered |
| `BanLedger.RedisBanLedger.GC` | internal/gate/redisledger.go:201-210 | mirror swept, lifts older than 30 days forgotten |
| `BanLedger.NoResurrection` | internal/gate/redisledger.go:201-275 | for 30 days after a lift every ban this node reports for the key was created no earlier than the lift, later if it came from the coordinator, whatever it replies |
| `BanLedger.ReportedWasSealed` | internal/gate/redisledger.go:212-243 | a ban reported from the coordinator was sealed for this key, is in force and does not predate a remembered lift |
| `BanLedger.SharedAcrossNodes` | internal/gate/redisledger.go:212-333 | a ban is written exactly if a millisecond of it is left, and what one node writes another reports, exactly while in force and unless it predates a lift there |
| `BanLedger.OutageReportsBan` | internal/gate/redisledger.go:212-243 | when the coordinator cannot be asked or its value does not open, a ban made here and not lifted is reported until its end |
| `Pseudonym.Vault.Link` | internal/audit/pseudonym.go:56-65 | a handle is linked unless it is empty or the subject shredded |
| `Pseudonym.Vault.Key` | internal/audit/pseudonym.go:78-91 | the existing key, a fresh one, or none for a shredded subject |
| `Pseudonym.Vault.Shred` | internal/audit/pseudonym.go:119-132 | key gone, tombstone set, exactly the subject's handles purged |
| `Pseudonym.SnapshotRoundTrip` | internal/audit/pseudonym.go:142-190 | a snapshot loads as the same keys, tombstones and index |
| `Approval.ApprovalStore.Create` | internal/gate/approval.go:49-61 | expired actions swept, the new one pending |
| `Approval.ApprovalStore.Approve` | internal/gate/approval.go:66-86 | granted and removed, or denied with the right reason; only expiry removes on a denial |
| `Approval.ApprovalStore.Pending` | internal/gate/approval.go:89-102 | exactly the unexpired actions |
| `Approval.ShredQueue.Schedule` | internal/gate/erasure.go:40-48 | queued until the hold window is over |
| `Approval.ShredQueue.Cancel` | internal/gate/erasure.go:51-57 | removed, and what it was |
| `Approval.ShredQueue.Due` | internal/gate/erasure.go:61-72 | exactly the due shreds are returned and leave the queue |
| `ErasureControl.Server.AdminErasure` | internal/gate/admin.go:276-300 | a request creates a pending action for the resolved subject that needs a DPO, or nothing |
| `ErasureControl.Server.AdminApprove` | internal/gate/admin.go:668-703 | a granted erasure by a DPO is scheduled; every other outcome schedules nothing |
| `ErasureControl.Server.RunDueShreds` | internal/gate/gate.go:80-90 | exactly the due subjects are shredded, in any order |
| `ErasureControl.DualControl` | internal/gate/approval.go:49-86 | over whole runs, an executed shred goes back to a request, an approval in time by a different principal with the DPO role, and a full hold window during which it stayed queued |
| `ErasureControl.NotCancelled` | internal/gate/erasure.go:51-72 | in between nobody cancelled or executed it and no restart happened |
| `ErasureControl.AtMostOnce` | internal/gate/erasure.go:61-72 | a scheduled shred is executed at most once |
| `ErasureControl.OneApproval` | internal/gate/approval.go:66-86 | one request leads to at most one granted approval |
| `ErasureControl.OneExecution` | internal/gate/gate.go:80-90 | one request is executed at most once |
| `ErasureControl.KeysOnlyShredded` | internal/audit/pseudonym.go:78-132 | short of a restart, a key leaves the vault only by an executed shred of its subject |
| `ErasureControl.KeysUnderDualControl` | internal/gate/gate.go:80-90 | so a key that leaves the vault, short of a restart, goes back to a request, a timely approval by another principal with the DPO role, and a full hold window |
| `ErasureControl.ErasureFinal` | internal/audit/pseudonym.go:56-190 | afterwards the subject has no key, none is minted and no handle resolves to it, in every later state, also through snapshots and restarts |
| `ErasureControl.ErasureExactly` | internal/audit/pseudonym.go:142-190 | after an executed shred the subject is erased in all later states if and only if every later restart loads a snapshot sealed since, or the tombstone was on disk before |
| `ErasureControl.RestartRevives` | internal/audit/pseudonym.go:165-190 | a snapshot, an erasure by the book and a restart without another snapshot: the destroyed key is back |
| `ErasureEffect.RequestFindsSubject` | internal/gate/admin.go:288-294 | an erasure requested for a linked handle is pending for the subject it was linked to |
| `ErasureEffect.ErasureHappens` | internal/gate/gate.go:80-90 | over whole runs, a request approved in time by another principal with the DPO role, neither cancelled nor cut off by a restart, leaves its subject erased after the first run of due shreds behind the hold window |
| `ErasureEffect.KeyStable` | internal/audit/pseudonym.go:78-91 | until its subject is shredded, and short of a restart, a key stays what it is |
| `Conformal.ConformalThreshold.constructor` | internal/mlcorrect/calibrate.go:40-51 | arguments out of range are replaced, so every controller is tuned |
| `Conformal.ConformalThreshold.Observe` | internal/mlcorrect/calibrate.go:68-91 | one call is one step of the controller; `OneStep` says what that step is, the bounds below what steps add up to |
| `Conformal.ThresholdInRange` | internal/mlcorrect/calibrate.go:68-91 | after the first human the threshold stays in [0.5, 1] |
| `Conformal.LongRunBound` | internal/mlcorrect/calibrate.go:68-91 | from any state, among the next T humans with scores up to the ceiling, at most budget * T + (1 - theta) / gamma are flagged, whatever bots come in between |
| `Conformal.CeilingBroken` | internal/mlcorrect/calibrate.go:68-91 | above the ceiling one flagged human already breaks the bound |
| `Conformal.BoundExactly` | internal/mlcorrect/calibrate.go:68-91 | the bound holds in all runs with scores up to a cap if and only if the cap is at most the ceiling |
| `Conformal.OneStep` | internal/mlcorrect/calibrate.go:68-91 | a human who passes lowers the threshold by gamma * budget down to 0.5, one who is flagged raises it by gamma * (1 - budget) up to 1, bots change only their counter, and the estimated rate moves by a fiftieth |
| `Conformal.BudgetReached` | internal/mlcorrect/calibrate.go:68-91 | among the next T humans with scores from 0.5 + gamma * budget on, at least budget * T - (theta - 0.5) / gamma are flagged: the rate also reaches the budget |
| `Conformal.FootingBroken` | internal/mlcorrect/calibrate.go:68-91 | below that score one human who passes already misses the lower bound |
| `Conformal.ReachExactly` | internal/mlcorrect/calibrate.go:68-91 | the lower bound holds in all runs with scores from a least one on if and only if that is at least 0.5 + gamma * budget |

## Left out

- SHA-256, HMAC, Ed25519, scrypt, base64, JSON, Unicode normalisation and float formatting: library code, used through the contracts above.
- Locks and interleavings inside one call: every exported operation is one atomic step.
- 64-bit overflow of clock arithmetic (times and durations are unbounded integers) and of the record counter: runs of the log are shorter than 2^63 events.
- A crash inside the checkpoint sidecar write and failed checkpoint appends, which the code treats as best effort; a restart finds complete sidecar lines.
- The segment directory has no files deleted or added from outside, what reached the disk stays there, and the runs of `DurableLog` read without read errors; `Wal.ReadErrorExactly` says what such an error does.
- DurableLog.DurableRunVerifies: assumes of JSON that the number and hexadecimal integrity fields of a record come back unchanged.
- Witness.WitnessedPrefixChain: covers heads with real Merkle roots that never go back in size; a smaller head co-signed again can be left for a fork, exactly as `ForkExactly` says.
- Canonical.HashIgnoresOrder: signals with equal ids may be sorted in either order, so they must be distinct.
- Injector.InjectingReader.Read: upstream errors other than the end of the body are not modelled; nor is repeated injection of one page.
- VerdictLedger.NeverSteppingBack: the clock must stand more than one ttl past the zero time, since a missing mark counts as the zero time.
- RedisBanLedger.List and the key scan: not covered by the lift guarantee in the code either; the rate limiter shared through Redis enters only as the level it reports.
- Limiter.Reset, remainingSecs, the retention horizon of permanent bans: easy members.
- Approval.ApprovalStore.Approve: without the HMAC ticket, which only goes into the audit record.
- Action kinds other than erasure, which appear as approvals that schedule nothing.
- ErasureControl.ErasureFinal: needs every later restart to load a snapshot sealed after the shred; `ErasureExactly` says that this is what it takes.
- Verdicts and bans whose strings are not UTF-8: the sealed values are those that JSON gives back.
- The key-stretching flag and the pseudonym text itself: `Pseudonymize` is modelled by the key it uses.
- Conformal: the float32 arithmetic is modelled over reals, without rounding.
- HTTP handlers and routing around the modelled calls, TLS, metrics, logging, projections, scoring, settings, training and the command-line tools.
