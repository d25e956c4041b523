/**
 The append-only log as a state machine (internal/audit/chain.go): sealing,
 checkpoints, the bounded window and replay, over the log's value state.
 `Chain.Log` is the object whose methods follow these steps.

 The durable WAL appears here as what it holds: the record list and the
 checkpoint list. Its byte-level form is module `Wal`.
 */
module ChainState {
  import opened Hashing
  import opened Text
  import opened Merkle
  import opened MerkleConsistency
  import opened Canonical
  import W = Witness
  import opened Verifier

  datatype Config = Config(
    nodeID: Bytes, hmacKey: Bytes, signKey: nat, witnessKey: Option<nat>,
    everyN: nat, durable: bool, ringCap: nat)
  {
    /** What NewLog leaves: defaults applied, and an HMAC key, without which Append panics. */
    predicate Ready() {
      everyN > 0 && hmacKey != [] && (durable ==> ringCap > 0)
    }
  }

  /** The clock's part of a record: event id and timestamp, used where the caller set none. */
  datatype Stamp = Stamp(eventID: Bytes, ts: Bytes)

  datatype LogState = LogState(
    records: seq<Record>, prevHash: Bytes, seqNo: U64, checkpoints: seq<W.Checkpoint>, sinceCP: nat,
    leaves: seq<Bytes>, disk: seq<Record>, diskHeads: seq<W.Checkpoint>, cosigner: Option<W.State>)

  function Initial(cfg: Config): LogState {
    LogState([], [], 0, [], 0, [], [], [], if cfg.witnessKey.Some? then Some(W.Fresh()) else None)
  }

  /** 1.0.0 */
  const EVENT_VERSION: Bytes := [49, 46, 48, 46, 48]

  function OrElse(s: Bytes, default: Bytes): Bytes {
    if s == [] then default else s
  }

  /** The record with its identity fields set for a place in the chain, not yet hashed. */
  function Stamped(cfg: Config, seqNo: U64, prevHash: Bytes, r: Record, stamp: Stamp): Record {
    r.(seqNo := (seqNo + 1) % TWO64, nodeID := cfg.nodeID,
       eventID := OrElse(r.eventID, stamp.eventID), ts := OrElse(r.ts, stamp.ts),
       eventVer := OrElse(r.eventVer, EVENT_VERSION), prevHash := prevHash)
  }

  /** The record sealed behind the given number and hash. */
  function SealedBehind(lib: Library, cfg: Config, seqNo: U64, prevHash: Bytes, r: Record, stamp: Stamp): Record {
    var r' := Stamped(cfg, seqNo, prevHash, r, stamp);
    var h := RecordHash(lib, r', prevHash);
    r'.(recordHash := h, hmac := Hex(lib.Hmac(cfg.hmacKey, h)))
  }

  function Sealed(lib: Library, cfg: Config, st: LogState, r: Record, stamp: Stamp): Record {
    SealedBehind(lib, cfg, st.seqNo, st.prevHash, r, stamp)
  }

  /** With a WAL the in-memory records are cut back to ringCap once they exceed twice that. */
  function Window(cfg: Config, records: seq<Record>): seq<Record> {
    if cfg.durable && cfg.ringCap > 0 && |records| > 2 * cfg.ringCap
    then records[|records| - cfg.ringCap..] else records
  }

  function LastSig(cps: seq<W.Checkpoint>): W.Sig {
    if cps == [] then W.NoSig else cps[|cps| - 1].sig
  }

  ghost function TreeHead(lib: Library, cfg: Config, st: LogState): W.Sth {
    W.Sth(cfg.nodeID, st.seqNo, st.prevHash, Hex(Root(lib.sha, st.leaves)), LastSig(st.checkpoints))
  }

  /** The consistency proof the writer offers its witness. */
  ghost function ProofFor(lib: Library, st: LogState, w: W.State): seq<Bytes> {
    if 0 < w.lastSize < st.seqNo && 0 < AsInt64(w.lastSize) < |st.leaves|
    then ConsistencyPath(lib.sha, st.leaves, AsInt64(w.lastSize)) else []
  }

  ghost predicate WitnessAccepts(lib: Library, cfg: Config, st: LogState) {
    st.cosigner.Some? &&
    W.Accepts(lib.sha, st.cosigner.value, TreeHead(lib, cfg, st), ProofFor(lib, st, st.cosigner.value))
  }

  ghost function NewHead(lib: Library, cfg: Config, st: LogState): W.Checkpoint {
    var sth := TreeHead(lib, cfg, st);
    W.Checkpoint(sth, W.Ed25519(cfg.signKey, sth),
      if WitnessAccepts(lib, cfg, st) && cfg.witnessKey.Some? then W.Ed25519(cfg.witnessKey.value, sth) else W.NoSig)
  }

  ghost function Checkpointed(lib: Library, cfg: Config, st: LogState): LogState {
    var cp := NewHead(lib, cfg, st);
    st.(checkpoints := st.checkpoints + [cp], sinceCP := 0,
        diskHeads := if cfg.durable then st.diskHeads + [cp] else st.diskHeads,
        cosigner := if WitnessAccepts(lib, cfg, st) then Some(W.Remember(st.cosigner.value, cp.sth)) else st.cosigner)
  }

  /** A sealed record committed, before the checkpoint it may trigger. */
  function Committed(cfg: Config, st: LogState, r: Record): LogState {
    st.(records := Window(cfg, st.records + [r]), prevHash := r.recordHash, seqNo := r.seqNo,
        leaves := st.leaves + [r.recordHash], sinceCP := st.sinceCP + 1,
        disk := if cfg.durable then st.disk + [r] else st.disk)
  }

  /** A checkpoint follows every everyN records. */
  ghost function Settled(lib: Library, cfg: Config, st: LogState): LogState {
    if st.sinceCP >= cfg.everyN then Checkpointed(lib, cfg, st) else st
  }

  ghost function Appended(lib: Library, cfg: Config, st: LogState, r: Record, stamp: Stamp): LogState {
    Settled(lib, cfg, Committed(cfg, st, Sealed(lib, cfg, st, r, stamp)))
  }

  function LastSize(cps: seq<W.Checkpoint>): U64 {
    if cps == [] then 0 else cps[|cps| - 1].sth.treeSize
  }

  /** Records since the last head, in unsigned 64-bit arithmetic. */
  function SinceHead(seqNo: U64, heads: seq<W.Checkpoint>): nat {
    (seqNo - LastSize(heads)) % TWO64
  }

  /** The window a boot starts with. */
  function WindowStart(cfg: Config, disk: seq<Record>): (start: nat)
    ensures start <= |disk|
  {
    if |disk| > cfg.ringCap then |disk| - cfg.ringCap else 0
  }

  /** The witness restored from the last checkpoint (cmd/gate). */
  function Restored(cfg: Config, heads: seq<W.Checkpoint>): Option<W.State> {
    if cfg.witnessKey.None? then None
    else if heads == [] then Some(W.Fresh())
    else
      var last := heads[|heads| - 1].sth;
      Some(W.Restored(W.Fresh(), last.treeSize, last.merkleRoot, last.root))
  }

  /** Boot from the WAL. */
  function Replayed(cfg: Config, disk: seq<Record>, heads: seq<W.Checkpoint>): LogState {
    if disk == [] then LogState([], [], 0, heads, 0, [], disk, heads, Restored(cfg, heads))
    else
      var last := disk[|disk| - 1];
      LogState(disk[WindowStart(cfg, disk)..], last.recordHash, last.seqNo, heads, SinceHead(last.seqNo, heads),
               Hashes(disk), disk, heads, Restored(cfg, heads))
  }

  /** The full chain: on disk with a WAL, in memory without one. */
  function History(cfg: Config, st: LogState): seq<Record> {
    if cfg.durable then st.disk else st.records
  }

  // ---------------------------------------------------------------- the invariant

  ghost predicate ChainSound(lib: Library, cfg: Config, st: LogState) {
    var all := History(cfg, st);
    && st.seqNo == |all| && st.prevHash == HeadBefore(all, |all|) && st.leaves == Hashes(all)
    && RecordsIntact(lib, cfg.hmacKey, all)
  }

  function Min(a: nat, b: nat): nat {
    if a < b then a else b
  }

  /** The in-memory window is the end of the full chain: all of it, or with a WAL the last ringCap to 2 * ringCap. */
  ghost predicate WindowSound(cfg: Config, st: LogState) {
    var all := History(cfg, st);
    && |st.records| <= |all| && st.records == all[|all| - |st.records|..]
    && (cfg.durable ==> Min(cfg.ringCap, |all|) <= |st.records| <= 2 * cfg.ringCap)
  }

  /** Head j commits to the first treeSize leaves, and is witnessed unless it is the head of the empty log. */
  ghost predicate HeadSound(lib: Library, cfg: Config, all: seq<Record>, cps: seq<W.Checkpoint>, j: nat)
    requires j < |cps|
  {
    var sth := cps[j].sth;
    && CheckpointIntact(lib, cfg.signKey, all, cps, j)
    && sth.merkleRoot == Hex(Root(lib.sha, Hashes(all[..sth.treeSize])))
    && sth.treeSize <= LastSize(cps)
    && (cfg.witnessKey.Some? ==>
          cps[j].witnessSig == if sth.treeSize > 0 then W.Ed25519(cfg.witnessKey.value, sth) else W.NoSig)
  }

  ghost predicate HeadsSound(lib: Library, cfg: Config, st: LogState) {
    && (forall j :: 0 <= j < |st.checkpoints| ==> HeadSound(lib, cfg, History(cfg, st), st.checkpoints, j))
    && LastSize(st.checkpoints) <= st.seqNo
    && st.sinceCP == st.seqNo - LastSize(st.checkpoints)
    && (cfg.durable ==> st.diskHeads == st.checkpoints)
  }

  /** The witness stands at the last head. */
  ghost predicate WitnessSound(cfg: Config, st: LogState) {
    && (cfg.witnessKey.Some? <==> st.cosigner.Some?)
    && (st.cosigner.Some? ==>
          var w, last := st.cosigner.value, LastSize(st.checkpoints);
          && w.lastSize == w.maxSize == last
          && (forall n :: n in w.seenRoot ==> 0 < n <= last)
          && (last > 0 ==>
                var sth := st.checkpoints[|st.checkpoints| - 1].sth;
                && last in w.seenRoot && w.seenRoot[last] == sth.root && w.lastMerkle == sth.merkleRoot))
  }

  datatype Aspect = OfChain | OfWindow | OfHeads | OfWitness

  ghost predicate Holds(lib: Library, cfg: Config, st: LogState, aspect: Aspect) {
    match aspect
    case OfChain => ChainSound(lib, cfg, st)
    case OfWindow => WindowSound(cfg, st)
    case OfHeads => HeadsSound(lib, cfg, st)
    case OfWitness => WitnessSound(cfg, st)
  }

  ghost predicate Sound(lib: Library, cfg: Config, st: LogState) {
    cfg.Ready() && Digests32(lib.sha) && forall aspect :: Holds(lib, cfg, st, aspect)
  }

  lemma Aspects(lib: Library, cfg: Config, st: LogState)
    requires Sound(lib, cfg, st)
    ensures ChainSound(lib, cfg, st) && WindowSound(cfg, st) && HeadsSound(lib, cfg, st) && WitnessSound(cfg, st)
  {
    assert Holds(lib, cfg, st, OfChain) && Holds(lib, cfg, st, OfWindow);
    assert Holds(lib, cfg, st, OfHeads) && Holds(lib, cfg, st, OfWitness);
  }

  lemma ChainAspect(lib: Library, cfg: Config, st: LogState)
    requires Sound(lib, cfg, st)
    ensures ChainSound(lib, cfg, st) && WindowSound(cfg, st)
  {
    assert Holds(lib, cfg, st, OfChain) && Holds(lib, cfg, st, OfWindow);
  }

  lemma WitnessAspect(lib: Library, cfg: Config, st: LogState)
    requires Sound(lib, cfg, st)
    ensures WitnessSound(cfg, st)
  {
    assert Holds(lib, cfg, st, OfWitness);
  }

  /** The sizes in a sound log agree. */
  lemma Sizes(lib: Library, cfg: Config, st: LogState)
    requires Sound(lib, cfg, st)
    ensures LastSize(st.checkpoints) <= st.seqNo == |st.leaves| == |History(cfg, st)|
    ensures st.prevHash == HeadBefore(History(cfg, st), st.seqNo)
    ensures st.sinceCP == st.seqNo - LastSize(st.checkpoints) && (cfg.durable ==> st.diskHeads == st.checkpoints)
  {
    assert Holds(lib, cfg, st, OfChain) && Holds(lib, cfg, st, OfHeads);
  }

  /** Every head commits to the leaves it was made from. */
  lemma HeadCommits(lib: Library, cfg: Config, st: LogState, j: nat)
    requires Sound(lib, cfg, st) && j < |st.checkpoints|
    ensures var sth := st.checkpoints[j].sth;
      && sth.treeSize <= |st.leaves| == |History(cfg, st)|
      && sth.root == HeadBefore(History(cfg, st), sth.treeSize)
      && sth.merkleRoot == Hex(Root(lib.sha, st.leaves[..sth.treeSize]))
  {
    assert Holds(lib, cfg, st, OfChain) && Holds(lib, cfg, st, OfHeads);
    var all := History(cfg, st);
    assert HeadSound(lib, cfg, all, st.checkpoints, j);
    HashesPrefix(all, st.checkpoints[j].sth.treeSize);
  }

  lemma InitialSound(lib: Library, cfg: Config)
    requires cfg.Ready() && Digests32(lib.sha)
    ensures Sound(lib, cfg, Initial(cfg))
  {
  }

  // ---------------------------------------------------------------- appending

  lemma SealedIsIntact(lib: Library, cfg: Config, st: LogState, r: Record, stamp: Stamp)
    requires st.seqNo + 1 < TWO64
    ensures Sealed(lib, cfg, st, r, stamp).seqNo == st.seqNo + 1
    ensures Fits(lib, Sealed(lib, cfg, st, r, stamp), st.seqNo + 1, st.prevHash, cfg.hmacKey)
  {
    var bare := Stamped(cfg, st.seqNo, st.prevHash, r, stamp);
    assert bare.seqNo == st.seqNo + 1 && bare.prevHash == st.prevHash;
    SealFits(lib, bare, cfg.hmacKey, Sealed(lib, cfg, st, r, stamp));
  }

  lemma SealFits(lib: Library, bare: Record, key: Bytes, s: Record)
    requires s == bare.(recordHash := RecordHash(lib, bare, bare.prevHash), hmac := s.hmac)
    requires s.hmac == Hex(lib.Hmac(key, s.recordHash))
    ensures Fits(lib, s, bare.seqNo, bare.prevHash, key)
  {
    HashIgnoresHashes(lib, bare, s, bare.prevHash);
  }

  lemma RecordsIntactSnoc(lib: Library, key: Bytes, all: seq<Record>, r: Record)
    requires RecordsIntact(lib, key, all)
    requires Fits(lib, r, |all| + 1, HeadBefore(all, |all|), key)
    ensures RecordsIntact(lib, key, all + [r])
  {
    var more := all + [r];
    forall i | 0 <= i < |more| ensures RecordFits(lib, key, more, i) {
      assert HeadBefore(more, i) == HeadBefore(all, i);
      if i < |all| {
        assert RecordFits(lib, key, all, i);
      }
    }
  }

  /** Two records sealed from one sound state: either continues the chain on disk, both break it. */
  lemma TwiceSealed(lib: Library, cfg: Config, st: LogState, r: Record, stamp: Stamp, r': Record, stamp': Stamp)
    requires Sound(lib, cfg, st) && st.seqNo + 1 < TWO64
    ensures var s, s', all := Sealed(lib, cfg, st, r, stamp), Sealed(lib, cfg, st, r', stamp'), History(cfg, st);
      && RecordsIntact(lib, cfg.hmacKey, all + [s])
      && RecordFails(lib, cfg.hmacKey, all + [s] + [s'], |all| + 1, SeqGap)
      && !RecordsIntact(lib, cfg.hmacKey, all + [s] + [s'])
  {
    ChainAspect(lib, cfg, st);
    SealedIsIntact(lib, cfg, st, r, stamp);
    SealedIsIntact(lib, cfg, st, r', stamp');
    var all, s, s' := History(cfg, st), Sealed(lib, cfg, st, r, stamp), Sealed(lib, cfg, st, r', stamp');
    RecordsIntactSnoc(lib, cfg.hmacKey, all, s);
    NumberAgain(lib, cfg.hmacKey, all, s, s');
  }

  lemma NumberAgain(lib: Library, key: Bytes, all: seq<Record>, s: Record, s': Record)
    requires s'.seqNo == |all| + 1
    ensures RecordFails(lib, key, all + [s] + [s'], |all| + 1, SeqGap)
    ensures !RecordsIntact(lib, key, all + [s] + [s'])
  {
    GapBreaks(lib, key, all + [s] + [s'], |all| + 1);
  }

  lemma HashesSnoc(all: seq<Record>, r: Record)
    ensures Hashes(all + [r]) == Hashes(all) + [r.recordHash]
  {
    assert (all + [r])[..|all|] == all;
  }

  lemma CommitKeepsChain(lib: Library, cfg: Config, st: LogState, r: Record)
    requires Sound(lib, cfg, st) && r.seqNo == st.seqNo + 1
    requires Fits(lib, r, st.seqNo + 1, st.prevHash, cfg.hmacKey)
    ensures ChainSound(lib, cfg, Committed(cfg, st, r)) && WindowSound(cfg, Committed(cfg, st, r))
    ensures History(cfg, Committed(cfg, st, r)) == History(cfg, st) + [r]
  {
    ChainAspect(lib, cfg, st);
    CommitKeepsWindow(cfg, st, r);
    ChainSnoc(lib, cfg, st, Committed(cfg, st, r), r);
  }

  lemma ChainSnoc(lib: Library, cfg: Config, st: LogState, st': LogState, r: Record)
    requires ChainSound(lib, cfg, st) && History(cfg, st') == History(cfg, st) + [r]
    requires st'.seqNo == r.seqNo == st.seqNo + 1 && st'.prevHash == r.recordHash
    requires st'.leaves == st.leaves + [r.recordHash]
    requires Fits(lib, r, st.seqNo + 1, st.prevHash, cfg.hmacKey)
    ensures ChainSound(lib, cfg, st')
  {
    RecordsIntactSnoc(lib, cfg.hmacKey, History(cfg, st), r);
    HashesSnoc(History(cfg, st), r);
  }

  lemma CommitKeepsWindow(cfg: Config, st: LogState, r: Record)
    requires cfg.Ready() && WindowSound(cfg, st)
    ensures WindowSound(cfg, Committed(cfg, st, r))
    ensures History(cfg, Committed(cfg, st, r)) == History(cfg, st) + [r]
  {
    WindowKept(cfg, History(cfg, st), st.records, r);
  }

  lemma WindowKept(cfg: Config, all: seq<Record>, records: seq<Record>, r: Record)
    requires cfg.durable ==> cfg.ringCap > 0 && Min(cfg.ringCap, |all|) <= |records| <= 2 * cfg.ringCap
    requires |records| <= |all| && records == all[|all| - |records|..]
    ensures var w, more := Window(cfg, records + [r]), all + [r];
      && |w| <= |more| && w == more[|more| - |w|..]
      && (cfg.durable ==> Min(cfg.ringCap, |more|) <= |w| <= 2 * cfg.ringCap)
  {
    var more := all + [r];
    assert records + [r] == more[|more| - |records| - 1..];
  }

  lemma HeadSoundSnoc(lib: Library, cfg: Config, all: seq<Record>, r: Record, cps: seq<W.Checkpoint>, j: nat)
    requires j < |cps| && HeadSound(lib, cfg, all, cps, j)
    ensures HeadSound(lib, cfg, all + [r], cps, j)
  {
    var n := cps[j].sth.treeSize;
    assert (all + [r])[..n] == all[..n];
    assert HeadBefore(all + [r], n) == HeadBefore(all, n);
  }

  lemma CommitKeepsHeads(lib: Library, cfg: Config, st: LogState, st': LogState, r: Record)
    requires HeadsSound(lib, cfg, st) && WitnessSound(cfg, st)
    requires History(cfg, st') == History(cfg, st) + [r]
    requires st'.seqNo == st.seqNo + 1 && st'.sinceCP == st.sinceCP + 1
    requires st'.checkpoints == st.checkpoints && st'.diskHeads == st.diskHeads && st'.cosigner == st.cosigner
    ensures HeadsSound(lib, cfg, st') && WitnessSound(cfg, st')
  {
    forall j | 0 <= j < |st.checkpoints|
      ensures HeadSound(lib, cfg, History(cfg, st'), st'.checkpoints, j)
    {
      HeadSoundSnoc(lib, cfg, History(cfg, st), r, st.checkpoints, j);
    }
  }

  lemma CommitSound(lib: Library, cfg: Config, st: LogState, r: Record)
    requires Sound(lib, cfg, st) && r.seqNo == st.seqNo + 1
    requires Fits(lib, r, st.seqNo + 1, st.prevHash, cfg.hmacKey)
    ensures Sound(lib, cfg, Committed(cfg, st, r))
  {
    Aspects(lib, cfg, st);
    CommitKeepsChain(lib, cfg, st, r);
    CommitKeepsHeads(lib, cfg, st, Committed(cfg, st, r), r);
  }

  // ---------------------------------------------------------------- checkpoints

  /** The head of a non-empty log is one its witness accepts; the head of the empty log is refused. */
  lemma HonestHeadAccepted(lib: Library, cfg: Config, st: LogState)
    requires Sound(lib, cfg, st) && st.cosigner.Some? && st.seqNo < TWO63
    ensures WitnessAccepts(lib, cfg, st) <==> st.seqNo > 0
  {
    WitnessAspect(lib, cfg, st);
    Sizes(lib, cfg, st);
    var w, last := st.cosigner.value, LastSize(st.checkpoints);
    var sth, proof := TreeHead(lib, cfg, st), ProofFor(lib, st, w);
    if last == 0 {
      FirstHead(lib.sha, w, sth, proof);
    } else {
      LastHead(lib, cfg, st);
      if last < st.seqNo {
        ExtensionAccepted(lib, st.leaves, w, sth);
        NextHead(lib.sha, w, sth, proof);
      } else {
        SameHead(lib.sha, w, sth, proof);
      }
    }
  }

  lemma FirstHead(sha: Sha, w: W.State, sth: W.Sth, proof: seq<Bytes>)
    requires w.maxSize == w.lastSize == 0 && forall n :: n in w.seenRoot ==> 0 < n <= 0
    ensures W.Accepts(sha, w, sth, proof) <==> sth.treeSize > 0
  {
  }

  lemma NextHead(sha: Sha, w: W.State, sth: W.Sth, proof: seq<Bytes>)
    requires w.maxSize < sth.treeSize && (forall n :: n in w.seenRoot ==> 0 < n <= w.maxSize)
    requires W.Extends(sha, w, sth, proof)
    ensures W.Accepts(sha, w, sth, proof)
  {
  }

  lemma SameHead(sha: Sha, w: W.State, sth: W.Sth, proof: seq<Bytes>)
    requires w.lastSize == sth.treeSize && sth.treeSize in w.seenRoot && w.seenRoot[sth.treeSize] == sth.root
    ensures W.Accepts(sha, w, sth, proof)
  {
  }

  /** The last head commits to the leaves it was made from. */
  lemma LastHead(lib: Library, cfg: Config, st: LogState)
    requires Sound(lib, cfg, st) && LastSize(st.checkpoints) > 0
    ensures var sth := st.checkpoints[|st.checkpoints| - 1].sth;
      && sth.treeSize <= |st.leaves| == |History(cfg, st)|
      && sth.root == HeadBefore(History(cfg, st), sth.treeSize)
      && sth.merkleRoot == Hex(Root(lib.sha, st.leaves[..sth.treeSize]))
  {
    Sizes(lib, cfg, st);
    HeadCommits(lib, cfg, st, |st.checkpoints| - 1);
  }

  lemma HashesPrefix(all: seq<Record>, n: nat)
    requires n <= |all|
    ensures Hashes(all[..n]) == Hashes(all)[..n]
  {
  }

  lemma ExtensionAccepted(lib: Library, leaves: seq<Bytes>, w: W.State, sth: W.Sth)
    requires 0 < w.lastSize < sth.treeSize == |leaves| < TWO63
    requires w.lastMerkle == Hex(Root(lib.sha, leaves[..w.lastSize])) && sth.merkleRoot == Hex(Root(lib.sha, leaves))
    ensures W.Extends(lib.sha, w, sth, ConsistencyPath(lib.sha, leaves, w.lastSize))
  {
    HexRoundTrip(Root(lib.sha, leaves[..w.lastSize]));
    HexRoundTrip(Root(lib.sha, leaves));
    ConsistencyComplete(lib.sha, leaves, w.lastSize);
  }

  lemma NewHeadSound(lib: Library, cfg: Config, st: LogState)
    requires Sound(lib, cfg, st) && st.seqNo < TWO63
    ensures var cps := st.checkpoints + [NewHead(lib, cfg, st)];
      HeadSound(lib, cfg, History(cfg, st), cps, |cps| - 1)
  {
    ChainAspect(lib, cfg, st);
    WitnessAspect(lib, cfg, st);
    if st.cosigner.Some? {
      HonestHeadAccepted(lib, cfg, st);
    }
    FullHeadSound(lib, cfg, History(cfg, st), st.checkpoints, NewHead(lib, cfg, st));
  }

  /** A signed head of the whole chain, linked to the head before it. */
  lemma FullHeadSound(lib: Library, cfg: Config, all: seq<Record>, cps: seq<W.Checkpoint>, cp: W.Checkpoint)
    requires cp.sth.treeSize == |all| && cp.sth.root == HeadBefore(all, |all|)
    requires cp.sth.merkleRoot == Hex(Root(lib.sha, Hashes(all)))
    requires cp.sth.prevCP == LastSig(cps) && cp.sig == W.Ed25519(cfg.signKey, cp.sth)
    requires cfg.witnessKey.Some? ==>
      cp.witnessSig == if cp.sth.treeSize > 0 then W.Ed25519(cfg.witnessKey.value, cp.sth) else W.NoSig
    ensures HeadSound(lib, cfg, all, cps + [cp], |cps|)
  {
    var more, j := cps + [cp], |cps|;
    assert more[j] == cp && (j > 0 ==> more[j - 1] == cps[j - 1]);
    assert all[..|all|] == all;
    assert CheckpointIntact(lib, cfg.signKey, all, more, j);
  }

  lemma OldHeadsSound(lib: Library, cfg: Config, all: seq<Record>, cps: seq<W.Checkpoint>, cp: W.Checkpoint, j: nat)
    requires j < |cps| && HeadSound(lib, cfg, all, cps, j)
    requires LastSize(cps) <= cp.sth.treeSize
    ensures HeadSound(lib, cfg, all, cps + [cp], j)
  {
    var more := cps + [cp];
    assert more[j] == cps[j] && (j > 0 ==> more[j - 1] == cps[j - 1]);
  }

  lemma CheckpointKeepsHeads(lib: Library, cfg: Config, st: LogState)
    requires Sound(lib, cfg, st) && st.seqNo < TWO63
    ensures HeadsSound(lib, cfg, Checkpointed(lib, cfg, st))
  {
    Sizes(lib, cfg, st);
    NewHeadSound(lib, cfg, st);
    assert Holds(lib, cfg, st, OfHeads);
    OneMoreHead(lib, cfg, History(cfg, st), st.checkpoints, NewHead(lib, cfg, st));
    assert History(cfg, Checkpointed(lib, cfg, st)) == History(cfg, st);
  }

  lemma OneMoreHead(lib: Library, cfg: Config, all: seq<Record>, cps: seq<W.Checkpoint>, cp: W.Checkpoint)
    requires forall j :: 0 <= j < |cps| ==> HeadSound(lib, cfg, all, cps, j)
    requires LastSize(cps) <= cp.sth.treeSize && HeadSound(lib, cfg, all, cps + [cp], |cps|)
    ensures forall j :: 0 <= j < |cps + [cp]| ==> HeadSound(lib, cfg, all, cps + [cp], j)
  {
    forall j | 0 <= j < |cps + [cp]| ensures HeadSound(lib, cfg, all, cps + [cp], j) {
      if j < |cps| {
        OldHeadsSound(lib, cfg, all, cps, cp, j);
      }
    }
  }

  lemma CheckpointKeepsWitness(lib: Library, cfg: Config, st: LogState)
    requires Sound(lib, cfg, st) && st.seqNo < TWO63
    ensures WitnessSound(cfg, Checkpointed(lib, cfg, st))
  {
    Aspects(lib, cfg, st);
    if st.cosigner.Some? {
      HonestHeadAccepted(lib, cfg, st);
    }
    WitnessFollows(cfg, st, Checkpointed(lib, cfg, st), NewHead(lib, cfg, st));
  }

  lemma WitnessFollows(cfg: Config, st: LogState, st': LogState, cp: W.Checkpoint)
    requires WitnessSound(cfg, st) && LastSize(st.checkpoints) <= st.seqNo == cp.sth.treeSize
    requires st'.checkpoints == st.checkpoints + [cp]
    requires st'.cosigner ==
      if st.cosigner.Some? && st.seqNo > 0 then Some(W.Remember(st.cosigner.value, cp.sth)) else st.cosigner
    ensures WitnessSound(cfg, st')
  {
  }

  lemma SameChainSound(lib: Library, cfg: Config, st: LogState, st': LogState)
    requires ChainSound(lib, cfg, st) && WindowSound(cfg, st)
    requires st'.records == st.records && st'.disk == st.disk && st'.leaves == st.leaves
    requires st'.seqNo == st.seqNo && st'.prevHash == st.prevHash
    ensures ChainSound(lib, cfg, st') && WindowSound(cfg, st')
  {
  }

  lemma CheckpointSound(lib: Library, cfg: Config, st: LogState)
    requires Sound(lib, cfg, st) && st.seqNo < TWO63
    ensures Sound(lib, cfg, Checkpointed(lib, cfg, st))
  {
    Aspects(lib, cfg, st);
    SameChainSound(lib, cfg, st, Checkpointed(lib, cfg, st));
    CheckpointKeepsHeads(lib, cfg, st);
    CheckpointKeepsWitness(lib, cfg, st);
  }

  lemma CommitSettledSound(lib: Library, cfg: Config, st: LogState, r: Record)
    requires Sound(lib, cfg, st) && r.seqNo == st.seqNo + 1 < TWO63
    requires Fits(lib, r, st.seqNo + 1, st.prevHash, cfg.hmacKey)
    ensures Sound(lib, cfg, Settled(lib, cfg, Committed(cfg, st, r)))
  {
    CommitSound(lib, cfg, st, r);
    if Committed(cfg, st, r).sinceCP >= cfg.everyN {
      CheckpointSound(lib, cfg, Committed(cfg, st, r));
    }
  }

  lemma AppendSound(lib: Library, cfg: Config, st: LogState, r: Record, stamp: Stamp)
    requires Sound(lib, cfg, st) && st.seqNo + 1 < TWO63
    ensures Sound(lib, cfg, Appended(lib, cfg, st, r, stamp))
    ensures Appended(lib, cfg, st, r, stamp).seqNo == st.seqNo + 1
  {
    SealedIsIntact(lib, cfg, st, r, stamp);
    CommitSettledSound(lib, cfg, st, Sealed(lib, cfg, st, r, stamp));
  }
}
