/**
 The audit log as an object (internal/audit/chain.go, internal/audit/proofs.go and
 SelfVerify of internal/audit/verifier.go). Each method is proved to take exactly
 the step of `ChainState` that its name says.
 */
module Chain {
  import opened Hashing
  import opened Text
  import opened Merkle
  import opened Canonical
  import opened Verifier
  import opened ChainState
  import opened ChainRun

  /** NewLog's defaults: 16 records per checkpoint, a window of 4096. */
  function WithDefaults(cfg: Config): Config {
    cfg.(everyN := if cfg.everyN == 0 then 16 else cfg.everyN,
         ringCap := if cfg.durable && cfg.ringCap == 0 then 4096 else cfg.ringCap)
  }

  datatype InclusionResult = InclusionResult(leafData: Bytes, leafIndex: nat, treeSize: nat, proof: seq<Bytes>)

  /** Replay's loop: the full Merkle leaf set. */
  method Leaves(recs: seq<Record>) returns (leaves: seq<Bytes>)
    ensures leaves == Hashes(recs)
  {
    leaves := [];
    for i := 0 to |recs|
      invariant leaves == Hashes(recs)[..i]
    {
      leaves := leaves + [recs[i].recordHash];
    }
  }

  /** The checkpoints a boot finds. */
  function Found(heads: seq<W.Checkpoint>, readable: bool): seq<W.Checkpoint> {
    if readable then heads else []
  }

  /** The chain that is verified. */
  function Shown(cfg: Config, st: LogState, readable: bool): seq<Record> {
    if cfg.durable && !readable then [] else History(cfg, st)
  }

  /** Boot, or nothing when the WAL cannot be read: the process must not run without its audit. */
  method NewLog(lib: Library, cfg: Config, disk: seq<Record>, heads: seq<W.Checkpoint>, cosigner: W.Witness?,
                readable: bool, headsReadable: bool) returns (log: Log?)
    requires cfg.witnessKey.Some? <==> cosigner != null
    requires cosigner != null ==> cosigner.key == cfg.witnessKey.value && cosigner.View() == W.Fresh()
    modifies if cosigner == null then {} else {cosigner}
    ensures log == null <==> cfg.durable && !readable
    ensures log == null && cosigner != null ==> cosigner.View() == W.Fresh()
    ensures log != null ==> log.Valid()
    ensures log != null && cfg.durable ==>
      log.View() == Replayed(WithDefaults(cfg), disk, Found(heads, headsReadable)).(diskHeads := heads)
    ensures log != null && !cfg.durable ==> log.View() == Initial(cfg).(disk := disk, diskHeads := heads)
  {
    if cfg.durable && !readable {
      return null;
    }
    log := new Log(lib, cfg, disk, heads, cosigner, headsReadable);
  }

  /** What the WAL answers to a record: it is written, or it failed, with the line on disk all the same or not. */
  datatype WalAnswer = Durable | Failed(landed: bool)

  class Log {
    const lib: Library
    const cfg: Config
    const cosigner: W.Witness?
    var records: seq<Record>
    var prevHash: Bytes
    var seqNo: U64
    var checkpoints: seq<W.Checkpoint>
    var sinceCP: nat
    var leaves: seq<Bytes>
    var disk: seq<Record>
    var diskHeads: seq<W.Checkpoint>

    ghost predicate Valid()
      reads this
    {
      && cfg == WithDefaults(cfg)
      && (cfg.witnessKey.Some? <==> cosigner != null)
      && (cosigner != null ==> cosigner.key == cfg.witnessKey.value)
    }

    function View(): LogState
      reads this, if cosigner == null then {} else {cosigner}
    {
      LogState(records, prevHash, seqNo, checkpoints, sinceCP, leaves, disk, diskHeads,
               if cosigner == null then None else Some(cosigner.View()))
    }

    /** Boot: without a WAL an empty log; with one, replay of what it holds and the witness restored. */
    constructor (lib: Library, cfg: Config, disk: seq<Record>, heads: seq<W.Checkpoint>, cosigner: W.Witness?,
                 headsReadable: bool)
      requires cfg.witnessKey.Some? <==> cosigner != null
      requires cosigner != null ==> cosigner.key == cfg.witnessKey.value && cosigner.View() == W.Fresh()
      modifies if cosigner == null then {} else {cosigner}
      ensures Valid() && this.lib == lib && this.cfg == WithDefaults(cfg) && this.cosigner == cosigner
      ensures !cfg.durable ==> View() == Initial(cfg).(disk := disk, diskHeads := heads)
      ensures cfg.durable ==>
        View() == Replayed(WithDefaults(cfg), disk, Found(heads, headsReadable)).(diskHeads := heads)
    {
      this.lib, this.cfg, this.cosigner := lib, WithDefaults(cfg), cosigner;
      this.disk, this.diskHeads := disk, heads;
      records, prevHash, seqNo, checkpoints, sinceCP, leaves := [], [], 0, [], 0, [];
      new;
      if cfg.durable {
        var ok := ReplayWAL(true, headsReadable);
        if checkpoints != [] && cosigner != null {
          var last := checkpoints[|checkpoints| - 1].sth;
          cosigner.Restore(last.treeSize, last.merkleRoot, last.root);
        }
      }
    }

    /** An unreadable WAL fails, which is fatal; an unreadable sidecar counts as empty. */
    method ReplayWAL(readable: bool, headsReadable: bool) returns (ok: bool)
      modifies this
      ensures disk == old(disk) && diskHeads == old(diskHeads) && ok == readable
      ensures checkpoints == if ok then Found(diskHeads, headsReadable) else old(checkpoints)
      ensures !ok || disk == [] ==>
        records == old(records) && prevHash == old(prevHash) && seqNo == old(seqNo) && leaves == old(leaves)
        && sinceCP == old(sinceCP)
      ensures ok && disk != [] ==>
        var v := Replayed(cfg, disk, checkpoints);
        records == v.records && prevHash == v.prevHash && seqNo == v.seqNo && leaves == v.leaves && sinceCP == v.sinceCP
    {
      ok := readable;
      if !ok {
        return;
      }
      checkpoints := if headsReadable then diskHeads else [];
      if disk == [] {
        return;
      }
      var last := disk[|disk| - 1];
      seqNo, prevHash := last.seqNo, last.recordHash;
      leaves := Leaves(disk);
      var start := WindowStart(cfg, disk);
      records := disk[start..];
      sinceCP := SinceHead(seqNo, checkpoints);
    }

    /**
     The log's own panics (no HMAC key, WAL failure) seal nothing and leave memory untouched; a WAL failure
     may still have left the whole line on disk.
     */
    method Append(r: Record, stamp: Stamp, answer: WalAnswer) returns (res: Option<Record>)
      requires Valid()
      modifies this, if cosigner == null then {} else {cosigner}
      ensures Valid()
      ensures res.None? <==> cfg.hmacKey == [] || (cfg.durable && answer.Failed?)
      ensures res.None? ==>
        var left := if cfg.hmacKey != [] && answer.Failed? && answer.landed
                    then [Sealed(lib, cfg, old(View()), r, stamp)] else [];
        View() == old(View()).(disk := old(disk) + left)
      ensures res.Some? ==>
        res.value == Sealed(lib, cfg, old(View()), r, stamp) && View() == Appended(lib, cfg, old(View()), r, stamp)
    {
      var r' := r.(seqNo := (seqNo + 1) % TWO64, nodeID := cfg.nodeID);
      r' := r'.(eventID := OrElse(r.eventID, stamp.eventID), ts := OrElse(r.ts, stamp.ts));
      r' := r'.(eventVer := OrElse(r.eventVer, EVENT_VERSION), prevHash := prevHash);
      assert r' == Stamped(cfg, seqNo, prevHash, r, stamp);
      var h := RecordHash(lib, r', prevHash);
      assert disk + [] == disk;
      if cfg.hmacKey == [] {
        return None;
      }
      r' := r'.(recordHash := h, hmac := Hex(lib.Hmac(cfg.hmacKey, h)));
      assert r' == Sealed(lib, cfg, View(), r, stamp);
      if cfg.durable && answer.Failed? {
        if answer.landed {
          disk := disk + [r'];
        }
        return None;
      }
      Commit(r');
      res := Some(r');
    }

    method Commit(r: Record)
      requires Valid()
      modifies this, if cosigner == null then {} else {cosigner}
      ensures View() == Settled(lib, cfg, Committed(cfg, old(View()), r))
    {
      if cfg.durable {
        disk := disk + [r];
      }
      seqNo := r.seqNo;
      records := records + [r];
      prevHash := r.recordHash;
      leaves := leaves + [r.recordHash];
      sinceCP := sinceCP + 1;
      if cfg.durable && cfg.ringCap > 0 && |records| > 2 * cfg.ringCap {
        records := records[|records| - cfg.ringCap..];
      }
      assert View() == Committed(cfg, old(View()), r);
      if sinceCP >= cfg.everyN {
        CheckpointLocked();
      }
    }

    /** The witness, if there is one, is offered the head with a proof from the last it saw. */
    method CoSign(sth: W.Sth) returns (sig: W.Sig)
      requires Valid() && sth == TreeHead(lib, cfg, View())
      modifies if cosigner == null then {} else {cosigner}
      ensures View() == old(View()).(cosigner := View().cosigner)
      ensures View().cosigner ==
        if WitnessAccepts(lib, cfg, old(View())) then Some(W.Remember(old(View()).cosigner.value, sth))
        else old(View()).cosigner
      ensures sig ==
        if WitnessAccepts(lib, cfg, old(View())) then W.Ed25519(cfg.witnessKey.value, sth) else W.NoSig
    {
      sig := W.NoSig;
      if cosigner != null {
        var proof: seq<Bytes> := [];
        if 0 < cosigner.lastSize < seqNo {
          proof := ConsistencyProof(lib.sha, leaves, AsInt64(cosigner.lastSize));
        }
        assert proof == ProofFor(lib, View(), cosigner.View());
        var answer := cosigner.CounterSign(lib.sha, sth, proof);
        if answer.CoSigned? {
          sig := answer.sig;
        }
      }
    }

    method CheckpointLocked()
      requires Valid()
      modifies this, if cosigner == null then {} else {cosigner}
      ensures View() == Checkpointed(lib, cfg, old(View()))
    {
      var prev := if |checkpoints| > 0 then checkpoints[|checkpoints| - 1].sig else W.NoSig;
      var root := MerkleRoot(lib.sha, leaves);
      var sth := W.Sth(cfg.nodeID, seqNo, prevHash, Hex(root), prev);
      assert sth == TreeHead(lib, cfg, View());
      var witnessSig := CoSign(sth);
      var cp := W.Checkpoint(sth, W.Ed25519(cfg.signKey, sth), witnessSig);
      checkpoints := checkpoints + [cp];
      sinceCP := 0;
      if cfg.durable {
        diskHeads := diskHeads + [cp];
      }
    }

    /** The forced checkpoint. */
    method Checkpoint() returns (cp: W.Checkpoint)
      requires Valid()
      modifies this, if cosigner == null then {} else {cosigner}
      ensures Valid() && View() == Checkpointed(lib, cfg, old(View())) && cp == NewHead(lib, cfg, old(View()))
    {
      CheckpointLocked();
      cp := checkpoints[|checkpoints| - 1];
    }

    /** Up to the last n records of the in-memory window. */
    method Recent(n: int) returns (tail: seq<Record>)
      ensures |tail| == (if 0 < n <= |records| then n else |records|)
      ensures tail == records[|records| - |tail|..]
    {
      var k := if n <= 0 || n > |records| then |records| else n;
      tail := records[|records| - k..];
    }

    /** An unreadable WAL verifies as an empty chain; the witness is asked only about an intact one. */
    method SelfVerify(readable: bool) returns (res: VerifyResult)
      requires Valid()
      ensures res.ok <==> (cfg.durable ==> readable) && SelfVerifies(lib, cfg, View())
      ensures var recs := Shown(cfg, View(), readable);
        var missing := cosigner != null && !AllWitnessed(checkpoints, cosigner.key);
        if Intact(lib, cfg.hmacKey, cfg.signKey, recs, checkpoints) && missing
        then !res.ok && res.cls == WitnessBad && FirstUnwitnessed(checkpoints, cosigner.key, res.atSeq)
        else Reports(lib, recs, checkpoints, cfg.hmacKey, cfg.signKey, res)
    {
      var recs := if !cfg.durable then records else if readable then disk else [];
      res := Verify(lib, recs, checkpoints, cfg.hmacKey, cfg.signKey);
      if !res.ok {
        return;
      }
      if cosigner != null {
        var at, ok := VerifyWitness(checkpoints, cosigner.key);
        if !ok {
          res := VerifyResult(false, WitnessBad, at);
        }
      }
    }

    /** The proof of record seqNo anchored to a head's size, or none when either is out of range. */
    method InclusionProofAt(s: U64, size: U64) returns (res: Option<InclusionResult>)
      ensures res.Some? <==> 1 <= s <= size <= |leaves|
      ensures res.Some? ==>
        res.value == InclusionResult(leaves[s - 1], s - 1, size, InclusionPath(lib.sha, leaves[..size], s - 1))
    {
      if s == 0 || s > size || size > |leaves| {
        return None;
      }
      var sub := leaves[..size];
      var proof := InclusionProof(lib.sha, sub, s - 1);
      res := Some(InclusionResult(sub[s - 1], s - 1, size, proof));
    }

    /** The append-only proof from an older size to the current one. */
    method ConsistencyProofFrom(oldSize: U64) returns (res: Option<seq<Bytes>>)
      ensures res.Some? <==> 0 < oldSize < |leaves|
      ensures res.Some? ==>
        res.value == if oldSize < TWO63 then ConsistencyPath(lib.sha, leaves, oldSize) else []
    {
      if oldSize == 0 || oldSize >= |leaves| {
        return None;
      }
      var proof := ConsistencyProof(lib.sha, leaves, AsInt64(oldSize));
      res := Some(proof);
    }
  }
}
