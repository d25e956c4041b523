/**
 Whole runs of the audit log: appends, forced checkpoints, restarts and crashes in
 any order. Every reachable state is sound, restarts are invisible, and the log
 verifies itself under an exact condition on the run.
 */
module ChainRun {
  import opened Hashing
  import opened Text
  import opened Merkle
  import opened MerkleVerify
  import opened MerkleConsistency
  import opened Canonical
  import opened Verifier
  import opened ChainState

  /** A crash comes right after a record's line is on disk, before anything else; then the log restarts. */
  datatype Event = Append(r: Record, stamp: Stamp) | Checkpoint | Restart | Crash(r: Record, stamp: Stamp)

  /** The record is on disk, the checkpoint it may be due is not, and the log boots from the disk. */
  function Crashed(lib: Library, cfg: Config, st: LogState, r: Record, stamp: Stamp): LogState {
    Replayed(cfg, st.disk + [Sealed(lib, cfg, st, r, stamp)], st.diskHeads)
  }

  /** An ephemeral log has no restart. */
  ghost function Step(lib: Library, cfg: Config, st: LogState, e: Event): LogState {
    match e
    case Append(r, stamp) => Appended(lib, cfg, st, r, stamp)
    case Checkpoint => Checkpointed(lib, cfg, st)
    case Restart => if cfg.durable then Replayed(cfg, st.disk, st.diskHeads) else st
    case Crash(r, stamp) => if cfg.durable then Crashed(lib, cfg, st, r, stamp) else st
  }

  predicate Adds(cfg: Config, e: Event) {
    e.Append? || (e.Crash? && cfg.durable)
  }

  ghost function After(lib: Library, cfg: Config, run: seq<Event>, i: nat): LogState
    requires i <= |run|
  {
    if i == 0 then Initial(cfg) else Step(lib, cfg, After(lib, cfg, run, i - 1), run[i - 1])
  }

  lemma AfterOne(lib: Library, cfg: Config, run: seq<Event>, l: nat, i: nat)
    requires i == l + 1 <= |run|
    ensures After(lib, cfg, run, i) == Step(lib, cfg, After(lib, cfg, run, l), run[l])
  {
  }

  // ---------------------------------------------------------------- restarts

  /** All that later behaviour can depend on, except the witness's memory of older heads. */
  ghost predicate Same(st: LogState, st': LogState) {
    && st.seqNo == st'.seqNo && st.prevHash == st'.prevHash && st.leaves == st'.leaves && st.sinceCP == st'.sinceCP
    && st.checkpoints == st'.checkpoints && st.disk == st'.disk && st.diskHeads == st'.diskHeads
    && (st.cosigner.Some? <==> st'.cosigner.Some?)
  }

  /** Replay restores the sequence number, the chain head, the leaves, the checkpoints and the cadence. */
  lemma ReplaySame(lib: Library, cfg: Config, st: LogState)
    requires Sound(lib, cfg, st) && cfg.durable && st.seqNo < TWO63
    ensures Same(st, Replayed(cfg, st.disk, st.diskHeads))
  {
    Sizes(lib, cfg, st);
    ChainAspect(lib, cfg, st);
    WitnessAspect(lib, cfg, st);
    if st.disk != [] {
      LastNumber(lib, cfg.hmacKey, st.disk);
      SmallMod(st.seqNo - LastSize(st.diskHeads));
    }
  }

  lemma SmallMod(n: nat)
    requires n < TWO64
    ensures n % TWO64 == n
  {
  }

  lemma LastNumber(lib: Library, key: Bytes, records: seq<Record>)
    requires RecordsIntact(lib, key, records) && records != []
    ensures records[|records| - 1].seqNo == |records|
  {
    assert RecordFits(lib, key, records, |records| - 1);
  }

  lemma ReplayKeepsWitness(lib: Library, cfg: Config, st: LogState)
    requires Sound(lib, cfg, st) && cfg.durable
    ensures WitnessSound(cfg, Replayed(cfg, st.disk, st.diskHeads))
  {
    Sizes(lib, cfg, st);
    ChainAspect(lib, cfg, st);
    if st.checkpoints != [] {
      var j := |st.checkpoints| - 1;
      HeadCommits(lib, cfg, st, j);
      HeadLength(lib, cfg.hmacKey, st.disk, st.checkpoints[j].sth.treeSize);
    }
    RestoredSound(cfg, Replayed(cfg, st.disk, st.diskHeads), st.checkpoints);
  }

  lemma RestoredSound(cfg: Config, st: LogState, heads: seq<W.Checkpoint>)
    requires st.checkpoints == heads && st.cosigner == Restored(cfg, heads)
    requires heads != [] ==> var sth := heads[|heads| - 1].sth; sth.root != [] <==> sth.treeSize > 0
    ensures WitnessSound(cfg, st)
  {
  }

  lemma ReplayedWindow(cfg: Config, disk: seq<Record>, heads: seq<W.Checkpoint>)
    requires cfg.durable
    ensures WindowSound(cfg, Replayed(cfg, disk, heads))
  {
  }

  lemma ReplaySound(lib: Library, cfg: Config, st: LogState)
    requires Sound(lib, cfg, st) && cfg.durable && st.seqNo < TWO63
    ensures Sound(lib, cfg, Replayed(cfg, st.disk, st.diskHeads))
  {
    Aspects(lib, cfg, st);
    ReplaySame(lib, cfg, st);
    ReplayKeepsWitness(lib, cfg, st);
    ReplayedWindow(cfg, st.disk, st.diskHeads);
    var st' := Replayed(cfg, st.disk, st.diskHeads);
    assert Holds(lib, cfg, st', OfChain) && Holds(lib, cfg, st', OfHeads);
  }

  lemma StepSound(lib: Library, cfg: Config, st: LogState, e: Event)
    requires Sound(lib, cfg, st) && st.seqNo + 1 < TWO63
    ensures Sound(lib, cfg, Step(lib, cfg, st, e))
    ensures Step(lib, cfg, st, e).seqNo == if Adds(cfg, e) then st.seqNo + 1 else st.seqNo
  {
    match e
    case Append(r, stamp) => AppendSound(lib, cfg, st, r, stamp);
    case Checkpoint => CheckpointSound(lib, cfg, st);
    case Restart =>
      if cfg.durable {
        ReplaySame(lib, cfg, st);
        ReplaySound(lib, cfg, st);
      }
    case Crash(r, stamp) =>
      if cfg.durable {
        CrashSound(lib, cfg, st, r, stamp);
      }
  }

  /** A crash behind a completed line leaves a sound log that is one record longer, its checkpoint still due. */
  lemma CrashSound(lib: Library, cfg: Config, st: LogState, r: Record, stamp: Stamp)
    requires Sound(lib, cfg, st) && st.seqNo + 1 < TWO63 && cfg.durable
    ensures Sound(lib, cfg, Crashed(lib, cfg, st, r, stamp)) && Crashed(lib, cfg, st, r, stamp).seqNo == st.seqNo + 1
    ensures Crashed(lib, cfg, st, r, stamp).checkpoints == st.checkpoints
    ensures Crashed(lib, cfg, st, r, stamp).sinceCP == st.sinceCP + 1
  {
    var s := Sealed(lib, cfg, st, r, stamp);
    var c := Committed(cfg, st, s);
    SealedIsIntact(lib, cfg, st, r, stamp);
    CommitSound(lib, cfg, st, s);
    ReplaySame(lib, cfg, c);
    ReplaySound(lib, cfg, c);
    Sizes(lib, cfg, st);
  }

  /** Every reachable state is sound. */
  lemma {:induction false} ReachableSound(lib: Library, cfg: Config, run: seq<Event>, i: nat)
    requires cfg.Ready() && Digests32(lib.sha) && i <= |run| < TWO63
    ensures Sound(lib, cfg, After(lib, cfg, run, i)) && After(lib, cfg, run, i).seqNo <= i
  {
    if i == 0 {
      InitialSound(lib, cfg);
    } else {
      var l := i - 1;
      ReachableSound(lib, cfg, run, l);
      AfterOne(lib, cfg, run, l, i);
      StepSound(lib, cfg, After(lib, cfg, run, l), run[l]);
    }
  }

  lemma CheckpointedSame(lib: Library, cfg: Config, st: LogState, st': LogState)
    requires Sound(lib, cfg, st) && Sound(lib, cfg, st') && Same(st, st') && st.seqNo < TWO63
    ensures Same(Checkpointed(lib, cfg, st), Checkpointed(lib, cfg, st'))
  {
    NewHeadSame(lib, cfg, st, st');
  }

  lemma NewHeadSame(lib: Library, cfg: Config, st: LogState, st': LogState)
    requires Sound(lib, cfg, st) && Sound(lib, cfg, st') && Same(st, st') && st.seqNo < TWO63
    ensures NewHead(lib, cfg, st) == NewHead(lib, cfg, st')
    ensures WitnessAccepts(lib, cfg, st) <==> WitnessAccepts(lib, cfg, st')
  {
    assert TreeHead(lib, cfg, st) == TreeHead(lib, cfg, st');
    if st.cosigner.Some? {
      HonestHeadAccepted(lib, cfg, st);
      HonestHeadAccepted(lib, cfg, st');
    }
  }

  lemma AppendedSame(lib: Library, cfg: Config, st: LogState, st': LogState, r: Record, stamp: Stamp)
    requires Sound(lib, cfg, st) && Sound(lib, cfg, st') && Same(st, st') && st.seqNo + 1 < TWO63
    ensures Same(Appended(lib, cfg, st, r, stamp), Appended(lib, cfg, st', r, stamp))
  {
    var s := Sealed(lib, cfg, st, r, stamp);
    assert s == Sealed(lib, cfg, st', r, stamp);
    SealedIsIntact(lib, cfg, st, r, stamp);
    SettledSame(lib, cfg, st, st', s);
  }

  lemma SettledSame(lib: Library, cfg: Config, st: LogState, st': LogState, s: Record)
    requires Sound(lib, cfg, st) && Sound(lib, cfg, st') && Same(st, st') && s.seqNo == st.seqNo + 1 < TWO63
    requires Fits(lib, s, st.seqNo + 1, st.prevHash, cfg.hmacKey)
    ensures Same(Settled(lib, cfg, Committed(cfg, st, s)), Settled(lib, cfg, Committed(cfg, st', s)))
  {
    CommitSound(lib, cfg, st, s);
    CommitSound(lib, cfg, st', s);
    var c, c' := Committed(cfg, st, s), Committed(cfg, st', s);
    assert Same(c, c');
    if c.sinceCP >= cfg.everyN {
      CheckpointedSame(lib, cfg, c, c');
    }
  }

  lemma StepSame(lib: Library, cfg: Config, st: LogState, st': LogState, e: Event)
    requires Sound(lib, cfg, st) && Sound(lib, cfg, st') && Same(st, st') && st.seqNo + 1 < TWO63 && !e.Restart?
    ensures Same(Step(lib, cfg, st, e), Step(lib, cfg, st', e))
  {
    match e
    case Append(r, stamp) => AppendedSame(lib, cfg, st, st', r, stamp);
    case Checkpoint => CheckpointedSame(lib, cfg, st, st');
    case Crash(r, stamp) => CrashedSame(lib, cfg, st, st', r, stamp);
  }

  lemma CrashedSame(lib: Library, cfg: Config, st: LogState, st': LogState, r: Record, stamp: Stamp)
    requires Same(st, st')
    ensures Crashed(lib, cfg, st, r, stamp) == Crashed(lib, cfg, st', r, stamp)
  {
  }

  /** The same run with every restart left out. */
  function Uninterrupted(run: seq<Event>, i: nat): (u: seq<Event>)
    requires i <= |run|
    ensures |u| <= i
  {
    if i == 0 then []
    else if run[i - 1].Restart? then Uninterrupted(run, i - 1)
    else Uninterrupted(run, i - 1) + [run[i - 1]]
  }

  lemma {:induction false} AfterPrefix(lib: Library, cfg: Config, run: seq<Event>, more: seq<Event>, i: nat)
    requires i <= |run| && run <= more
    ensures After(lib, cfg, more, i) == After(lib, cfg, run, i)
  {
    if i > 0 {
      var l := i - 1;
      AfterPrefix(lib, cfg, run, more, l);
      AfterOne(lib, cfg, run, l, i);
      AfterOne(lib, cfg, more, l, i);
    }
  }

  ghost predicate TracksUninterrupted(lib: Library, cfg: Config, run: seq<Event>, i: nat)
    requires i <= |run|
  {
    Same(After(lib, cfg, run, i), After(lib, cfg, Uninterrupted(run, i), |Uninterrupted(run, i)|))
  }

  /**
   Restarts are invisible: at any point of any run the sequence number, chain head,
   leaves, checkpoints, checkpoint cadence and disk are those of the uninterrupted run.
   */
  lemma {:induction false} RestartsInvisible(lib: Library, cfg: Config, run: seq<Event>, i: nat)
    requires cfg.Ready() && Digests32(lib.sha) && i <= |run| < TWO63
    ensures TracksUninterrupted(lib, cfg, run, i)
  {
    if i > 0 {
      var l := i - 1;
      RestartsInvisible(lib, cfg, run, l);
      ReachableSound(lib, cfg, run, l);
      TracksOneMore(lib, cfg, run, l, i);
    }
  }

  lemma TracksOneMore(lib: Library, cfg: Config, run: seq<Event>, l: nat, i: nat)
    requires cfg.Ready() && Digests32(lib.sha) && i == l + 1 <= |run| < TWO63
    requires Sound(lib, cfg, After(lib, cfg, run, l)) && After(lib, cfg, run, l).seqNo <= l
    requires TracksUninterrupted(lib, cfg, run, l)
    ensures TracksUninterrupted(lib, cfg, run, i)
  {
    AfterOne(lib, cfg, run, l, i);
    if run[l].Restart? {
      TracksRestart(lib, cfg, run, l, i);
    } else {
      TracksStep(lib, cfg, run, l, i);
    }
  }

  lemma TracksRestart(lib: Library, cfg: Config, run: seq<Event>, l: nat, i: nat)
    requires i == l + 1 <= |run| < TWO63 && Sound(lib, cfg, After(lib, cfg, run, l))
    requires After(lib, cfg, run, l).seqNo <= l
    requires TracksUninterrupted(lib, cfg, run, l) && run[l].Restart?
    requires After(lib, cfg, run, i) == Step(lib, cfg, After(lib, cfg, run, l), run[l])
    ensures TracksUninterrupted(lib, cfg, run, i)
  {
    var u := Uninterrupted(run, l);
    assert Uninterrupted(run, i) == u;
    RestartSame(lib, cfg, After(lib, cfg, run, l), After(lib, cfg, u, |u|), run[l]);
  }

  lemma TracksStep(lib: Library, cfg: Config, run: seq<Event>, l: nat, i: nat)
    requires cfg.Ready() && Digests32(lib.sha)
    requires i == l + 1 <= |run| < TWO63 && Sound(lib, cfg, After(lib, cfg, run, l))
    requires After(lib, cfg, run, l).seqNo <= l
    requires TracksUninterrupted(lib, cfg, run, l) && !run[l].Restart?
    requires After(lib, cfg, run, i) == Step(lib, cfg, After(lib, cfg, run, l), run[l])
    ensures TracksUninterrupted(lib, cfg, run, i)
  {
    var u := Uninterrupted(run, l);
    UninterruptedSnoc(run, l, i);
    ReachableSound(lib, cfg, u, |u|);
    UninterruptedStep(lib, cfg, After(lib, cfg, run, l), u, Uninterrupted(run, i), run[l]);
  }

  lemma RestartSame(lib: Library, cfg: Config, st: LogState, st': LogState, e: Event)
    requires Sound(lib, cfg, st) && Same(st, st') && st.seqNo < TWO63 && e.Restart?
    ensures Same(Step(lib, cfg, st, e), st')
  {
    if cfg.durable {
      ReplaySame(lib, cfg, st);
    }
  }

  lemma UninterruptedSnoc(run: seq<Event>, l: nat, i: nat)
    requires i == l + 1 <= |run| && !run[l].Restart?
    ensures Uninterrupted(run, i) == Uninterrupted(run, l) + [run[l]]
  {
  }

  lemma UninterruptedStep(lib: Library, cfg: Config, st: LogState, u: seq<Event>, more: seq<Event>, e: Event)
    requires more == u + [e]
    requires Sound(lib, cfg, st) && Sound(lib, cfg, After(lib, cfg, u, |u|)) && Same(st, After(lib, cfg, u, |u|))
    requires st.seqNo + 1 < TWO63 && !e.Restart?
    ensures Same(Step(lib, cfg, st, e), After(lib, cfg, more, |more|))
  {
    var n := |u|;
    AfterPrefix(lib, cfg, u, more, n);
    AfterOne(lib, cfg, more, n, n + 1);
    StepSame(lib, cfg, st, After(lib, cfg, u, n), e);
  }

  // ---------------------------------------------------------------- what the log holds

  /** The record is what the caller gave, numbered, with the node's id and the clock's stamp where none was set. */
  ghost predicate Carries(cfg: Config, s: Record, n: nat, r: Record, stamp: Stamp) {
    && n < TWO64
    && s == r.(seqNo := n, nodeID := cfg.nodeID, eventID := if r.eventID != [] then r.eventID else stamp.eventID,
               ts := if r.ts != [] then r.ts else stamp.ts,
               eventVer := if r.eventVer != [] then r.eventVer else EVENT_VERSION,
               prevHash := s.prevHash, recordHash := s.recordHash, hmac := s.hmac)
  }

  lemma SealedCarries(lib: Library, cfg: Config, st: LogState, r: Record, stamp: Stamp)
    requires st.seqNo + 1 < TWO64
    ensures Carries(cfg, Sealed(lib, cfg, st, r, stamp), st.seqNo + 1, r, stamp)
  {
  }

  /** The events that add a record, in order. */
  function Submitted(cfg: Config, run: seq<Event>, i: nat): (adds: seq<Event>)
    requires i <= |run|
    ensures forall k :: 0 <= k < |adds| ==> adds[k].Append? || adds[k].Crash?
  {
    if i == 0 then [] else Submitted(cfg, run, i - 1) + (if Adds(cfg, run[i - 1]) then [run[i - 1]] else [])
  }

  /** One record for each of the events, in their order, with what they gave. */
  ghost predicate HoldsAll(cfg: Config, all: seq<Record>, adds: seq<Event>)
    requires forall k :: 0 <= k < |adds| ==> adds[k].Append? || adds[k].Crash?
  {
    |all| == |adds| && forall k :: 0 <= k < |adds| ==> Carries(cfg, all[k], k + 1, adds[k].r, adds[k].stamp)
  }

  lemma StepHistory(lib: Library, cfg: Config, st: LogState, e: Event)
    ensures History(cfg, Step(lib, cfg, st, e)) ==
      History(cfg, st) + (if Adds(cfg, e) then [Sealed(lib, cfg, st, e.r, e.stamp)] else [])
  {
  }

  lemma HoldsOneMore(cfg: Config, all: seq<Record>, adds: seq<Event>, s: Record, e: Event, n: nat)
    requires forall k :: 0 <= k < |adds| ==> adds[k].Append? || adds[k].Crash?
    requires HoldsAll(cfg, all, adds) && (e.Append? || e.Crash?) && n == |adds| + 1 && Carries(cfg, s, n, e.r, e.stamp)
    ensures HoldsAll(cfg, all + [s], adds + [e])
  {
  }

  /** In every reachable state the chain holds exactly what was appended, in order, unaltered. */
  lemma {:induction false} HistoryIsSubmitted(lib: Library, cfg: Config, run: seq<Event>, i: nat)
    requires cfg.Ready() && Digests32(lib.sha) && i <= |run| < TWO63
    ensures HoldsAll(cfg, History(cfg, After(lib, cfg, run, i)), Submitted(cfg, run, i))
  {
    if i > 0 {
      var l := i - 1;
      HistoryIsSubmitted(lib, cfg, run, l);
      HistoryOneMore(lib, cfg, run, l, i);
    }
  }

  lemma HistoryOneMore(lib: Library, cfg: Config, run: seq<Event>, l: nat, i: nat)
    requires cfg.Ready() && Digests32(lib.sha) && i == l + 1 <= |run| < TWO63
    requires HoldsAll(cfg, History(cfg, After(lib, cfg, run, l)), Submitted(cfg, run, l))
    ensures HoldsAll(cfg, History(cfg, After(lib, cfg, run, i)), Submitted(cfg, run, i))
  {
    var st, e := After(lib, cfg, run, l), run[l];
    AfterOne(lib, cfg, run, l, i);
    StepHistory(lib, cfg, st, e);
    ReachableSound(lib, cfg, run, l);
    Sizes(lib, cfg, st);
    if Adds(cfg, e) {
      SealedCarries(lib, cfg, st, e.r, e.stamp);
      HoldsOneMore(cfg, History(cfg, st), Submitted(cfg, run, l), Sealed(lib, cfg, st, e.r, e.stamp), e, st.seqNo + 1);
    }
  }

  // ---------------------------------------------------------------- when heads are made

  /** A forced checkpoint, or the append that completes everyN records since the last head. */
  ghost predicate Due(cfg: Config, st: LogState, e: Event) {
    e.Checkpoint? || (e.Append? && st.seqNo + 1 - LastSize(st.checkpoints) >= cfg.everyN)
  }

  /** A head of the whole log, signed and, unless the log is empty, co-signed. */
  ghost predicate HeadOfAll(cfg: Config, st: LogState, cp: W.Checkpoint) {
    && cp.sth.treeSize == st.seqNo && cp.sth.root == st.prevHash && cp.sig == W.Ed25519(cfg.signKey, cp.sth)
    && (cfg.witnessKey.Some? && st.seqNo > 0 ==> cp.witnessSig == W.Ed25519(cfg.witnessKey.value, cp.sth))
  }

  lemma NewHeadOfAll(lib: Library, cfg: Config, st: LogState)
    requires Sound(lib, cfg, st) && st.seqNo < TWO63
    ensures HeadOfAll(cfg, Checkpointed(lib, cfg, st), NewHead(lib, cfg, st))
  {
    WitnessAspect(lib, cfg, st);
    if st.cosigner.Some? {
      HonestHeadAccepted(lib, cfg, st);
    }
  }

  ghost predicate OneMoreHeadIf(cfg: Config, due: bool, st: LogState, st': LogState) {
    if due then
      && |st'.checkpoints| == |st.checkpoints| + 1 && st.checkpoints == st'.checkpoints[..|st.checkpoints|]
      && HeadOfAll(cfg, st', st'.checkpoints[|st.checkpoints|])
    else st'.checkpoints == st.checkpoints
  }

  lemma AppendAddsHead(lib: Library, cfg: Config, st: LogState, r: Record, stamp: Stamp)
    requires Sound(lib, cfg, st) && st.seqNo + 1 < TWO63
    ensures OneMoreHeadIf(cfg, Due(cfg, st, Append(r, stamp)), st, Appended(lib, cfg, st, r, stamp))
  {
    var s := Sealed(lib, cfg, st, r, stamp);
    SealedIsIntact(lib, cfg, st, r, stamp);
    CommitSound(lib, cfg, st, s);
    Sizes(lib, cfg, st);
    NewHeadOfAll(lib, cfg, Committed(cfg, st, s));
  }

  lemma StepAddsHead(lib: Library, cfg: Config, st: LogState, e: Event)
    requires Sound(lib, cfg, st) && st.seqNo + 1 < TWO63
    ensures OneMoreHeadIf(cfg, Due(cfg, st, e), st, Step(lib, cfg, st, e))
  {
    match e
    case Append(r, stamp) => AppendAddsHead(lib, cfg, st, r, stamp);
    case Checkpoint => NewHeadOfAll(lib, cfg, st);
    case Restart => Sizes(lib, cfg, st);
    case Crash(r, stamp) =>
      if cfg.durable {
        CrashSound(lib, cfg, st, r, stamp);
      }
  }

  /** In every run an event makes a head exactly when it is due, and that head is of the whole log, fully signed. */
  lemma HeadMadeExactly(lib: Library, cfg: Config, run: seq<Event>, l: nat, i: nat)
    requires cfg.Ready() && Digests32(lib.sha) && i == l + 1 <= |run| < TWO63
    ensures var st, st' := After(lib, cfg, run, l), After(lib, cfg, run, i);
      && OneMoreHeadIf(cfg, Due(cfg, st, run[l]), st, st')
      && st'.seqNo == if Adds(cfg, run[l]) then st.seqNo + 1 else st.seqNo
  {
    ReachableSound(lib, cfg, run, l);
    AfterOne(lib, cfg, run, l, i);
    StepSound(lib, cfg, After(lib, cfg, run, l), run[l]);
    StepAddsHead(lib, cfg, After(lib, cfg, run, l), run[l]);
  }

  function CrashesWith(crashes: nat, e: Event): nat {
    match e
    case Append(_, _) => 0
    case Checkpoint => 0
    case Restart => crashes
    case Crash(_, _) => crashes + 1
  }

  /** Crashes since the last append or forced checkpoint. */
  function TrailingCrashes(run: seq<Event>, i: nat): nat
    requires i <= |run|
  {
    if i == 0 then 0 else CrashesWith(TrailingCrashes(run, i - 1), run[i - 1])
  }

  /** Fewer than everyN records, crashes not counted, have come since the last head. */
  ghost predicate OnCadence(cfg: Config, st: LogState, crashes: nat) {
    st.seqNo - LastSize(st.checkpoints) < cfg.everyN + crashes
  }

  /**
   Fewer than everyN records are ever without a head, not counting those that crashes just left: right after
   an append there are fewer than everyN, however many crashes came before it.
   */
  lemma {:induction false} CadenceKept(lib: Library, cfg: Config, run: seq<Event>, i: nat)
    requires cfg.Ready() && Digests32(lib.sha) && i <= |run| < TWO63
    ensures OnCadence(cfg, After(lib, cfg, run, i), TrailingCrashes(run, i))
  {
    if i == 0 {
      CadenceStart(lib, cfg, run);
    } else {
      var l := i - 1;
      CadenceKept(lib, cfg, run, l);
      CadenceOneMore(lib, cfg, run, l, i);
    }
  }

  lemma CadenceStart(lib: Library, cfg: Config, run: seq<Event>)
    requires cfg.everyN > 0
    ensures OnCadence(cfg, After(lib, cfg, run, 0), TrailingCrashes(run, 0))
  {
  }

  lemma CadenceOneMore(lib: Library, cfg: Config, run: seq<Event>, l: nat, i: nat)
    requires cfg.Ready() && Digests32(lib.sha) && i == l + 1 <= |run| < TWO63
    requires OnCadence(cfg, After(lib, cfg, run, l), TrailingCrashes(run, l))
    ensures OnCadence(cfg, After(lib, cfg, run, i), TrailingCrashes(run, i))
  {
    HeadMadeExactly(lib, cfg, run, l, i);
    CadenceStep(cfg, After(lib, cfg, run, l), After(lib, cfg, run, i), run[l], TrailingCrashes(run, l));
  }

  lemma CadenceStep(cfg: Config, st: LogState, st': LogState, e: Event, crashes: nat)
    requires cfg.everyN > 0 && OnCadence(cfg, st, crashes)
    requires OneMoreHeadIf(cfg, Due(cfg, st, e), st, st')
    requires st'.seqNo == if Adds(cfg, e) then st.seqNo + 1 else st.seqNo
    ensures OnCadence(cfg, st', CrashesWith(crashes, e))
  {
  }

  // In runs of appends and restarts the heads are exactly those of the multiples of everyN.

  predicate Unforced(run: seq<Event>, i: nat)
    requires i <= |run|
  {
    forall l :: 0 <= l < i ==> run[l].Append? || run[l].Restart?
  }

  function Multiple(n: nat, k: nat): nat {
    n * k
  }

  lemma NextMultiple(n: nat, k: nat)
    ensures Multiple(n, k + 1) == Multiple(n, k) + n
  {
  }

  ghost predicate Regular(everyN: nat, cps: seq<W.Checkpoint>) {
    forall j :: 0 <= j < |cps| ==> cps[j].sth.treeSize == Multiple(everyN, j + 1)
  }

  lemma RegularSnoc(everyN: nat, cps: seq<W.Checkpoint>, more: seq<W.Checkpoint>)
    requires Regular(everyN, cps) && |more| == |cps| + 1 && cps == more[..|cps|]
    requires more[|cps|].sth.treeSize == Multiple(everyN, |more|)
    ensures Regular(everyN, more)
  {
    forall j | 0 <= j < |more| ensures more[j].sth.treeSize == Multiple(everyN, j + 1) {
      assert j < |cps| ==> more[j] == cps[j];
    }
  }

  lemma LastRegular(everyN: nat, cps: seq<W.Checkpoint>)
    requires Regular(everyN, cps)
    ensures LastSize(cps) == Multiple(everyN, |cps|)
  {
  }

  /** After n appends, whatever restarts come in between: one head per everyN records, each at its multiple. */
  lemma {:induction false} HeadsAtMultiples(lib: Library, cfg: Config, run: seq<Event>, i: nat)
    requires cfg.Ready() && Digests32(lib.sha) && i <= |run| < TWO63 && Unforced(run, i)
    ensures var st := After(lib, cfg, run, i);
      && Regular(cfg.everyN, st.checkpoints)
      && Multiple(cfg.everyN, |st.checkpoints|) <= st.seqNo < Multiple(cfg.everyN, |st.checkpoints| + 1)
  {
    if i == 0 {
      NextMultiple(cfg.everyN, 0);
    } else {
      var l := i - 1;
      HeadsAtMultiples(lib, cfg, run, l);
      HeadMadeExactly(lib, cfg, run, l, i);
      MultiplesStep(cfg, After(lib, cfg, run, l), After(lib, cfg, run, i), run[l]);
    }
  }

  lemma MultiplesStep(cfg: Config, st: LogState, st': LogState, e: Event)
    requires cfg.everyN > 0 && (e.Append? || e.Restart?) && Regular(cfg.everyN, st.checkpoints)
    requires Multiple(cfg.everyN, |st.checkpoints|) <= st.seqNo < Multiple(cfg.everyN, |st.checkpoints| + 1)
    requires OneMoreHeadIf(cfg, Due(cfg, st, e), st, st')
    requires st'.seqNo == if e.Append? then st.seqNo + 1 else st.seqNo
    ensures Regular(cfg.everyN, st'.checkpoints)
    ensures Multiple(cfg.everyN, |st'.checkpoints|) <= st'.seqNo < Multiple(cfg.everyN, |st'.checkpoints| + 1)
  {
    var k := |st.checkpoints|;
    LastRegular(cfg.everyN, st.checkpoints);
    NextMultiple(cfg.everyN, k);
    NextMultiple(cfg.everyN, k + 1);
    if Due(cfg, st, e) {
      RegularSnoc(cfg.everyN, st.checkpoints, st'.checkpoints);
    }
  }

  // ---------------------------------------------------------------- the log verifies itself

  /** What SelfVerify reports as OK: the chain is intact and, under a witness, every head is co-signed. */
  ghost predicate SelfVerifies(lib: Library, cfg: Config, st: LogState) {
    && Intact(lib, cfg.hmacKey, cfg.signKey, History(cfg, st), st.checkpoints)
    && (cfg.witnessKey.Some? ==> AllWitnessed(st.checkpoints, cfg.witnessKey.value))
  }

  ghost predicate HasEmptyHead(cps: seq<W.Checkpoint>) {
    exists j :: 0 <= j < |cps| && cps[j].sth.treeSize == 0
  }

  /** The heads of a sound log are intact; under a witness all are co-signed exactly if none is of size 0. */
  lemma SoundHeads(lib: Library, cfg: Config, st: LogState)
    requires Sound(lib, cfg, st)
    ensures forall j :: 0 <= j < |st.checkpoints| ==>
      CheckpointIntact(lib, cfg.signKey, History(cfg, st), st.checkpoints, j)
    ensures cfg.witnessKey.Some? ==>
      (AllWitnessed(st.checkpoints, cfg.witnessKey.value) <==> !HasEmptyHead(st.checkpoints))
  {
    assert Holds(lib, cfg, st, OfHeads);
    var all, cps := History(cfg, st), st.checkpoints;
    forall j | 0 <= j < |cps| ensures CheckpointIntact(lib, cfg.signKey, all, cps, j) {
      assert HeadSound(lib, cfg, all, cps, j);
    }
    if cfg.witnessKey.Some? {
      forall j | 0 <= j < |cps|
        ensures W.Signed(cfg.witnessKey.value, cps[j].sth, cps[j].witnessSig) <==> cps[j].sth.treeSize > 0
      {
        assert HeadSound(lib, cfg, all, cps, j);
      }
    }
  }

  lemma SoundVerifies(lib: Library, cfg: Config, st: LogState)
    requires Sound(lib, cfg, st)
    ensures SelfVerifies(lib, cfg, st)
      <==> st.seqNo > 0 && (cfg.witnessKey.Some? ==> !HasEmptyHead(st.checkpoints))
  {
    ChainAspect(lib, cfg, st);
    SoundHeads(lib, cfg, st);
  }

  predicate NoAppend(cfg: Config, run: seq<Event>, k: nat)
    requires k <= |run|
  {
    forall l :: 0 <= l < k ==> !Adds(cfg, run[l])
  }

  /** A checkpoint was forced before anything was appended. */
  predicate HastyCheckpoint(cfg: Config, run: seq<Event>, k: nat)
    requires k <= |run|
  {
    exists l :: 0 <= l < k && run[l].Checkpoint? && NoAppend(cfg, run, l)
  }

  lemma {:induction false} EmptyWhileNoAppend(lib: Library, cfg: Config, run: seq<Event>, i: nat)
    requires cfg.Ready() && Digests32(lib.sha) && i <= |run| < TWO63
    ensures After(lib, cfg, run, i).seqNo == 0 <==> NoAppend(cfg, run, i)
  {
    if i > 0 {
      var l := i - 1;
      EmptyWhileNoAppend(lib, cfg, run, l);
      ReachableSound(lib, cfg, run, l);
      AfterOne(lib, cfg, run, l, i);
      StepSound(lib, cfg, After(lib, cfg, run, l), run[l]);
      NoAppendSnoc(cfg, run, l, i);
    }
  }

  lemma NoAppendSnoc(cfg: Config, run: seq<Event>, l: nat, i: nat)
    requires i == l + 1 <= |run|
    ensures NoAppend(cfg, run, i) <==> NoAppend(cfg, run, l) && !Adds(cfg, run[l])
  {
  }

  /** One step adds an empty head exactly when it is a checkpoint of the empty log. */
  lemma EmptyHeadStep(lib: Library, cfg: Config, st: LogState, e: Event)
    requires Sound(lib, cfg, st) && st.seqNo + 1 < TWO63
    ensures HasEmptyHead(Step(lib, cfg, st, e).checkpoints)
      <==> HasEmptyHead(st.checkpoints) || (e.Checkpoint? && st.seqNo == 0)
  {
    match e
    case Append(r, stamp) =>
      SealedIsIntact(lib, cfg, st, r, stamp);
      SettledHeads(lib, cfg, Committed(cfg, st, Sealed(lib, cfg, st, r, stamp)));
    case Checkpoint => EmptyHeadSnoc(st.checkpoints, NewHead(lib, cfg, st));
    case Restart => assert Holds(lib, cfg, st, OfHeads);
    case Crash(r, stamp) =>
      if cfg.durable {
        CrashSound(lib, cfg, st, r, stamp);
      }
  }

  lemma SettledHeads(lib: Library, cfg: Config, st: LogState)
    requires st.seqNo > 0
    ensures HasEmptyHead(Settled(lib, cfg, st).checkpoints) <==> HasEmptyHead(st.checkpoints)
  {
    EmptyHeadSnoc(st.checkpoints, NewHead(lib, cfg, st));
  }

  lemma EmptyHeadSnoc(cps: seq<W.Checkpoint>, cp: W.Checkpoint)
    ensures HasEmptyHead(cps + [cp]) <==> HasEmptyHead(cps) || cp.sth.treeSize == 0
  {
    var more := cps + [cp];
    assert more[|cps|] == cp && forall j :: 0 <= j < |cps| ==> more[j] == cps[j];
  }

  lemma {:induction false} EmptyHeadIffHasty(lib: Library, cfg: Config, run: seq<Event>, i: nat)
    requires cfg.Ready() && Digests32(lib.sha) && i <= |run| < TWO63
    ensures HasEmptyHead(After(lib, cfg, run, i).checkpoints) <==> HastyCheckpoint(cfg, run, i)
  {
    if i > 0 {
      var l := i - 1;
      EmptyHeadIffHasty(lib, cfg, run, l);
      EmptyWhileNoAppend(lib, cfg, run, l);
      ReachableSound(lib, cfg, run, l);
      AfterOne(lib, cfg, run, l, i);
      EmptyHeadStep(lib, cfg, After(lib, cfg, run, l), run[l]);
      HastySnoc(cfg, run, l, i);
    }
  }

  lemma HastySnoc(cfg: Config, run: seq<Event>, l: nat, i: nat)
    requires i == l + 1 <= |run|
    ensures HastyCheckpoint(cfg, run, i)
      <==> HastyCheckpoint(cfg, run, l) || (run[l].Checkpoint? && NoAppend(cfg, run, l))
  {
  }

  /**
   Every run of appends, checkpoints, restarts and crashes leaves a log that verifies itself,
   every head co-signed, exactly when something was appended and, under a witness,
   no checkpoint was forced before the first append.
   */
  lemma HonestRunVerifies(lib: Library, cfg: Config, run: seq<Event>, i: nat)
    requires cfg.Ready() && Digests32(lib.sha) && i <= |run| < TWO63
    ensures SelfVerifies(lib, cfg, After(lib, cfg, run, i))
      <==> !NoAppend(cfg, run, i) && (cfg.witnessKey.Some? ==> !HastyCheckpoint(cfg, run, i))
  {
    ReachableSound(lib, cfg, run, i);
    SoundVerifies(lib, cfg, After(lib, cfg, run, i));
    EmptyWhileNoAppend(lib, cfg, run, i);
    EmptyHeadIffHasty(lib, cfg, run, i);
  }

  // ---------------------------------------------------------------- published heads stay provable

  /** The proof of record s anchored to a head verifies against that head's signed Merkle root. */
  ghost predicate Provable(lib: Library, st: LogState, sth: W.Sth, s: nat)
    requires 1 <= s <= sth.treeSize <= |st.leaves|
  {
    var sub := st.leaves[..sth.treeSize];
    var path := InclusionPath(lib.sha, sub, s - 1);
    && Unhex(sth.merkleRoot) == Some(Root(lib.sha, sub))
    && InclusionAccepted(lib.sha, sub[s - 1], s - 1, sth.treeSize, path, Root(lib.sha, sub))
  }

  /** In every reachable state every record under every past head is provable under that head. */
  lemma PublishedHeadsProvable(lib: Library, cfg: Config, run: seq<Event>, i: nat, j: nat, s: nat)
    requires cfg.Ready() && Digests32(lib.sha) && i <= |run| < TWO63
    requires j < |After(lib, cfg, run, i).checkpoints|
    requires 1 <= s <= After(lib, cfg, run, i).checkpoints[j].sth.treeSize
    ensures After(lib, cfg, run, i).checkpoints[j].sth.treeSize <= |After(lib, cfg, run, i).leaves|
    ensures Provable(lib, After(lib, cfg, run, i), After(lib, cfg, run, i).checkpoints[j].sth, s)
  {
    ReachableSound(lib, cfg, run, i);
    HeadProvable(lib, cfg, After(lib, cfg, run, i), j, s);
  }

  lemma HeadProvable(lib: Library, cfg: Config, st: LogState, j: nat, s: nat)
    requires Sound(lib, cfg, st) && j < |st.checkpoints| && 1 <= s <= st.checkpoints[j].sth.treeSize
    ensures st.checkpoints[j].sth.treeSize <= |st.leaves|
    ensures Provable(lib, st, st.checkpoints[j].sth, s)
  {
    HeadCommits(lib, cfg, st, j);
    LeafProvable(lib, st, st.checkpoints[j].sth, s);
  }

  lemma LeafProvable(lib: Library, st: LogState, sth: W.Sth, s: nat)
    requires 1 <= s <= sth.treeSize <= |st.leaves| && sth.merkleRoot == Hex(Root(lib.sha, st.leaves[..sth.treeSize]))
    ensures Provable(lib, st, sth, s)
  {
    var sub := st.leaves[..sth.treeSize];
    HexRoundTrip(Root(lib.sha, sub));
    InclusionComplete(lib.sha, sub, s - 1);
  }

  /** In every reachable state any earlier published head is provably a prefix of any later one. */
  lemma PublishedHeadsConsistent(lib: Library, cfg: Config, run: seq<Event>, i: nat, j: nat, j': nat)
    requires cfg.Ready() && Digests32(lib.sha) && i <= |run| < TWO63
    requires j < |After(lib, cfg, run, i).checkpoints| && j' < |After(lib, cfg, run, i).checkpoints|
    requires 0 < After(lib, cfg, run, i).checkpoints[j].sth.treeSize
    requires After(lib, cfg, run, i).checkpoints[j].sth.treeSize <= After(lib, cfg, run, i).checkpoints[j'].sth.treeSize
    ensures var st := After(lib, cfg, run, i);
      ConsistentHeads(lib, st, st.checkpoints[j].sth, st.checkpoints[j'].sth)
  {
    ReachableSound(lib, cfg, run, i);
    HeadsConsistent(lib, cfg, After(lib, cfg, run, i), j, j');
  }

  /** The proof from one size to the other verifies between the two signed Merkle roots. */
  ghost predicate ConsistentHeads(lib: Library, st: LogState, sth: W.Sth, sth': W.Sth) {
    && 0 < sth.treeSize <= sth'.treeSize <= |st.leaves|
    && Unhex(sth.merkleRoot).Some? && Unhex(sth'.merkleRoot).Some?
    && ConsistencyAccepted(lib.sha, sth.treeSize, sth'.treeSize,
         ConsistencyPath(lib.sha, st.leaves[..sth'.treeSize], sth.treeSize),
         Unhex(sth.merkleRoot).value, Unhex(sth'.merkleRoot).value)
  }

  lemma HeadsConsistent(lib: Library, cfg: Config, st: LogState, j: nat, j': nat)
    requires Sound(lib, cfg, st) && j < |st.checkpoints| && j' < |st.checkpoints|
    requires 0 < st.checkpoints[j].sth.treeSize <= st.checkpoints[j'].sth.treeSize
    ensures ConsistentHeads(lib, st, st.checkpoints[j].sth, st.checkpoints[j'].sth)
  {
    HeadCommits(lib, cfg, st, j);
    HeadCommits(lib, cfg, st, j');
    SizesConsistent(lib, st, st.checkpoints[j].sth, st.checkpoints[j'].sth);
  }

  lemma SizesConsistent(lib: Library, st: LogState, sth: W.Sth, sth': W.Sth)
    requires 0 < sth.treeSize <= sth'.treeSize <= |st.leaves|
    requires sth.merkleRoot == Hex(Root(lib.sha, st.leaves[..sth.treeSize]))
    requires sth'.merkleRoot == Hex(Root(lib.sha, st.leaves[..sth'.treeSize]))
    ensures ConsistentHeads(lib, st, sth, sth')
  {
    var sub := st.leaves[..sth'.treeSize];
    assert sub[..sth.treeSize] == st.leaves[..sth.treeSize];
    HexRoundTrip(Root(lib.sha, st.leaves[..sth.treeSize]));
    HexRoundTrip(Root(lib.sha, sub));
    ConsistencyComplete(lib.sha, sub, sth.treeSize);
  }
}
