/**
 The audit log over its segment files: every append writes the sealed record's line, and
 may fail or stop at any byte; the process goes on after a failure, or restarts and reads
 the bytes back. Self-verification reads them too. What it reports is characterised exactly.
 */
module DurableLog {
  import opened Hashing
  import opened Text
  import opened Canonical
  import opened Verifier
  import opened ChainState
  import opened ReadBack
  import R = ChainRun

  /** The log's parameters, its JSON, and the size at which a segment is closed. */
  datatype Env = Env(lib: Library, cfg: Config, json: B.Json, limit: nat)

  /** The log in memory and the segments on disk; what the disk holds is in the bytes. */
  datatype Node = Node(log: LogState, sink: B.Sink)

  /** An append under any fault, a forced checkpoint, a self-verification (which reads the WAL), a restart. */
  datatype Event = Append(r: Record, stamp: Stamp, fault: B.Fault) | Checkpoint | Verify | Restart

  /** An append that was reported as failed although its whole line is on disk. */
  datatype Pending = Pending(r: Record, stamp: Stamp)

  /** What became of an event: no line completed; a line completed, and acknowledged or reported as failed; a boot. */
  datatype Outcome = Quiet | Acked | Unacked | Booted

  /**
   A state with its history: the records whose line was completed, the landed failure outstanding since
   the last restart, whether none ever collided, the run of `ChainRun` that the events amount to, and
   what became of each event.
   */
  datatype Point = Point(node: Node, landed: seq<Record>, pending: Option<Pending>, clean: bool, seen: seq<R.Event>,
                         outs: seq<Outcome>)

  /** Boot: an unreadable WAL is fatal. */
  function Boot(env: Env, segs: seq<Bytes>, heads: seq<W.Checkpoint>): Option<Node>
    requires segs != []
  {
    var all := B.ReadSegments(env.json, segs);
    if all.AllErr? then None else Some(Node(Replayed(env.cfg, all.records, heads), B.Rebooted(env.json, segs)))
  }

  function SealedBy(env: Env, log: LogState, e: Event): Record
    requires e.Append?
  {
    Sealed(env.lib, env.cfg, log, e.r, e.stamp)
  }

  predicate Lands(env: Env, n: Node, e: Event) {
    e.Append? && B.Lands(env.json, env.limit, n.sink, SealedBy(env, n.log, e), e.fault)
  }

  predicate Acknowledged(env: Env, n: Node, e: Event)
    requires n.sink.segments != []
  {
    e.Append? && B.Appended(env.json, env.limit, n.sink, SealedBy(env, n.log, e), e.fault).1
  }

  /** An append: the log moves only if the WAL reports the record as written; otherwise it panics unchanged. */
  ghost function Written(env: Env, n: Node, e: Event): (m: Node)
    requires n.sink.segments != [] && e.Append?
    ensures m.sink.segments != []
  {
    Node(if Acknowledged(env, n, e) then Appended(env.lib, env.cfg, n.log, e.r, e.stamp) else n.log,
         B.Appended(env.json, env.limit, n.sink, SealedBy(env, n.log, e), e.fault).0)
  }

  /** Seen from the log, a restart over a landed failure is a crash right behind that record's line. */
  function RestartSeen(pending: Option<Pending>): R.Event {
    if pending.Some? then R.Crash(pending.value.r, pending.value.stamp) else R.Restart
  }

  function OutcomeOf(env: Env, n: Node, e: Event): Outcome
    requires n.sink.segments != []
  {
    if e.Restart? then Booted
    else if !Lands(env, n, e) then Quiet
    else if Acknowledged(env, n, e) then Acked else Unacked
  }

  ghost function Moved(env: Env, p: Point, e: Event): (q: Option<Point>)
    requires p.node.sink.segments != []
    ensures q.Some? ==> q.value.node.sink.segments != []
  {
    var n, outs := p.node, p.outs + [OutcomeOf(env, p.node, e)];
    match e
    case Append(r, stamp, _) =>
      var lands, done := Lands(env, n, e), Acknowledged(env, n, e);
      Some(Point(Written(env, n, e),
                 if lands then p.landed + [SealedBy(env, n.log, e)] else p.landed,
                 if lands && !done then Some(Pending(r, stamp)) else p.pending,
                 p.clean && !(lands && p.pending.Some?),
                 if done then p.seen + [R.Append(r, stamp)] else p.seen, outs))
    case Checkpoint =>
      Some(p.(node := n.(log := Checkpointed(env.lib, env.cfg, n.log)), seen := p.seen + [R.Checkpoint], outs := outs))
    case Verify =>
      Some(p.(node := n.(sink := n.sink.(segments := B.Scrubbed(env.json, n.sink.segments))), outs := outs))
    case Restart =>
      var m := Boot(env, n.sink.segments, n.log.diskHeads);
      if m.None? then None
      else Some(p.(node := m.value, pending := None, seen := p.seen + [RestartSeen(p.pending)], outs := outs))
  }

  ghost function After(env: Env, run: seq<Event>, i: nat): (p: Option<Point>)
    requires i <= |run|
    ensures p.Some? ==> p.value.node.sink.segments != []
  {
    if i == 0 then Some(Point(Node(Initial(env.cfg), B.Opened([])), [], None, true, [], []))
    else
      var p := After(env, run, i - 1);
      if p.None? then None else Moved(env, p.value, run[i - 1])
  }

  lemma AfterOne(env: Env, run: seq<Event>, l: nat, i: nat)
    requires i == l + 1 <= |run| && After(env, run, l).Some?
    ensures After(env, run, i) == Moved(env, After(env, run, l).value, run[l])
  {
  }

  // ---------------------------------------------------------------- the bytes

  /** The bytes hold exactly the completed lines, and behind a failed writer at most a torn one. */
  ghost predicate BytesHold(env: Env, p: Point, parts: seq<seq<Record>>, segs: seq<Bytes>, tail: Bytes) {
    && B.Held(env.json, p.node.sink, parts, segs, tail) && B.Flatten(parts) == p.landed
    && B.AllRendered(env.json, p.landed)
  }

  lemma AppendBytes(env: Env, p: Point, e: Event, parts: seq<seq<Record>>, segs: seq<Bytes>, tail: Bytes)
    returns (parts': seq<seq<Record>>, segs': seq<Bytes>, tail': Bytes)
    requires B.WellFormed(env.json) && BytesHold(env, p, parts, segs, tail) && e.Append?
    ensures BytesHold(env, Moved(env, p, e).value, parts', segs', tail')
  {
    var s := SealedBy(env, p.node.log, e);
    parts', segs', tail' := B.AppendHeld(env.json, env.limit, p.node.sink, s, e.fault, parts, segs, tail);
  }

  lemma ScrubBytes(env: Env, p: Point, e: Event, parts: seq<seq<Record>>, segs: seq<Bytes>, tail: Bytes)
    requires B.WellFormed(env.json) && BytesHold(env, p, parts, segs, tail) && (e.Verify? || e.Restart?)
    ensures Moved(env, p, e).Some? && BytesHold(env, Moved(env, p, e).value, parts, segs, [])
  {
    B.ScrubHeld(env.json, p.node.sink, parts, segs, tail);
  }

  lemma MovedBytes(env: Env, p: Point, e: Event, parts: seq<seq<Record>>, segs: seq<Bytes>, tail: Bytes)
    returns (parts': seq<seq<Record>>, segs': seq<Bytes>, tail': Bytes)
    requires B.WellFormed(env.json) && BytesHold(env, p, parts, segs, tail)
    ensures Moved(env, p, e).Some? && BytesHold(env, Moved(env, p, e).value, parts', segs', tail')
  {
    match e
    case Append(_, _, _) => parts', segs', tail' := AppendBytes(env, p, e, parts, segs, tail);
    case Checkpoint => parts', segs', tail' := parts, segs, tail;
    case _ =>
      ScrubBytes(env, p, e, parts, segs, tail);
      parts', segs', tail' := parts, segs, [];
  }

  lemma {:induction false} RunBytes(env: Env, run: seq<Event>, i: nat)
    returns (parts: seq<seq<Record>>, segs: seq<Bytes>, tail: Bytes)
    requires B.WellFormed(env.json) && i <= |run|
    ensures After(env, run, i).Some? && BytesHold(env, After(env, run, i).value, parts, segs, tail)
  {
    if i == 0 {
      parts, segs, tail := [[]], [[]], [];
      B.OpenedHeld(env.json);
    } else {
      var l := i - 1;
      parts, segs, tail := RunBytes(env, run, l);
      AfterOne(env, run, l, i);
      parts, segs, tail := MovedBytes(env, After(env, run, l).value, run[l], parts, segs, tail);
    }
  }

  /** Whatever fails, the log always boots, and its bytes read back as the completed records, as JSON reads them. */
  lemma BytesReadBack(env: Env, run: seq<Event>, i: nat)
    requires B.WellFormed(env.json) && i <= |run|
    ensures After(env, run, i).Some?
    ensures var p := After(env, run, i).value;
      var all := B.ReadSegments(env.json, p.node.sink.segments);
      all.AllOk? && all.records == B.Reread(env.json, p.landed) && B.AllRendered(env.json, p.landed)
  {
    var parts, segs, tail := RunBytes(env, run, i);
    B.ScrubHeld(env.json, After(env, run, i).value.node.sink, parts, segs, tail);
  }

  // ---------------------------------------------------------------- the log

  /** Equal but for the records kept in memory and on disk, on which nothing the log does depends. */
  ghost predicate Twin(st: LogState, st': LogState) {
    st' == st.(records := st'.records, disk := st'.disk)
  }

  lemma TwinSealed(lib: Library, cfg: Config, st: LogState, st': LogState, r: Record, stamp: Stamp)
    requires Twin(st, st')
    ensures Sealed(lib, cfg, st, r, stamp) == Sealed(lib, cfg, st', r, stamp)
  {
  }

  lemma TwinCheckpointed(lib: Library, cfg: Config, st: LogState, st': LogState)
    requires Twin(st, st')
    ensures Twin(Checkpointed(lib, cfg, st), Checkpointed(lib, cfg, st'))
    ensures Checkpointed(lib, cfg, st).disk == st.disk
  {
    assert NewHead(lib, cfg, st) == NewHead(lib, cfg, st');
  }

  lemma TwinAppended(lib: Library, cfg: Config, st: LogState, st': LogState, r: Record, stamp: Stamp)
    requires Twin(st, st') && cfg.durable
    ensures Twin(Appended(lib, cfg, st, r, stamp), Appended(lib, cfg, st', r, stamp))
    ensures Appended(lib, cfg, st, r, stamp).disk == st.disk + [Sealed(lib, cfg, st, r, stamp)]
  {
    TwinSealed(lib, cfg, st, st', r, stamp);
    var s := Sealed(lib, cfg, st, r, stamp);
    TwinSettled(lib, cfg, Committed(cfg, st, s), Committed(cfg, st', s));
  }

  lemma TwinSettled(lib: Library, cfg: Config, st: LogState, st': LogState)
    requires Twin(st, st')
    ensures Twin(Settled(lib, cfg, st), Settled(lib, cfg, st')) && Settled(lib, cfg, st).disk == st.disk
  {
    TwinCheckpointed(lib, cfg, st, st');
  }

  lemma TwinReplayed(cfg: Config, recs: seq<Record>, back: seq<Record>, heads: seq<W.Checkpoint>)
    requires SameIntegrities(recs, back)
    ensures Twin(Replayed(cfg, recs, heads), Replayed(cfg, back, heads))
  {
    SameHashes(recs, back);
    if recs != [] {
      assert SameIntegrity(recs[|recs| - 1], back[|back| - 1]);
    }
  }

  /** The log as the run seen leaves it. */
  ghost function Plain(env: Env, p: Point): LogState {
    R.After(env.lib, env.cfg, p.seen, |p.seen|)
  }

  /** The landed failure, sealed for the place the log still holds free. */
  ghost function Outstanding(env: Env, p: Point): seq<Record> {
    if p.pending.None? then []
    else [Sealed(env.lib, env.cfg, Plain(env, p), p.pending.value.r, p.pending.value.stamp)]
  }

  /** Without a collision the disk holds the log's history and the landed failure; with one, a number twice. */
  ghost predicate Tracked(env: Env, p: Point) {
    if p.clean then Twin(Plain(env, p), p.node.log) && p.landed == Plain(env, p).disk + Outstanding(env, p)
    else Gapped(p.landed)
  }

  ghost predicate Fit(env: Env) {
    env.cfg.durable && env.cfg.Ready() && Digests32(env.lib.sha) && B.WellFormed(env.json) && KeepsIntegrity(env.json)
  }

  lemma SeenOne(env: Env, seen: seq<R.Event>, e: R.Event)
    ensures R.After(env.lib, env.cfg, seen + [e], |seen + [e]|)
      == R.Step(env.lib, env.cfg, R.After(env.lib, env.cfg, seen, |seen|), e)
  {
    var more, n := seen + [e], |seen|;
    R.AfterPrefix(env.lib, env.cfg, seen, more, n);
    R.AfterOne(env.lib, env.cfg, more, n, n + 1);
  }

  lemma GapGrows(landed: seq<Record>, s: Record)
    requires Gapped(landed)
    ensures Gapped(landed + [s])
  {
    var i: nat :| i < |landed| && landed[i].seqNo != i + 1;
    assert (landed + [s])[i] == landed[i];
  }

  /** A line that lands over a landed failure repeats its number. */
  lemma CollisionGaps(env: Env, p: Point, e: Event)
    requires Fit(env) && Tracked(env, p) && p.clean && p.pending.Some? && |p.seen| < TWO63 && e.Append?
    ensures Gapped(p.landed + [SealedBy(env, p.node.log, e)])
  {
    var st, s := Plain(env, p), SealedBy(env, p.node.log, e);
    R.ReachableSound(env.lib, env.cfg, p.seen, |p.seen|);
    Sizes(env.lib, env.cfg, st);
    TwinSealed(env.lib, env.cfg, st, p.node.log, e.r, e.stamp);
    SealedIsIntact(env.lib, env.cfg, st, e.r, e.stamp);
    var more := p.landed + [s];
    assert more[|p.landed|] == s && |p.landed| == |st.disk| + 1;
  }

  lemma AppendTracked(env: Env, p: Point, e: Event)
    requires Fit(env) && Tracked(env, p) && |p.seen| < TWO63 && e.Append? && p.node.sink.segments != []
    ensures Tracked(env, Moved(env, p, e).value)
  {
    var n := p.node;
    if !Lands(env, n, e) {
      NotLanded(env, n, e);
    } else if !p.clean {
      GapGrows(p.landed, SealedBy(env, n.log, e));
    } else if p.pending.Some? {
      CollisionGaps(env, p, e);
    } else if Acknowledged(env, n, e) {
      AppendDone(env, p, e);
    } else {
      AppendLost(env, p, e);
    }
  }

  lemma NotLanded(env: Env, n: Node, e: Event)
    requires e.Append? && n.sink.segments != [] && !Lands(env, n, e)
    ensures !Acknowledged(env, n, e)
  {
    if Acknowledged(env, n, e) {
      B.DoneLands(env.json, env.limit, n.sink, SealedBy(env, n.log, e), e.fault);
    }
  }

  lemma AppendDone(env: Env, p: Point, e: Event)
    requires Fit(env) && Tracked(env, p) && p.clean && p.pending.None? && p.node.sink.segments != []
    requires e.Append? && Lands(env, p.node, e) && Acknowledged(env, p.node, e)
    ensures Tracked(env, Moved(env, p, e).value)
  {
    var st := Plain(env, p);
    SeenOne(env, p.seen, R.Append(e.r, e.stamp));
    TwinSealed(env.lib, env.cfg, st, p.node.log, e.r, e.stamp);
    TwinAppended(env.lib, env.cfg, st, p.node.log, e.r, e.stamp);
    assert st.disk + [] == st.disk;
  }

  lemma AppendLost(env: Env, p: Point, e: Event)
    requires Fit(env) && Tracked(env, p) && p.clean && p.pending.None? && p.node.sink.segments != []
    requires e.Append? && Lands(env, p.node, e) && !Acknowledged(env, p.node, e)
    ensures Tracked(env, Moved(env, p, e).value)
  {
    var st := Plain(env, p);
    TwinSealed(env.lib, env.cfg, st, p.node.log, e.r, e.stamp);
    assert st.disk + [] == st.disk;
  }

  lemma CheckpointTracked(env: Env, p: Point)
    requires Tracked(env, p) && p.node.sink.segments != []
    ensures Tracked(env, Moved(env, p, Checkpoint).value)
  {
    if p.clean {
      var st := Plain(env, p);
      SeenOne(env, p.seen, R.Checkpoint);
      TwinCheckpointed(env.lib, env.cfg, st, p.node.log);
      if p.pending.Some? {
        CheckpointSeals(env.lib, env.cfg, st, p.pending.value.r, p.pending.value.stamp);
      }
    }
  }

  /** A checkpoint does not move the place of the next record. */
  lemma CheckpointSeals(lib: Library, cfg: Config, st: LogState, r: Record, stamp: Stamp)
    ensures Sealed(lib, cfg, Checkpointed(lib, cfg, st), r, stamp) == Sealed(lib, cfg, st, r, stamp)
  {
  }

  /** Without a collision, what is on disk is an intact chain. */
  lemma LandedIntact(env: Env, p: Point)
    requires Fit(env) && Tracked(env, p) && p.clean && |p.seen| < TWO63
    ensures Sound(env.lib, env.cfg, Plain(env, p)) && RecordsIntact(env.lib, env.cfg.hmacKey, p.landed)
  {
    var st := Plain(env, p);
    R.ReachableSound(env.lib, env.cfg, p.seen, |p.seen|);
    ChainAspect(env.lib, env.cfg, st);
    if p.pending.Some? {
      var r, stamp := p.pending.value.r, p.pending.value.stamp;
      SealedIsIntact(env.lib, env.cfg, st, r, stamp);
      RecordsIntactSnoc(env.lib, env.cfg.hmacKey, st.disk, Sealed(env.lib, env.cfg, st, r, stamp));
    } else {
      assert st.disk + [] == st.disk;
    }
  }

  /** Seen from the log, the restart replays what is on disk. */
  lemma RestartReplays(env: Env, p: Point)
    requires Fit(env) && Tracked(env, p) && p.clean
    ensures R.Step(env.lib, env.cfg, Plain(env, p), RestartSeen(p.pending))
      == Replayed(env.cfg, p.landed, Plain(env, p).diskHeads)
  {
    var st := Plain(env, p);
    if p.pending.Some? {
      CrashReplays(env, st, p.pending.value.r, p.pending.value.stamp);
    } else {
      assert st.disk + [] == st.disk;
    }
  }

  lemma CrashReplays(env: Env, st: LogState, r: Record, stamp: Stamp)
    requires env.cfg.durable
    ensures R.Step(env.lib, env.cfg, st, R.Crash(r, stamp))
      == Replayed(env.cfg, st.disk + [Sealed(env.lib, env.cfg, st, r, stamp)], st.diskHeads)
  {
  }

  lemma RestartTracked(env: Env, p: Point)
    requires Fit(env) && Tracked(env, p) && |p.seen| < TWO63 && p.node.sink.segments != []
    requires B.AllRendered(env.json, p.landed)
    requires var all := B.ReadSegments(env.json, p.node.sink.segments);
      all.AllOk? && all.records == B.Reread(env.json, p.landed)
    ensures Moved(env, p, Restart).Some? && Tracked(env, Moved(env, p, Restart).value)
  {
    MovedRestart(env, p);
    if p.clean {
      assert SameIntegrities(p.landed, B.Reread(env.json, p.landed)) by {
        LandedIntact(env, p);
        IntactComesBack(env.lib, env.cfg.hmacKey, env.json, p.landed);
      }
      CleanRestart(env, p, Moved(env, p, Restart).value);
    }
  }

  lemma MovedRestart(env: Env, p: Point)
    requires p.node.sink.segments != []
    requires var all := B.ReadSegments(env.json, p.node.sink.segments);
      all.AllOk? && all.records == B.Reread(env.json, p.landed)
    ensures Moved(env, p, Restart).Some?
    ensures var q := Moved(env, p, Restart).value;
      && q.node.log == Replayed(env.cfg, B.Reread(env.json, p.landed), p.node.log.diskHeads)
      && q.pending.None? && q.clean == p.clean && q.landed == p.landed && q.seen == p.seen + [RestartSeen(p.pending)]
  {
  }

  lemma CleanRestart(env: Env, p: Point, q: Point)
    requires Fit(env) && Tracked(env, p) && p.clean && SameIntegrities(p.landed, B.Reread(env.json, p.landed))
    requires q.node.log == Replayed(env.cfg, B.Reread(env.json, p.landed), p.node.log.diskHeads)
    requires q.clean && q.pending.None? && q.landed == p.landed && q.seen == p.seen + [RestartSeen(p.pending)]
    ensures Tracked(env, q)
  {
    SeenOne(env, p.seen, RestartSeen(p.pending));
    RestartReplays(env, p);
    var heads := Plain(env, p).diskHeads;
    TwinReplayed(env.cfg, p.landed, B.Reread(env.json, p.landed), heads);
    ReplayedDisk(env.cfg, p.landed, heads);
  }

  lemma ReplayedDisk(cfg: Config, recs: seq<Record>, heads: seq<W.Checkpoint>)
    ensures Replayed(cfg, recs, heads).disk == recs && recs + [] == recs
  {
  }

  lemma {:induction false} RunTracked(env: Env, run: seq<Event>, i: nat)
    requires Fit(env) && i <= |run| < TWO63
    ensures After(env, run, i).Some? && Tracked(env, After(env, run, i).value) && |After(env, run, i).value.seen| <= i
  {
    if i > 0 {
      var l := i - 1;
      RunTracked(env, run, l);
      AfterOne(env, run, l, i);
      BytesReadBack(env, run, l);
      MovedTracked(env, After(env, run, l).value, run[l]);
    }
  }

  lemma MovedTracked(env: Env, p: Point, e: Event)
    requires Fit(env) && Tracked(env, p) && |p.seen| < TWO63 && p.node.sink.segments != []
    requires B.AllRendered(env.json, p.landed)
    requires var all := B.ReadSegments(env.json, p.node.sink.segments);
      all.AllOk? && all.records == B.Reread(env.json, p.landed)
    ensures Moved(env, p, e).Some? && Tracked(env, Moved(env, p, e).value)
    ensures |Moved(env, p, e).value.seen| <= |p.seen| + 1
  {
    match e
    case Append(_, _, _) => AppendTracked(env, p, e);
    case Checkpoint => CheckpointTracked(env, p);
    case Verify =>
    case Restart => RestartTracked(env, p);
  }

  // ---------------------------------------------------------------- collisions

  predicate Completed(out: Outcome) {
    out == Acked || out == Unacked
  }

  predicate BootBetween(outs: seq<Outcome>, a: nat, b: nat) {
    exists c: nat :: a < c < b && c < |outs| && outs[c] == Booted
  }

  /** A line is on disk whose append was reported as failed, and no restart has read it back since. */
  predicate Hanging(outs: seq<Outcome>, i: nat)
    requires i <= |outs|
  {
    exists a: nat :: a < i && outs[a] == Unacked && !BootBetween(outs, a, i)
  }

  /** No line ever lands while such a one is hanging. */
  predicate NoCollision(outs: seq<Outcome>, i: nat)
    requires i <= |outs|
  {
    forall b: nat :: b < i && Completed(outs[b]) ==> !Hanging(outs, b)
  }

  lemma BetweenSnoc(outs: seq<Outcome>, more: seq<Outcome>, out: Outcome, a: nat, b: nat)
    requires more == outs + [out] && a < b <= |outs|
    ensures BootBetween(more, a, b) <==> BootBetween(outs, a, b)
    ensures b == |outs| ==> (BootBetween(more, a, b + 1) <==> BootBetween(outs, a, b) || out == Booted)
  {
    assert more[|outs|] == out && forall c :: 0 <= c < |outs| ==> more[c] == outs[c];
  }

  lemma HangingSame(outs: seq<Outcome>, more: seq<Outcome>, out: Outcome, i: nat)
    requires more == outs + [out] && i <= |outs|
    ensures Hanging(more, i) <==> Hanging(outs, i)
  {
    forall a: nat | a < i ensures more[a] == outs[a] && (BootBetween(more, a, i) <==> BootBetween(outs, a, i)) {
      BetweenSnoc(outs, more, out, a, i);
    }
  }

  lemma HangingSnoc(outs: seq<Outcome>, more: seq<Outcome>, out: Outcome)
    requires more == outs + [out]
    ensures Hanging(more, |more|) <==> out == Unacked || (Hanging(outs, |outs|) && out != Booted)
  {
    var n := |outs|;
    if out == Unacked {
      assert more[n] == Unacked && !BootBetween(more, n, n + 1);
    }
    forall a: nat | a < n
      ensures more[a] == outs[a] && (BootBetween(more, a, n + 1) <==> BootBetween(outs, a, n) || out == Booted)
    {
      BetweenSnoc(outs, more, out, a, n);
    }
  }

  lemma NoCollisionSnoc(outs: seq<Outcome>, more: seq<Outcome>, out: Outcome)
    requires more == outs + [out]
    ensures NoCollision(more, |more|)
      <==> NoCollision(outs, |outs|) && !(Completed(out) && Hanging(outs, |outs|))
  {
    forall b: nat | b <= |outs| ensures Hanging(more, b) <==> Hanging(outs, b) {
      HangingSame(outs, more, out, b);
    }
    assert more[|outs|] == out && forall b :: 0 <= b < |outs| ==> more[b] == outs[b];
  }

  /** The bookkeeping is what it says. */
  ghost predicate Booked(p: Point) {
    && (p.pending.Some? <==> Hanging(p.outs, |p.outs|))
    && (p.clean <==> NoCollision(p.outs, |p.outs|))
  }

  lemma MovedOut(env: Env, p: Point, e: Event)
    requires p.node.sink.segments != [] && Moved(env, p, e).Some?
    ensures var q, out := Moved(env, p, e).value, OutcomeOf(env, p.node, e);
      && q.outs == p.outs + [out]
      && (q.pending.Some? <==> out == Unacked || (p.pending.Some? && out != Booted))
      && (q.clean <==> p.clean && !(Completed(out) && p.pending.Some?))
  {
  }

  lemma MovedBooked(env: Env, p: Point, e: Event)
    requires p.node.sink.segments != [] && Moved(env, p, e).Some? && Booked(p)
    ensures Booked(Moved(env, p, e).value)
  {
    var q, out := Moved(env, p, e).value, OutcomeOf(env, p.node, e);
    MovedOut(env, p, e);
    HangingSnoc(p.outs, q.outs, out);
    NoCollisionSnoc(p.outs, q.outs, out);
  }

  lemma {:induction false} RunBooked(env: Env, run: seq<Event>, i: nat)
    requires B.WellFormed(env.json) && i <= |run|
    ensures After(env, run, i).Some? && Booked(After(env, run, i).value) && |After(env, run, i).value.outs| == i
  {
    BytesReadBack(env, run, i);
    if i > 0 {
      var l := i - 1;
      RunBooked(env, run, l);
      AfterOne(env, run, l, i);
      MovedOut(env, After(env, run, l).value, run[l]);
      MovedBooked(env, After(env, run, l).value, run[l]);
    }
  }

  /** What became of event j, in the state it met. */
  ghost function Became(env: Env, run: seq<Event>, j: nat): Outcome
    requires j < |run|
  {
    if After(env, run, j).None? then Quiet else OutcomeOf(env, After(env, run, j).value.node, run[j])
  }

  ghost function Outcomes(env: Env, run: seq<Event>, i: nat): (outs: seq<Outcome>)
    requires i <= |run|
    ensures |outs| == i
  {
    if i == 0 then [] else Outcomes(env, run, i - 1) + [Became(env, run, i - 1)]
  }

  /** The outcomes kept are those of the events, each in its state. */
  lemma {:induction false} OutcomesKept(env: Env, run: seq<Event>, i: nat)
    requires B.WellFormed(env.json) && i <= |run|
    ensures After(env, run, i).Some? && After(env, run, i).value.outs == Outcomes(env, run, i)
  {
    RunBooked(env, run, i);
    if i > 0 {
      var l := i - 1;
      OutcomesKept(env, run, l);
      OutcomesOne(env, run, l, i);
      assert After(env, run, i).value.outs == After(env, run, l).value.outs + [Became(env, run, l)] by {
        AfterOne(env, run, l, i);
        MovedOut(env, After(env, run, l).value, run[l]);
      }
    }
  }

  lemma OutcomesOne(env: Env, run: seq<Event>, l: nat, i: nat)
    requires i == l + 1 <= |run|
    ensures Outcomes(env, run, i) == Outcomes(env, run, l) + [Became(env, run, l)]
  {
  }

  // ---------------------------------------------------------------- what self-verification reports

  /** SelfVerify over the bytes, as `Chain.Log.SelfVerify` states it for the records read. */
  ghost predicate Verifies(env: Env, n: Node) {
    var all, cfg := B.ReadSegments(env.json, n.sink.segments), env.cfg;
    && all.AllOk?
    && Intact(env.lib, cfg.hmacKey, cfg.signKey, all.records, n.log.checkpoints)
    && (cfg.witnessKey.Some? ==> AllWitnessed(n.log.checkpoints, cfg.witnessKey.value))
  }

  lemma HeadsOnDisk(env: Env, p: Point, j: nat)
    requires Fit(env) && Tracked(env, p) && p.clean && |p.seen| < TWO63 && j < |p.node.log.checkpoints|
    requires B.AllRendered(env.json, p.landed)
    ensures CheckpointIntact(env.lib, env.cfg.signKey, B.Reread(env.json, p.landed), p.node.log.checkpoints, j)
  {
    LandedIntact(env, p);
    IntactComesBack(env.lib, env.cfg.hmacKey, env.json, p.landed);
    HeadLanded(env, p, j);
    HeadComesBack(env.lib, env.cfg.signKey, p.landed, B.Reread(env.json, p.landed), p.node.log.checkpoints, j);
  }

  lemma HeadLanded(env: Env, p: Point, j: nat)
    requires Fit(env) && Tracked(env, p) && p.clean && |p.seen| < TWO63 && j < |p.node.log.checkpoints|
    ensures CheckpointIntact(env.lib, env.cfg.signKey, p.landed, p.node.log.checkpoints, j)
  {
    var st := Plain(env, p);
    R.ReachableSound(env.lib, env.cfg, p.seen, |p.seen|);
    assert Holds(env.lib, env.cfg, st, OfHeads);
    assert st.checkpoints == p.node.log.checkpoints;
    assert HeadSound(env.lib, env.cfg, History(env.cfg, st), st.checkpoints, j);
    if p.pending.Some? {
      HeadSoundSnoc(env.lib, env.cfg, st.disk, Outstanding(env, p)[0], st.checkpoints, j);
    } else {
      assert st.disk + [] == st.disk;
    }
  }

  lemma CleanVerifies(env: Env, p: Point)
    requires Fit(env) && Tracked(env, p) && p.clean && |p.seen| < TWO63 && p.node.sink.segments != []
    requires B.AllRendered(env.json, p.landed)
    requires var all := B.ReadSegments(env.json, p.node.sink.segments);
      all.AllOk? && all.records == B.Reread(env.json, p.landed)
    ensures Verifies(env, p.node) <==>
      && p.landed != [] && HashesKept(env.lib, env.json, p.landed)
      && (env.cfg.witnessKey.Some? ==> !R.HasEmptyHead(Plain(env, p).checkpoints))
  {
    var st, back := Plain(env, p), B.Reread(env.json, p.landed);
    LandedIntact(env, p);
    R.SoundHeads(env.lib, env.cfg, st);
    ReadBackExactly(env.lib, env.cfg.hmacKey, env.json, p.landed);
    forall j | 0 <= j < |p.node.log.checkpoints|
      ensures CheckpointIntact(env.lib, env.cfg.signKey, back, p.node.log.checkpoints, j)
    {
      HeadsOnDisk(env, p, j);
    }
  }

  /**
   The log verifies itself if and only if some line was completed, every completed record keeps its hash
   through JSON, no line landed over a landed failure before a restart, and, under a witness, no checkpoint
   was forced before the first record.
   */
  lemma DurableRunVerifies(env: Env, run: seq<Event>, i: nat)
    requires Fit(env) && i <= |run| < TWO63
    ensures After(env, run, i).Some?
    ensures var p := After(env, run, i).value;
      Verifies(env, p.node) <==>
        && p.landed != [] && HashesKept(env.lib, env.json, p.landed) && NoCollision(Outcomes(env, run, i), i)
        && (env.cfg.witnessKey.Some? ==> !R.HastyCheckpoint(env.cfg, p.seen, |p.seen|))
  {
    RunTracked(env, run, i);
    RunBooked(env, run, i);
    OutcomesKept(env, run, i);
    BytesReadBack(env, run, i);
    var p := After(env, run, i).value;
    if p.clean {
      CleanVerifies(env, p);
      R.EmptyHeadIffHasty(env.lib, env.cfg, p.seen, |p.seen|);
    } else {
      GapComesBack(env.lib, env.cfg.hmacKey, env.json, p.landed);
    }
  }

  /** Without a collision the log in memory is that of the run seen, and the disk at most one landed failure ahead. */
  lemma BytesRefine(env: Env, run: seq<Event>, i: nat)
    requires Fit(env) && i <= |run| < TWO63
    ensures After(env, run, i).Some?
    ensures var p := After(env, run, i).value;
      NoCollision(Outcomes(env, run, i), i) ==>
        && Sound(env.lib, env.cfg, Plain(env, p)) && Twin(Plain(env, p), p.node.log)
        && p.landed == Plain(env, p).disk + Outstanding(env, p)
        && (Outstanding(env, p) != [] <==> Hanging(Outcomes(env, run, i), i))
  {
    RunTracked(env, run, i);
    RunBooked(env, run, i);
    OutcomesKept(env, run, i);
    if After(env, run, i).value.clean {
      LandedIntact(env, After(env, run, i).value);
    }
  }

  // ---------------------------------------------------------------- failing runs

  /** The first event of a run on the empty log, an append whose line is completed. */
  lemma FirstLanding(env: Env, run: seq<Event>)
    requires Fit(env) && env.limit > 0 && run != [] && run[0].Append?
    requires run[0].fault.SyncFails? || run[0].fault.NoFault?
    requires env.json.Renders(SealedBy(env, Initial(env.cfg), run[0]))
    ensures After(env, run, 1).Some?
    ensures var p := After(env, run, 1).value;
      && p.landed == [SealedBy(env, Initial(env.cfg), run[0])] && !p.node.sink.broken
      && p.outs == [if run[0].fault.SyncFails? then Unacked else Acked]
      && (run[0].fault.SyncFails? ==> p.node.log == Initial(env.cfg))
  {
    AfterOne(env, run, 0, 1);
  }

  /** A sync that fails and one more append, without a restart: one number is twice on disk, and verification fails. */
  lemma UnsyncedThenAppended(env: Env, r: Record, stamp: Stamp, r': Record, stamp': Stamp)
    requires Fit(env) && env.limit > 0
    requires env.json.Renders(Sealed(env.lib, env.cfg, Initial(env.cfg), r, stamp))
    requires env.json.Renders(Sealed(env.lib, env.cfg, Initial(env.cfg), r', stamp'))
    ensures var run := [Append(r, stamp, B.SyncFails), Append(r', stamp', B.NoFault)];
      && After(env, run, 2).Some?
      && var p := After(env, run, 2).value;
      && p.outs == [Unacked, Acked] && !Verifies(env, p.node)
      && |p.landed| == 2 && p.landed[0].seqNo == p.landed[1].seqNo == 1
  {
    var run := [Append(r, stamp, B.SyncFails), Append(r', stamp', B.NoFault)];
    LandedTwice(env, run);
    assert !NoCollision(Outcomes(env, run, 2), 2) by {
      OutcomesKept(env, run, 2);
      Collided(After(env, run, 2).value.outs);
    }
    DurableRunVerifies(env, run, 2);
  }

  lemma LandedTwice(env: Env, run: seq<Event>)
    requires Fit(env) && env.limit > 0 && |run| == 2 && run[0].Append? && run[1].Append?
    requires run[0].fault.SyncFails? && run[1].fault.NoFault?
    requires env.json.Renders(SealedBy(env, Initial(env.cfg), run[0]))
    requires env.json.Renders(SealedBy(env, Initial(env.cfg), run[1]))
    ensures After(env, run, 2).Some?
    ensures var p := After(env, run, 2).value;
      p.outs == [Unacked, Acked] && |p.landed| == 2 && p.landed[0].seqNo == p.landed[1].seqNo == 1
  {
    FirstLanding(env, run);
    SecondLanding(env, After(env, run, 1).value, run[1]);
    AfterOne(env, run, 1, 2);
  }

  lemma SecondLanding(env: Env, p: Point, e: Event)
    requires p.node.sink.segments != [] && !p.node.sink.broken && p.node.log == Initial(env.cfg)
    requires e.Append? && e.fault.NoFault? && env.json.Renders(SealedBy(env, Initial(env.cfg), e))
    ensures Moved(env, p, e).Some?
    ensures var q := Moved(env, p, e).value;
      q.landed == p.landed + [SealedBy(env, Initial(env.cfg), e)] && q.outs == p.outs + [Acked]
  {
    assert Lands(env, p.node, e) && Acknowledged(env, p.node, e);
  }

  lemma Collided(outs: seq<Outcome>)
    requires outs == [Unacked, Acked]
    ensures !NoCollision(outs, 2)
  {
    assert outs[0] == Unacked && !BootBetween(outs, 0, 1) && Hanging(outs, 1) && Completed(outs[1]);
  }

  /** A record whose hash does not survive its JSON text: the log stops verifying at once, without any restart. */
  lemma RewrittenBreaks(env: Env, r: Record, stamp: Stamp)
    requires Fit(env) && env.limit > 0
    requires env.json.Renders(Sealed(env.lib, env.cfg, Initial(env.cfg), r, stamp))
    requires !HashKept(env.lib, env.json, Sealed(env.lib, env.cfg, Initial(env.cfg), r, stamp))
    ensures var run := [Append(r, stamp, B.NoFault)];
      After(env, run, 1).Some? && !Verifies(env, After(env, run, 1).value.node)
  {
    var run := [Append(r, stamp, B.NoFault)];
    FirstLanding(env, run);
    DurableRunVerifies(env, run, 1);
    assert !HashKept(env.lib, env.json, After(env, run, 1).value.landed[0]);
  }
}
