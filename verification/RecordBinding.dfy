/**
 What a record hash binds (internal/audit/canonical.go), in terms of the record's own
 fields: two records have the same canonical body exactly when every field is the same
 after normalisation.
 */
module RecordBinding {
  import opened Hashing
  import opened Text
  import opened Canonical

  // ---------------------------------------------------------------- the fields of two records

  /** Absent in both, or the same after normalisation. */
  predicate SameScalar(lib: Library, a: Bytes, b: Bytes) {
    (a == [] <==> b == []) && lib.Nfc(a) == lib.Nfc(b)
  }

  predicate SameIdentity(lib: Library, r: Record, r': Record) {
    && SameScalar(lib, r.eventID, r'.eventID) && r.seqNo == r'.seqNo && SameScalar(lib, r.nodeID, r'.nodeID)
    && SameScalar(lib, r.ts, r'.ts) && SameScalar(lib, r.eventType, r'.eventType)
    && SameScalar(lib, r.eventVer, r'.eventVer) && SameScalar(lib, r.actor.kind, r'.actor.kind)
    && SameScalar(lib, r.actor.idPsn, r'.actor.idPsn) && SameScalar(lib, r.tenantID, r'.tenantID)
  }

  predicate SameRequest(lib: Library, r: Record, r': Record) {
    && SameScalar(lib, r.sessionPsn, r'.sessionPsn) && SameScalar(lib, r.requestID, r'.requestID)
    && SameScalar(lib, r.correlation, r'.correlation) && SameScalar(lib, r.host, r'.host)
    && SameScalar(lib, r.routeClass, r'.routeClass) && SameScalar(lib, r.verdict, r'.verdict)
    && r.riskScore == r'.riskScore
  }

  predicate SameEvidence(lib: Library, r: Record, r': Record) {
    RuleText(lib, r.rules) == RuleText(lib, r'.rules) && SignalText(lib, r.topSignals) == SignalText(lib, r'.topSignals)
  }

  predicate SameEnforcement(lib: Library, r: Record, r': Record) {
    && SameScalar(lib, r.action, r'.action) && SameScalar(lib, r.mode, r'.mode)
    && SameScalar(lib, r.failMode, r'.failMode) && SameScalar(lib, r.failReason, r'.failReason)
    && r.latencyUS == r'.latencyUS
  }

  predicate SameUpstream(lib: Library, u: Option<Upstream>, u': Option<Upstream>) {
    && (u.Some? <==> u'.Some?)
    && (u.Some? && u'.Some? ==>
          u.value.status == u'.value.status && SameScalar(lib, u.value.errorClass, u'.value.errorClass))
  }

  /** A missing fingerprint is rendered like one without any part. */
  function Fingerprint(tls: Option<TlsPsn>): TlsPsn {
    if tls.None? then TlsPsn([], [], []) else tls.value
  }

  predicate SameTls(lib: Library, t: Option<TlsPsn>, t': Option<TlsPsn>) {
    && SameScalar(lib, Fingerprint(t).ja4, Fingerprint(t').ja4)
    && SameScalar(lib, Fingerprint(t).h2fp, Fingerprint(t').h2fp)
    && SameScalar(lib, Fingerprint(t).sni, Fingerprint(t').sni)
  }

  predicate SameVersions(lib: Library, r: Record, r': Record) {
    && SameScalar(lib, r.configVer, r'.configVer) && SameScalar(lib, r.keyID, r'.keyID)
    && SameScalar(lib, r.dataClass, r'.dataClass)
  }

  /** The groups of the frozen order. */
  datatype Group = Identity | Request | Evidence | Enforcement | OfUpstream | OfTls | Versions

  predicate SameGroup(lib: Library, r: Record, r': Record, group: Group) {
    match group
    case Identity => SameIdentity(lib, r, r')
    case Request => SameRequest(lib, r, r')
    case Evidence => SameEvidence(lib, r, r')
    case Enforcement => SameEnforcement(lib, r, r')
    case OfUpstream => SameUpstream(lib, r.upstream, r'.upstream)
    case OfTls => SameTls(lib, r.tls, r'.tls)
    case Versions => SameVersions(lib, r, r')
  }

  /** Every field of the record but its integrity fields is the same in both. */
  ghost predicate SameFields(lib: Library, r: Record, r': Record) {
    forall group :: SameGroup(lib, r, r', group)
  }

  lemma SameButTls(lib: Library, r: Record, tls: Option<TlsPsn>)
    ensures SameFields(lib, r, r.(tls := tls)) <==> SameTls(lib, r.tls, tls)
  {
    var r' := r.(tls := tls);
    assert SameGroup(lib, r, r', OfTls) <==> SameTls(lib, r.tls, tls);
  }

  lemma SameButRules(lib: Library, r: Record, rules: seq<Bytes>)
    ensures SameFields(lib, r, r.(rules := rules)) <==> RuleText(lib, r.rules) == RuleText(lib, rules)
  {
    var r' := r.(rules := rules);
    assert SameGroup(lib, r, r', Evidence) <==> RuleText(lib, r.rules) == RuleText(lib, rules);
  }

  // ---------------------------------------------------------------- field names are told apart

  /** Length, first and last letter tell all names apart. */
  function KeyAt(n: nat, first: int, last: int): Key {
    if n == 2 then TS
    else if n == 3 then Seq
    else if n == 4 then Host
    else if n == 6 then KeyID
    else if n == 7 then
      if first == 110 then NodeID else if first == 118 then Verdict else if last == 52 then TlsJA4 else TlsSNI
    else if n == 8 then if first == 101 then EventID else if first == 97 then ActorID else TlsH2FP
    else if n == 9 then if first == 116 then TenantID else FailMode
    else if n == 10 then
      if first == 101 then EventType else if first == 97 then ActorKind
      else if first == 114 then if last == 100 then RequestID else RiskScore
      else if first == 108 then LatencyUS else DataClass
    else if n == 11 then if first == 114 then RouteClass else if first == 116 then TopSignals else FailReason
    else if n == 13 then EventVersion
    else if n == 14 then if last == 100 then CorrelationID else ConfigVersion
    else if n == 15 then if first == 116 then TriggeredRules else UpstreamStatus
    else if n == 16 then EnforcementMode
    else if n == 17 then SessionPseudonym
    else if n == 18 then EnforcementAction
    else UpstreamErrorClass
  }

  function RankOf(name: Bytes): nat {
    if name == [] then 0 else KeyAt(|name|, name[0], name[|name| - 1])
  }

  predicate Tells(name: string, key: Key) {
    name != "" && Low(name[0]) && Low(name[|name| - 1]) && KeyAt(|name|, name[0] as int, name[|name| - 1] as int) == key
  }

  predicate Low(c: char) {
    c as int < 128
  }

  lemma TellsFirst(key: Key)
    requires 1 <= key <= 9
    ensures Tells(Name(key), key)
  {
  }

  lemma TellsMiddle(key: Key)
    requires 10 <= key <= 18
    ensures Tells(Name(key), key)
  {
  }

  lemma TellsLast(key: Key)
    requires 19 <= key <= 31
    ensures Tells(Name(key), key)
  {
  }

  lemma NameTells(key: Key)
    ensures Tells(Name(key), key)
  {
    if key <= 9 {
      TellsFirst(key);
    } else if key <= 18 {
      TellsMiddle(key);
    } else {
      TellsLast(key);
    }
  }

  lemma LowKept(name: string, i: nat)
    requires i < |name| && Low(name[i])
    ensures Ascii(name)[i] == name[i] as int
  {
    AsciiAt(name, i);
  }

  lemma TellsRank(name: string, key: Key)
    requires Tells(name, key)
    ensures RankOf(Ascii(name)) == key
  {
    LowKept(name, 0);
    LowKept(name, |name| - 1);
  }

  lemma NameRanks(key: Key)
    ensures RankOf(Ascii(Name(key))) == key
  {
    NameTells(key);
    TellsRank(Name(key), key);
  }

  // ---------------------------------------------------------------- the frames fix the fields

  /** The first n fields of the frozen order. */
  ghost predicate Ordered(fs: seq<Slot>, n: nat) {
    |fs| == n && forall i :: 0 <= i < n ==> fs[i].key == i + 1
  }

  lemma OrderedFront(fs: seq<Slot>, n: nat)
    requires Ordered(fs, n) && n > 0
    ensures Ordered(fs[..n - 1], n - 1) && fs[n - 1].key == n
  {
  }

  ghost predicate RanksUpTo(frames: seq<Frame>, n: nat) {
    forall i :: 0 <= i < |frames| ==> RankOf(frames[i].key) <= n
  }

  lemma FramesSnoc(init: seq<Slot>, slot: Slot)
    ensures Frames(init + [slot]) == Frames(init) + FrameOf(slot)
  {
    FramesAppend(init, [slot]);
    assert Frames([slot]) == FrameOf(slot) + Frames([]);
  }

  lemma {:induction false} FramesRanked(fs: seq<Slot>, n: nat)
    requires Ordered(fs, n)
    ensures RanksUpTo(Frames(fs), n)
  {
    if n > 0 {
      var init, slot := fs[..n - 1], fs[n - 1];
      assert fs == init + [slot];
      OrderedFront(fs, n);
      FramesRanked(init, n - 1);
      FramesSnoc(init, slot);
      NameRanks(slot.key);
    }
  }

  lemma SnocSame<T>(a: seq<T>, b: seq<T>, x: T, y: T)
    ensures a + [x] == b + [y] <==> a == b && x == y
  {
    if a + [x] == b + [y] {
      assert |a| == |b|;
      assert a == (a + [x])[..|a|] && b == (b + [y])[..|b|];
      assert x == (a + [x])[|a|] && y == (b + [y])[|b|];
    }
  }

  /** A frame that comes later in the order is none of the earlier ones. */
  lemma LaterFrame(a: seq<Frame>, b: seq<Frame>, f: Frame, n: nat)
    requires RanksUpTo(b, n) && RankOf(f.key) > n
    ensures a + [f] != b
  {
    assert (a + [f])[|a|] == f;
  }

  /** One slot present and the other absent frame differently. */
  lemma PresenceShows(a: seq<Slot>, b: seq<Slot>, s: Slot, l: nat)
    requires Ordered(b, l) && s.key == l + 1 && s.value.Some?
    ensures Frames(a) + FrameOf(s) != Frames(b)
  {
    NameRanks(s.key);
    FramesRanked(b, l);
    LaterFrame(Frames(a), Frames(b), FrameOf(s)[0], l);
  }

  lemma LastSlotSame(a: seq<Slot>, b: seq<Slot>, s: Slot, s': Slot, l: nat)
    requires Ordered(a, l) && Ordered(b, l) && s.key == s'.key == l + 1
    requires Frames(a) + FrameOf(s) == Frames(b) + FrameOf(s')
    ensures Frames(a) == Frames(b) && s == s'
  {
    NoFrame(Frames(a), s);
    NoFrame(Frames(b), s');
    if s.value.None? && s'.value.Some? {
      PresenceShows(b, a, s', l);
    } else if s.value.Some? && s'.value.None? {
      PresenceShows(a, b, s, l);
    } else if s.value.Some? {
      SnocSame(Frames(a), Frames(b), FrameOf(s)[0], FrameOf(s')[0]);
    }
  }

  lemma NoFrame(frames: seq<Frame>, s: Slot)
    ensures s.value.None? ==> frames + FrameOf(s) == frames
    ensures s.value.Some? ==> |FrameOf(s)| == 1 && FrameOf(s) == [FrameOf(s)[0]]
  {
  }

  lemma LastSlotPeeled(a: seq<Slot>, b: seq<Slot>, s: Slot, s': Slot, l: nat)
    requires Ordered(a, l) && Ordered(b, l) && s.key == s'.key == l + 1
    requires Frames(a + [s]) == Frames(b + [s'])
    ensures Frames(a) == Frames(b) && s == s'
  {
    FramesSnoc(a, s);
    FramesSnoc(b, s');
    LastSlotSame(a, b, s, s', l);
  }

  /** What is framed determines every field, present or absent. */
  lemma {:induction false} FramesInjective(a: seq<Slot>, b: seq<Slot>, n: nat)
    requires Ordered(a, n) && Ordered(b, n) && Frames(a) == Frames(b)
    ensures a == b
  {
    if n > 0 {
      var i, i', s, s' := a[..n - 1], b[..n - 1], a[n - 1], b[n - 1];
      assert a == i + [s] && b == i' + [s'];
      OrderedFront(a, n);
      OrderedFront(b, n);
      LastSlotPeeled(i, i', s, s', n - 1);
      FramesInjective(i, i', n - 1);
    }
  }

  // ---------------------------------------------------------------- field by field

  lemma ScalarSnoc(lib: Library, fs: seq<Slot>, fs': seq<Slot>, k: Key, v: Bytes, v': Bytes)
    ensures fs + [Scalar(lib, k, v)] == fs' + [Scalar(lib, k, v')] <==> fs == fs' && SameScalar(lib, v, v')
  {
    SnocSame(fs, fs', Scalar(lib, k, v), Scalar(lib, k, v'));
  }

  lemma IntegerSnoc(fs: seq<Slot>, fs': seq<Slot>, k: Key, v: int, v': int)
    ensures fs + [Integer(k, v)] == fs' + [Integer(k, v')] <==> fs == fs' && v == v'
  {
    SnocSame(fs, fs', Integer(k, v), Integer(k, v'));
    if Decimal(v) == Decimal(v') {
      DecimalInjective(v, v');
    }
  }

  lemma IdentitySame(lib: Library, r: Record, r': Record, fs: seq<Slot>, fs': seq<Slot>)
    ensures IdentityFields(lib, r, fs) == IdentityFields(lib, r', fs') <==> fs == fs' && SameIdentity(lib, r, r')
  {
    ScalarSnoc(lib, fs, fs', EventID, r.eventID, r'.eventID);
    var f1, f1' := fs + [Scalar(lib, EventID, r.eventID)], fs' + [Scalar(lib, EventID, r'.eventID)];
    IntegerSnoc(f1, f1', Seq, AsInt64(r.seqNo), AsInt64(r'.seqNo));
    var f2, f2' := f1 + [Integer(Seq, AsInt64(r.seqNo))], f1' + [Integer(Seq, AsInt64(r'.seqNo))];
    ScalarSnoc(lib, f2, f2', NodeID, r.nodeID, r'.nodeID);
    var f3, f3' := f2 + [Scalar(lib, NodeID, r.nodeID)], f2' + [Scalar(lib, NodeID, r'.nodeID)];
    ScalarSnoc(lib, f3, f3', TS, r.ts, r'.ts);
    var f4, f4' := f3 + [Scalar(lib, TS, r.ts)], f3' + [Scalar(lib, TS, r'.ts)];
    ScalarSnoc(lib, f4, f4', EventType, r.eventType, r'.eventType);
    var f5, f5' := f4 + [Scalar(lib, EventType, r.eventType)], f4' + [Scalar(lib, EventType, r'.eventType)];
    ScalarSnoc(lib, f5, f5', EventVersion, r.eventVer, r'.eventVer);
    var f6, f6' := f5 + [Scalar(lib, EventVersion, r.eventVer)], f5' + [Scalar(lib, EventVersion, r'.eventVer)];
    ScalarSnoc(lib, f6, f6', ActorKind, r.actor.kind, r'.actor.kind);
    var f7, f7' := f6 + [Scalar(lib, ActorKind, r.actor.kind)], f6' + [Scalar(lib, ActorKind, r'.actor.kind)];
    ScalarSnoc(lib, f7, f7', ActorID, r.actor.idPsn, r'.actor.idPsn);
    var f8, f8' := f7 + [Scalar(lib, ActorID, r.actor.idPsn)], f7' + [Scalar(lib, ActorID, r'.actor.idPsn)];
    ScalarSnoc(lib, f8, f8', TenantID, r.tenantID, r'.tenantID);
  }

  lemma RequestSame(lib: Library, r: Record, r': Record, fs: seq<Slot>, fs': seq<Slot>)
    ensures RequestFields(lib, r, fs) == RequestFields(lib, r', fs') <==> fs == fs' && SameRequest(lib, r, r')
  {
    ScalarSnoc(lib, fs, fs', SessionPseudonym, r.sessionPsn, r'.sessionPsn);
    var f1 := fs + [Scalar(lib, SessionPseudonym, r.sessionPsn)];
    var f1' := fs' + [Scalar(lib, SessionPseudonym, r'.sessionPsn)];
    ScalarSnoc(lib, f1, f1', RequestID, r.requestID, r'.requestID);
    var f2, f2' := f1 + [Scalar(lib, RequestID, r.requestID)], f1' + [Scalar(lib, RequestID, r'.requestID)];
    ScalarSnoc(lib, f2, f2', CorrelationID, r.correlation, r'.correlation);
    var f3, f3' := f2 + [Scalar(lib, CorrelationID, r.correlation)], f2' + [Scalar(lib, CorrelationID, r'.correlation)];
    ScalarSnoc(lib, f3, f3', Host, r.host, r'.host);
    var f4, f4' := f3 + [Scalar(lib, Host, r.host)], f3' + [Scalar(lib, Host, r'.host)];
    ScalarSnoc(lib, f4, f4', RouteClass, r.routeClass, r'.routeClass);
    var f5, f5' := f4 + [Scalar(lib, RouteClass, r.routeClass)], f4' + [Scalar(lib, RouteClass, r'.routeClass)];
    ScalarSnoc(lib, f5, f5', Verdict, r.verdict, r'.verdict);
    var f6, f6' := f5 + [Scalar(lib, Verdict, r.verdict)], f5' + [Scalar(lib, Verdict, r'.verdict)];
    IntegerSnoc(f6, f6', RiskScore, r.riskScore, r'.riskScore);
  }

  lemma EnforcementSame(lib: Library, r: Record, r': Record, fs: seq<Slot>, fs': seq<Slot>)
    ensures EnforcementFields(lib, r, fs) == EnforcementFields(lib, r', fs')
      <==> fs == fs' && SameEnforcement(lib, r, r')
  {
    ScalarSnoc(lib, fs, fs', EnforcementAction, r.action, r'.action);
    var f1, f1' := fs + [Scalar(lib, EnforcementAction, r.action)], fs' + [Scalar(lib, EnforcementAction, r'.action)];
    ScalarSnoc(lib, f1, f1', EnforcementMode, r.mode, r'.mode);
    var f2, f2' := f1 + [Scalar(lib, EnforcementMode, r.mode)], f1' + [Scalar(lib, EnforcementMode, r'.mode)];
    ScalarSnoc(lib, f2, f2', FailMode, r.failMode, r'.failMode);
    var f3, f3' := f2 + [Scalar(lib, FailMode, r.failMode)], f2' + [Scalar(lib, FailMode, r'.failMode)];
    ScalarSnoc(lib, f3, f3', FailReason, r.failReason, r'.failReason);
    var f4, f4' := f3 + [Scalar(lib, FailReason, r.failReason)], f3' + [Scalar(lib, FailReason, r'.failReason)];
    IntegerSnoc(f4, f4', LatencyUS, r.latencyUS, r'.latencyUS);
  }

  lemma VersionSame(lib: Library, r: Record, r': Record, fs: seq<Slot>, fs': seq<Slot>)
    ensures VersionFields(lib, r, fs) == VersionFields(lib, r', fs') <==> fs == fs' && SameVersions(lib, r, r')
  {
    ScalarSnoc(lib, fs, fs', ConfigVersion, r.configVer, r'.configVer);
    var f1, f1' := fs + [Scalar(lib, ConfigVersion, r.configVer)], fs' + [Scalar(lib, ConfigVersion, r'.configVer)];
    ScalarSnoc(lib, f1, f1', KeyID, r.keyID, r'.keyID);
    var f2, f2' := f1 + [Scalar(lib, KeyID, r.keyID)], f1' + [Scalar(lib, KeyID, r'.keyID)];
    ScalarSnoc(lib, f2, f2', DataClass, r.dataClass, r'.dataClass);
  }

  lemma EvidenceSame(lib: Library, r: Record, r': Record, fs: seq<Slot>, fs': seq<Slot>)
    ensures EvidenceFields(lib, r.rules, r.topSignals, fs) == EvidenceFields(lib, r'.rules, r'.topSignals, fs')
      <==> fs == fs' && SameEvidence(lib, r, r')
  {
    var t, t' := RuleText(lib, r.rules), RuleText(lib, r'.rules);
    var u, u' := SignalText(lib, r.topSignals), SignalText(lib, r'.topSignals);
    TextSnoc(fs, fs', TriggeredRules, t, t');
    var f1, f1' := fs + [Slot(TriggeredRules, Some(Bracketed(t)))], fs' + [Slot(TriggeredRules, Some(Bracketed(t')))];
    TextSnoc(f1, f1', TopSignals, u, u');
  }

  lemma TextSnoc(fs: seq<Slot>, fs': seq<Slot>, k: Key, b: Bytes, b': Bytes)
    ensures fs + [Slot(k, Some(Bracketed(b)))] == fs' + [Slot(k, Some(Bracketed(b')))] <==> fs == fs' && b == b'
  {
    SnocSame(fs, fs', Slot(k, Some(Bracketed(b))), Slot(k, Some(Bracketed(b'))));
    assert Bracketed(b)[1..|b| + 1] == b && Bracketed(b')[1..|b'| + 1] == b';
  }

  /** The status and the error class of an upstream, or neither. */
  function StatusSlot(u: Option<Upstream>): Slot {
    if u.None? then Slot(UpstreamStatus, None) else Integer(UpstreamStatus, u.value.status)
  }

  function FailureOf(u: Option<Upstream>): Bytes {
    if u.None? then [] else u.value.errorClass
  }

  lemma UpstreamWhole(lib: Library, u: Option<Upstream>, fs: seq<Slot>)
    ensures UpstreamFields(lib, u, fs) == fs + [StatusSlot(u)] + [Scalar(lib, UpstreamErrorClass, FailureOf(u))]
  {
  }

  lemma StatusSame(u: Option<Upstream>, u': Option<Upstream>)
    ensures StatusSlot(u) == StatusSlot(u') <==>
      (u.Some? <==> u'.Some?) && (u.Some? && u'.Some? ==> u.value.status == u'.value.status)
  {
    if u.Some? && u'.Some? && StatusSlot(u) == StatusSlot(u') {
      DecimalInjective(u.value.status, u'.value.status);
    }
  }

  lemma UpstreamSame(lib: Library, u: Option<Upstream>, u': Option<Upstream>, fs: seq<Slot>, fs': seq<Slot>)
    ensures UpstreamFields(lib, u, fs) == UpstreamFields(lib, u', fs') <==> fs == fs' && SameUpstream(lib, u, u')
  {
    UpstreamWhole(lib, u, fs);
    UpstreamWhole(lib, u', fs');
    SnocSame(fs, fs', StatusSlot(u), StatusSlot(u'));
    StatusSame(u, u');
    var f1, f1' := fs + [StatusSlot(u)], fs' + [StatusSlot(u')];
    ScalarSnoc(lib, f1, f1', UpstreamErrorClass, FailureOf(u), FailureOf(u'));
  }

  lemma TlsWhole(lib: Library, t: Option<TlsPsn>, fs: seq<Slot>)
    ensures var p := Fingerprint(t);
      TlsFields(lib, t, fs) ==
        fs + [Scalar(lib, TlsJA4, p.ja4)] + [Scalar(lib, TlsH2FP, p.h2fp)] + [Scalar(lib, TlsSNI, p.sni)]
  {
  }

  lemma TlsSame(lib: Library, t: Option<TlsPsn>, t': Option<TlsPsn>, fs: seq<Slot>, fs': seq<Slot>)
    ensures TlsFields(lib, t, fs) == TlsFields(lib, t', fs') <==> fs == fs' && SameTls(lib, t, t')
  {
    TlsWhole(lib, t, fs);
    TlsWhole(lib, t', fs');
    var p, p' := Fingerprint(t), Fingerprint(t');
    ScalarSnoc(lib, fs, fs', TlsJA4, p.ja4, p'.ja4);
    var f1, f1' := fs + [Scalar(lib, TlsJA4, p.ja4)], fs' + [Scalar(lib, TlsJA4, p'.ja4)];
    ScalarSnoc(lib, f1, f1', TlsH2FP, p.h2fp, p'.h2fp);
    var f2, f2' := f1 + [Scalar(lib, TlsH2FP, p.h2fp)], f1' + [Scalar(lib, TlsH2FP, p'.h2fp)];
    ScalarSnoc(lib, f2, f2', TlsSNI, p.sni, p'.sni);
  }

  // ---------------------------------------------------------------- every record renders in the frozen order

  lemma IdentityOrdered(lib: Library, r: Record)
    ensures Ordered(IdentityFields(lib, r, []), 9)
  {
  }

  lemma RequestOrdered(lib: Library, r: Record, fs: seq<Slot>)
    requires Ordered(fs, 9)
    ensures Ordered(RequestFields(lib, r, fs), 16)
  {
  }

  lemma EvidenceOrdered(lib: Library, r: Record, fs: seq<Slot>)
    requires Ordered(fs, 16)
    ensures Ordered(EvidenceFields(lib, r.rules, r.topSignals, fs), 18)
  {
  }

  lemma EnforcementOrdered(lib: Library, r: Record, fs: seq<Slot>)
    requires Ordered(fs, 18)
    ensures Ordered(EnforcementFields(lib, r, fs), 23)
  {
  }

  lemma UpstreamOrdered(lib: Library, u: Option<Upstream>, fs: seq<Slot>)
    requires Ordered(fs, 23)
    ensures Ordered(UpstreamFields(lib, u, fs), 25)
  {
  }

  lemma TlsOrdered(lib: Library, t: Option<TlsPsn>, fs: seq<Slot>)
    requires Ordered(fs, 25)
    ensures Ordered(TlsFields(lib, t, fs), 28)
  {
  }

  lemma VersionOrdered(lib: Library, r: Record, fs: seq<Slot>)
    requires Ordered(fs, 28)
    ensures Ordered(VersionFields(lib, r, fs), 31)
  {
  }

  lemma EarlyOrdered(lib: Library, r: Record)
    ensures Ordered(Early(lib, r), 18)
  {
    IdentityOrdered(lib, r);
    RequestOrdered(lib, r, IdentityFields(lib, r, []));
    EvidenceOrdered(lib, r, RequestFields(lib, r, IdentityFields(lib, r, [])));
  }

  lemma LateOrdered(lib: Library, r: Record, fs: seq<Slot>)
    requires Ordered(fs, 18)
    ensures Ordered(Late(lib, r, fs), 31)
  {
    var f4 := EnforcementFields(lib, r, fs);
    var f5 := UpstreamFields(lib, r.upstream, f4);
    EnforcementOrdered(lib, r, fs);
    UpstreamOrdered(lib, r.upstream, f4);
    TlsOrdered(lib, r.tls, f5);
    VersionOrdered(lib, r, TlsFields(lib, r.tls, f5));
  }

  lemma RenderedOrdered(lib: Library, r: Record)
    ensures Ordered(Rendered(lib, r), 31)
  {
    RenderedIs(lib, r);
    EarlyOrdered(lib, r);
    LateOrdered(lib, r, Early(lib, r));
  }

  // ---------------------------------------------------------------- the hash binds the fields

  lemma EarlySame(lib: Library, r: Record, r': Record)
    ensures Early(lib, r) == Early(lib, r')
      <==> SameIdentity(lib, r, r') && SameRequest(lib, r, r') && SameEvidence(lib, r, r')
  {
    var f1, f1' := IdentityFields(lib, r, []), IdentityFields(lib, r', []);
    IdentitySame(lib, r, r', [], []);
    RequestSame(lib, r, r', f1, f1');
    EvidenceSame(lib, r, r', RequestFields(lib, r, f1), RequestFields(lib, r', f1'));
  }

  predicate SameLate(lib: Library, r: Record, r': Record) {
    && SameEnforcement(lib, r, r') && SameUpstream(lib, r.upstream, r'.upstream) && SameTls(lib, r.tls, r'.tls)
    && SameVersions(lib, r, r')
  }

  lemma LateSame(lib: Library, r: Record, r': Record, fs: seq<Slot>, fs': seq<Slot>)
    ensures Late(lib, r, fs) == Late(lib, r', fs')
      <==> fs == fs' && SameLate(lib, r, r')
  {
    var f4, f4' := EnforcementFields(lib, r, fs), EnforcementFields(lib, r', fs');
    EnforcementSame(lib, r, r', fs, fs');
    var f5, f5' := UpstreamFields(lib, r.upstream, f4), UpstreamFields(lib, r'.upstream, f4');
    UpstreamSame(lib, r.upstream, r'.upstream, f4, f4');
    TlsSame(lib, r.tls, r'.tls, f5, f5');
    VersionSame(lib, r, r', TlsFields(lib, r.tls, f5), TlsFields(lib, r'.tls, f5'));
  }

  lemma EarlyGroups(lib: Library, r: Record, r': Record)
    requires SameFields(lib, r, r')
    ensures SameIdentity(lib, r, r') && SameRequest(lib, r, r') && SameEvidence(lib, r, r')
  {
    assert SameGroup(lib, r, r', Identity) && SameGroup(lib, r, r', Request) && SameGroup(lib, r, r', Evidence);
  }

  lemma LateGroups(lib: Library, r: Record, r': Record)
    requires SameFields(lib, r, r')
    ensures SameLate(lib, r, r')
  {
    assert SameGroup(lib, r, r', Enforcement) && SameGroup(lib, r, r', OfUpstream) && SameGroup(lib, r, r', OfTls);
    assert SameGroup(lib, r, r', Versions);
  }

  lemma RenderedSame(lib: Library, r: Record, r': Record)
    ensures Rendered(lib, r) == Rendered(lib, r') <==> SameFields(lib, r, r')
  {
    RenderedIs(lib, r);
    RenderedIs(lib, r');
    EarlySame(lib, r, r');
    LateSame(lib, r, r', Early(lib, r), Early(lib, r'));
    if SameFields(lib, r, r') {
      EarlyGroups(lib, r, r');
      LateGroups(lib, r, r');
    }
  }

  /** The bytes framed are the same exactly when every field is. */
  lemma FramedExactly(lib: Library, r: Record, r': Record)
    ensures Frames(Rendered(lib, r)) == Frames(Rendered(lib, r')) <==> SameFields(lib, r, r')
  {
    RenderedSame(lib, r, r');
    RenderedOrdered(lib, r);
    RenderedOrdered(lib, r');
    if Frames(Rendered(lib, r)) == Frames(Rendered(lib, r')) {
      FramesInjective(Rendered(lib, r), Rendered(lib, r'), 31);
    }
  }

  /** Equal hashes after equally long heads mean the same fields and the same previous hash, and the other way. */
  lemma HashBinds(lib: Library, inputs: set<Bytes>, r: Record, r': Record, prev: Bytes, prev': Bytes)
    requires CollisionFree(lib.sha, inputs)
    requires RecordInput(lib, r, prev) in inputs && RecordInput(lib, r', prev') in inputs
    requires ShortFields(lib, r) && ShortFields(lib, r')
    requires |prev| == |prev'|
    ensures RecordHash(lib, r, prev) == RecordHash(lib, r', prev') <==> SameFields(lib, r, r') && prev == prev'
  {
    FramedExactly(lib, r, r');
    if RecordHash(lib, r, prev) == RecordHash(lib, r', prev') {
      HashFixesFrames(lib, inputs, r, r', prev, prev');
    }
  }

  /** A present fingerprint without any part is hashed like a missing one, any other is not. */
  lemma TlsPresenceExactly(lib: Library, inputs: set<Bytes>, r: Record, prev: Bytes)
    requires CollisionFree(lib.sha, inputs) && r.tls.Some?
    requires RecordInput(lib, r, prev) in inputs && RecordInput(lib, r.(tls := None), prev) in inputs
    requires ShortFields(lib, r) && ShortFields(lib, r.(tls := None))
    ensures RecordHash(lib, r, prev) == RecordHash(lib, r.(tls := None), prev) <==> r.tls.value == TlsPsn([], [], [])
  {
    HashBinds(lib, inputs, r, r.(tls := None), prev, prev);
    SameButTls(lib, r, None);
  }

  // ---------------------------------------------------------------- rules and signals

  /** Lists that joining with commas keeps apart. */
  ghost predicate Plain(parts: seq<Bytes>) {
    forall i :: 0 <= i < |parts| ==> parts[i] != [] && 44 !in parts[i]
  }

  lemma SplitNoShorter(sep: Byte, x: Bytes, y: Bytes, u: Bytes, v: Bytes)
    requires sep !in y && x + u == y + v && (u == [] || u[0] == sep)
    ensures |x| >= |y|
  {
    var whole := x + u;
    assert forall i :: 0 <= i < |y| ==> whole[i] == y[i];
    assert u != [] ==> whole[|x|] == u[0];
  }

  /** Texts without the separator, each followed by it or by nothing. */
  lemma SplitSame(sep: Byte, x: Bytes, y: Bytes, u: Bytes, v: Bytes)
    requires sep !in x && sep !in y && x + u == y + v
    requires (u == [] || u[0] == sep) && (v == [] || v[0] == sep)
    ensures x == y && u == v
  {
    var whole := x + u;
    SplitNoShorter(sep, x, y, u, v);
    SplitNoShorter(sep, y, x, v, u);
    assert x == whole[..|x|] && y == whole[..|y|] && u == whole[|x|..] && v == whole[|y|..];
  }

  function AfterFirst(parts: seq<Bytes>): Bytes
    requires parts != []
  {
    if |parts| == 1 then [] else [44] + Join(parts[1..])
  }

  lemma JoinCons(parts: seq<Bytes>)
    requires parts != []
    ensures Join(parts) == parts[0] + AfterFirst(parts)
  {
    if |parts| == 1 {
      assert parts[0] + [] == parts[0];
    } else {
      assert parts[0] + [44] + Join(parts[1..]) == parts[0] + ([44] + Join(parts[1..]));
    }
  }

  lemma FirstSame(a: seq<Bytes>, b: seq<Bytes>)
    requires a != [] && b != [] && Plain(a) && Plain(b) && Join(a) == Join(b)
    ensures a[0] == b[0] && (|a| == 1 <==> |b| == 1)
    ensures |a| > 1 && |b| > 1 ==> Join(a[1..]) == Join(b[1..])
  {
    JoinCons(a);
    JoinCons(b);
    SplitSame(44, a[0], b[0], AfterFirst(a), AfterFirst(b));
    if |a| > 1 && |b| > 1 {
      assert AfterFirst(a)[1..] == Join(a[1..]) && AfterFirst(b)[1..] == Join(b[1..]);
    }
  }

  lemma JoinPresent(a: seq<Bytes>)
    requires a != [] && Plain(a)
    ensures Join(a) != []
  {
    JoinCons(a);
  }

  lemma {:induction false} JoinInjective(a: seq<Bytes>, b: seq<Bytes>)
    requires Plain(a) && Plain(b) && Join(a) == Join(b)
    ensures a == b
  {
    if a == [] || b == [] {
      if a != [] {
        JoinPresent(a);
      } else if b != [] {
        JoinPresent(b);
      }
    } else {
      FirstSame(a, b);
      assert a == [a[0]] + a[1..] && b == [b[0]] + b[1..];
      if |a| > 1 {
        JoinInjective(a[1..], b[1..]);
      }
    }
  }

  lemma PlainPermutes(a: seq<Bytes>, b: seq<Bytes>)
    requires Plain(a) && multiset(a) == multiset(b)
    ensures Plain(b)
  {
    forall i | 0 <= i < |b| ensures b[i] != [] && 44 !in b[i] {
      assert b[i] in multiset(b);
      assert b[i] in a;
    }
  }

  /** Rules without commas are bound as a multiset. */
  lemma RulesBound(lib: Library, r: Record, r': Record)
    requires Sorts(lib) && SameFields(lib, r, r') && Plain(r.rules) && Plain(r'.rules)
    ensures multiset(r.rules) == multiset(r'.rules)
  {
    assert SameGroup(lib, r, r', Evidence);
    PlainPermutes(r.rules, lib.SortedRules(r.rules));
    PlainPermutes(r'.rules, lib.SortedRules(r'.rules));
    JoinInjective(lib.SortedRules(r.rules), lib.SortedRules(r'.rules));
  }

  /** A comma is not escaped: one rule that reads like several hashes like them, in every record. */
  lemma JoinedCollides(lib: Library, r: Record, prev: Bytes)
    requires Sorts(lib)
    ensures RecordHash(lib, r.(rules := [RuleText(lib, r.rules)]), prev) == RecordHash(lib, r, prev)
  {
    var one := [RuleText(lib, r.rules)];
    RuleOrderUnique(lib.SortedRules(one), one);
    SameButRules(lib, r, one);
    RenderedSame(lib, r, r.(rules := one));
  }

  /** The rules of the record are the only ones that render to its body. */
  ghost predicate RulesUnique(lib: Library, r: Record) {
    forall rules :: SameFields(lib, r, r.(rules := rules)) ==> multiset(rules) == multiset(r.rules)
  }

  /** The text reads like two rules in order. */
  ghost predicate Splits(x: Bytes) {
    exists p, q :: SplitsInto(x, p, q)
  }

  predicate SplitsInto(x: Bytes, p: Bytes, q: Bytes) {
    x == p + [44] + q && LexLe(p, q)
  }

  lemma {:induction false} LexExtends(a: Bytes, b: Bytes, more: Bytes)
    requires LexLe(a, b)
    ensures LexLe(a, b + more)
  {
    if a != [] && a[0] == b[0] {
      LexExtends(a[1..], b[1..], more);
      assert (b + more)[1..] == b[1..] + more;
    }
  }

  /** Another list with the text of a single rule splits it. */
  lemma OtherListSplits(s: seq<Bytes>, x: Bytes)
    requires RulesAscend(s) && |s| > 1 && Join(s) == x
    ensures Splits(x)
  {
    var rest := s[1..];
    JoinCons(rest);
    assert rest[0] == s[1] && LexLe(s[0], s[1]);
    LexExtends(s[0], rest[0], AfterFirst(rest));
    assert SplitsInto(x, s[0], Join(rest));
  }

  lemma OneRuleUnique(lib: Library, r: Record, rules: seq<Bytes>)
    requires Sorts(lib) && |r.rules| == 1 && r.rules[0] != [] && !Splits(r.rules[0])
    requires RuleText(lib, rules) == RuleText(lib, r.rules)
    ensures multiset(rules) == multiset(r.rules)
  {
    RuleOrderUnique(lib.SortedRules(r.rules), r.rules);
    var s := lib.SortedRules(rules);
    if |s| > 1 {
      OtherListSplits(s, r.rules[0]);
    } else if |s| == 1 {
      assert s == r.rules;
    }
  }

  lemma TwoRulesCollide(lib: Library, r: Record, x: Bytes, p: Bytes, q: Bytes)
    requires Sorts(lib) && r.rules == [x] && SplitsInto(x, p, q)
    ensures !RulesUnique(lib, r)
  {
    var two := [p, q];
    RuleOrderUnique(lib.SortedRules(two), two);
    RuleOrderUnique(lib.SortedRules(r.rules), r.rules);
    assert two[1..] == [q];
    assert Join(two) == p + [44] + Join([q]) == x;
    OtherRules(lib, r, two);
  }

  lemma OtherRules(lib: Library, r: Record, rules: seq<Bytes>)
    requires RuleText(lib, rules) == RuleText(lib, r.rules) && |rules| != |r.rules|
    ensures !RulesUnique(lib, r)
  {
    SameButRules(lib, r, rules);
    assert |multiset(rules)| == |rules| && |multiset(r.rules)| == |r.rules|;
    assert SameFields(lib, r, r.(rules := rules)) && multiset(rules) != multiset(r.rules);
  }

  lemma SeveralRulesCollide(lib: Library, r: Record)
    requires Sorts(lib) && (|r.rules| != 1 || r.rules[0] == [])
    ensures !RulesUnique(lib, r)
  {
    if |r.rules| != 1 {
      var one := [RuleText(lib, r.rules)];
      RuleOrderUnique(lib.SortedRules(one), one);
      OtherRules(lib, r, one);
    } else {
      RuleOrderUnique(lib.SortedRules(r.rules), r.rules);
      RuleOrderUnique(lib.SortedRules([]), []);
      OtherRules(lib, r, []);
    }
  }

  /** The hash fixes a record's rules exactly if there is one, not empty, that does not read like two in order. */
  lemma RulesBoundExactly(lib: Library, r: Record)
    requires Sorts(lib)
    ensures RulesUnique(lib, r) <==> |r.rules| == 1 && r.rules[0] != [] && !Splits(r.rules[0])
  {
    if |r.rules| != 1 || r.rules[0] == [] {
      SeveralRulesCollide(lib, r);
    } else if Splits(r.rules[0]) {
      var p, q :| SplitsInto(r.rules[0], p, q);
      TwoRulesCollide(lib, r, r.rules[0], p, q);
    } else {
      forall rules | SameFields(lib, r, r.(rules := rules)) ensures multiset(rules) == multiset(r.rules) {
        SameButRules(lib, r, rules);
        OneRuleUnique(lib, r, rules);
      }
    }
  }

  /** What is rendered of two signals is the same. */
  predicate Alike(lib: Library, s: Signal, s': Signal) {
    lib.Nfc(s.id) == lib.Nfc(s'.id) && s.verdict == s'.verdict && lib.Fixed3(s.conf) == lib.Fixed3(s'.conf)
  }

  predicate Clean(b: Bytes) {
    44 !in b && 124 !in b
  }

  /** Neither a comma nor a bar in what is rendered. */
  predicate CleanSignal(lib: Library, s: Signal) {
    Clean(lib.Nfc(s.id)) && Clean(s.verdict) && Clean(lib.Fixed3(s.conf))
  }

  ghost predicate CleanSignals(lib: Library, signals: seq<Signal>) {
    forall i :: 0 <= i < |signals| ==> CleanSignal(lib, signals[i])
  }

  lemma {:induction false} RenderedSignal(lib: Library, signals: seq<Signal>, i: nat)
    ensures |RenderSignals(lib, signals)| == |signals|
    ensures i < |signals| ==> RenderSignals(lib, signals)[i] == Part(lib, signals[i])
  {
    if signals != [] {
      RenderedSignal(lib, signals[1..], if i > 0 then i - 1 else 0);
    }
  }

  function Part(lib: Library, s: Signal): Bytes {
    lib.Nfc(s.id) + [124] + s.verdict + [124] + lib.Fixed3(s.conf)
  }

  lemma PartsPlain(lib: Library, signals: seq<Signal>)
    requires CleanSignals(lib, signals)
    ensures Plain(RenderSignals(lib, signals))
  {
    var parts := RenderSignals(lib, signals);
    RenderedSignal(lib, signals, 0);
    forall i | 0 <= i < |parts| ensures parts[i] != [] && 44 !in parts[i] {
      RenderedSignal(lib, signals, i);
      assert CleanSignal(lib, signals[i]);
    }
  }

  lemma TripleSame(a: Bytes, b: Bytes, c: Bytes, a': Bytes, b': Bytes, c': Bytes)
    requires 124 !in a && 124 !in b && 124 !in a' && 124 !in b'
    requires a + [124] + b + [124] + c == a' + [124] + b' + [124] + c'
    ensures a == a' && b == b' && c == c'
  {
    var tail, tail' := b + ([124] + c), b' + ([124] + c');
    assert a + [124] + b + [124] + c == a + ([124] + tail) && a' + [124] + b' + [124] + c' == a' + ([124] + tail');
    SplitSame(124, a, a', [124] + tail, [124] + tail');
    assert tail == ([124] + tail)[1..] && tail' == ([124] + tail')[1..];
    SplitSame(124, b, b', [124] + c, [124] + c');
    assert c == ([124] + c)[1..] && c' == ([124] + c')[1..];
  }

  lemma PartSame(lib: Library, s: Signal, s': Signal)
    requires CleanSignal(lib, s) && CleanSignal(lib, s') && Part(lib, s) == Part(lib, s')
    ensures Alike(lib, s, s')
  {
    TripleSame(lib.Nfc(s.id), s.verdict, lib.Fixed3(s.conf), lib.Nfc(s'.id), s'.verdict, lib.Fixed3(s'.conf));
  }

  lemma CleanPermutes(lib: Library, a: seq<Signal>, b: seq<Signal>)
    requires CleanSignals(lib, a) && multiset(a) == multiset(b)
    ensures CleanSignals(lib, b)
  {
    forall i | 0 <= i < |b| ensures CleanSignal(lib, b[i]) {
      assert b[i] in multiset(b);
      assert b[i] in a;
    }
  }

  /** Signals without commas and bars are bound one by one, in the order of their ids. */
  lemma SignalsBound(lib: Library, r: Record, r': Record, i: nat)
    requires Sorts(lib) && SameFields(lib, r, r')
    requires CleanSignals(lib, r.topSignals) && CleanSignals(lib, r'.topSignals)
    ensures var a, b := lib.SortedSignals(r.topSignals), lib.SortedSignals(r'.topSignals);
      |a| == |b| && (i < |a| ==> Alike(lib, a[i], b[i]))
  {
    var a, b := lib.SortedSignals(r.topSignals), lib.SortedSignals(r'.topSignals);
    assert SameGroup(lib, r, r', Evidence);
    CleanPermutes(lib, r.topSignals, a);
    CleanPermutes(lib, r'.topSignals, b);
    PartsPlain(lib, a);
    PartsPlain(lib, b);
    JoinInjective(RenderSignals(lib, a), RenderSignals(lib, b));
    RenderedSignal(lib, a, i);
    RenderedSignal(lib, b, i);
    if i < |a| {
      assert CleanSignal(lib, a[i]) && CleanSignal(lib, b[i]);
      PartSame(lib, a[i], b[i]);
    }
  }
}
