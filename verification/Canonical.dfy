/**
 The frozen canonical form of an audit record and its hash
 (internal/audit/record.go, internal/audit/canonical.go).

 HMAC, Unicode normalisation, float formatting and sorting are library calls: they are
 tables of a `Library`, constrained only by `Sorts`.
 */
module Canonical {
  import opened Hashing
  import opened Text

  datatype Actor = Actor(kind: Bytes, idPsn: Bytes)
  /** The confidence is the bit pattern of its 64-bit float. */
  datatype Signal = Signal(id: Bytes, verdict: Bytes, conf: int)
  datatype Upstream = Upstream(status: int, errorClass: Bytes)
  datatype TlsPsn = TlsPsn(ja4: Bytes, h2fp: Bytes, sni: Bytes)

  datatype Record = Record(
    eventID: Bytes, seqNo: U64, nodeID: Bytes, ts: Bytes, eventType: Bytes, eventVer: Bytes,
    actor: Actor, tenantID: Bytes, sessionPsn: Bytes, requestID: Bytes, correlation: Bytes,
    host: Bytes, routeClass: Bytes, verdict: Bytes, riskScore: int,
    rules: seq<Bytes>, topSignals: seq<Signal>,
    action: Bytes, mode: Bytes, failMode: Bytes, failReason: Bytes, latencyUS: nat,
    upstream: Option<Upstream>, tls: Option<TlsPsn>,
    configVer: Bytes, keyID: Bytes, dataClass: Bytes,
    prevHash: Bytes, recordHash: Bytes, hmac: Bytes)

  datatype Library = Library(
    sha: Sha,
    hmacTable: imap<(Bytes, Bytes), Bytes>,
    nfc: imap<Bytes, Bytes>,
    fixed3: imap<int, Bytes>,
    sortStrings: imap<seq<Bytes>, seq<Bytes>>,
    sortById: imap<seq<Signal>, seq<Signal>>)
  {
    function Hmac(key: Bytes, message: Bytes): Bytes {
      if (key, message) in hmacTable then hmacTable[(key, message)] else []
    }

    function Nfc(s: Bytes): Bytes {
      if s in nfc then nfc[s] else s
    }

    function Fixed3(x: int): Bytes {
      if x in fixed3 then fixed3[x] else []
    }

    function SortedRules(rules: seq<Bytes>): seq<Bytes> {
      if rules in sortStrings then sortStrings[rules] else rules
    }

    function SortedSignals(signals: seq<Signal>): seq<Signal> {
      if signals in sortById then sortById[signals] else signals
    }
  }

  // ---------------------------------------------------------------- the frame: <klen><key><vlen><val>

  /** A field of the canonical body, by its place in the frozen order. */
  type Key = k: int | 1 <= k <= 31 witness 1

  const EventID: Key := 1
  const Seq: Key := 2
  const NodeID: Key := 3
  const TS: Key := 4
  const EventType: Key := 5
  const EventVersion: Key := 6
  const ActorKind: Key := 7
  const ActorID: Key := 8
  const TenantID: Key := 9
  const SessionPseudonym: Key := 10
  const RequestID: Key := 11
  const CorrelationID: Key := 12
  const Host: Key := 13
  const RouteClass: Key := 14
  const Verdict: Key := 15
  const RiskScore: Key := 16
  const TriggeredRules: Key := 17
  const TopSignals: Key := 18
  const EnforcementAction: Key := 19
  const EnforcementMode: Key := 20
  const FailMode: Key := 21
  const FailReason: Key := 22
  const LatencyUS: Key := 23
  const UpstreamStatus: Key := 24
  const UpstreamErrorClass: Key := 25
  const TlsJA4: Key := 26
  const TlsH2FP: Key := 27
  const TlsSNI: Key := 28
  const ConfigVersion: Key := 29
  const KeyID: Key := 30
  const DataClass: Key := 31

  /** A field's name in the frozen format. */
  function Name(key: Key): string {
    if key == EventID then "event_id"
    else if key == Seq then "seq"
    else if key == NodeID then "node_id"
    else if key == TS then "ts"
    else if key == EventType then "event_type"
    else if key == EventVersion then "event_version"
    else if key == ActorKind then "actor.kind"
    else if key == ActorID then "actor.id"
    else if key == TenantID then "tenant_id"
    else if key == SessionPseudonym then "session_pseudonym"
    else if key == RequestID then "request_id"
    else if key == CorrelationID then "correlation_id"
    else if key == Host then "host"
    else if key == RouteClass then "route_class"
    else if key == Verdict then "verdict"
    else if key == RiskScore then "risk_score"
    else if key == TriggeredRules then "triggered_rules"
    else if key == TopSignals then "top_signals"
    else if key == EnforcementAction then "enforcement_action"
    else if key == EnforcementMode then "enforcement_mode"
    else if key == FailMode then "fail_mode"
    else if key == FailReason then "fail_reason"
    else if key == LatencyUS then "latency_us"
    else if key == UpstreamStatus then "upstream.status"
    else if key == UpstreamErrorClass then "upstream.error_class"
    else if key == TlsJA4 then "tls.ja4"
    else if key == TlsH2FP then "tls.h2fp"
    else if key == TlsSNI then "tls.sni"
    else if key == ConfigVersion then "config_version"
    else if key == KeyID then "key_id"
    else "data_class"
  }

  /** A field of the frozen order, absent or with its value, and a field as it is framed. */
  datatype Slot = Slot(key: Key, value: Option<Bytes>)
  datatype Frame = Frame(key: Bytes, value: Bytes)

  /** An absent field is left out. */
  function FrameOf(slot: Slot): seq<Frame> {
    if slot.value.None? then [] else [Frame(Ascii(Name(slot.key)), slot.value.value)]
  }

  function Frames(slots: seq<Slot>): seq<Frame> {
    if slots == [] then [] else FrameOf(slots[0]) + Frames(slots[1..])
  }

  function WriteField(f: Frame): Bytes {
    BE32(|f.key|) + f.key + BE32(|f.value|) + f.value
  }

  function Encode(frames: seq<Frame>): Bytes {
    if frames == [] then [] else WriteField(frames[0]) + Encode(frames[1..])
  }

  /** A reader of the frame, written from the layout alone. */
  function Decode(b: Bytes): Option<seq<Frame>>
    decreases |b|
  {
    if b == [] then Some([])
    else if |b| < 4 then None
    else
      var klen := FromBigEndian(b[..4]);
      if |b| < 8 + klen then None
      else
        var vlen := FromBigEndian(b[4 + klen..8 + klen]);
        if |b| < 8 + klen + vlen then None
        else
          match Decode(b[8 + klen + vlen..])
          case None => None
          case Some(rest) => Some([Frame(b[4..4 + klen], b[8 + klen..8 + klen + vlen])] + rest)
  }

  predicate Short(f: Frame) {
    |f.key| < TWO32 && |f.value| < TWO32
  }

  lemma DecodeOne(f: Frame, rest: Bytes)
    requires Short(f)
    ensures Decode(WriteField(f) + rest) ==
      match Decode(rest) case None => None case Some(fs) => Some([f] + fs)
  {
    var b, klen, vlen := WriteField(f) + rest, |f.key|, |f.value|;
    LengthRoundTrip(klen);
    LengthRoundTrip(vlen);
    assert b[..4] == BE32(klen);
    assert b[4..4 + klen] == f.key;
    assert b[4 + klen..8 + klen] == BE32(vlen);
    assert b[8 + klen..8 + klen + vlen] == f.value;
    assert b[8 + klen + vlen..] == rest;
  }

  /** The length prefixes make the stream unambiguous: the reader recovers every field. */
  lemma {:induction false} FramingRoundTrip(frames: seq<Frame>)
    requires forall i :: 0 <= i < |frames| ==> Short(frames[i])
    ensures Decode(Encode(frames)) == Some(frames)
  {
    if frames != [] {
      FramingRoundTrip(frames[1..]);
      DecodeOne(frames[0], Encode(frames[1..]));
      assert [frames[0]] + frames[1..] == frames;
    }
  }

  lemma FramingInjective(a: seq<Frame>, b: seq<Frame>)
    requires forall i :: 0 <= i < |a| ==> Short(a[i])
    requires forall i :: 0 <= i < |b| ==> Short(b[i])
    requires Encode(a) == Encode(b)
    ensures a == b
  {
    FramingRoundTrip(a);
    FramingRoundTrip(b);
  }

  lemma EncodeCons(f: Frame, rest: seq<Frame>)
    ensures Encode([f] + rest) == WriteField(f) + Encode(rest)
  {
    assert ([f] + rest)[1..] == rest;
  }

  lemma FramesCons(slot: Slot, rest: seq<Slot>)
    ensures Frames([slot] + rest) == FrameOf(slot) + Frames(rest)
  {
    assert ([slot] + rest)[1..] == rest;
  }

  lemma Associative<T>(x: seq<T>, y: seq<T>, z: seq<T>)
    ensures x + (y + z) == (x + y) + z
  {
  }

  lemma {:induction false} EncodeAppend(a: seq<Frame>, b: seq<Frame>)
    ensures Encode(a + b) == Encode(a) + Encode(b)
  {
    if a == [] {
      assert a + b == b;
    } else {
      var f, t := a[0], a[1..];
      assert a == [f] + t;
      EncodeAppend(t, b);
      EncodeCons(f, t);
      EncodeCons(f, t + b);
      Associative([f], t, b);
      Associative(WriteField(f), Encode(t), Encode(b));
    }
  }

  lemma {:induction false} FramesAppend(a: seq<Slot>, b: seq<Slot>)
    ensures Frames(a + b) == Frames(a) + Frames(b)
  {
    if a == [] {
      assert a + b == b;
    } else {
      var slot, t := a[0], a[1..];
      assert a == [slot] + t;
      FramesAppend(t, b);
      FramesCons(slot, t);
      FramesCons(slot, t + b);
      Associative([slot], t, b);
      Associative(FrameOf(slot), Frames(t), Frames(b));
    }
  }

  // ---------------------------------------------------------------- rendering

  /** An empty scalar is absent; another is normalised. */
  function Scalar(lib: Library, key: Key, value: Bytes): Slot {
    Slot(key, if value == [] then None else Some(lib.Nfc(value)))
  }

  function Integer(key: Key, v: int): Slot {
    Slot(key, Some(Decimal(v)))
  }

  function Join(parts: seq<Bytes>): Bytes {
    if parts == [] then []
    else if |parts| == 1 then parts[0]
    else parts[0] + [44] + Join(parts[1..])
  }

  function Bracketed(b: Bytes): Bytes {
    [91] + b + [93]
  }

  function RenderSignals(lib: Library, signals: seq<Signal>): seq<Bytes> {
    if signals == [] then []
    else
      [lib.Nfc(signals[0].id) + [124] + signals[0].verdict + [124] + lib.Fixed3(signals[0].conf)]
        + RenderSignals(lib, signals[1..])
  }

  function IdentityFields(lib: Library, r: Record, fs: seq<Slot>): seq<Slot> {
    fs + [Scalar(lib, EventID, r.eventID)] + [Integer(Seq, AsInt64(r.seqNo))] + [Scalar(lib, NodeID, r.nodeID)]
      + [Scalar(lib, TS, r.ts)] + [Scalar(lib, EventType, r.eventType)]
      + [Scalar(lib, EventVersion, r.eventVer)] + [Scalar(lib, ActorKind, r.actor.kind)]
      + [Scalar(lib, ActorID, r.actor.idPsn)] + [Scalar(lib, TenantID, r.tenantID)]
  }

  function RequestFields(lib: Library, r: Record, fs: seq<Slot>): seq<Slot> {
    fs + [Scalar(lib, SessionPseudonym, r.sessionPsn)] + [Scalar(lib, RequestID, r.requestID)]
      + [Scalar(lib, CorrelationID, r.correlation)] + [Scalar(lib, Host, r.host)]
      + [Scalar(lib, RouteClass, r.routeClass)] + [Scalar(lib, Verdict, r.verdict)]
      + [Integer(RiskScore, r.riskScore)]
  }

  /** The rules, sorted and joined by commas. */
  function RuleText(lib: Library, rules: seq<Bytes>): Bytes {
    Join(lib.SortedRules(rules))
  }

  /** The signals, sorted by id, each as id, verdict and confidence. */
  function SignalText(lib: Library, signals: seq<Signal>): Bytes {
    Join(RenderSignals(lib, lib.SortedSignals(signals)))
  }

  function EvidenceFields(lib: Library, rules: seq<Bytes>, signals: seq<Signal>, fs: seq<Slot>): seq<Slot> {
    fs + [Slot(TriggeredRules, Some(Bracketed(RuleText(lib, rules))))]
      + [Slot(TopSignals, Some(Bracketed(SignalText(lib, signals))))]
  }

  function EnforcementFields(lib: Library, r: Record, fs: seq<Slot>): seq<Slot> {
    fs + [Scalar(lib, EnforcementAction, r.action)] + [Scalar(lib, EnforcementMode, r.mode)]
      + [Scalar(lib, FailMode, r.failMode)] + [Scalar(lib, FailReason, r.failReason)]
      + [Integer(LatencyUS, r.latencyUS)]
  }

  function UpstreamFields(lib: Library, upstream: Option<Upstream>, fs: seq<Slot>): seq<Slot> {
    match upstream
    case None =>
      fs + [Slot(UpstreamStatus, None)] + [Slot(UpstreamErrorClass, None)]
    case Some(u) =>
      fs + [Integer(UpstreamStatus, u.status)] + [Scalar(lib, UpstreamErrorClass, u.errorClass)]
  }

  function TlsFields(lib: Library, tls: Option<TlsPsn>, fs: seq<Slot>): seq<Slot> {
    match tls
    case None =>
      fs + [Slot(TlsJA4, None)] + [Slot(TlsH2FP, None)] + [Slot(TlsSNI, None)]
    case Some(t) =>
      fs + [Scalar(lib, TlsJA4, t.ja4)] + [Scalar(lib, TlsH2FP, t.h2fp)] + [Scalar(lib, TlsSNI, t.sni)]
  }

  function VersionFields(lib: Library, r: Record, fs: seq<Slot>): seq<Slot> {
    fs + [Scalar(lib, ConfigVersion, r.configVer)] + [Scalar(lib, KeyID, r.keyID)]
      + [Scalar(lib, DataClass, r.dataClass)]
  }

  /** The list after the first n of the seven groups of fields. */
  function RenderedUpTo(lib: Library, r: Record, n: nat): seq<Slot> {
    if n == 0 then []
    else AddGroup(lib, r, n, RenderedUpTo(lib, r, n - 1))
  }

  function AddGroup(lib: Library, r: Record, n: nat, fs: seq<Slot>): seq<Slot> {
    if n == 1 then IdentityFields(lib, r, fs)
    else if n == 2 then RequestFields(lib, r, fs)
    else if n == 3 then EvidenceFields(lib, r.rules, r.topSignals, fs)
    else if n == 4 then EnforcementFields(lib, r, fs)
    else if n == 5 then UpstreamFields(lib, r.upstream, fs)
    else if n == 6 then TlsFields(lib, r.tls, fs)
    else VersionFields(lib, r, fs)
  }

  /** What is hashed, in the frozen order; the hashes themselves are not part of it. */
  function Rendered(lib: Library, r: Record): seq<Slot> {
    RenderedUpTo(lib, r, 7)
  }

  /** The first and the last groups of fields. */
  function Early(lib: Library, r: Record): seq<Slot> {
    EvidenceFields(lib, r.rules, r.topSignals, RequestFields(lib, r, IdentityFields(lib, r, [])))
  }

  function Late(lib: Library, r: Record, fs: seq<Slot>): seq<Slot> {
    VersionFields(lib, r, TlsFields(lib, r.tls, UpstreamFields(lib, r.upstream, EnforcementFields(lib, r, fs))))
  }

  lemma RenderedIs(lib: Library, r: Record)
    ensures Rendered(lib, r) == Late(lib, r, Early(lib, r))
  {
    var f2 := RequestFields(lib, r, IdentityFields(lib, r, []));
    assert RenderedUpTo(lib, r, 1) == IdentityFields(lib, r, RenderedUpTo(lib, r, 0));
    assert RenderedUpTo(lib, r, 2) == f2;
    assert RenderedUpTo(lib, r, 3) == EvidenceFields(lib, r.rules, r.topSignals, f2);
    LateIs(lib, r, Early(lib, r));
  }

  lemma LateIs(lib: Library, r: Record, fs: seq<Slot>)
    requires fs == RenderedUpTo(lib, r, 3)
    ensures RenderedUpTo(lib, r, 7) == Late(lib, r, fs)
  {
    assert RenderedUpTo(lib, r, 5) == UpstreamFields(lib, r.upstream, EnforcementFields(lib, r, fs));
  }

  function CanonicalBytes(lib: Library, r: Record): Bytes {
    Encode(Frames(Rendered(lib, r)))
  }

  /** The bytes hashed for a record that follows prevHash. */
  function RecordInput(lib: Library, r: Record, prevHash: Bytes): Bytes {
    CanonicalBytes(lib, r) + prevHash
  }

  function RecordHash(lib: Library, r: Record, prevHash: Bytes): Bytes {
    Hex(lib.sha.Digest(RecordInput(lib, r, prevHash)))
  }

  // ---------------------------------------------------------------- order independence

  predicate LexLe(a: Bytes, b: Bytes) {
    a == [] || (b != [] && (a[0] < b[0] || (a[0] == b[0] && LexLe(a[1..], b[1..]))))
  }

  lemma {:induction false} LexAntisymmetric(a: Bytes, b: Bytes)
    requires LexLe(a, b) && LexLe(b, a)
    ensures a == b
  {
    if a != [] {
      LexAntisymmetric(a[1..], b[1..]);
      assert a == [a[0]] + a[1..] && b == [b[0]] + b[1..];
    }
  }

  ghost predicate RulesAscend(s: seq<Bytes>) {
    forall i, j :: 0 <= i < j < |s| ==> LexLe(s[i], s[j])
  }

  ghost predicate SignalsAscend(s: seq<Signal>) {
    forall i, j :: 0 <= i < j < |s| ==> LexLe(s[i].id, s[j].id)
  }

  /** The contract of the sort library: an ascending permutation; equal ids in any order. */
  ghost predicate Sorts(lib: Library) {
    && (forall s :: multiset(lib.SortedRules(s)) == multiset(s) && RulesAscend(lib.SortedRules(s)))
    && (forall s :: multiset(lib.SortedSignals(s)) == multiset(s) && SignalsAscend(lib.SortedSignals(s)))
  }

  ghost predicate DistinctIds(s: seq<Signal>) {
    forall i, j :: 0 <= i < |s| && 0 <= j < |s| && s[i].id == s[j].id ==> s[i] == s[j]
  }

  lemma DistinctIdsPermute(s: seq<Signal>, t: seq<Signal>)
    requires multiset(s) == multiset(t) && DistinctIds(s)
    ensures DistinctIds(t)
  {
    forall i | 0 <= i < |t| ensures t[i] in s {
      assert t[i] in multiset(t);
    }
  }

  lemma TailMultiset<T>(a: seq<T>, b: seq<T>)
    requires a != [] && b != [] && a[0] == b[0] && multiset(a) == multiset(b)
    ensures multiset(a[1..]) == multiset(b[1..])
  {
    assert a == [a[0]] + a[1..] && b == [b[0]] + b[1..];
    assert multiset(a[1..]) == multiset(a) - multiset{a[0]};
    assert multiset(b[1..]) == multiset(b) - multiset{b[0]};
  }

  lemma {:induction false} RuleOrderUnique(a: seq<Bytes>, b: seq<Bytes>)
    requires multiset(a) == multiset(b) && RulesAscend(a) && RulesAscend(b)
    ensures a == b
  {
    assert |a| == |multiset(a)| == |b|;
    if a != [] {
      assert a[0] in multiset(b) && b[0] in multiset(a);
      var i :| 0 <= i < |b| && b[i] == a[0];
      var j :| 0 <= j < |a| && a[j] == b[0];
      if i > 0 && j > 0 {
        LexAntisymmetric(a[0], b[0]);
      }
      TailMultiset(a, b);
      RuleOrderUnique(a[1..], b[1..]);
      assert a == [a[0]] + a[1..] && b == [b[0]] + b[1..];
    }
  }

  lemma SameFirstSignal(a: seq<Signal>, b: seq<Signal>)
    requires multiset(a) == multiset(b) && SignalsAscend(a) && SignalsAscend(b) && DistinctIds(a)
    requires a != [] && b != []
    ensures a[0] == b[0]
  {
    assert a[0] in multiset(b) && b[0] in multiset(a);
    var i :| 0 <= i < |b| && b[i] == a[0];
    var j :| 0 <= j < |a| && a[j] == b[0];
    if i > 0 && j > 0 {
      LexAntisymmetric(a[0].id, b[0].id);
    }
  }

  lemma {:induction false} SignalOrderUnique(a: seq<Signal>, b: seq<Signal>)
    requires multiset(a) == multiset(b) && SignalsAscend(a) && SignalsAscend(b) && DistinctIds(a)
    ensures a == b
  {
    assert |a| == |multiset(a)| == |b|;
    if a != [] {
      SameFirstSignal(a, b);
      TailMultiset(a, b);
      SignalOrderUnique(a[1..], b[1..]);
      assert a == [a[0]] + a[1..] && b == [b[0]] + b[1..];
    }
  }

  /** Permuting the rules, or the signals when their ids are distinct, never changes the record hash. */
  lemma HashIgnoresOrder(lib: Library, r: Record, rules: seq<Bytes>, signals: seq<Signal>, prevHash: Bytes)
    requires Sorts(lib)
    requires multiset(rules) == multiset(r.rules)
    requires multiset(signals) == multiset(r.topSignals) && DistinctIds(signals)
    ensures RecordHash(lib, r.(rules := rules, topSignals := signals), prevHash) == RecordHash(lib, r, prevHash)
  {
    RuleOrderUnique(lib.SortedRules(rules), lib.SortedRules(r.rules));
    DistinctIdsPermute(signals, lib.SortedSignals(signals));
    SignalOrderUnique(lib.SortedSignals(signals), lib.SortedSignals(r.topSignals));
    var r' := r.(rules := rules, topSignals := signals);
    RenderingIgnoresOrder(lib, r, r', 7);
  }

  lemma {:induction false} RenderingIgnoresOrder(lib: Library, r: Record, r': Record, n: nat)
    requires r' == r.(rules := r'.rules, topSignals := r'.topSignals)
    requires lib.SortedRules(r.rules) == lib.SortedRules(r'.rules)
    requires lib.SortedSignals(r.topSignals) == lib.SortedSignals(r'.topSignals)
    ensures RenderedUpTo(lib, r, n) == RenderedUpTo(lib, r', n)
  {
    if n > 0 {
      RenderingIgnoresOrder(lib, r, r', n - 1);
      GroupIgnoresOrder(lib, r, r', n, RenderedUpTo(lib, r, n - 1));
    }
  }

  lemma GroupIgnoresOrder(lib: Library, r: Record, r': Record, n: nat, fs: seq<Slot>)
    requires r' == r.(rules := r'.rules, topSignals := r'.topSignals)
    requires lib.SortedRules(r.rules) == lib.SortedRules(r'.rules)
    requires lib.SortedSignals(r.topSignals) == lib.SortedSignals(r'.topSignals)
    ensures AddGroup(lib, r, n, fs) == AddGroup(lib, r', n, fs)
  {
  }

  /** The integrity fields are no part of the canonical body. */
  lemma {:induction false} RenderingIgnoresHashes(lib: Library, r: Record, r': Record, n: nat)
    requires r' == r.(prevHash := r'.prevHash, recordHash := r'.recordHash, hmac := r'.hmac)
    ensures RenderedUpTo(lib, r, n) == RenderedUpTo(lib, r', n)
  {
    if n > 0 {
      RenderingIgnoresHashes(lib, r, r', n - 1);
      GroupIgnoresHashes(lib, r, r', n, RenderedUpTo(lib, r, n - 1));
    }
  }

  lemma GroupIgnoresHashes(lib: Library, r: Record, r': Record, n: nat, fs: seq<Slot>)
    requires r' == r.(prevHash := r'.prevHash, recordHash := r'.recordHash, hmac := r'.hmac)
    ensures AddGroup(lib, r, n, fs) == AddGroup(lib, r', n, fs)
  {
  }

  lemma HashIgnoresHashes(lib: Library, r: Record, r': Record, prevHash: Bytes)
    requires r' == r.(prevHash := r'.prevHash, recordHash := r'.recordHash, hmac := r'.hmac)
    ensures RecordHash(lib, r, prevHash) == RecordHash(lib, r', prevHash)
  {
    RenderingIgnoresHashes(lib, r, r', 7);
  }

  /** Equal hashes after equally long heads mean equal frames and an equal previous hash. */
  lemma HashFixesFrames(lib: Library, inputs: set<Bytes>, r: Record, r': Record, prev: Bytes, prev': Bytes)
    requires CollisionFree(lib.sha, inputs)
    requires RecordInput(lib, r, prev) in inputs && RecordInput(lib, r', prev') in inputs
    requires ShortFields(lib, r) && ShortFields(lib, r')
    requires |prev| == |prev'|
    requires RecordHash(lib, r, prev) == RecordHash(lib, r', prev')
    ensures Frames(Rendered(lib, r)) == Frames(Rendered(lib, r')) && prev == prev'
  {
    var x, x' := RecordInput(lib, r, prev), RecordInput(lib, r', prev');
    HexInjective(lib.sha.Digest(x), lib.sha.Digest(x'));
    assert Hashed(inputs, x) && Hashed(inputs, x') && x == x';
    var c, c' := CanonicalBytes(lib, r), CanonicalBytes(lib, r');
    assert |c| == |c'|;
    assert c == x[..|c|] && c' == x'[..|c'|] && prev == x[|c|..] && prev' == x'[|c'|..];
    FramingInjective(Frames(Rendered(lib, r)), Frames(Rendered(lib, r')));
  }

  /** Every key and value is shorter than 2^32 bytes, so no length prefix is truncated. */
  ghost predicate ShortFields(lib: Library, r: Record) {
    var frames := Frames(Rendered(lib, r));
    forall i :: 0 <= i < |frames| ==> Short(frames[i])
  }

  // ---------------------------------------------------------------- the string builder

  lemma EncodeSnoc(slots: seq<Slot>, slot: Slot)
    ensures Encode(Frames(slots + [slot])) == Encode(Frames(slots)) + Encode(FrameOf(slot))
  {
    FramesAppend(slots, [slot]);
    assert Frames([slot]) == FrameOf(slot);
    EncodeAppend(Frames(slots), FrameOf(slot));
  }

  /** The builder of canonicalBytes: bytes written so far, and the fields they stand for. */
  class Builder {
    var out: Bytes
    ghost var slots: seq<Slot>

    ghost predicate Valid()
      reads this
    {
      out == Encode(Frames(slots))
    }

    constructor ()
      ensures Valid() && slots == []
    {
      out, slots := [], [];
    }

    method Write(key: Key, value: Bytes)
      requires Valid()
      modifies this
      ensures Valid() && slots == old(slots) + [Slot(key, Some(value))]
    {
      var frame := Frame(Ascii(Name(key)), value);
      ghost var slot := Slot(key, Some(value));
      EncodeSnoc(slots, slot);
      assert Encode([frame]) == WriteField(frame);
      out := out + WriteField(frame);
      slots := slots + [slot];
    }

    ghost method Skip(key: Key)
      requires Valid()
      modifies this`slots
      ensures Valid() && slots == old(slots) + [Slot(key, None)]
    {
      EncodeSnoc(slots, Slot(key, None));
      slots := slots + [Slot(key, None)];
    }

    method Put(lib: Library, key: Key, value: Bytes)
      requires Valid()
      modifies this
      ensures Valid() && slots == old(slots) + [Scalar(lib, key, value)]
    {
      if value != [] {
        Write(key, lib.Nfc(value));
      } else {
        Skip(key);
      }
    }

    method PutInt(key: Key, v: int)
      requires Valid()
      modifies this
      ensures Valid() && slots == old(slots) + [Integer(key, v)]
    {
      Write(key, Decimal(v));
    }

    method PutIdentity(lib: Library, r: Record)
      requires Valid()
      modifies this
      ensures Valid() && slots == IdentityFields(lib, r, old(slots))
    {
      Put(lib, EventID, r.eventID);
      PutInt(Seq, AsInt64(r.seqNo));
      Put(lib, NodeID, r.nodeID);
      Put(lib, TS, r.ts);
      Put(lib, EventType, r.eventType);
      Put(lib, EventVersion, r.eventVer);
      Put(lib, ActorKind, r.actor.kind);
      Put(lib, ActorID, r.actor.idPsn);
      Put(lib, TenantID, r.tenantID);
    }

    method PutRequest(lib: Library, r: Record)
      requires Valid()
      modifies this
      ensures Valid() && slots == RequestFields(lib, r, old(slots))
    {
      Put(lib, SessionPseudonym, r.sessionPsn);
      Put(lib, RequestID, r.requestID);
      Put(lib, CorrelationID, r.correlation);
      Put(lib, Host, r.host);
      Put(lib, RouteClass, r.routeClass);
      Put(lib, Verdict, r.verdict);
      PutInt(RiskScore, r.riskScore);
    }

    method PutEvidence(lib: Library, r: Record)
      requires Valid()
      modifies this
      ensures Valid() && slots == EvidenceFields(lib, r.rules, r.topSignals, old(slots))
    {
      Write(TriggeredRules, Bracketed(Join(lib.SortedRules(r.rules))));
      Write(TopSignals, Bracketed(Join(RenderSignals(lib, lib.SortedSignals(r.topSignals)))));
    }

    method PutEnforcement(lib: Library, r: Record)
      requires Valid()
      modifies this
      ensures Valid() && slots == EnforcementFields(lib, r, old(slots))
    {
      Put(lib, EnforcementAction, r.action);
      Put(lib, EnforcementMode, r.mode);
      Put(lib, FailMode, r.failMode);
      Put(lib, FailReason, r.failReason);
      PutInt(LatencyUS, r.latencyUS);
    }

    method PutUpstream(lib: Library, upstream: Option<Upstream>)
      requires Valid()
      modifies this
      ensures Valid() && slots == UpstreamFields(lib, upstream, old(slots))
    {
      if upstream.Some? {
        PutInt(UpstreamStatus, upstream.value.status);
        Put(lib, UpstreamErrorClass, upstream.value.errorClass);
      } else {
        Skip(UpstreamStatus);
        Skip(UpstreamErrorClass);
      }
    }

    method PutTls(lib: Library, tls: Option<TlsPsn>)
      requires Valid()
      modifies this
      ensures Valid() && slots == TlsFields(lib, tls, old(slots))
    {
      if tls.Some? {
        Put(lib, TlsJA4, tls.value.ja4);
        Put(lib, TlsH2FP, tls.value.h2fp);
        Put(lib, TlsSNI, tls.value.sni);
      } else {
        Skip(TlsJA4);
        Skip(TlsH2FP);
        Skip(TlsSNI);
      }
    }

    method PutVersions(lib: Library, r: Record)
      requires Valid()
      modifies this
      ensures Valid() && slots == VersionFields(lib, r, old(slots))
    {
      Put(lib, ConfigVersion, r.configVer);
      Put(lib, KeyID, r.keyID);
      Put(lib, DataClass, r.dataClass);
    }

    method PutEarly(lib: Library, r: Record)
      requires Valid() && slots == []
      modifies this
      ensures Valid() && slots == Early(lib, r)
    {
      PutIdentity(lib, r);
      PutRequest(lib, r);
      PutEvidence(lib, r);
    }

    method PutLate(lib: Library, r: Record)
      requires Valid()
      modifies this
      ensures Valid() && slots == Late(lib, r, old(slots))
    {
      PutEnforcement(lib, r);
      PutUpstream(lib, r.upstream);
      PutTls(lib, r.tls);
      PutVersions(lib, r);
    }
  }

  /** The builder, run field by field, produces the encoding of the rendered fields. */
  method BuildCanonical(lib: Library, r: Record) returns (b: Bytes)
    ensures b == CanonicalBytes(lib, r)
  {
    var builder := new Builder();
    builder.PutEarly(lib, r);
    builder.PutLate(lib, r);
    RenderedIs(lib, r);
    b := builder.out;
  }
}
