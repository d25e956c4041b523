/**
 The shared verdict ledger (internal/gate/redisledger.go:71-163) under arbitrary
 coordinator replies: what it serves from the coordinator was sealed for that
 session, and never steps back in time, also across sweeps of the marks.
 */
module VerdictLedger {
  import opened Text
  import opened Sealing

  const MAX_VERDICTS := 0x10_0000

  /** local: the mirror of internal/gate/enforce.go; hwm: the freshest update seen per session. */
  datatype Ledger = Ledger(local: map<string, Sticky>, hwm: map<string, int>, ttl: int)

  /** Where an answer came from. */
  datatype Served = Unknown | FromMirror(verdict: Sticky) | FromShared(verdict: Sticky)

  function LocalSet(local: map<string, Sticky>, sid: string, v: Sticky): map<string, Sticky> {
    if sid !in local && |local| >= MAX_VERDICTS then local else local[sid := v]
  }

  function LocalGet(l: Ledger, sid: string, now: int): Served {
    if sid !in l.local || now - l.local[sid].updated > l.ttl then Unknown else FromMirror(l.local[sid])
  }

  /** The mark of a session; the zero time if there is none. */
  function Mark(l: Ledger, sid: string): int {
    if sid in l.hwm then l.hwm[sid] else 0
  }

  function Accepted(l: Ledger, sid: string, now: int, w: Sticky): (Ledger, Served) {
    if now - w.updated > l.ttl || (sid in l.hwm && w.updated < l.hwm[sid]) then (l, LocalGet(l, sid, now))
    else (if w.updated > Mark(l, sid) then l.(hwm := l.hwm[sid := w.updated]) else l, FromShared(w))
  }

  function Got(l: Ledger, key: Option<Mac>, codec: Codec, sid: string, now: int, reply: Reply): (Ledger, Served) {
    match reply
    case Outage => (l, LocalGet(l, sid, now))
    case Nil => (l, Unknown)
    case Value(text) =>
      var payload := Open(key, VerdictPrefix() + sid, text);
      if payload.None? || payload.value !in codec.verdictOf then (l, LocalGet(l, sid, now))
      else Accepted(l, sid, now, codec.verdictOf[payload.value])
  }

  function Swept(l: Ledger, now: int): Ledger {
    l.(local := map sid | sid in l.local && now - l.local[sid].updated <= l.ttl :: l.local[sid],
       hwm := map sid | sid in l.hwm && now - l.hwm[sid] <= l.ttl :: l.hwm[sid])
  }

  class RedisVerdictLedger {
    const key: Option<Mac>
    const codec: Codec
    const ttl: int
    var local: map<string, Sticky>
    var hwm: map<string, int>

    function View(): Ledger
      reads this
    {
      Ledger(local, hwm, ttl)
    }

    constructor (ttl: int, key: Option<Mac>, codec: Codec)
      ensures View() == Ledger(map[], map[], ttl) && this.key == key && this.codec == codec
    {
      this.ttl, this.key, this.codec, local, hwm := ttl, key, codec, map[], map[];
    }

    /** The value to write, if the verdict can be rendered; it opens for this session only. */
    method Set(sid: string, v: Sticky) returns (written: Option<string>)
      modifies this
      ensures View() == old(View()).(local := LocalSet(old(local), sid, v))
      ensures written.Some? <==> v in codec.verdictText
      ensures written.Some? ==> written.value == Seal(key, VerdictPrefix() + sid, codec.verdictText[v])
    {
      if sid in local || |local| < MAX_VERDICTS {
        local := local[sid := v];
      }
      if v !in codec.verdictText {
        return None;
      }
      return Some(Seal(key, VerdictPrefix() + sid, codec.verdictText[v]));
    }

    method Get(sid: string, now: int, reply: Reply) returns (served: Served)
      modifies this
      ensures (View(), served) == Got(old(View()), key, codec, sid, now, reply)
    {
      if reply.Outage? {
        return LocalGet(View(), sid, now);
      }
      if reply.Nil? {
        return Unknown;
      }
      var payload := Open(key, VerdictPrefix() + sid, reply.text);
      if payload.None? || payload.value !in codec.verdictOf {
        return LocalGet(View(), sid, now);
      }
      var w := codec.verdictOf[payload.value];
      if now - w.updated > ttl {
        return LocalGet(View(), sid, now);
      }
      if sid in hwm && w.updated < hwm[sid] {
        return LocalGet(View(), sid, now);
      }
      if w.updated > Mark(View(), sid) {
        hwm := hwm[sid := w.updated];
      }
      return FromShared(w);
    }

    method GC(now: int)
      modifies this
      ensures View() == Swept(old(View()), now)
    {
      ghost var was := View();
      local := map sid | sid in local && now - local[sid].updated <= ttl :: local[sid];
      var todo := hwm.Keys;
      while todo != {}
        invariant local == Swept(was, now).local && todo <= was.hwm.Keys
        invariant forall sid :: sid in hwm <==> sid in was.hwm && (sid in todo || now - was.hwm[sid] <= ttl)
        invariant forall sid :: sid in hwm ==> hwm[sid] == was.hwm[sid]
        decreases todo
      {
        var sid :| sid in todo;
        if now - hwm[sid] > ttl {
          hwm := hwm - {sid};
        }
        todo := todo - {sid};
      }
    }
  }

  // ---------------------------------------------------------------- whole runs

  /** One call at a moment; a Get comes with the coordinator's reply. */
  datatype Event = Set(sid: string, verdict: Sticky, now: int) | Get(sid: string, now: int, reply: Reply) | GC(now: int)

  function Step(l: Ledger, mac: Mac, codec: Codec, e: Event): Ledger {
    match e
    case Set(sid, v, _) => l.(local := LocalSet(l.local, sid, v))
    case Get(sid, now, reply) => Got(l, Some(mac), codec, sid, now, reply).0
    case GC(now) => Swept(l, now)
  }

  function After(l: Ledger, mac: Mac, codec: Codec, events: seq<Event>): Ledger {
    if events == [] then l else Step(After(l, mac, codec, events[..|events| - 1]), mac, codec, events[|events| - 1])
  }

  /** The answer to the i-th event, a Get. */
  function AnswerTo(l: Ledger, mac: Mac, codec: Codec, events: seq<Event>, i: nat): Served
    requires i < |events| && events[i].Get?
  {
    var e := events[i];
    Got(After(l, mac, codec, events[..i]), Some(mac), codec, e.sid, e.now, e.reply).1
  }

  /** The clock never goes back. */
  ghost predicate InOrder(events: seq<Event>) {
    forall i, j :: 0 <= i < j < |events| ==> events[i].now <= events[j].now
  }

  /** The clock never goes back, and stands more than one ttl past the zero time. */
  ghost predicate Orderly(events: seq<Event>, ttl: int) {
    InOrder(events) && forall i :: 0 <= i < |events| ==> events[i].now > ttl
  }

  /** Nothing older than u can be served from the coordinator at `clock` or later. */
  predicate Guarded(l: Ledger, sid: string, u: int, clock: int) {
    (sid in l.hwm && l.hwm[sid] >= u) || clock - u > l.ttl
  }

  lemma StepGuards(l: Ledger, mac: Mac, codec: Codec, e: Event, sid: string, u: int, clock: int)
    requires Guarded(l, sid, u, clock) && clock <= e.now
    ensures Guarded(Step(l, mac, codec, e), sid, u, e.now)
  {
    if e.GC? && sid in l.hwm && e.now - l.hwm[sid] > l.ttl {
      assert clock - u > l.ttl || e.now - u > l.ttl;
    }
  }

  /** A verdict served from the coordinator raises the guard, and respects the one that stands. */
  lemma SharedGuards(l: Ledger, mac: Mac, codec: Codec, e: Event, u: int, clock: int)
    requires e.Get? && e.now > l.ttl && clock <= e.now
    requires Got(l, Some(mac), codec, e.sid, e.now, e.reply).1.FromShared?
    ensures var w := Got(l, Some(mac), codec, e.sid, e.now, e.reply).1.verdict;
      && Guarded(Step(l, mac, codec, e), e.sid, w.updated, e.now)
      && (Guarded(l, e.sid, u, clock) ==> u <= w.updated)
  {
  }

  lemma AfterNext(l: Ledger, mac: Mac, codec: Codec, events: seq<Event>, k: nat, m: nat)
    requires k < |events| && m == k + 1
    ensures After(l, mac, codec, events[..m]) == Step(After(l, mac, codec, events[..k]), mac, codec, events[k])
  {
    var front := events[..m];
    assert front[..|front| - 1] == events[..k] && front[|front| - 1] == events[k];
  }

  lemma {:induction false} TtlFixed(l: Ledger, mac: Mac, codec: Codec, events: seq<Event>)
    ensures After(l, mac, codec, events).ttl == l.ttl
  {
    if events != [] {
      TtlFixed(l, mac, codec, events[..|events| - 1]);
    }
  }

  lemma {:induction false} GuardLasts(l: Ledger, mac: Mac, codec: Codec, events: seq<Event>, i: nat, k: nat,
                                      sid: string, u: int)
    requires i < k <= |events| && Orderly(events, l.ttl)
    requires Guarded(After(l, mac, codec, events[..i + 1]), sid, u, events[i].now)
    ensures Guarded(After(l, mac, codec, events[..k]), sid, u, events[k - 1].now)
    decreases k
  {
    if k == i + 1 {
      assert events[..k] == events[..i + 1];
    } else {
      GuardLasts(l, mac, codec, events, i, k - 1, sid, u);
      GuardNext(l, mac, codec, events, k - 1, k, sid, u, events[k - 2].now);
    }
  }

  lemma GuardNext(l: Ledger, mac: Mac, codec: Codec, events: seq<Event>, k: nat, m: nat, sid: string, u: int,
                  clock: int)
    requires k < |events| && m == k + 1
    requires clock <= events[k].now && Guarded(After(l, mac, codec, events[..k]), sid, u, clock)
    ensures Guarded(After(l, mac, codec, events[..m]), sid, u, events[k].now)
  {
    AfterNext(l, mac, codec, events, k, m);
    StepGuards(After(l, mac, codec, events[..k]), mac, codec, events[k], sid, u, clock);
  }

  /** From any state, verdicts served from the coordinator for a session have nondecreasing stamps. */
  lemma NeverSteppingBack(l: Ledger, mac: Mac, codec: Codec, events: seq<Event>, i: nat, j: nat)
    requires Orderly(events, l.ttl) && i < j < |events|
    requires events[i].Get? && events[j].Get? && events[i].sid == events[j].sid
    requires AnswerTo(l, mac, codec, events, i).FromShared? && AnswerTo(l, mac, codec, events, j).FromShared?
    ensures AnswerTo(l, mac, codec, events, i).verdict.updated <= AnswerTo(l, mac, codec, events, j).verdict.updated
  {
    var u := AnswerTo(l, mac, codec, events, i).verdict.updated;
    TtlFixed(l, mac, codec, events[..i]);
    TtlFixed(l, mac, codec, events[..j]);
    SharedGuards(After(l, mac, codec, events[..i]), mac, codec, events[i], u, events[i].now);
    AfterNext(l, mac, codec, events, i, i + 1);
    GuardLasts(l, mac, codec, events, i, j, events[i].sid, u);
    SharedGuards(After(l, mac, codec, events[..j]), mac, codec, events[j], u, events[j - 1].now);
  }

  /** In any state, for any reply without a forged tag, a served verdict was sealed for this session and is fresh. */
  lemma ServedWasSealed(l: Ledger, mac: Mac, codec: Codec, issued: set<Sealed>, sid: string, now: int, reply: Reply)
    requires Faithful(codec) && Answerable(mac, codec, issued, VerdictPrefix() + sid, reply)
    requires Got(l, Some(mac), codec, sid, now, reply).1.FromShared?
    ensures var w := Got(l, Some(mac), codec, sid, now, reply).1.verdict;
      OfVerdict(sid, w) in issued && now - w.updated <= l.ttl
  {
    var payload := Open(Some(mac), VerdictPrefix() + sid, reply.text).value;
    VerdictAuthentic(mac, codec, issued, sid, reply.text, payload);
  }

  /** What one node writes another serves, exactly when it is fresh and not behind the mark. */
  lemma SharedAcrossNodes(l: Ledger, mac: Mac, codec: Codec, sid: string, v: Sticky, now: int)
    requires HexTags(mac) && Faithful(codec) && v in codec.verdictText
    ensures var reply := Value(Seal(Some(mac), VerdictPrefix() + sid, codec.verdictText[v]));
      Got(l, Some(mac), codec, sid, now, reply).1 == FromShared(v)
      <==> now - v.updated <= l.ttl && (sid in l.hwm ==> l.hwm[sid] <= v.updated)
  {
    var ctx, payload := VerdictPrefix() + sid, codec.verdictText[v];
    OpenExactly(mac, ctx, Seal(Some(mac), ctx, payload), payload);
  }

  // ---------------------------------------------------------------- the mirror

  /** The k-th event set this verdict, and no later event before the n-th set another for the session. */
  ghost predicate LastSet(events: seq<Event>, k: nat, n: nat, sid: string, v: Sticky) {
    && k < n <= |events| && events[k].Set? && events[k].sid == sid && events[k].verdict == v
    && forall j :: k < j < n ==> !(events[j].Set? && events[j].sid == sid)
  }

  ghost predicate Mirrored(events: seq<Event>, n: nat, sid: string, v: Sticky) {
    exists k: nat :: LastSet(events, k, n, sid, v)
  }

  lemma {:induction false} MirrorFollows(ttl: int, mac: Mac, codec: Codec, events: seq<Event>, n: nat, sid: string)
    requires n <= |events| && sid in After(Ledger(map[], map[], ttl), mac, codec, events[..n]).local
    ensures Mirrored(events, n, sid, After(Ledger(map[], map[], ttl), mac, codec, events[..n]).local[sid])
  {
    var empty := Ledger(map[], map[], ttl);
    if n > 0 {
      var m := n - 1;
      AfterNext(empty, mac, codec, events, m, n);
      var was, now := After(empty, mac, codec, events[..m]), After(empty, mac, codec, events[..n]);
      if events[m].Set? && events[m].sid == sid {
        assert LastSet(events, m, n, sid, now.local[sid]);
      } else {
        MirrorFollows(ttl, mac, codec, events, m, sid);
        var k: nat :| LastSet(events, k, m, sid, was.local[sid]);
        assert LastSet(events, k, n, sid, now.local[sid]);
      }
    }
  }

  /** An answer from the mirror is the verdict this node set last for the session, and fresh. */
  lemma MirrorIsLastSet(ttl: int, mac: Mac, codec: Codec, events: seq<Event>, i: nat)
    requires i < |events| && events[i].Get?
    requires AnswerTo(Ledger(map[], map[], ttl), mac, codec, events, i).FromMirror?
    ensures var v := AnswerTo(Ledger(map[], map[], ttl), mac, codec, events, i).verdict;
      Mirrored(events, i, events[i].sid, v) && events[i].now - v.updated <= ttl
  {
    TtlFixed(Ledger(map[], map[], ttl), mac, codec, events[..i]);
    MirrorFollows(ttl, mac, codec, events, i, events[i].sid);
  }

  /** The coordinator cannot be asked, or what it gives does not open as a verdict for the session. */
  predicate Unreadable(mac: Mac, codec: Codec, sid: string, reply: Reply) {
    reply.Outage? || (reply.Value? &&
    (var payload := Open(Some(mac), VerdictPrefix() + sid, reply.text);
     payload.None? || payload.value !in codec.verdictOf))
  }

  /** The mirror holds the verdict, or the verdict is stale. */
  predicate Kept(l: Ledger, sid: string, v: Sticky, clock: int) {
    (sid in l.local ==> l.local[sid] == v) && (sid in l.local || clock - v.updated > l.ttl)
  }

  lemma StepKeeps(l: Ledger, mac: Mac, codec: Codec, e: Event, sid: string, v: Sticky, clock: int)
    requires Kept(l, sid, v, clock) && clock <= e.now && !(e.Set? && e.sid == sid)
    ensures Kept(Step(l, mac, codec, e), sid, v, e.now)
  {
    match e
    case Set(_, _, _) =>
    case Get(s, now, reply) => GotKeepsMirror(l, mac, codec, s, now, reply);
    case GC(now) => SweptKeeps(l, now, sid, v, clock);
  }

  lemma GotKeepsMirror(l: Ledger, mac: Mac, codec: Codec, sid: string, now: int, reply: Reply)
    ensures Got(l, Some(mac), codec, sid, now, reply).0.local == l.local
    ensures Got(l, Some(mac), codec, sid, now, reply).0.ttl == l.ttl
  {
  }

  lemma SweptKeeps(l: Ledger, now: int, sid: string, v: Sticky, clock: int)
    requires Kept(l, sid, v, clock) && clock <= now
    ensures Kept(Swept(l, now), sid, v, now)
  {
  }

  lemma SetKept(l: Ledger, mac: Mac, codec: Codec, e: Event)
    requires e.Set? && (e.sid in l.local || |l.local| < MAX_VERDICTS)
    ensures Kept(Step(l, mac, codec, e), e.sid, e.verdict, e.now)
  {
  }

  lemma {:induction false} KeptLasts(l: Ledger, mac: Mac, codec: Codec, events: seq<Event>, k: nat, n: nat,
                                     sid: string, v: Sticky)
    requires InOrder(events) && LastSet(events, k, n, sid, v)
    requires sid in After(l, mac, codec, events[..k]).local || |After(l, mac, codec, events[..k]).local| < MAX_VERDICTS
    ensures Kept(After(l, mac, codec, events[..n]), sid, v, events[n - 1].now)
    decreases n
  {
    var m := n - 1;
    AfterNext(l, mac, codec, events, m, n);
    if k == m {
      SetKept(After(l, mac, codec, events[..k]), mac, codec, events[k]);
    } else {
      KeptLasts(l, mac, codec, events, k, m, sid, v);
      StepKeeps(After(l, mac, codec, events[..m]), mac, codec, events[m], sid, v, events[m - 1].now);
    }
  }

  /**
   When the coordinator is no help, the verdict this node set last for the session is served exactly while it is
   fresh, unless the mirror was full when it was set.
   */
  lemma OutageServesLastSet(l: Ledger, mac: Mac, codec: Codec, events: seq<Event>, k: nat, i: nat, v: Sticky)
    requires InOrder(events) && i < |events| && events[i].Get?
    requires Unreadable(mac, codec, events[i].sid, events[i].reply)
    requires LastSet(events, k, i, events[i].sid, v)
    requires events[i].sid in After(l, mac, codec, events[..k]).local
      || |After(l, mac, codec, events[..k]).local| < MAX_VERDICTS
    ensures AnswerTo(l, mac, codec, events, i) == if events[i].now - v.updated <= l.ttl then FromMirror(v) else Unknown
  {
    KeptLasts(l, mac, codec, events, k, i, events[i].sid, v);
    TtlFixed(l, mac, codec, events[..i]);
  }
}
