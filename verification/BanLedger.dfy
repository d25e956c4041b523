/**
 The shared ban ledger (internal/gate/redisledger.go:165-275) under arbitrary
 coordinator replies: a ban this node has lifted does not come back while the lift
 is remembered, whatever sealed bytes the coordinator serves again.
 */
module BanLedger {
  import opened Text
  import opened Ban
  import opened Sealing

  const LIFT_EPOCH_TTL: int := 30 * 24 * HOUR

  const MILLISECOND: int := 1_000_000

  datatype Ledger = Ledger(local: Store, liftEpoch: map<string, int>)

  /** Where a reported ban came from. */
  datatype Report = Free | FromMirror(ban: BanEntry) | FromShared(ban: BanEntry)

  /** The mirror's answer, with its lazy expiry. */
  function Fallback(l: Ledger, key: string, now: int): (Ledger, Report) {
    var ban := Banned(l.local, key, now);
    (l.(local := Handled(l.local, Call.Check(key, now)).0), if ban.Some? then FromMirror(ban.value) else Free)
  }

  predicate Resurrected(l: Ledger, key: string, b: BanEntry) {
    key in l.liftEpoch && b.created <= l.liftEpoch[key]
  }

  /** The mirror reads the clock again. */
  function Looked(l: Ledger, sign: Option<Mac>, codec: Codec, key: string, now: int, later: int,
                  reply: Reply): (Ledger, Report) {
    match reply
    case Outage => Fallback(l, key, later)
    case Nil => (l, Free)
    case Value(text) =>
      var payload := Open(sign, BanPrefix() + key, text);
      if payload.None? || payload.value !in codec.banOf then Fallback(l, key, later)
      else
        var b := codec.banOf[payload.value];
        if b.key != key then Fallback(l, key, later)
        else if !Active(b, now) then (l, Free)
        else if Resurrected(l, key, b) then Fallback(l, key, later)
        else (l, FromShared(b))
  }

  /** A request rated at the given level. */
  function Observed(l: Ledger, key: string, now: int, level: nat): (Ledger, Report) {
    if level < 2 then (l, Free)
    else
      var (local, e) := Struck(l.local, key, now);
      (l.(local := local), FromMirror(e))
  }

  /** The value written through for a ban: none once less than a millisecond of it is left. */
  function Written(sign: Option<Mac>, codec: Codec, key: string, b: BanEntry, now: int): Option<string> {
    if b !in codec.banText || (b.until.Some? && b.until.value - now < MILLISECOND) then None
    else Some(Seal(sign, BanPrefix() + key, codec.banText[b]))
  }

  function LiftedAt(l: Ledger, key: string, now: int): Ledger {
    Ledger(Handled(l.local, Call.Lift(key)).0, l.liftEpoch[key := now])
  }

  function Swept(l: Ledger, now: int): Ledger {
    Ledger(Forgotten(Expired(l.local, now), now),
           map key | key in l.liftEpoch && now - l.liftEpoch[key] <= LIFT_EPOCH_TTL :: l.liftEpoch[key])
  }

  class RedisBanLedger {
    const sign: Option<Mac>
    const codec: Codec
    var local: Store
    var liftEpoch: map<string, int>

    function View(): Ledger
      reads this
    {
      Ledger(local, liftEpoch)
    }

    constructor (local: Store, sign: Option<Mac>, codec: Codec)
      ensures View() == Ledger(local, map[]) && this.sign == sign && this.codec == codec
    {
      this.local, this.sign, this.codec, liftEpoch := local, sign, codec, map[];
    }

    method CheckMirror(key: string, now: int) returns (report: Report)
      modifies this
      ensures (View(), report) == Fallback(old(View()), key, now)
    {
      var ban := Banned(local, key, now);
      local := Handled(local, Call.Check(key, now)).0;
      report := if ban.Some? then FromMirror(ban.value) else Free;
    }

    method Check(key: string, now: int, later: int, reply: Reply) returns (report: Report)
      modifies this
      ensures (View(), report) == Looked(old(View()), sign, codec, key, now, later, reply)
    {
      if reply.Outage? {
        report := CheckMirror(key, later);
        return;
      }
      if reply.Nil? {
        return Free;
      }
      var payload := Open(sign, BanPrefix() + key, reply.text);
      if payload.None? || payload.value !in codec.banOf || codec.banOf[payload.value].key != key {
        report := CheckMirror(key, later);
        return;
      }
      var b := codec.banOf[payload.value];
      if !Active(b, now) {
        return Free;
      }
      if key in liftEpoch && !(b.created > liftEpoch[key]) {
        report := CheckMirror(key, later);
        return;
      }
      return FromShared(b);
    }

    /** The level is what the rate limiter, shared or local, makes of the request. */
    method Observe(key: string, now: int, end: int, rated: nat)
      returns (report: Report, level: nat, written: Option<string>)
      modifies this
      ensures (View(), report) == Observed(old(View()), key, now, rated) && level == rated
      ensures written == if report.FromMirror? then Written(sign, codec, key, report.ban, end) else None
    {
      level := rated;
      if level < 2 {
        return Free, level, None;
      }
      var struck := Struck(local, key, now);
      local := struck.0;
      return FromMirror(struck.1), level, Written(sign, codec, key, struck.1, end);
    }

    method Add(key: string, reason: string, operator: string, incident: string, dur: int, now: int, end: int)
      returns (entry: BanEntry, written: Option<string>)
      modifies this
      ensures entry == Entry(key, reason, Manual, operator, incident, dur, 0, now)
      ensures View() == old(View()).(
        local := Handled(old(local), Call.Add(key, reason, operator, incident, dur, now)).0)
      ensures written == Written(sign, codec, key, entry, end)
    {
      entry := Entry(key, reason, Manual, operator, incident, dur, 0, now);
      local := local.(bans := local.bans[key := entry]);
      written := Written(sign, codec, key, entry, end);
    }

    method Lift(key: string, now: int) returns (existed: bool)
      modifies this
      ensures View() == LiftedAt(old(View()), key, now) && existed == (key in old(local).bans)
    {
      existed := key in local.bans;
      local := Handled(local, Call.Lift(key)).0;
      liftEpoch := liftEpoch[key := now];
    }

    method GC(now: int)
      modifies this
      ensures View() == Swept(old(View()), now)
    {
      ghost var was := View();
      local := Forgotten(Expired(local, now), now);
      var todo := liftEpoch.Keys;
      while todo != {}
        invariant local == Swept(was, now).local && todo <= was.liftEpoch.Keys
        invariant forall key :: key in liftEpoch <==>
          key in was.liftEpoch && (key in todo || now - was.liftEpoch[key] <= LIFT_EPOCH_TTL)
        invariant forall key :: key in liftEpoch ==> liftEpoch[key] == was.liftEpoch[key]
        decreases todo
      {
        var key :| key in todo;
        if now - liftEpoch[key] > LIFT_EPOCH_TTL {
          liftEpoch := liftEpoch - {key};
        }
        todo := todo - {key};
      }
    }
  }

  // ---------------------------------------------------------------- whole runs

  /** One call at a moment, and the last clock reading it makes. */
  datatype Event =
    | Check(key: string, now: int, end: int, reply: Reply)
    | Observe(key: string, now: int, end: int, level: nat)
    | Add(key: string, reason: string, operator: string, incident: string, dur: int, now: int, end: int)
    | Lift(key: string, now: int, end: int)
    | GC(now: int, end: int)
    | List(now: int, end: int)

  function Step(l: Ledger, mac: Mac, codec: Codec, e: Event): (Ledger, Report) {
    match e
    case Check(key, now, later, reply) => Looked(l, Some(mac), codec, key, now, later, reply)
    case Observe(key, now, _, level) => Observed(l, key, now, level)
    case Add(key, reason, operator, incident, dur, now, _) =>
      (l.(local := Handled(l.local, Call.Add(key, reason, operator, incident, dur, now)).0),
       FromMirror(Entry(key, reason, Manual, operator, incident, dur, 0, now)))
    case Lift(key, now, _) => (LiftedAt(l, key, now), Free)
    case GC(now, _) => (Swept(l, now), Free)
    case List(now, _) => (l.(local := Expired(l.local, now)), Free)
  }

  function After(l: Ledger, mac: Mac, codec: Codec, events: seq<Event>): Ledger {
    if events == [] then l else Step(After(l, mac, codec, events[..|events| - 1]), mac, codec, events[|events| - 1]).0
  }

  function ReportAt(l: Ledger, mac: Mac, codec: Codec, events: seq<Event>, i: nat): Report
    requires i < |events|
  {
    Step(After(l, mac, codec, events[..i]), mac, codec, events[i]).1
  }

  ghost predicate Orderly(events: seq<Event>) {
    && (forall i :: 0 <= i < |events| ==> events[i].now <= events[i].end)
    && (forall i, j :: 0 <= i < j < |events| ==> events[i].end <= events[j].now)
  }

  /** The lift of key at time t is remembered, or its time is over; the mirror holds nothing older. */
  predicate Guarded(l: Ledger, key: string, t: int, clock: int) {
    && ((key in l.liftEpoch && l.liftEpoch[key] >= t) || clock - t > LIFT_EPOCH_TTL)
    && (key in l.local.bans ==> l.local.bans[key].created >= t)
  }

  lemma LiftGuards(l: Ledger, mac: Mac, codec: Codec, e: Event)
    requires e.Lift?
    ensures Guarded(Step(l, mac, codec, e).0, e.key, e.now, e.now)
  {
  }

  /** A guard outlives every call, and every ban reported under it is younger than the lift. */
  lemma StepGuards(l: Ledger, mac: Mac, codec: Codec, e: Event, key: string, t: int, clock: int)
    requires Guarded(l, key, t, clock) && t <= clock <= e.now <= e.end
    ensures Guarded(Step(l, mac, codec, e).0, key, t, e.end)
    ensures (e.Check? || e.Observe?) && e.key == key && e.now - t <= LIFT_EPOCH_TTL ==>
      var report := Step(l, mac, codec, e).1;
      (report.FromMirror? ==> report.ban.created >= t) && (report.FromShared? ==> report.ban.created > t)
  {
    match e
    case Check(k, now, end, reply) => CheckGuards(l, mac, codec, k, now, end, reply, key, t, clock);
    case Observe(k, now, end, level) => ObserveGuards(l, k, now, end, level, key, t, clock);
    case _ =>
  }

  lemma FallbackGuards(l: Ledger, k: string, now: int, key: string, t: int, clock: int)
    requires Guarded(l, key, t, clock) && clock <= now
    ensures Guarded(Fallback(l, k, now).0, key, t, now) && !Fallback(l, k, now).1.FromShared?
    ensures k == key && Fallback(l, k, now).1.FromMirror? ==> Fallback(l, k, now).1.ban.created >= t
  {
  }

  lemma CheckGuards(l: Ledger, mac: Mac, codec: Codec, k: string, now: int, end: int, reply: Reply,
                    key: string, t: int, clock: int)
    requires Guarded(l, key, t, clock) && t <= clock <= now <= end
    ensures var (after, report) := Looked(l, Some(mac), codec, k, now, end, reply);
      && Guarded(after, key, t, end)
      && (k == key && now - t <= LIFT_EPOCH_TTL ==>
            (report.FromMirror? ==> report.ban.created >= t) && (report.FromShared? ==> report.ban.created > t))
  {
    FallbackGuards(l, k, end, key, t, clock);
  }

  lemma ObserveGuards(l: Ledger, k: string, now: int, end: int, level: nat, key: string, t: int, clock: int)
    requires Guarded(l, key, t, clock) && t <= clock <= now <= end
    ensures var (after, report) := Observed(l, k, now, level);
      && Guarded(after, key, t, end) && !report.FromShared?
      && (k == key && report.FromMirror? ==> report.ban.created >= t)
  {
  }

  lemma AfterNext(l: Ledger, mac: Mac, codec: Codec, events: seq<Event>, k: nat, m: nat)
    requires k < |events| && m == k + 1
    ensures After(l, mac, codec, events[..m]) == Step(After(l, mac, codec, events[..k]), mac, codec, events[k]).0
  {
    var front := events[..m];
    assert front[..|front| - 1] == events[..k] && front[|front| - 1] == events[k];
  }

  lemma {:induction false} GuardLasts(l: Ledger, mac: Mac, codec: Codec, events: seq<Event>, i: nat, k: nat)
    requires i < k <= |events| && Orderly(events) && events[i].Lift?
    ensures Guarded(After(l, mac, codec, events[..k]), events[i].key, events[i].now, events[k - 1].end)
    ensures events[i].now <= events[k - 1].end
    decreases k
  {
    if k == i + 1 {
      LiftGuards(After(l, mac, codec, events[..i]), mac, codec, events[i]);
      AfterNext(l, mac, codec, events, i, i + 1);
    } else {
      GuardLasts(l, mac, codec, events, i, k - 1);
      AfterNext(l, mac, codec, events, k - 1, k);
      var before := After(l, mac, codec, events[..k - 1]);
      StepGuards(before, mac, codec, events[k - 1], events[i].key, events[i].now, events[k - 2].end);
    }
  }

  /**
   No resurrection: from any state, in any run with any replies, once this node has
   lifted a ban, what it reports for that key within the next 30 days was created
   no earlier than the lift, and strictly later if it came from the coordinator.
   */
  lemma NoResurrection(l: Ledger, mac: Mac, codec: Codec, events: seq<Event>, i: nat, j: nat)
    requires Orderly(events) && i < j < |events|
    requires events[i].Lift? && (events[j].Check? || events[j].Observe?) && events[j].key == events[i].key
    requires events[j].now - events[i].now <= LIFT_EPOCH_TTL
    ensures var report, lifted := ReportAt(l, mac, codec, events, j), events[i].now;
      && (report.FromMirror? ==> report.ban.created >= lifted)
      && (report.FromShared? ==> report.ban.created > lifted)
  {
    GuardLasts(l, mac, codec, events, i, j);
    var before := After(l, mac, codec, events[..j]);
    StepGuards(before, mac, codec, events[j], events[i].key, events[i].now, events[j - 1].end);
  }

  /** A ban reported from the coordinator was sealed for this key, is in force and not lifted. */
  lemma ReportedWasSealed(l: Ledger, mac: Mac, codec: Codec, issued: set<Sealed>, key: string, now: int, later: int,
                          reply: Reply)
    requires Faithful(codec) && Answerable(mac, codec, issued, BanPrefix() + key, reply)
    requires Looked(l, Some(mac), codec, key, now, later, reply).1.FromShared?
    ensures var b := Looked(l, Some(mac), codec, key, now, later, reply).1.ban;
      OfBan(key, b) in issued && b.key == key && Active(b, now) && !Resurrected(l, key, b)
  {
    var payload := Open(Some(mac), BanPrefix() + key, reply.text).value;
    BanAuthentic(mac, codec, issued, key, reply.text, payload);
  }

  /**
   A ban with at least a millisecond left is written, and what one node writes another reports, exactly while it
   is in force and unless it predates a lift there.
   */
  lemma SharedAcrossNodes(l: Ledger, mac: Mac, codec: Codec, b: BanEntry, wrote: int, now: int, later: int)
    requires HexTags(mac) && Faithful(codec) && b in codec.banText
    ensures var text := Written(Some(mac), codec, b.key, b, wrote);
      && (text.Some? <==> b.until.None? || b.until.value - wrote >= 1_000_000)
      && (text.Some? ==>
            (Looked(l, Some(mac), codec, b.key, now, later, Value(text.value)).1 == FromShared(b)
             <==> Before(now, b.until) && (b.key in l.liftEpoch ==> b.created > l.liftEpoch[b.key])))
  {
    var ctx, payload := BanPrefix() + b.key, codec.banText[b];
    OpenExactly(mac, ctx, Seal(Some(mac), ctx, payload), payload);
  }

  // ---------------------------------------------------------------- the mirror stands in

  /** The coordinator cannot be asked, or what it gives does not open as a ban of the key. */
  predicate Unreadable(mac: Mac, codec: Codec, key: string, reply: Reply) {
    reply.Outage? || (reply.Value? &&
    (var payload := Open(Some(mac), BanPrefix() + key, reply.text);
     payload.None? || payload.value !in codec.banOf || codec.banOf[payload.value].key != key))
  }

  /** No other manual ban or lift of the key between the two events. */
  ghost predicate LeftBetween(events: seq<Event>, k: nat, n: nat, key: string) {
    k < n <= |events| && forall j :: k < j < n ==> !((events[j].Add? || events[j].Lift?) && events[j].key == key)
  }

  lemma StepHoldsBan(l: Ledger, mac: Mac, codec: Codec, e: Event, key: string, b: BanEntry)
    requires Holds(l.local, key, b) && !((e.Add? || e.Lift?) && e.key == key)
    requires e.now <= e.end && Before(e.end, b.until)
    ensures Holds(Step(l, mac, codec, e).0.local, key, b)
  {
  }

  lemma {:induction false} BanLasts(l: Ledger, mac: Mac, codec: Codec, events: seq<Event>, k: nat, n: nat,
                                    key: string, b: BanEntry)
    requires Orderly(events) && LeftBetween(events, k, n, key)
    requires (events[k].Add? || events[k].Observe?) && events[k].key == key
    requires ReportAt(l, mac, codec, events, k) == FromMirror(b) && Before(events[n - 1].end, b.until)
    ensures Holds(After(l, mac, codec, events[..n]).local, key, b)
    decreases n
  {
    var m := n - 1;
    AfterNext(l, mac, codec, events, m, n);
    if k < m {
      BanLasts(l, mac, codec, events, k, m, key, b);
      StepHoldsBan(After(l, mac, codec, events[..m]), mac, codec, events[m], key, b);
    }
  }

  /** When the coordinator is no help, a ban made here and not lifted is reported until its end. */
  lemma OutageReportsBan(l: Ledger, mac: Mac, codec: Codec, events: seq<Event>, k: nat, i: nat, b: BanEntry)
    requires Orderly(events) && k < i < |events| && events[i].Check?
    requires Unreadable(mac, codec, events[i].key, events[i].reply) && LeftBetween(events, k, i, events[i].key)
    requires (events[k].Add? || events[k].Observe?) && events[k].key == events[i].key
    requires ReportAt(l, mac, codec, events, k) == FromMirror(b) && Before(events[i].end, b.until)
    ensures ReportAt(l, mac, codec, events, i) == FromMirror(b)
  {
    BanLasts(l, mac, codec, events, k, i, events[i].key, b);
  }
}
