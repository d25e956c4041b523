/**
 Progressive bans (internal/gate/ban.go) over the sliding-window limiter: lazy
 expiry, sweeping and listing are invisible. Every run answers as a store that
 never removes anything by itself.
 */
module Ban {
  import opened RateLimit
  import opened Text

  const HOUR: int := 3600_000_000_000
  const STRIKE_DECAY: int := 7 * 24 * HOUR
  const AUTO_REASON: string := "rate limit exceeded (auto)"

  datatype Origin = Auto | Manual

  /** until is None for a permanent ban. */
  datatype BanEntry = BanEntry(key: string, reason: string, source: Origin, operator: string, incident: string,
                               created: int, until: Option<int>, strike: nat)

  datatype StrikeRec = StrikeRec(count: nat, last: int)

  predicate Active(b: BanEntry, now: int) {
    b.until.None? || now < b.until.value
  }

  /** Zero means permanent. */
  function Escalation(strike: nat): int {
    if strike <= 1 then HOUR else if strike == 2 then 6 * HOUR else if strike == 3 then 24 * HOUR else 0
  }

  datatype Store = Store(limits: Limits, bans: map<string, BanEntry>, strikes: map<string, StrikeRec>)

  predicate Fresh(st: StrikeRec, now: int) {
    now - st.last <= STRIKE_DECAY
  }

  /** The ban in force. */
  function Banned(s: Store, key: string, now: int): Option<BanEntry> {
    if key in s.bans && Active(s.bans[key], now) then Some(s.bans[key]) else None
  }

  /** The strikes that still count. */
  function Remembered(s: Store, key: string, now: int): Option<StrikeRec> {
    if key in s.strikes && Fresh(s.strikes[key], now) then Some(s.strikes[key]) else None
  }

  function Entry(key: string, reason: string, source: Origin, operator: string, incident: string, dur: int,
                 strike: nat, now: int): BanEntry {
    BanEntry(key, reason, source, operator, incident, now, if dur > 0 then Some(now + dur) else None, strike)
  }

  function Expired(s: Store, now: int): Store {
    s.(bans := map key | key in s.bans && Active(s.bans[key], now) :: s.bans[key])
  }

  function Forgotten(s: Store, now: int): Store {
    s.(strikes := map key | key in s.strikes && Fresh(s.strikes[key], now) :: s.strikes[key])
  }

  /** A hard breach: the ban in force stays; otherwise one more strike and its ban. */
  function Struck(s: Store, key: string, now: int): (Store, BanEntry) {
    if Banned(s, key, now).Some? then (s, s.bans[key])
    else
      var st := Remembered(s, key, now);
      var count := if st.Some? then st.value.count + 1 else 1;
      var e := Entry(key, AUTO_REASON, Auto, "", "", Escalation(count), count, now);
      (Put(s, key, e, StrikeRec(count, now)), e)
  }

  function Put(s: Store, key: string, e: BanEntry, st: StrikeRec): Store {
    s.(strikes := s.strikes[key := st], bans := s.bans[key := e])
  }

  // ---------------------------------------------------------------- calls and answers

  /** Observe reads the clock twice, for the ban and for the limiter. */
  datatype Call =
    | Check(key: string, now: int)
    | Observe(key: string, now: int, later: int)
    | ObserveRate(key: string, now: int)
    | Add(key: string, reason: string, operator: string, incident: string, dur: int, now: int)
    | Lift(key: string)
    | Configure(window: int, soft: int, hard: int)
    | Sweep(now: int, seen: set<string>)
    | List(now: int)

  datatype Answer =
    | Done
    | Checked(ban: Option<BanEntry>)
    | Rated(level: nat)
    | Judged(entry: Option<BanEntry>, level: nat)
    | Added(ban: Option<BanEntry>)
    | Lifted(existed: bool)
    | Listed(bans: map<string, BanEntry>)

  /** A rated request, given what the limiter made of it. */
  function Rating(s: Store, limits: Limits, count: nat, key: string, now: int): (Store, Answer) {
    var rated, level := s.(limits := limits), Level(limits, count);
    if level < 2 then (rated, Judged(None, level))
    else
      var (after, e) := Struck(rated, key, now);
      (after, Judged(Some(e), level))
  }

  /** The store of the source. */
  function Handled(s: Store, c: Call): (Store, Answer) {
    match c
    case Check(key, now) =>
      (if key in s.bans && !Active(s.bans[key], now) then s.(bans := s.bans - {key}) else s,
       Checked(Banned(s, key, now)))
    case Observe(key, now, later) =>
      var (limits, count) := Observed(s.limits, key, later);
      Rating(s, limits, count, key, now)
    case ObserveRate(key, now) =>
      var (limits, count) := Observed(s.limits, key, now);
      (s.(limits := limits), Rated(Level(limits, count)))
    case Add(key, reason, operator, incident, dur, now) =>
      var e := Entry(key, reason, Manual, operator, incident, dur, 0, now);
      (s.(bans := s.bans[key := e]), Added(Some(e)))
    case Lift(key) => (s.(bans := s.bans - {key}), Lifted(key in s.bans))
    case Configure(window, soft, hard) => (s.(limits := Configured(s.limits, window, soft, hard)), Done)
    case Sweep(now, seen) => (Forgotten(Expired(s.(limits := Swept(s.limits, now, seen)), now), now), Done)
    case List(now) => (Expired(s, now), Listed(Expired(s, now).bans))
  }

  /** The store that keeps every hit, every ban not replaced or lifted, every strike. */
  function Ideal(s: Store, c: Call): (Store, Answer) {
    match c
    case Check(key, now) => (s, Checked(Banned(s, key, now)))
    case Observe(key, now, later) =>
      var (limits, count) := Recorded(s.limits, key, later);
      Rating(s, limits, count, key, now)
    case ObserveRate(key, now) =>
      var (limits, count) := Recorded(s.limits, key, now);
      (s.(limits := limits), Rated(Level(limits, count)))
    case Add(_, _, _, _, _, _) => Handled(s, c)
    case Lift(_) => Handled(s, c)
    case Configure(_, _, _) => Handled(s, c)
    case Sweep(_, _) => (s, Done)
    case List(now) => (s, Listed(Expired(s, now).bans))
  }

  class BanStore {
    var bans: map<string, BanEntry>
    var strikes: map<string, StrikeRec>
    const limiter: Limiter

    function View(): Store
      reads this, limiter
    {
      Store(limiter.View(), bans, strikes)
    }

    constructor (limiter: Limiter)
      ensures this.limiter == limiter && View() == Store(limiter.View(), map[], map[])
    {
      this.limiter, bans, strikes := limiter, map[], map[];
    }

    method CheckKey(key: string, now: int) returns (ban: Option<BanEntry>)
      modifies this
      ensures (View(), Checked(ban)) == Handled(old(View()), Check(key, now))
    {
      if key !in bans {
        return None;
      }
      if !Active(bans[key], now) {
        bans := bans - {key};
        return None;
      }
      return Some(bans[key]);
    }

    method Observe(key: string, now: int, later: int) returns (entry: Option<BanEntry>, level: nat)
      modifies this, limiter
      ensures (View(), Judged(entry, level)) == Handled(old(View()), Call.Observe(key, now, later))
    {
      level := ObserveRate(key, later);
      if level < 2 {
        return None, level;
      }
      if key in bans && Active(bans[key], now) {
        return Some(bans[key]), level;
      }
      var count := 0;
      if key in strikes && now - strikes[key].last <= STRIKE_DECAY {
        count := strikes[key].count;
      }
      count := count + 1;
      strikes := strikes[key := StrikeRec(count, now)];
      var e := Apply(key, AUTO_REASON, Auto, "", "", Escalation(count), count, now);
      return Some(e), level;
    }

    method ObserveRate(key: string, now: int) returns (level: nat)
      modifies limiter
      ensures (View(), Rated(level)) == Handled(old(View()), Call.ObserveRate(key, now))
    {
      var count := limiter.Observe(key, now);
      level := limiter.Classify(count);
    }

    method ConfigureRate(window: int, soft: int, hard: int)
      modifies limiter
      ensures View() == Handled(old(View()), Configure(window, soft, hard)).0
    {
      limiter.Configure(window, soft, hard);
    }

    method Apply(key: string, reason: string, source: Origin, operator: string, incident: string, dur: int,
                 strike: nat, now: int)
      returns (e: BanEntry)
      modifies this
      ensures e == Entry(key, reason, source, operator, incident, dur, strike, now)
      ensures bans == old(bans)[key := e] && strikes == old(strikes)
    {
      e := BanEntry(key, reason, source, operator, incident, now, None, strike);
      if dur > 0 {
        e := e.(until := Some(now + dur));
      }
      bans := bans[key := e];
    }

    method AddBan(key: string, reason: string, operator: string, incident: string, dur: int,
                  now: int) returns (e: BanEntry)
      modifies this
      ensures (View(), Added(Some(e))) == Handled(old(View()), Add(key, reason, operator, incident, dur, now))
    {
      e := Apply(key, reason, Manual, operator, incident, dur, 0, now);
    }

    method LiftBan(key: string) returns (existed: bool)
      modifies this
      ensures (View(), Lifted(existed)) == Handled(old(View()), Lift(key))
    {
      existed := key in bans;
      bans := bans - {key};
    }

    /** Drop the bans that are over. */
    method Expire(now: int)
      modifies this
      ensures View() == Expired(old(View()), now)
    {
      ghost var was := View();
      var todo := bans.Keys;
      while todo != {}
        invariant strikes == was.strikes && limiter.View() == was.limits && todo <= was.bans.Keys
        invariant forall key :: key in bans <==> key in was.bans && (key in todo || Active(was.bans[key], now))
        invariant forall key :: key in bans ==> bans[key] == was.bans[key]
        decreases todo
      {
        var key :| key in todo;
        if !Active(bans[key], now) {
          bans := bans - {key};
        }
        todo := todo - {key};
      }
    }

    /** Drop the strikes that are over. */
    method Forget(now: int)
      modifies this
      ensures View() == Forgotten(old(View()), now)
    {
      ghost var was := View();
      var todo := strikes.Keys;
      while todo != {}
        invariant bans == was.bans && limiter.View() == was.limits && todo <= was.strikes.Keys
        invariant forall key :: key in strikes <==> key in was.strikes && (key in todo || Fresh(was.strikes[key], now))
        invariant forall key :: key in strikes ==> strikes[key] == was.strikes[key]
        decreases todo
      {
        var key :| key in todo;
        if now - strikes[key].last > STRIKE_DECAY {
          strikes := strikes - {key};
        }
        todo := todo - {key};
      }
    }

    method GC(now: int) returns (ghost seen: set<string>)
      modifies this, limiter
      ensures View() == Handled(old(View()), Sweep(now, seen)).0
    {
      seen := limiter.GC(now);
      Expire(now);
      Forget(now);
    }

    method ListBans(now: int) returns (active: map<string, BanEntry>)
      modifies this
      ensures (View(), Listed(active)) == Handled(old(View()), List(now))
    {
      Expire(now);
      active := bans;
    }
  }

  // ---------------------------------------------------------------- whole runs

  function Final(s: Store, calls: seq<Call>): Store {
    if calls == [] then s else Handled(Final(s, calls[..|calls| - 1]), calls[|calls| - 1]).0
  }

  function IdealFinal(s: Store, calls: seq<Call>): Store {
    if calls == [] then s else Ideal(IdealFinal(s, calls[..|calls| - 1]), calls[|calls| - 1]).0
  }

  /** The clock after a call: it never goes back, also inside one call. */
  function Clock(c: Call, now: int): int {
    match c
    case Observe(_, _, later) => later
    case Check(_, t) => t
    case ObserveRate(_, t) => t
    case Add(_, _, _, _, _, t) => t
    case Sweep(t, _) => t
    case List(t) => t
    case _ => now
  }

  predicate InTime(c: Call, now: int) {
    now <= Clock(c, now) && (c.Observe? ==> now <= c.now <= c.later)
  }

  function ClockAfter(calls: seq<Call>, start: int): int {
    if calls == [] then start else Clock(calls[|calls| - 1], ClockAfter(calls[..|calls| - 1], start))
  }

  function WindowAfter(calls: seq<Call>, window: int): int {
    if calls == [] then window
    else
      var last := calls[|calls| - 1];
      if last.Configure? then last.window else WindowAfter(calls[..|calls| - 1], window)
  }

  /** The clock never goes back and no configuration widens the window. */
  predicate Orderly(calls: seq<Call>, start: int, window: int) {
    calls == [] ||
    (var init, last := calls[..|calls| - 1], calls[|calls| - 1];
     && Orderly(init, start, window)
     && InTime(last, ClockAfter(init, start))
     && (last.Configure? ==> Span(last.window) <= Span(WindowAfter(init, window))))
  }

  ghost predicate AlikeAt(a: Store, b: Store, key: string, now: int) {
    && Banned(a, key, now) == Banned(b, key, now) && Remembered(a, key, now) == Remembered(b, key, now)
    && (key in a.bans ==> key in b.bans && b.bans[key] == a.bans[key])
  }

  /** Nothing that can still matter differs. */
  ghost predicate Alike(a: Store, b: Store, now: int) {
    Same(a.limits, b.limits, now) && forall key :: AlikeAt(a, b, key, now)
  }

  lemma AlikeLater(a: Store, b: Store, now: int, later: int)
    requires Alike(a, b, now) && now <= later
    ensures Alike(a, b, later)
  {
    SameLater(a.limits, b.limits, now, later);
    forall key ensures AlikeAt(a, b, key, later) {
      assert AlikeAt(a, b, key, now);
    }
  }

  lemma AlikeLimits(a: Store, b: Store, la: Limits, lb: Limits, now: int)
    requires Alike(a, b, now) && Same(la, lb, now)
    ensures Alike(a.(limits := la), b.(limits := lb), now)
  {
    forall key ensures AlikeAt(a.(limits := la), b.(limits := lb), key, now) {
      assert AlikeAt(a, b, key, now);
    }
  }

  ghost predicate Untouched(a: Store, b: Store, key: string) {
    && (key in a.bans <==> key in b.bans) && (key in a.bans ==> a.bans[key] == b.bans[key])
    && (key in a.strikes <==> key in b.strikes) && (key in a.strikes ==> a.strikes[key] == b.strikes[key])
  }

  /** The same new ban and strike on both sides. */
  lemma AlikeUpdated(a: Store, b: Store, a': Store, b': Store, key: string, now: int)
    requires Alike(a, b, now) && a'.limits == a.limits && b'.limits == b.limits
    requires forall k :: k != key ==> Untouched(a', a, k) && Untouched(b', b, k)
    requires AlikeAt(a', b', key, now)
    ensures Alike(a', b', now)
  {
    forall k ensures AlikeAt(a', b', k, now) {
      assert AlikeAt(a, b, k, now);
      assert k == key || (Untouched(a', a, k) && Untouched(b', b, k));
    }
  }

  lemma StruckAlike(a: Store, b: Store, key: string, now: int)
    requires Alike(a, b, now)
    ensures Struck(a, key, now).1 == Struck(b, key, now).1
    ensures Alike(Struck(a, key, now).0, Struck(b, key, now).0, now)
  {
    assert AlikeAt(a, b, key, now);
    if Banned(a, key, now).None? {
      var e, st := Struck(a, key, now).1, Struck(a, key, now).0.strikes[key];
      PutAlike(a, b, key, e, st, now);
    }
  }

  lemma PutAlike(a: Store, b: Store, key: string, e: BanEntry, st: StrikeRec, now: int)
    requires Alike(a, b, now)
    ensures Alike(Put(a, key, e, st), Put(b, key, e, st), now)
  {
    AlikeUpdated(a, b, Put(a, key, e, st), Put(b, key, e, st), key, now);
  }

  lemma RatingAlike(a: Store, b: Store, la: Limits, lb: Limits, count: nat, key: string, now: int, later: int)
    requires Alike(a, b, now) && now <= later && Same(la, lb, later)
    ensures Rating(a, la, count, key, now).1 == Rating(b, lb, count, key, now).1
    ensures Alike(Rating(a, la, count, key, now).0, Rating(b, lb, count, key, now).0, later)
  {
    StruckAlike(a, b, key, now);
    StruckLimits(a, la, key, now);
    StruckLimits(b, lb, key, now);
    var ta, tb := Struck(a, key, now).0, Struck(b, key, now).0;
    AlikeLater(ta, tb, now, later);
    AlikeLimits(ta, tb, la, lb, later);
    AlikeLater(a, b, now, later);
    AlikeLimits(a, b, la, lb, later);
  }

  /** Bans and strikes do not depend on the limiter's lists. */
  lemma StruckLimits(s: Store, limits: Limits, key: string, now: int)
    ensures Struck(s.(limits := limits), key, now).1 == Struck(s, key, now).1
    ensures Struck(s.(limits := limits), key, now).0 == Struck(s, key, now).0.(limits := limits)
  {
  }

  lemma ExpiredAlike(s: Store, key: string, now: int)
    ensures AlikeAt(Expired(s, now), s, key, now) && AlikeAt(Forgotten(s, now), s, key, now)
  {
  }

  lemma SweepAlike(a: Store, b: Store, now: int, seen: set<string>)
    requires Alike(a, b, now)
    ensures Alike(Handled(a, Sweep(now, seen)).0, b, now)
  {
    SweepInvisible(a.limits, b.limits, now, seen);
    var a1 := a.(limits := Swept(a.limits, now, seen));
    AlikeLimits(a, b, a1.limits, b.limits, now);
    assert b.(limits := b.limits) == b;
    var a2, a3 := Expired(a1, now), Forgotten(Expired(a1, now), now);
    forall key ensures AlikeAt(a3, b, key, now) {
      assert AlikeAt(a1, b, key, now);
      ExpiredAlike(a1, key, now);
      ExpiredAlike(a2, key, now);
    }
  }

  lemma ListAlike(a: Store, b: Store, now: int)
    requires Alike(a, b, now)
    ensures Expired(a, now).bans == Expired(b, now).bans && Alike(Expired(a, now), b, now)
  {
    var xa, xb := Expired(a, now).bans, Expired(b, now).bans;
    forall key
      ensures (key in xa <==> key in xb) && (key in xa ==> xa[key] == xb[key]) && AlikeAt(Expired(a, now), b, key, now)
    {
      assert AlikeAt(a, b, key, now);
      ExpiredAlike(a, key, now);
    }
  }

  lemma CheckAlike(a: Store, b: Store, key: string, now: int)
    requires Alike(a, b, now)
    ensures Handled(a, Check(key, now)).1 == Ideal(b, Check(key, now)).1
    ensures Alike(Handled(a, Check(key, now)).0, b, now)
  {
    assert AlikeAt(a, b, key, now);
    var a' := Handled(a, Check(key, now)).0;
    forall k ensures AlikeAt(a', b, k, now) {
      assert AlikeAt(a, b, k, now);
    }
  }

  lemma ManualAlike(a: Store, b: Store, c: Call, now: int)
    requires Alike(a, b, now) && (c.Add? || c.Lift?)
    ensures Agree(a, b, c, now) && Alike(Handled(a, c).0, Ideal(b, c).0, now)
  {
    assert AlikeAt(a, b, c.key, now);
    AlikeUpdated(a, b, Handled(a, c).0, Ideal(b, c).0, c.key, now);
  }

  /** The same answer; only Lift can tell a ban that is over from one that was removed. */
  ghost predicate Agree(a: Store, b: Store, c: Call, now: int) {
    if c.Lift? && c.key in b.bans && c.key !in a.bans
    then Handled(a, c).1 == Lifted(false) && Ideal(b, c).1 == Lifted(true) && !Active(b.bans[c.key], now)
    else Handled(a, c).1 == Ideal(b, c).1
  }

  /** One call gives the same answer and leaves nothing different that matters. */
  lemma CallAlike(a: Store, b: Store, c: Call, now: int)
    requires Alike(a, b, now) && InTime(c, now) && (c.Configure? ==> Span(c.window) <= Span(a.limits.window))
    ensures Agree(a, b, c, Clock(c, now))
    ensures Alike(Handled(a, c).0, Ideal(b, c).0, Clock(c, now))
  {
    var t := Clock(c, now);
    match c
    case Observe(key, early, later) =>
      AlikeLater(a, b, now, early);
      SameLater(a.limits, b.limits, now, later);
      ObserveExact(a.limits, b.limits, key, later);
      RatingAlike(a, b, Observed(a.limits, key, later).0, Recorded(b.limits, key, later).0,
                  Observed(a.limits, key, later).1, key, early, later);
    case ObserveRate(key, _) =>
      AlikeLater(a, b, now, t);
      ObserveExact(a.limits, b.limits, key, t);
      AlikeLimits(a, b, Observed(a.limits, key, t).0, Recorded(b.limits, key, t).0, t);
    case Check(key, _) =>
      AlikeLater(a, b, now, t);
      CheckAlike(a, b, key, t);
    case Configure(window, soft, hard) =>
      ConfigureKeeps(a.limits, b.limits, now, window, soft, hard);
      AlikeLimits(a, b, Configured(a.limits, window, soft, hard), Configured(b.limits, window, soft, hard), now);
    case Sweep(_, seen) =>
      AlikeLater(a, b, now, t);
      SweepAlike(a, b, t, seen);
    case List(_) =>
      AlikeLater(a, b, now, t);
      ListAlike(a, b, t);
    case _ =>
      AlikeLater(a, b, now, t);
      ManualAlike(a, b, c, t);
  }

  lemma WindowKept(s: Store, c: Call)
    ensures Handled(s, c).0.limits.window == if c.Configure? then c.window else s.limits.window
  {
  }

  /** What both stores start from. */
  predicate Empty(s: Store, window: int) {
    s == Store(New(window, s.limits.soft, s.limits.hard), map[], map[])
  }

  lemma {:induction false} RunAlike(s: Store, calls: seq<Call>, start: int, window: int)
    requires Empty(s, window) && Orderly(calls, start, window)
    ensures Alike(Final(s, calls), IdealFinal(s, calls), ClockAfter(calls, start))
    ensures Final(s, calls).limits.window == WindowAfter(calls, window)
  {
    if calls == [] {
      forall key ensures SameHits(HitsOf(s.limits, key), HitsOf(s.limits, key), start, window) {
      }
      forall key ensures AlikeAt(s, s, key, start) {
      }
    } else {
      var init, last := calls[..|calls| - 1], calls[|calls| - 1];
      RunAlike(s, init, start, window);
      CallAlike(Final(s, init), IdealFinal(s, init), last, ClockAfter(init, start));
      WindowKept(Final(s, init), last);
    }
  }

  lemma {:induction false} OrderlyUpTo(calls: seq<Call>, start: int, window: int, n: nat)
    requires Orderly(calls, start, window) && n <= |calls|
    ensures Orderly(calls[..n], start, window)
    decreases |calls|
  {
    if n < |calls| {
      var init := calls[..|calls| - 1];
      OrderlyUpTo(init, start, window, n);
      assert init[..n] == calls[..n];
    } else {
      assert calls[..n] == calls;
    }
  }

  /**
   Sweeping is invisible: in every run with a clock that never goes back and a
   window that never widens, the store answers every call as the store that never
   sweeps, expires or trims. The one exception is told exactly: Lift answers false
   instead of true just when the key's ban is over and was removed before.
   */
  lemma SweepingInvisible(s: Store, calls: seq<Call>, start: int, window: int, i: nat)
    requires Empty(s, window) && Orderly(calls, start, window) && i < |calls|
    ensures Agree(Final(s, calls[..i]), IdealFinal(s, calls[..i]), calls[i],
                  Clock(calls[i], ClockAfter(calls[..i], start)))
  {
    var init := calls[..i];
    OrderlyUpTo(calls, start, window, i + 1);
    assert calls[..i + 1][..i] == init && calls[..i + 1][i] == calls[i];
    RunAlike(s, init, start, window);
    CallAlike(Final(s, init), IdealFinal(s, init), calls[i], ClockAfter(init, start));
  }

  lemma OrderlySnoc(init: seq<Call>, calls: seq<Call>, last: Call, start: int, window: int)
    requires calls == init + [last] && !last.Configure?
    requires Orderly(init, start, window) && InTime(last, ClockAfter(init, start))
    ensures Orderly(calls, start, window) && ClockAfter(calls, start) == Clock(last, ClockAfter(init, start))
  {
    assert calls[..|calls| - 1] == init;
  }

  /** A ban of one tick, a listing after it, and a lift. */
  function TellingRun(): seq<Call> {
    [Add("k", "", "", "", 1, 0), List(1), Lift("k")]
  }

  /** The exception happens. */
  lemma LiftTells(s: Store, window: int)
    requires Empty(s, window)
    ensures var calls := TellingRun();
      && Orderly(calls, 0, window)
      && Handled(Final(s, calls[..2]), calls[2]).1 == Lifted(false)
      && Ideal(IdealFinal(s, calls[..2]), calls[2]).1 == Lifted(true)
  {
    var calls := TellingRun();
    var one, two := calls[..1], calls[..2];
    assert one[..0] == [] && two[..1] == one && calls[..2] == two && one[0] == calls[0] && two[1] == calls[1];
    OrderlySnoc(one[..0], one, calls[0], 0, window);
    OrderlySnoc(one, two, calls[1], 0, window);
    OrderlySnoc(two, calls, calls[2], 0, window);
    var e := Entry("k", "", Manual, "", "", 1, 0, 0);
    assert Final(s, one).bans == map["k" := e] && IdealFinal(s, one).bans == map["k" := e];
    assert "k" !in Final(s, two).bans && "k" in IdealFinal(s, two).bans;
  }

  // ---------------------------------------------------------------- the ladder

  /** The end of an auto-ban of the n-th strike in a row. */
  function Rung(n: nat, now: int): Option<int> {
    if n == 1 then Some(now + 3_600_000_000_000)
    else if n == 2 then Some(now + 21_600_000_000_000)
    else if n == 3 then Some(now + 86_400_000_000_000)
    else None
  }

  /** Hard breaches of one key, each once the ban before it is over and within seven days of it. */
  predicate Repeated(times: seq<int>) {
    forall i :: 0 < i < |times| ==>
      && Rung(i, times[i - 1]).Some? && Rung(i, times[i - 1]).value <= times[i]
      && times[i] - times[i - 1] <= 604_800_000_000_000
  }

  function StruckAll(s: Store, key: string, times: seq<int>): Store {
    if times == [] then s else Struck(StruckAll(s, key, times[..|times| - 1]), key, times[|times| - 1]).0
  }

  /**
   A repeat offender climbs from one hour to six, to a day, to a permanent ban; whoever has no ban in force and
   no strike of the last seven days starts at the bottom.
   */
  lemma {:induction false} LadderClimbs(s: Store, key: string, times: seq<int>)
    requires times != [] && Repeated(times)
    requires Banned(s, key, times[0]).None?
    requires key in s.strikes ==> times[0] - s.strikes[key].last > 604_800_000_000_000
    ensures var t := StruckAll(s, key, times);
      && key in t.bans && t.bans[key].until == Rung(|times|, times[|times| - 1])
      && t.bans[key].created == times[|times| - 1] && t.bans[key].strike == |times|
      && key in t.strikes && t.strikes[key] == StrikeRec(|times|, times[|times| - 1])
  {
    var init, last := times[..|times| - 1], times[|times| - 1];
    if init != [] {
      var i := |times| - 1;
      assert init[i - 1] == times[i - 1];
      LadderClimbs(s, key, init);
    }
  }

  // ---------------------------------------------------------------- a ban takes effect, and ends

  /** The call banned the key, or found it banned, with this entry. */
  predicate Bans(s: Store, c: Call, key: string, e: BanEntry) {
    || (c.Add? && c.key == key && Handled(s, c).1 == Added(Some(e)))
    || (c.Observe? && c.key == key && Handled(s, c).1.Judged? && Handled(s, c).1.entry == Some(e))
  }

  predicate Holds(s: Store, key: string, e: BanEntry) {
    key in s.bans && s.bans[key] == e
  }

  lemma BansHolds(s: Store, c: Call, key: string, e: BanEntry)
    requires Bans(s, c, key, e)
    ensures Holds(Handled(s, c).0, key, e)
  {
  }

  /** No manual ban or lift of the key. */
  ghost predicate LeftAlone(calls: seq<Call>, key: string) {
    forall i :: 0 <= i < |calls| ==> !((calls[i].Add? || calls[i].Lift?) && calls[i].key == key)
  }

  ghost predicate Unobserved(calls: seq<Call>, key: string) {
    forall i :: 0 <= i < |calls| ==> !(calls[i].Observe? && calls[i].key == key)
  }

  /** The clock never goes back. */
  predicate Forward(calls: seq<Call>, start: int) {
    calls == [] ||
    (var init, last := calls[..|calls| - 1], calls[|calls| - 1];
     Forward(init, start) && InTime(last, ClockAfter(init, start)))
  }

  predicate Before(now: int, until: Option<int>) {
    until.None? || now < until.value
  }

  lemma StepHolds(s: Store, c: Call, key: string, e: BanEntry, now: int)
    requires Holds(s, key, e) && !((c.Add? || c.Lift?) && c.key == key)
    requires InTime(c, now) && Before(Clock(c, now), e.until)
    ensures Holds(Handled(s, c).0, key, e)
  {
  }

  lemma {:induction false} RunHolds(s: Store, calls: seq<Call>, start: int, key: string, e: BanEntry)
    requires Holds(s, key, e) && LeftAlone(calls, key) && Forward(calls, start)
    requires Before(ClockAfter(calls, start), e.until)
    ensures Holds(Final(s, calls), key, e)
  {
    if calls != [] {
      var init, last := calls[..|calls| - 1], calls[|calls| - 1];
      RunHolds(s, init, start, key, e);
      StepHolds(Final(s, init), last, key, e, ClockAfter(init, start));
    }
  }

  /** Until its end a ban is what every check answers, whatever calls about other keys and sweeps come between. */
  lemma {:induction false} BanInForce(s: Store, c: Call, calls: seq<Call>, start: int, key: string, e: BanEntry,
                                      now: int)
    requires Bans(s, c, key, e) && LeftAlone(calls, key) && Forward(calls, start)
    requires ClockAfter(calls, start) <= now && Before(now, e.until)
    ensures Handled(Final(Handled(s, c).0, calls), Check(key, now)).1 == Checked(Some(e))
  {
    BansHolds(s, c, key, e);
    RunHolds(Handled(s, c).0, calls, start, key, e);
  }

  predicate AtMost(s: Store, key: string, e: BanEntry) {
    key in s.bans ==> s.bans[key] == e
  }

  lemma {:induction false} RunAtMost(s: Store, calls: seq<Call>, key: string, e: BanEntry)
    requires AtMost(s, key, e) && LeftAlone(calls, key) && Unobserved(calls, key)
    ensures AtMost(Final(s, calls), key, e)
  {
    if calls != [] {
      RunAtMost(s, calls[..|calls| - 1], key, e);
    }
  }

  /** From its end on, unless the key is banned again, a check answers nothing. */
  lemma {:induction false} BanOver(s: Store, c: Call, calls: seq<Call>, key: string, e: BanEntry, now: int)
    requires Bans(s, c, key, e) && LeftAlone(calls, key) && Unobserved(calls, key)
    requires !Before(now, e.until)
    ensures Handled(Final(Handled(s, c).0, calls), Check(key, now)).1 == Checked(None)
  {
    BansHolds(s, c, key, e);
    RunAtMost(Handled(s, c).0, calls, key, e);
  }

  /** A manual ban, in numbers: for good if the duration is not positive, else until now + dur and no longer. */
  lemma {:induction false} ManualBan(s: Store, key: string, reason: string, operator: string, incident: string,
                                     dur: int, t: int, calls: seq<Call>, now: int)
    requires LeftAlone(calls, key) && Unobserved(calls, key) && Forward(calls, t) && ClockAfter(calls, t) <= now
    ensures var s' := Handled(s, Add(key, reason, operator, incident, dur, t)).0;
      var e := BanEntry(key, reason, Manual, operator, incident, t, if dur > 0 then Some(t + dur) else None, 0);
      Handled(Final(s', calls), Check(key, now)).1 == Checked(if dur <= 0 || now < t + dur then Some(e) else None)
  {
    var c := Add(key, reason, operator, incident, dur, t);
    var e := BanEntry(key, reason, Manual, operator, incident, t, if dur > 0 then Some(t + dur) else None, 0);
    assert Bans(s, c, key, e);
    if dur <= 0 || now < t + dur {
      BanInForce(s, c, calls, t, key, e, now);
    } else {
      BanOver(s, c, calls, key, e, now);
    }
  }

  // ---------------------------------------------------------------- when a request is a breach

  /** The times at which requests of the key were rated. */
  function RatedAt(calls: seq<Call>, key: string): seq<int> {
    if calls == [] then []
    else
      var last := calls[|calls| - 1];
      RatedAt(calls[..|calls| - 1], key) +
      (if last.Observe? && last.key == key then [last.later]
       else if last.ObserveRate? && last.key == key then [last.now]
       else [])
  }

  /** How many of the times are later than cut. */
  function LaterThan(times: seq<int>, cut: int): nat {
    if times == [] then 0
    else LaterThan(times[..|times| - 1], cut) + (if times[|times| - 1] > cut then 1 else 0)
  }

  lemma {:induction false} TrimCounts(times: seq<int>, cut: int)
    ensures |Trim(times, cut)| == LaterThan(times, cut)
  {
    if times != [] {
      TrimCounts(times[..|times| - 1], cut);
    }
  }

  lemma {:induction false} IdealHits(s: Store, calls: seq<Call>, window: int, key: string)
    requires Empty(s, window) && key != ""
    ensures HitsOf(IdealFinal(s, calls).limits, key) == RatedAt(calls, key)
  {
    if calls != [] {
      var init, last := calls[..|calls| - 1], calls[|calls| - 1];
      IdealHits(s, init, window, key);
      IdealHitsStep(IdealFinal(s, init), last, key);
    }
  }

  lemma IdealHitsStep(s: Store, c: Call, key: string)
    requires key != ""
    ensures HitsOf(Ideal(s, c).0.limits, key) == HitsOf(s.limits, key) +
      (if c.Observe? && c.key == key then [c.later] else if c.ObserveRate? && c.key == key then [c.now] else [])
  {
    if c.Observe? {
      StruckLimits(s, Recorded(s.limits, c.key, c.later).0, c.key, c.now);
    }
  }

  /** With this many requests in the window: banned at the hard limit, rated 1 from the soft limit up to it. */
  predicate RatedFor(answer: Answer, n: int, soft: int, hard: int) {
    && answer.Judged? && (answer.entry.Some? <==> n >= hard) && (answer.level == 2 <==> n >= hard)
    && (answer.level == 1 <==> soft <= n < hard)
  }

  lemma IdealRated(s: Store, c: Call, n: nat)
    requires c.Observe? && c.key != "" && n == |Trim(HitsOf(s.limits, c.key), c.later - s.limits.window)| + 1
    ensures RatedFor(Ideal(s, c).1, n, s.limits.soft, s.limits.hard)
  {
  }

  /** The requests of the key in the window that trails this one, itself included. */
  function Trailing(init: seq<Call>, c: Call, window: int): nat
    requires c.Observe?
  {
    LaterThan(RatedAt(init, c.key), c.later - WindowAfter(init, window)) + 1
  }

  lemma SameLimits(a: Store, b: Store, now: int)
    requires Alike(a, b, now)
    ensures a.limits.window == b.limits.window && a.limits.soft == b.limits.soft && a.limits.hard == b.limits.hard
  {
  }

  lemma RunLimits(s: Store, init: seq<Call>, start: int, window: int)
    requires Empty(s, window) && Orderly(init, start, window)
    ensures var l, ideal := Final(s, init).limits, IdealFinal(s, init).limits;
      ideal.window == WindowAfter(init, window) && ideal.soft == l.soft && ideal.hard == l.hard
  {
    RunAlike(s, init, start, window);
    SameLimits(Final(s, init), IdealFinal(s, init), ClockAfter(init, start));
  }

  lemma IdealCounts(s: Store, init: seq<Call>, window: int, key: string, cut: int)
    requires Empty(s, window) && key != ""
    ensures |Trim(HitsOf(IdealFinal(s, init).limits, key), cut)| == LaterThan(RatedAt(init, key), cut)
  {
    IdealHits(s, init, window, key);
    TrimCounts(RatedAt(init, key), cut);
  }

  lemma SameAnswer(a: Store, b: Store, c: Call, now: int)
    requires Agree(a, b, c, now) && c.Observe?
    ensures Handled(a, c).1 == Ideal(b, c).1
  {
  }

  lemma RunAnswers(s: Store, calls: seq<Call>, start: int, window: int, i: nat)
    requires Empty(s, window) && Orderly(calls, start, window) && i < |calls| && calls[i].Observe?
    ensures Handled(Final(s, calls[..i]), calls[i]).1 == Ideal(IdealFinal(s, calls[..i]), calls[i]).1
  {
    SweepingInvisible(s, calls, start, window, i);
    SameAnswer(Final(s, calls[..i]), IdealFinal(s, calls[..i]), calls[i],
               Clock(calls[i], ClockAfter(calls[..i], start)));
  }

  lemma IdealBreach(s: Store, init: seq<Call>, c: Call, start: int, window: int)
    requires Empty(s, window) && Orderly(init, start, window) && c.Observe? && c.key != ""
    ensures var l := Final(s, init).limits;
      RatedFor(Ideal(IdealFinal(s, init), c).1, Trailing(init, c, window), l.soft, l.hard)
  {
    RunLimits(s, init, start, window);
    IdealCounts(s, init, window, c.key, c.later - WindowAfter(init, window));
    IdealRated(IdealFinal(s, init), c, Trailing(init, c, window));
  }

  /**
   In every orderly run a request is a breach, and its key banned, exactly when with it the hard limit of requests
   is reached in the window that trails it, and it is rated 1 exactly when the soft limit is reached but not that.
   */
  lemma BreachExactly(s: Store, calls: seq<Call>, start: int, window: int, i: nat)
    requires Empty(s, window) && Orderly(calls, start, window) && i < |calls|
    requires calls[i].Observe? && calls[i].key != ""
    ensures var before := Final(s, calls[..i]);
      RatedFor(Handled(before, calls[i]).1, Trailing(calls[..i], calls[i], window),
               before.limits.soft, before.limits.hard)
  {
    RunAnswers(s, calls, start, window, i);
    assert Orderly(calls[..i], start, window) by {
      OrderlyUpTo(calls, start, window, i);
    }
    IdealBreach(s, calls[..i], calls[i], start, window);
  }
}
