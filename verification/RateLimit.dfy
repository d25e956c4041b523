/**
 The sliding-window limiter (internal/abuse/ratelimit.go): it trims and sweeps its
 hit lists, against a limiter that remembers every hit for ever.
 */
module RateLimit {

  const GC_SCAN_BUDGET := 4096

  /** Per key the times (nanoseconds) of its requests, oldest first. */
  datatype Limits = Limits(window: int, soft: int, hard: int, ttl: int, hits: map<string, seq<int>>)

  function New(window: int, soft: int, hard: int): Limits {
    Limits(window, soft, hard, 6 * window, map[])
  }

  function HitsOf(l: Limits, key: string): seq<int> {
    if key in l.hits then l.hits[key] else []
  }

  /** The hits later than cut. */
  function Trim(h: seq<int>, cut: int): seq<int> {
    if h == [] then []
    else Trim(h[..|h| - 1], cut) + (if h[|h| - 1] > cut then [h[|h| - 1]] else [])
  }

  /** One request: trim, record, count. */
  function Observed(l: Limits, key: string, now: int): (Limits, nat) {
    if key == "" then (l, 0)
    else
      var kept := Trim(HitsOf(l, key), now - l.window) + [now];
      (l.(hits := l.hits[key := kept]), |kept|)
  }

  function Level(l: Limits, count: int): nat {
    if count >= l.hard then 2 else if count >= l.soft then 1 else 0
  }

  function Configured(l: Limits, window: int, soft: int, hard: int): Limits {
    l.(window := window, soft := soft, hard := hard, ttl := 6 * window)
  }

  predicate Stale(h: seq<int>, cut: int) {
    |h| == 0 || h[|h| - 1] < cut
  }

  predicate Survives(l: Limits, key: string, now: int, seen: set<string>) {
    key in l.hits && !(key in seen && Stale(l.hits[key], now - l.ttl))
  }

  /** A sweep that got to look at the keys `seen`. */
  function Swept(l: Limits, now: int, seen: set<string>): Limits {
    l.(hits := map key | key in l.hits && Survives(l, key, now, seen) :: l.hits[key])
  }

  lemma SweptOneMore(l: Limits, now: int, seen: set<string>, key: string)
    requires key in l.hits && key !in seen
    ensures key in Swept(l, now, seen).hits && Swept(l, now, seen).hits[key] == l.hits[key]
    ensures Swept(l, now, seen + {key}).hits
         == if Stale(l.hits[key], now - l.ttl) then Swept(l, now, seen).hits - {key} else Swept(l, now, seen).hits
  {
  }

  class Limiter {
    var window: int
    var soft: int
    var hard: int
    var ttl: int
    var hits: map<string, seq<int>>

    function View(): Limits
      reads this
    {
      Limits(window, soft, hard, ttl, hits)
    }

    constructor (window: int, soft: int, hard: int)
      ensures View() == New(window, soft, hard)
    {
      this.window, this.soft, this.hard, ttl, hits := window, soft, hard, 6 * window, map[];
    }

    method Observe(key: string, now: int) returns (count: nat)
      modifies this
      ensures (View(), count) == Observed(old(View()), key, now)
    {
      if key == "" {
        return 0;
      }
      var cut := now - window;
      var h := if key in hits then hits[key] else [];
      var kept, i := [], 0;
      while i < |h|
        invariant 0 <= i <= |h| && kept == Trim(h[..i], cut)
      {
        assert h[..i + 1][..i] == h[..i];
        if h[i] > cut {
          kept := kept + [h[i]];
        }
        i := i + 1;
      }
      assert h[..i] == h;
      kept := kept + [now];
      hits := hits[key := kept];
      return |kept|;
    }

    method Classify(count: int) returns (level: nat)
      ensures level == Level(View(), count)
    {
      if count >= hard {
        return 2;
      }
      if count >= soft {
        return 1;
      }
      return 0;
    }

    method Configure(window: int, soft: int, hard: int)
      modifies this
      ensures View() == Configured(old(View()), window, soft, hard)
    {
      this.window, this.soft, this.hard, ttl := window, soft, hard, 6 * window;
    }

    /** Keys come in any order; at most 4096 of them are looked at. */
    method GC(now: int) returns (ghost seen: set<string>)
      modifies this
      ensures View() == Swept(old(View()), now, seen)
      ensures seen <= old(hits).Keys && |seen| <= GC_SCAN_BUDGET
      ensures |old(hits)| <= GC_SCAN_BUDGET ==> seen == old(hits).Keys
    {
      var cut := now - ttl;
      var todo := hits.Keys;
      ghost var was := View();
      var scanned := 0;
      seen := {};
      while todo != {} && scanned < GC_SCAN_BUDGET
        invariant window == was.window && soft == was.soft && hard == was.hard && ttl == was.ttl
        invariant seen + todo == was.hits.Keys && seen !! todo && |seen| == scanned <= GC_SCAN_BUDGET
        invariant hits == Swept(was, now, seen).hits
        decreases todo
      {
        var key :| key in todo;
        SweptOneMore(was, now, seen, key);
        if |hits[key]| == 0 || hits[key][|hits[key]| - 1] < cut {
          hits := hits - {key};
        }
        todo, seen, scanned := todo - {key}, seen + {key}, scanned + 1;
      }
      assert |was.hits| == |was.hits.Keys| == |seen| + |todo|;
    }
  }

  // ---------------------------------------------------------------- the limiter that forgets nothing

  function Recorded(l: Limits, key: string, now: int): (Limits, nat) {
    if key == "" then (l, 0)
    else
      (l.(hits := l.hits[key := HitsOf(l, key) + [now]]), |Trim(HitsOf(l, key), now - l.window)| + 1)
  }

  function Span(window: int): nat {
    if window < 0 then 0 else window
  }

  ghost predicate UpTo(h: seq<int>, now: int) {
    forall i :: 0 <= i < |h| ==> h[i] <= now
  }

  ghost predicate Ordered(h: seq<int>) {
    forall i, j :: 0 <= i < j < |h| ==> h[i] <= h[j]
  }

  /** Same hits as far as any later window of at most this width can see. */
  ghost predicate SameHits(h: seq<int>, all: seq<int>, now: int, window: int) {
    Ordered(h) && UpTo(h, now) && UpTo(all, now) && Trim(h, now - Span(window)) == Trim(all, now - Span(window))
  }

  ghost predicate Same(l: Limits, all: Limits, now: int) {
    && l.window == all.window && l.soft == all.soft && l.hard == all.hard && l.ttl == 6 * l.window
    && forall key :: SameHits(HitsOf(l, key), HitsOf(all, key), now, l.window)
  }

  lemma {:induction false} TrimTwice(h: seq<int>, low: int, high: int)
    requires low <= high
    ensures Trim(Trim(h, low), high) == Trim(h, high)
  {
    if h != [] {
      var init, t := h[..|h| - 1], h[|h| - 1];
      TrimTwice(init, low, high);
      if t > low {
        assert (Trim(init, low) + [t])[..|Trim(init, low)|] == Trim(init, low);
      } else {
        assert Trim(h, low) == Trim(init, low) + [] == Trim(init, low);
      }
    }
  }

  lemma TrimSnoc(h: seq<int>, t: int, cut: int)
    ensures Trim(h + [t], cut) == Trim(h, cut) + (if t > cut then [t] else [])
  {
    assert (h + [t])[..|h|] == h;
  }

  lemma {:induction false} TrimAll(h: seq<int>, cut: int)
    requires UpTo(h, cut)
    ensures Trim(h, cut) == []
  {
    if h != [] {
      TrimAll(h[..|h| - 1], cut);
    }
  }

  /** Trimming keeps hits, in order. */
  lemma {:induction false} TrimKeeps(h: seq<int>, cut: int, now: int)
    requires Ordered(h) && UpTo(h, now)
    ensures Ordered(Trim(h, cut)) && UpTo(Trim(h, cut), now)
  {
    if h != [] {
      var init, t := h[..|h| - 1], h[|h| - 1];
      assert UpTo(init, t);
      TrimKeeps(init, cut, t);
    }
  }

  /** Time may pass and the window may shrink. */
  lemma SameHitsLater(h: seq<int>, all: seq<int>, now: int, window: int, later: int, narrower: int)
    requires SameHits(h, all, now, window) && now <= later && Span(narrower) <= Span(window)
    ensures SameHits(h, all, later, narrower)
  {
    SameBeyond(h, all, now - Span(window), later - Span(narrower));
  }

  /** Equal beyond floor is equal beyond every later cut. */
  lemma SameBeyond(h: seq<int>, all: seq<int>, floor: int, cut: int)
    requires Trim(h, floor) == Trim(all, floor) && floor <= cut
    ensures Trim(h, cut) == Trim(all, cut)
  {
    TrimTwice(h, floor, cut);
    TrimTwice(all, floor, cut);
  }

  lemma Snoc(h: seq<int>, now: int)
    requires UpTo(h, now)
    ensures UpTo(h + [now], now) && (Ordered(h) ==> Ordered(h + [now]))
  {
  }

  /** Whether or not the list was trimmed at cut first, the same hits lie beyond floor. */
  lemma RecordedBeyond(h: seq<int>, all: seq<int>, now: int, cut: int, floor: int)
    requires Trim(h, floor) == Trim(all, floor) && Ordered(h) && UpTo(h, now) && UpTo(all, now)
    requires cut == floor || (floor == now && cut > now)
    ensures Trim(Trim(h, cut) + [now], floor) == Trim(all + [now], floor)
  {
    TrimSnoc(Trim(h, cut), now, floor);
    TrimSnoc(all, now, floor);
    if cut == floor {
      TrimTwice(h, cut, floor);
    } else {
      TrimKeeps(h, cut, now);
      TrimAll(Trim(h, cut), floor);
      TrimAll(all, floor);
    }
  }

  lemma SameHitsRecorded(h: seq<int>, all: seq<int>, now: int, window: int, cut: int, kept: seq<int>, grown: seq<int>)
    requires SameHits(h, all, now, window) && cut == now - window
    requires kept == Trim(h, cut) + [now] && grown == all + [now]
    ensures SameHits(kept, grown, now, window) && Trim(h, cut) == Trim(all, cut)
  {
    var floor := now - Span(window);
    InOrder(h, all, now, cut, kept, grown);
    AlikeBeyond(h, all, now, cut, floor, kept, grown);
    SameBeyond(h, all, floor, cut);
  }

  lemma InOrder(h: seq<int>, all: seq<int>, now: int, cut: int, kept: seq<int>, grown: seq<int>)
    requires Ordered(h) && UpTo(h, now) && UpTo(all, now) && kept == Trim(h, cut) + [now] && grown == all + [now]
    ensures Ordered(kept) && UpTo(kept, now) && UpTo(grown, now)
  {
    KeptInOrder(h, cut, now);
    Snoc(all, now);
  }

  lemma AlikeBeyond(h: seq<int>, all: seq<int>, now: int, cut: int, floor: int, kept: seq<int>, grown: seq<int>)
    requires Trim(h, floor) == Trim(all, floor) && Ordered(h) && UpTo(h, now) && UpTo(all, now)
    requires cut == floor || (floor == now && cut > now)
    requires kept == Trim(h, cut) + [now] && grown == all + [now]
    ensures Trim(kept, floor) == Trim(grown, floor)
  {
    RecordedBeyond(h, all, now, cut, floor);
  }

  lemma KeptInOrder(h: seq<int>, cut: int, now: int)
    requires Ordered(h) && UpTo(h, now)
    ensures Ordered(Trim(h, cut) + [now]) && UpTo(Trim(h, cut) + [now], now)
  {
    TrimKeeps(h, cut, now);
    Snoc(Trim(h, cut), now);
  }

  lemma SameLater(l: Limits, all: Limits, now: int, later: int)
    requires Same(l, all, now) && now <= later
    ensures Same(l, all, later)
  {
    forall key ensures SameHits(HitsOf(l, key), HitsOf(all, key), later, l.window) {
      SameHitsLater(HitsOf(l, key), HitsOf(all, key), now, l.window, later, l.window);
    }
  }

  /** Every count is the exact trailing-window count. */
  lemma ObserveExact(l: Limits, all: Limits, key: string, now: int)
    requires Same(l, all, now)
    ensures Observed(l, key, now).1 == Recorded(all, key, now).1
    ensures Same(Observed(l, key, now).0, Recorded(all, key, now).0, now)
  {
    if key != "" {
      var h, every, cut := HitsOf(l, key), HitsOf(all, key), now - l.window;
      var kept, grown := Trim(h, cut) + [now], every + [now];
      KeyExact(l, all, key, now, h, every, cut, kept, grown);
      ObservedIs(l, key, now, cut, kept);
      RecordedIs(all, key, now, cut, grown);
      SameUpdated(l, all, now, key, kept, grown);
    }
  }

  lemma KeyExact(l: Limits, all: Limits, key: string, now: int, h: seq<int>, every: seq<int>, cut: int,
                 kept: seq<int>, grown: seq<int>)
    requires Same(l, all, now) && h == HitsOf(l, key) && every == HitsOf(all, key) && cut == now - l.window
    requires kept == Trim(h, cut) + [now] && grown == every + [now]
    ensures SameHits(kept, grown, now, l.window) && |kept| == |Trim(every, cut)| + 1
  {
    assert SameHits(h, every, now, l.window);
    SameHitsRecorded(h, every, now, l.window, cut, kept, grown);
  }

  lemma ObservedIs(l: Limits, key: string, now: int, cut: int, kept: seq<int>)
    requires key != "" && cut == now - l.window && kept == Trim(HitsOf(l, key), cut) + [now]
    ensures Observed(l, key, now) == (l.(hits := l.hits[key := kept]), |kept|)
  {
  }

  lemma RecordedIs(l: Limits, key: string, now: int, cut: int, grown: seq<int>)
    requires key != "" && cut == now - l.window && grown == HitsOf(l, key) + [now]
    ensures Recorded(l, key, now) == (l.(hits := l.hits[key := grown]), |Trim(HitsOf(l, key), cut)| + 1)
  {
  }

  lemma SameUpdated(l: Limits, all: Limits, now: int, key: string, h: seq<int>, every: seq<int>)
    requires Same(l, all, now) && SameHits(h, every, now, l.window)
    ensures Same(l.(hits := l.hits[key := h]), all.(hits := all.hits[key := every]), now)
  {
    var l', all' := l.(hits := l.hits[key := h]), all.(hits := all.hits[key := every]);
    forall k ensures SameHits(HitsOf(l', k), HitsOf(all', k), now, l.window) {
      assert SameHits(HitsOf(l, k), HitsOf(all, k), now, l.window);
      assert k != key ==> HitsOf(l', k) == HitsOf(l, k) && HitsOf(all', k) == HitsOf(all, k);
    }
  }

  /** A sweep, of whichever keys it gets to, removes nothing any later count can see. */
  lemma SweepInvisible(l: Limits, all: Limits, now: int, seen: set<string>)
    requires Same(l, all, now)
    ensures Same(Swept(l, now, seen), all, now)
  {
    var l' := Swept(l, now, seen);
    forall key ensures SameHits(HitsOf(l', key), HitsOf(all, key), now, l.window) {
      assert SameHits(HitsOf(l, key), HitsOf(all, key), now, l.window);
      if key in l.hits && !Survives(l, key, now, seen) {
        var h := l.hits[key];
        assert UpTo(h, now - Span(l.window));
        TrimAll(h, now - Span(l.window));
        assert Trim([], now - Span(l.window)) == [];
      } else {
        assert HitsOf(l', key) == HitsOf(l, key);
      }
    }
  }

  lemma ConfigureKeeps(l: Limits, all: Limits, now: int, window: int, soft: int, hard: int)
    requires Same(l, all, now) && Span(window) <= Span(l.window)
    ensures Same(Configured(l, window, soft, hard), Configured(all, window, soft, hard), now)
  {
    var l', all' := Configured(l, window, soft, hard), Configured(all, window, soft, hard);
    forall key ensures SameHits(HitsOf(l', key), HitsOf(all', key), now, window) {
      assert SameHits(HitsOf(l, key), HitsOf(all, key), now, l.window);
      SameHitsLater(HitsOf(l, key), HitsOf(all, key), now, l.window, now, window);
    }
  }

  // ---------------------------------------------------------------- widening the window

  function ObserveAll(l: Limits, key: string, times: seq<int>): Limits {
    if times == [] then l else Observed(ObserveAll(l, key, times[..|times| - 1]), key, times[|times| - 1]).0
  }

  function RecordAll(l: Limits, key: string, times: seq<int>): Limits {
    if times == [] then l else Recorded(RecordAll(l, key, times[..|times| - 1]), key, times[|times| - 1]).0
  }

  ghost predicate ExactAfter(wide: int, narrow: int, key: string, times: seq<int>, now: int) {
    var l, all := ObserveAll(New(wide, 0, 0), key, times), RecordAll(New(wide, 0, 0), key, times);
    Observed(Configured(l, narrow, 0, 0), key, now).1 == Recorded(Configured(all, narrow, 0, 0), key, now).1
  }

  /** Counts stay exact across a change of window, whatever was observed before it. */
  ghost predicate ChangeExact(before: int, after: int) {
    forall key: string, times: seq<int>, now: int ::
      Ordered(times) && UpTo(times, now) ==> ExactAfter(before, after, key, times, now)
  }

  lemma {:induction false} ObserveAllSame(window: int, key: string, times: seq<int>, now: int)
    requires Ordered(times) && UpTo(times, now)
    ensures var l, all := ObserveAll(New(window, 0, 0), key, times), RecordAll(New(window, 0, 0), key, times);
      Same(l, all, now) && l.window == window
  {
    if times != [] {
      var init, t := times[..|times| - 1], times[|times| - 1];
      assert UpTo(init, t);
      ObserveAllSame(window, key, init, t);
      var l, all := ObserveAll(New(window, 0, 0), key, init), RecordAll(New(window, 0, 0), key, init);
      ObserveExact(l, all, key, t);
      SameLater(Observed(l, key, t).0, Recorded(all, key, t).0, t, now);
    }
  }

  lemma WideningLoses(before: int, after: int)
    requires Span(after) > Span(before)
    ensures !ExactAfter(before, after, "k", [0, Span(before)], Span(before))
  {
    var w := Span(before);
    var l0 := New(before, 0, 0);
    TwoObserved(l0, w);
    TwoRecorded(l0, w);
    Lengths(w, w - after);
    CountOf(ObserveAll(l0, "k", [0, w]), RecordAll(l0, "k", [0, w]), after, w);
  }

  lemma CountOf(l: Limits, all: Limits, after: int, now: int)
    ensures Observed(Configured(l, after, 0, 0), "k", now).1 == |Trim(HitsOf(l, "k"), now - after)| + 1
    ensures Recorded(Configured(all, after, 0, 0), "k", now).1 == |Trim(HitsOf(all, "k"), now - after)| + 1
  {
    assert HitsOf(Configured(l, after, 0, 0), "k") == HitsOf(l, "k");
    assert HitsOf(Configured(all, after, 0, 0), "k") == HitsOf(all, "k");
  }

  lemma Lengths(w: int, cut: int)
    requires cut < 0 <= w
    ensures |Trim([w], cut)| == 1 && |Trim([0, w], cut)| == 2
  {
    TrimSnoc([0], w, cut);
    TrimSnoc([], 0, cut);
    TrimSnoc([], w, cut);
    assert [0] + [w] == [0, w] && [] + [w] == [w] && [] + [0] == [0];
  }

  lemma TwoObserved(l: Limits, w: int)
    requires "k" !in l.hits && w == Span(l.window)
    ensures HitsOf(ObserveAll(l, "k", [0, w]), "k") == [w]
  {
    assert [0, w][..1] == [0] && [0][..0] == [];
    assert Trim([], 0 - l.window) == [];
    assert HitsOf(Observed(l, "k", 0).0, "k") == [0];
    assert ObserveAll(l, "k", [0]) == Observed(l, "k", 0).0;
    TrimSnoc([], 0, w - l.window);
    assert [] + [0] == [0];
  }

  lemma TwoRecorded(l: Limits, w: int)
    requires "k" !in l.hits
    ensures HitsOf(RecordAll(l, "k", [0, w]), "k") == [0, w]
  {
    assert [0, w][..1] == [0] && [0][..0] == [];
    assert RecordAll(l, "k", [0]) == Recorded(l, "k", 0).0;
    assert HitsOf(Recorded(l, "k", 0).0, "k") == [0];
  }

  /** A change of window keeps every count exact if and only if it does not widen it. */
  lemma ChangeExactly(before: int, after: int)
    ensures ChangeExact(before, after) <==> Span(after) <= Span(before)
  {
    if Span(after) <= Span(before) {
      forall key: string, times: seq<int>, now: int | Ordered(times) && UpTo(times, now)
        ensures ExactAfter(before, after, key, times, now)
      {
        NarrowingExact(before, after, key, times, now);
      }
    } else {
      WideningLoses(before, after);
      assert Ordered([0, Span(before)]) && UpTo([0, Span(before)], Span(before));
    }
  }

  lemma NarrowingExact(before: int, after: int, key: string, times: seq<int>, now: int)
    requires Ordered(times) && UpTo(times, now) && Span(after) <= Span(before)
    ensures ExactAfter(before, after, key, times, now)
  {
    ObserveAllSame(before, key, times, now);
    var l, all := ObserveAll(New(before, 0, 0), key, times), RecordAll(New(before, 0, 0), key, times);
    ConfigureKeeps(l, all, now, after, 0, 0);
    ObserveExact(Configured(l, after, 0, 0), Configured(all, after, 0, 0), key, now);
  }
}
