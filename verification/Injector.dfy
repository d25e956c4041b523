/**
 The streaming HTML injector (internal/gate/inject.go): whatever the chunking of
 the upstream body and the caller's buffers, the output is the body, or the body
 with the snippet spliced in once at a searched offset. The search runs on a
 case-folded copy that may be longer than the body; `Safe` says exactly when an
 offset found there can be used on the body.
 */
module Injector {
  import opened Hashing
  import opened InsertionPoint

  // ---------------------------------------------------------------- the upstream body

  /** One upstream read: at most `size` bytes; `last` reports the end together with the final bytes. */
  datatype Turn = Turn(size: nat, last: bool)

  /** A body delivered turn by turn, then as fast as asked; its end is reported again and again. */
  datatype Source = Source(rest: Bytes, plan: seq<Turn>, ended: bool)

  datatype Pulled = Pulled(src: Source, data: Bytes, eof: bool)

  predicate Sound(src: Source) {
    src.ended ==> src.rest == []
  }

  function Pull(src: Source, cap: nat): (p: Pulled)
    ensures p.data + p.src.rest == src.rest && |p.data| <= cap
    ensures Sound(src) ==> Sound(p.src)
    ensures p.eof ==> p.src.ended
  {
    if src.ended then Pulled(src, [], true)
    else
      var n := Min(if src.plan == [] then cap else Min(src.plan[0].size, cap), |src.rest|);
      var eof := n == |src.rest| && (src.plan == [] || src.plan[0].last);
      Pulled(Source(src.rest[n..], if src.plan == [] then [] else src.plan[1..], eof), src.rest[..n], eof)
  }

  /** What one more read makes of the body still to come. */
  function Effort(src: Source): nat {
    |src.rest| + |src.plan|
  }

  lemma PullAdvances(src: Source, cap: nat)
    requires cap > 0 && !Pull(src, cap).eof
    ensures Effort(Pull(src, cap).src) < Effort(src)
    ensures Effort(Pull(src, cap).src) + |Pull(src, cap).data| <= Effort(src)
  {
  }

  datatype Look = Look(src: Source, pre: Bytes, decision: Decision, eof: bool)

  /** The whole look-ahead: read until something is decided. */
  function LookAhead(fold: Folding, src: Source, pre: Bytes): Look
    decreases Effort(src)
  {
    var d := Examine(fold, pre);
    if d != More then Look(src, pre, d, false)
    else
      var p := Pull(src, CHUNK);
      if p.eof then Look(p.src, pre + p.data, Conclude(fold, pre + p.data), true)
      else
        PullAdvances(src, CHUNK);
        LookAhead(fold, p.src, pre + p.data)
  }

  /** The look-ahead loses no byte, stays below 64 KiB + 8 KiB, and decides by the searched offset. */
  lemma {:induction false} LookAheadSplits(fold: Folding, src: Source, pre: Bytes)
    requires Sound(src) && |pre| < MAX_LOOKAHEAD + CHUNK
    ensures var look := LookAhead(fold, src, pre);
      && look.pre + look.src.rest == pre + src.rest
      && pre <= look.pre
      && |look.pre| < MAX_LOOKAHEAD + CHUNK
      && Sound(look.src) && (look.eof ==> look.src.ended)
      && look.decision != More
      && (look.decision.Insert? ==>
            FindInsertionPoint(fold, look.pre) == At(look.decision.at) && look.decision.at <= |look.pre|)
    decreases Effort(src)
  {
    if Examine(fold, pre) == More {
      var p := Pull(src, CHUNK);
      assert pre + src.rest == (pre + p.data) + p.src.rest;
      if !p.eof {
        PullAdvances(src, CHUNK);
        LookAheadSplits(fold, p.src, pre + p.data);
      }
    }
  }

  // ---------------------------------------------------------------- the reader

  datatype Result = Result(injected: bool, reason: Reason)

  datatype Reader = Reader(src: Source, buf: Bytes, pre: Bytes, done: bool, srcEOF: bool, res: Result)

  datatype Reply = Panic | Reply(data: Bytes, eof: bool)

  function New(body: Bytes, plan: seq<Turn>): Reader {
    Reader(Source(body, plan, false), [], [], false, false, Result(false, NoReason))
  }

  function Spliced(b: Bytes, at: nat, snippet: Bytes): Bytes
    requires at <= |b|
  {
    b[..at] + snippet + b[at..]
  }

  /** The output staged by a decision. */
  function Staged(snippet: Bytes, look: Look): Bytes {
    if look.decision.Insert? && look.decision.at <= |look.pre| then Spliced(look.pre, look.decision.at, snippet)
    else look.pre
  }

  function ResultOf(d: Decision): Result {
    match d
    case Insert(_) => Result(true, NoReason)
    case Pass(reason) => Result(false, reason)
    case _ => Result(false, NoReason)
  }

  function Resolved(snippet: Bytes, look: Look): Reader {
    Reader(look.src, Staged(snippet, look), [], true, look.eof, ResultOf(look.decision))
  }

  /** Staged output first, then the rest of the body. */
  function Drawn(r: Reader, cap: nat): (Reader, Reply) {
    if r.buf != [] then
      var n := Min(cap, |r.buf|);
      (r.(buf := r.buf[n..]), Reply(r.buf[..n], false))
    else
      var p := Pull(r.src, cap);
      (r.(src := p.src), Reply(p.data, p.eof))
  }

  function Served(fold: Folding, snippet: Bytes, r: Reader, cap: nat): (Reader, Reply) {
    if r.buf != [] || r.done then Drawn(r, cap)
    else
      var look := LookAhead(fold, r.src, r.pre);
      if look.decision == Crash then (r, Panic) else Drawn(Resolved(snippet, look), cap)
  }

  class InjectingReader {
    const fold: Folding
    const snippet: Bytes
    var src: Source
    var buf: Bytes
    var pre: Bytes
    var done: bool
    var srcEOF: bool
    var res: Result

    ghost predicate Valid()
      reads this
    {
      Sound(src) && (srcEOF ==> src.ended) && (!done ==> buf == [] && !srcEOF && |pre| < MAX_LOOKAHEAD + CHUNK)
    }

    function View(): Reader
      reads this
    {
      Reader(src, buf, pre, done, srcEOF, res)
    }

    constructor (fold: Folding, body: Bytes, plan: seq<Turn>, snippet: Bytes)
      ensures Valid() && View() == New(body, plan) && this.fold == fold && this.snippet == snippet
    {
      this.fold, this.snippet := fold, snippet;
      src, buf, pre, done, srcEOF, res := Source(body, plan, false), [], [], false, false, Result(false, NoReason);
    }

    /** Stage the output of a decision. */
    method Resolve(d: Decision)
      requires d.Pass? || (d.Insert? && d.at <= |pre|)
      modifies this
      ensures View() == Resolved(snippet, Look(old(src), old(pre), d, old(srcEOF)))
    {
      if d.Insert? {
        buf := pre[..d.at] + snippet + pre[d.at..];
        res := Result(true, NoReason);
      } else {
        buf := pre;
        res := Result(false, d.reason);
      }
      pre := [];
      done := true;
    }

    /** One round of the look-ahead loop, before it reads on. */
    method Weigh() returns (d: Decision)
      ensures d == Examine(fold, pre)
      ensures d.Insert? ==> d.at + |Marker()| <= |pre|
    {
      if Contains(pre, Marker()) {
        return Pass(AlreadyPresent);
      }
      var point := FindInsertionPoint(fold, pre);
      if point == Past {
        return Crash;
      }
      if point.At? && |pre| >= point.offset + |Marker()| {
        if MatchAt(pre, Marker(), point.offset) {
          return Pass(AlreadyPresent);
        }
        return Insert(point.offset);
      }
      if |pre| >= MAX_LOOKAHEAD {
        return Pass(PointNotFound);
      }
      return More;
    }

    /** The decision at the end of the body, without looking for the marker. */
    method Settle() returns (d: Decision)
      ensures d == Conclude(fold, pre) && (d.Crash? || d.Pass? || (d.Insert? && d.at <= |pre|))
    {
      var point := FindInsertionPoint(fold, pre);
      if point == Past || (point.At? && point.offset > |pre|) {
        return Crash;
      }
      if point.At? {
        return Insert(point.offset);
      }
      return Pass(PointNotFound);
    }

    method Draw(cap: nat) returns (reply: Reply)
      requires Sound(src) && (srcEOF ==> src.ended)
      modifies this
      ensures (View(), reply) == Drawn(old(View()), cap) && Sound(src) && (srcEOF ==> src.ended)
    {
      if |buf| > 0 {
        var n := Min(cap, |buf|);
        reply := Reply(buf[..n], false);
        buf := buf[n..];
      } else if srcEOF {
        reply := Reply([], true);
      } else {
        var p := Pull(src, cap);
        src := p.src;
        reply := Reply(p.data, p.eof);
      }
    }

    /** Apart from a panic, which ends the request, the reader moves as specified. */
    method Read(cap: nat) returns (reply: Reply)
      requires Valid()
      modifies this
      ensures reply == Served(fold, snippet, old(View()), cap).1
      ensures reply != Panic ==> Valid() && View() == Served(fold, snippet, old(View()), cap).0
    {
      if |buf| > 0 || done {
        reply := Draw(cap);
        return;
      }
      ghost var look := LookAhead(fold, src, pre);
      LookAheadSplits(fold, src, pre);
      while !done
        invariant Sound(src) && (srcEOF ==> src.ended)
        invariant !done ==> buf == [] && !srcEOF && LookAhead(fold, src, pre) == look
        invariant done ==> look.decision != Crash && View() == Resolved(snippet, look)
        decreases !done, Effort(src)
      {
        var d := Weigh();
        if d.More? {
          var p := Pull(src, CHUNK);
          if !p.eof {
            PullAdvances(src, CHUNK);
          }
          src, pre, srcEOF := p.src, pre + p.data, p.eof;
          if srcEOF {
            d := Settle();
          }
        }
        if d.Crash? {
          return Panic;
        }
        if !d.More? {
          Resolve(d);
        }
      }
      reply := Draw(cap);
    }
  }

  // ---------------------------------------------------------------- whole runs

  /** A reader with everything it has handed out so far. */
  datatype Run = Run(reader: Reader, out: Bytes, ended: bool, panicked: bool)

  function Start(body: Bytes, plan: seq<Turn>): Run {
    Run(New(body, plan), [], false, false)
  }

  function Step(fold: Folding, snippet: Bytes, run: Run, cap: nat): Run {
    if run.panicked then run
    else
      var (r, reply) := Served(fold, snippet, run.reader, cap);
      match reply
      case Panic => run.(panicked := true)
      case Reply(data, eof) => Run(r, run.out + data, run.ended || eof, false)
  }

  /** Reads with the given buffer sizes, one after the other. */
  function Drain(fold: Folding, snippet: Bytes, run: Run, caps: seq<nat>): Run
    decreases |caps|
  {
    if caps == [] then run
    else Step(fold, snippet, Drain(fold, snippet, run, caps[..|caps| - 1]), caps[|caps| - 1])
  }

  function Target(snippet: Bytes, look: Look): Bytes {
    Staged(snippet, look) + look.src.rest
  }

  function Decided(fold: Folding, body: Bytes, plan: seq<Turn>): Look {
    LookAhead(fold, Source(body, plan, false), [])
  }

  /** What holds between two reads of one body. */
  ghost predicate Kept(snippet: Bytes, body: Bytes, plan: seq<Turn>, look: Look, run: Run) {
    var r := run.reader;
    if run.panicked then look.decision == Crash
    else if !r.done then r == New(body, plan) && run.out == [] && !run.ended
    else
      && look.decision != Crash
      && run.out + (r.buf + r.src.rest) == Target(snippet, look)
      && r.res == ResultOf(look.decision)
      && Sound(r.src) && (r.srcEOF ==> r.src.ended)
      && (run.ended ==> r.buf == [] && r.src.ended)
  }

  lemma DrawnKeeps(snippet: Bytes, body: Bytes, plan: seq<Turn>, look: Look, run: Run, cap: nat)
    requires Kept(snippet, body, plan, look, run) && run.reader.done && !run.panicked
    ensures var (r, reply) := Drawn(run.reader, cap);
      && reply.Reply?
      && Kept(snippet, body, plan, look, Run(r, run.out + reply.data, run.ended || reply.eof, false))
  {
    var r := run.reader;
    if r.buf != [] {
      var n := Min(cap, |r.buf|);
      assert r.buf == r.buf[..n] + r.buf[n..];
      assert run.out + (r.buf + r.src.rest) == (run.out + r.buf[..n]) + (r.buf[n..] + r.src.rest);
    } else {
      var p := Pull(r.src, cap);
      assert run.out + ([] + r.src.rest) == (run.out + p.data) + ([] + p.src.rest);
    }
  }

  lemma StepKeeps(fold: Folding, snippet: Bytes, body: Bytes, plan: seq<Turn>, look: Look, run: Run, cap: nat)
    requires look == Decided(fold, body, plan) && Kept(snippet, body, plan, look, run)
    ensures Kept(snippet, body, plan, look, Step(fold, snippet, run, cap))
    ensures Step(fold, snippet, run, cap).panicked || Step(fold, snippet, run, cap).reader.done
  {
    if run.panicked {
    } else if run.reader.done {
      DrawnKeeps(snippet, body, plan, look, run, cap);
    } else if look.decision != Crash {
      LookAheadSplits(fold, run.reader.src, []);
      var r := Resolved(snippet, look);
      assert [] + (r.buf + r.src.rest) == Target(snippet, look);
      DrawnKeeps(snippet, body, plan, look, Run(r, [], false, false), cap);
    }
  }

  lemma {:induction false} DrainKeeps(fold: Folding, snippet: Bytes, body: Bytes, plan: seq<Turn>, caps: seq<nat>)
    ensures var run := Drain(fold, snippet, Start(body, plan), caps);
      && Kept(snippet, body, plan, Decided(fold, body, plan), run)
      && (caps != [] ==> run.panicked || run.reader.done)
    decreases |caps|
  {
    if caps != [] {
      var init := caps[..|caps| - 1];
      DrainKeeps(fold, snippet, body, plan, init);
      var before := Drain(fold, snippet, Start(body, plan), init);
      StepKeeps(fold, snippet, body, plan, Decided(fold, body, plan), before, caps[|caps| - 1]);
    }
  }

  /** The body unchanged, or with the snippet inserted once, as the result reports. */
  ghost predicate AddOnlyOutcome(fold: Folding, snippet: Bytes, body: Bytes, look: Look, res: Result, target: Bytes) {
    && look.pre <= body && |look.pre| < MAX_LOOKAHEAD + CHUNK
    && (res.injected ==> exists at: nat {:trigger Spliced(body, at, snippet)} ::
          at <= |look.pre| && FindInsertionPoint(fold, look.pre) == At(at) && target == Spliced(body, at, snippet))
    && (!res.injected ==> target == body)
  }

  /**
   Add-only injection: every output is a prefix of the body, or of the body with
   the snippet spliced in at the offset searched in the look-ahead; at the end of
   the stream it is all of it. A read panics exactly when the decision does.
   */
  lemma AddOnly(fold: Folding, snippet: Bytes, body: Bytes, plan: seq<Turn>, caps: seq<nat>)
    requires caps != []
    ensures var run, look := Drain(fold, snippet, Start(body, plan), caps), Decided(fold, body, plan);
      && (run.panicked <==> look.decision == Crash)
      && (!run.panicked ==>
            && AddOnlyOutcome(fold, snippet, body, look, run.reader.res, Target(snippet, look))
            && run.out <= Target(snippet, look)
            && (run.ended ==> run.out == Target(snippet, look)))
  {
    var run, look := Drain(fold, snippet, Start(body, plan), caps), Decided(fold, body, plan);
    DrainKeeps(fold, snippet, body, plan, caps);
    if !run.panicked {
      TargetAddOnly(fold, snippet, body, plan, run.reader.res);
      if run.ended {
        assert run.out + ([] + []) == run.out;
      }
    }
  }

  lemma TargetAddOnly(fold: Folding, snippet: Bytes, body: Bytes, plan: seq<Turn>, res: Result)
    requires Decided(fold, body, plan).decision != Crash && res == ResultOf(Decided(fold, body, plan).decision)
    ensures var look := Decided(fold, body, plan);
      AddOnlyOutcome(fold, snippet, body, look, res, Target(snippet, look))
  {
    var look := Decided(fold, body, plan);
    LookAheadSplits(fold, Source(body, plan, false), []);
    assert [] + body == body;
    if look.decision.Insert? {
      SplicedBehind(look.pre, look.src.rest, body, look.decision.at, snippet);
    }
  }

  lemma SplicedBehind(front: Bytes, rest: Bytes, body: Bytes, at: nat, snippet: Bytes)
    requires body == front + rest && at <= |front|
    ensures Spliced(front, at, snippet) + rest == Spliced(body, at, snippet)
  {
    assert body[..at] == front[..at];
    assert body[at..] == front[at..] + rest;
  }

  // ---------------------------------------------------------------- every run ends

  /** Bytes and turns still to go. */
  function Ahead(snippet: Bytes, r: Reader): nat {
    |r.buf| + Effort(r.src) + (if r.done then 0 else |snippet|)
  }

  lemma DrawnAdvances(r: Reader, cap: nat)
    requires cap > 0 && !Drawn(r, cap).1.eof
    ensures |Drawn(r, cap).0.buf| + Effort(Drawn(r, cap).0.src) < |r.buf| + Effort(r.src)
  {
    if r.buf == [] {
      PullAdvances(r.src, cap);
    }
  }

  lemma {:induction false} LookAheadSpends(fold: Folding, src: Source, pre: Bytes)
    ensures var look := LookAhead(fold, src, pre); |look.pre| + Effort(look.src) <= |pre| + Effort(src)
    decreases Effort(src)
  {
    if Examine(fold, pre) == More {
      var p := Pull(src, CHUNK);
      if !p.eof {
        PullAdvances(src, CHUNK);
        LookAheadSpends(fold, p.src, pre + p.data);
      }
    }
  }

  lemma StepAdvances(fold: Folding, snippet: Bytes, run: Run, cap: nat)
    requires cap > 0 && !run.panicked && (!run.reader.done ==> run.reader.buf == [] && run.reader.pre == [])
    ensures var next := Step(fold, snippet, run, cap);
      next.panicked || next.ended || (next.reader.done && Ahead(snippet, next.reader) < Ahead(snippet, run.reader))
  {
    var r := run.reader;
    if r.done {
      if !Drawn(r, cap).1.eof {
        DrawnAdvances(r, cap);
      }
    } else {
      var look := LookAhead(fold, r.src, r.pre);
      LookAheadSpends(fold, r.src, r.pre);
      var mid := Resolved(snippet, look);
      assert |mid.buf| <= |look.pre| + |snippet|;
      if !Drawn(mid, cap).1.eof {
        DrawnAdvances(mid, cap);
      }
    }
  }

  /** With non-empty buffers the end is reached within |body| + |snippet| + |plan| + 1 reads. */
  lemma {:induction false} DrainEnds(fold: Folding, snippet: Bytes, body: Bytes, plan: seq<Turn>, caps: seq<nat>)
    requires forall i :: 0 <= i < |caps| ==> caps[i] > 0
    ensures var run := Drain(fold, snippet, Start(body, plan), caps);
      run.panicked || run.ended || Ahead(snippet, run.reader) + |caps| <= |body| + |plan| + |snippet|
    decreases |caps|
  {
    if caps != [] {
      var init, cap := caps[..|caps| - 1], caps[|caps| - 1];
      DrainEnds(fold, snippet, body, plan, init);
      DrainKeeps(fold, snippet, body, plan, init);
      var before := Drain(fold, snippet, Start(body, plan), init);
      if !before.panicked {
        StepAdvances(fold, snippet, before, cap);
      }
    }
  }

  // ---------------------------------------------------------------- when the offset fits

  /** Some delivery makes the reader look at the first n bytes: chunk by chunk, nothing was decided before. */
  ghost predicate Reached(fold: Folding, body: Bytes, n: nat)
    requires n <= |body|
  {
    n == 0 || exists m: nat :: m < n && Reached(fold, body, m) && OneChunk(fold, body, m, n)
  }

  ghost predicate OneChunk(fold: Folding, body: Bytes, m: nat, n: nat)
    requires m <= n <= |body|
  {
    n - m <= CHUNK && Examine(fold, body[..m]) == More
  }

  /** No look-ahead of this body that can be reached finds its point beyond the bytes it holds. */
  ghost predicate Safe(fold: Folding, body: Bytes) {
    forall n: nat :: n <= |body| && Reached(fold, body, n) ==>
      && FitsEarly(fold, body[..n])
      && (OneChunk(fold, body, n, |body|) ==> FitsWhole(fold, body))
  }

  lemma {:induction false} SafeDecides(fold: Folding, body: Bytes, src: Source, n: nat)
    requires Sound(src) && Safe(fold, body) && n <= |body| && src.rest == body[n..] && Reached(fold, body, n)
    ensures LookAhead(fold, src, body[..n]).decision != Crash
    decreases Effort(src)
  {
    var pre := body[..n];
    FitsExactly(fold, pre);
    if Examine(fold, pre) == More {
      var p := Pull(src, CHUNK);
      var next := n + |p.data|;
      PulledOn(body, n, src, next);
      assert OneChunk(fold, body, n, next);
      if p.eof {
        FitsExactly(fold, body);
      } else {
        PullAdvances(src, CHUNK);
        assert next == n || Reached(fold, body, next);
        SafeDecides(fold, body, p.src, next);
      }
    }
  }

  lemma PulledOn(body: Bytes, n: nat, src: Source, next: nat)
    requires Sound(src) && n <= |body| && src.rest == body[n..] && next == n + |Pull(src, CHUNK).data|
    ensures next <= |body| && next - n <= CHUNK && body[..n] + Pull(src, CHUNK).data == body[..next]
    ensures Pull(src, CHUNK).src.rest == body[next..]
    ensures (Pull(src, CHUNK).eof ==> next == |body| && body[..next] == body)
  {
    var p := Pull(src, CHUNK);
    assert p.data == src.rest[..|p.data|] && p.src.rest == src.rest[|p.data|..];
  }

  /** A delivery that brings the reader to a reached prefix, with the given turns still to come. */
  lemma {:induction false} PlanTo(fold: Folding, body: Bytes, n: nat, tail: seq<Turn>) returns (plan: seq<Turn>)
    requires n <= |body| && Reached(fold, body, n)
    ensures Decided(fold, body, plan) == LookAhead(fold, Source(body[n..], tail, false), body[..n])
    decreases n
  {
    if n == 0 {
      plan := tail;
      assert body[0..] == body && body[..0] == [];
    } else {
      var m: nat :| m < n && Reached(fold, body, m) && OneChunk(fold, body, m, n);
      plan := PlanTo(fold, body, m, [Turn(n - m, false)] + tail);
      OneTurn(fold, body, m, n, tail);
    }
  }

  lemma OneTurn(fold: Folding, body: Bytes, m: nat, n: nat, tail: seq<Turn>)
    requires m < n <= |body| && OneChunk(fold, body, m, n)
    ensures LookAhead(fold, Source(body[m..], [Turn(n - m, false)] + tail, false), body[..m])
      == LookAhead(fold, Source(body[n..], tail, false), body[..n])
  {
    var src := Source(body[m..], [Turn(n - m, false)] + tail, false);
    var p := Pull(src, CHUNK);
    assert src.plan[1..] == tail && body[m..][n - m..] == body[n..];
    assert p == Pulled(Source(body[n..], tail, false), body[m..][..n - m], false);
    PulledOn(body, m, src, n);
    LookAheadGoesOn(fold, src, body[..m], p);
  }

  lemma LookAheadGoesOn(fold: Folding, src: Source, pre: Bytes, p: Pulled)
    requires Examine(fold, pre) == More && p == Pull(src, CHUNK)
    ensures !p.eof ==> LookAhead(fold, src, pre) == LookAhead(fold, p.src, pre + p.data)
    ensures p.eof ==> LookAhead(fold, src, pre).decision == Conclude(fold, pre + p.data)
  {
  }

  lemma LookAheadStops(fold: Folding, src: Source, pre: Bytes)
    requires Examine(fold, pre) != More
    ensures LookAhead(fold, src, pre) == Look(src, pre, Examine(fold, pre), false)
  {
  }

  /** A body that is not safe has a delivery on which the reader panics. */
  lemma UnsafeCrashes(fold: Folding, body: Bytes) returns (plan: seq<Turn>)
    requires !Safe(fold, body)
    ensures Decided(fold, body, plan).decision == Crash
  {
    var n: nat :| n <= |body| && Reached(fold, body, n)
      && !(FitsEarly(fold, body[..n]) && (OneChunk(fold, body, n, |body|) ==> FitsWhole(fold, body)));
    plan := PlanTo(fold, body, n, []);
    var src, pre := Source(body[n..], [], false), body[..n];
    FitsExactly(fold, pre);
    FitsExactly(fold, body);
    if FitsEarly(fold, pre) {
      PulledOn(body, n, src, |body|);
      LookAheadGoesOn(fold, src, pre, Pull(src, CHUNK));
    } else {
      LookAheadStops(fold, src, pre);
    }
  }

  ghost predicate NeverPanics(fold: Folding, body: Bytes) {
    forall plan: seq<Turn> :: Decided(fold, body, plan).decision != Crash
  }

  /** No delivery of a body panics if and only if the body is safe. */
  lemma SafeExactly(fold: Folding, body: Bytes)
    ensures NeverPanics(fold, body) <==> Safe(fold, body)
  {
    if Safe(fold, body) {
      forall plan: seq<Turn> ensures Decided(fold, body, plan).decision != Crash {
        assert body[0..] == body && body[..0] == [];
        SafeDecides(fold, body, Source(body, plan, false), 0);
      }
    } else {
      var plan := UnsafeCrashes(fold, body);
    }
  }

  /** An ASCII body is safe. */
  lemma AsciiSafe(fold: Folding, body: Bytes)
    requires IsAscii(body)
    ensures Safe(fold, body)
  {
    AsciiFits(fold, body);
    forall n: nat | n <= |body| ensures FitsEarly(fold, body[..n]) {
      AsciiFits(fold, body[..n]);
    }
  }

  /** On an ASCII body, an insertion after a head tag is at the first head boundary of the whole body. */
  lemma HeadBoundary(fold: Folding, body: Bytes, plan: seq<Turn>)
    requires IsAscii(body) && Decided(fold, body, plan).decision.Insert?
    requires Contains(Lower(fold, Decided(fold, body, plan).pre), Head())
    ensures FindInsertionPoint(fold, body) == At(Decided(fold, body, plan).decision.at)
  {
    LookAheadSplits(fold, Source(body, plan, false), []);
    var look := Decided(fold, body, plan);
    assert [] + body == body;
    assert look.pre == body[..|look.pre|];
    HeadStable(fold, body, |look.pre|, look.pre);
  }

  /** Some body makes the reader panic. */
  lemma NotAlwaysSafe(fold: Folding)
    ensures exists body: Bytes :: !NeverPanics(fold, body)
  {
    FoldingOvershoots(fold);
    var body := [0xFF] + ([0xFF] + ([0xFF] + BodyTag()));
    NothingYet(fold);
    assert body[..0] == [] && Reached(fold, body, 0) && OneChunk(fold, body, 0, |body|);
    SafeExactly(fold, body);
    assert !NeverPanics(fold, body);
  }

  lemma {:induction false} InsertOrCrash(fold: Folding, body: Bytes, src: Source, n: nat)
    requires Sound(src) && n <= |body| && src.rest == body[n..]
    requires !Contains(body, Marker()) && |body| < MAX_LOOKAHEAD && FindInsertionPoint(fold, body).At?
    ensures LookAhead(fold, src, body[..n]).decision.Insert? || LookAhead(fold, src, body[..n]).decision == Crash
    decreases Effort(src)
  {
    var pre := body[..n];
    if Examine(fold, pre) == More {
      var p := Pull(src, CHUNK);
      var next := n + |p.data|;
      PulledOn(body, n, src, next);
      LookAheadGoesOn(fold, src, pre, p);
      if p.eof {
        FoundConcluded(fold, body);
      } else {
        PullAdvances(src, CHUNK);
        InsertOrCrash(fold, body, p.src, next);
      }
    } else {
      LookAheadStops(fold, src, pre);
      if Examine(fold, pre) != Crash {
        UnmarkedExamined(fold, body, pre);
      }
    }
  }

  lemma FoundConcluded(fold: Folding, body: Bytes)
    requires FindInsertionPoint(fold, body).At?
    ensures Conclude(fold, body).Insert? || Conclude(fold, body) == Crash
  {
  }

  /** A short prefix of an unmarked body either settles the insertion or waits. */
  lemma UnmarkedExamined(fold: Folding, body: Bytes, pre: Bytes)
    requires pre <= body && !Contains(body, Marker()) && |body| < MAX_LOOKAHEAD && Examine(fold, pre) != Crash
    ensures Examine(fold, pre) == More || Examine(fold, pre).Insert?
  {
    if Contains(pre, Marker()) {
      IndexFromStable(body, |pre|, pre, Marker(), 0);
    }
    var point := FindInsertionPoint(fold, pre);
    if point.At? && MatchAt(pre, Marker(), point.offset) {
      IndexFromFirst(pre, Marker(), 0, point.offset);
    }
  }

  /** A safe body below 64 KiB with an insertion point and no marker is injected, however it is delivered. */
  lemma AlwaysInjected(fold: Folding, body: Bytes, plan: seq<Turn>)
    requires Safe(fold, body) && !Contains(body, Marker()) && |body| < MAX_LOOKAHEAD
    requires FindInsertionPoint(fold, body).At?
    ensures Decided(fold, body, plan).decision.Insert?
  {
    assert body[0..] == body && body[..0] == [];
    SafeExactly(fold, body);
    InsertOrCrash(fold, body, Source(body, plan, false), 0);
  }
}
