/**
 The passive HTTP/2 frame monitor (cmd/server/h2monitor.go): an incremental
 parser fed in arbitrary chunks, against a parser of the whole stream.
 Frames have the 9-byte header of section 4.1 of RFC 9113.
 */
module FrameMonitor {
  import opened Hashing
  import opened Text

  const RST_STREAM: Byte := 3
  const CONTINUATION: Byte := 9
  const WINDOW_UPDATE: Byte := 8
  const PRIORITY: Byte := 2
  const PING: Byte := 6
  const SETTINGS: Byte := 4

  const MAX_RST := 15
  const MAX_CONTINUATION := 20
  const MAX_PROTO_ERR := 10
  const MAX_CONTROL := 300
  const PREFACE := 24

  datatype Abuse = Quiet | RapidReset | ContinuationFlood
  datatype Counts = Counts(rst: nat, cont: nat, protoErr: nat, control: nat, abuse: Abuse)
  datatype Frame = Frame(ftype: Byte, payload: Bytes)

  /** A violation that makes the server reset the stream: a zero window increment, a PRIORITY of wrong length. */
  predicate Violates(f: Frame) {
    || (f.ftype == WINDOW_UPDATE && |f.payload| == 4 && Increment(f.payload) == 0)
    || (f.ftype == PRIORITY && |f.payload| != 5)
  }

  /** The 31-bit window increment. */
  function Increment(p: Bytes): nat
    requires |p| == 4
  {
    var a: int, b: int, c: int, d: int := p[0], p[1], p[2], p[3];
    (0x100_0000 * a + 0x1_0000 * b + 0x100 * c + d) % 0x8000_0000
  }

  predicate IsControl(f: Frame) {
    f.ftype == WINDOW_UPDATE || f.ftype == PRIORITY || f.ftype == PING || f.ftype == SETTINGS
  }

  function Classify(c: Counts, f: Frame): Counts {
    var c1 :=
      if f.ftype == RST_STREAM then
        c.(rst := c.rst + 1, abuse := if c.rst + 1 > MAX_RST then RapidReset else c.abuse)
      else if f.ftype == CONTINUATION then
        c.(cont := c.cont + 1, abuse := if c.cont + 1 > MAX_CONTINUATION then ContinuationFlood else c.abuse)
      else if f.ftype == WINDOW_UPDATE || f.ftype == PRIORITY then
        c.(control := c.control + 1, protoErr := if Violates(f) then c.protoErr + 1 else c.protoErr)
      else if f.ftype == PING || f.ftype == SETTINGS then
        c.(control := c.control + 1)
      else c;
    if c1.protoErr > MAX_PROTO_ERR || c1.control > MAX_CONTROL then c1.(abuse := RapidReset) else c1
  }

  // ---------------------------------------------------------------- the whole stream

  function PayloadLength(b: Bytes): nat
    requires |b| >= 9
  {
    var high: int, mid: int, low: int := b[0], b[1], b[2];
    0x1_0000 * high + 0x100 * mid + low
  }

  predicate HasFrame(b: Bytes) {
    |b| >= 9 && |b| >= 9 + PayloadLength(b)
  }

  function FirstFrame(b: Bytes): Frame
    requires HasFrame(b)
  {
    Frame(b[3], b[9..9 + PayloadLength(b)])
  }

  function Beyond(b: Bytes): (r: Bytes)
    requires HasFrame(b)
    ensures |r| < |b|
  {
    b[9 + PayloadLength(b)..]
  }

  /** The complete frames of a stream, in order. */
  function Frames(b: Bytes): seq<Frame>
    decreases |b|
  {
    if !HasFrame(b) then [] else [FirstFrame(b)] + Frames(Beyond(b))
  }

  /** Classification of frame after frame, stopping at the first threshold crossed. */
  function Tally(c: Counts, frames: seq<Frame>): Counts
    decreases |frames|
  {
    if c.abuse != Quiet || frames == [] then c else Tally(Classify(c, frames[0]), frames[1..])
  }

  // ---------------------------------------------------------------- the monitor

  datatype Monitor = Monitor(buf: Bytes, prefaceSkip: nat, counts: Counts)

  function New(): Monitor {
    Monitor([], PREFACE, Counts(0, 0, 0, 0, Quiet))
  }

  /** Consume complete frames off the buffer; on abuse the buffer is dropped. */
  function Consume(c: Counts, b: Bytes): (Counts, Bytes)
    decreases |b|
  {
    if c.abuse != Quiet then (c, [])
    else if !HasFrame(b) then (c, b)
    else Consume(Classify(c, FirstFrame(b)), Beyond(b))
  }

  function Min(a: nat, b: nat): nat {
    if a < b then a else b
  }

  function Feed(m: Monitor, p: Bytes): Monitor {
    if m.counts.abuse != Quiet then m
    else Skim(m.counts, m.prefaceSkip, m.buf + p)
  }

  /** Drop what is left of the preface, consume the frames behind it. */
  function Skim(c: Counts, skip: nat, all: Bytes): Monitor {
    var n := Min(skip, |all|);
    var (c', rest) := Consume(c, all[n..]);
    Monitor(rest, skip - n, c')
  }

  lemma ConsumeOne(c: Counts, b: Bytes)
    requires c.abuse == Quiet && HasFrame(b)
    ensures Consume(c, b) == Consume(Classify(c, FirstFrame(b)), Beyond(b))
  {
  }

  class Observer {
    var buf: Bytes
    var prefaceSkip: nat
    var counts: Counts

    function View(): Monitor
      reads this
    {
      Monitor(buf, prefaceSkip, counts)
    }

    constructor ()
      ensures View() == New()
    {
      buf, prefaceSkip, counts := [], PREFACE, Counts(0, 0, 0, 0, Quiet);
    }

    method FeedBytes(p: Bytes)
      modifies this
      ensures View() == Feed(old(View()), p)
    {
      if counts.abuse != Quiet {
        return;
      }
      buf := buf + p;
      if prefaceSkip > 0 {
        var n := if prefaceSkip > |buf| then |buf| else prefaceSkip;
        buf := buf[n..];
        prefaceSkip := prefaceSkip - n;
      }
      ghost var start, c0 := buf, counts;
      ghost var n := Min(old(prefaceSkip), |old(buf) + p|);
      assert start == (old(buf) + p)[n..] && prefaceSkip == old(prefaceSkip) - n;
      while |buf| >= 9
        invariant counts.abuse == Quiet
        invariant Consume(counts, buf) == Consume(c0, start)
        invariant prefaceSkip == old(prefaceSkip) - n
        decreases |buf|
      {
        var length := PayloadLength(buf);
        if |buf| < 9 + length {
          break;
        }
        ConsumeOne(counts, buf);
        counts, buf := Classify(counts, FirstFrame(buf)), buf[9 + length..];
        if counts.abuse != Quiet {
          buf := [];
          return;
        }
      }
    }
  }

  // ---------------------------------------------------------------- chunk invariance

  lemma FrameStable(b: Bytes, q: Bytes)
    requires HasFrame(b)
    ensures HasFrame(b + q) && FirstFrame(b + q) == FirstFrame(b) && Beyond(b + q) == Beyond(b) + q
  {
    assert PayloadLength(b + q) == PayloadLength(b);
  }

  lemma {:induction false} ConsumeMore(c: Counts, b: Bytes, q: Bytes)
    ensures var (c1, rest) := Consume(c, b);
      Consume(c, b + q) == if c1.abuse != Quiet then (c1, []) else Consume(c1, rest + q)
    decreases |b|
  {
    if c.abuse == Quiet && HasFrame(b) {
      FrameStable(b, q);
      ConsumeMore(Classify(c, FirstFrame(b)), Beyond(b), q);
    }
  }

  lemma {:induction false} AbuseDropsBuffer(c: Counts, b: Bytes)
    ensures Consume(c, b).0.abuse != Quiet ==> Consume(c, b).1 == []
    decreases |b|
  {
    if c.abuse == Quiet && HasFrame(b) {
      AbuseDropsBuffer(Classify(c, FirstFrame(b)), Beyond(b));
    }
  }

  lemma SkimWithinPreface(c: Counts, skip: nat, all: Bytes)
    requires c.abuse == Quiet && |all| < skip
    ensures Skim(c, skip, all) == Monitor([], skip - |all|, c)
  {
    assert all[|all|..] == [];
  }

  lemma SkimTwice(c: Counts, skip: nat, all: Bytes, q: Bytes, left: nat)
    requires |all| <= skip && left == skip - |all|
    ensures Skim(c, left, q) == Skim(c, skip, all + q)
  {
    var n := Min(left, |q|);
    assert (all + q)[|all| + n..] == q[n..];
  }

  /** Still inside the preface: nothing is parsed yet. */
  lemma FeedInPreface(m: Monitor, p: Bytes, q: Bytes)
    requires m.counts.abuse == Quiet && |m.buf + p| < m.prefaceSkip
    ensures Feed(Feed(m, p), q) == Feed(m, p + q)
  {
    var all := m.buf + p;
    SkimWithinPreface(m.counts, m.prefaceSkip, all);
    SkimTwice(m.counts, m.prefaceSkip, all, q, m.prefaceSkip - |all|);
    assert m.buf + (p + q) == all + q && [] + q == q;
  }

  lemma FeedPastPreface(m: Monitor, p: Bytes, q: Bytes)
    requires m.counts.abuse == Quiet && |m.buf + p| >= m.prefaceSkip
    ensures Feed(Feed(m, p), q) == Feed(m, p + q)
  {
    var all, n := m.buf + p, m.prefaceSkip;
    var (c, rest) := Consume(m.counts, all[n..]);
    assert m.buf + (p + q) == all + q && (all + q)[n..] == all[n..] + q;
    ConsumeMore(m.counts, all[n..], q);
    AbuseDropsBuffer(m.counts, all[n..]);
    assert (rest + q)[0..] == rest + q;
  }

  /** Two feeds are one feed of the concatenation. */
  lemma FeedConcat(m: Monitor, p: Bytes, q: Bytes)
    ensures Feed(Feed(m, p), q) == Feed(m, p + q)
  {
    if m.counts.abuse == Quiet {
      if |m.buf + p| < m.prefaceSkip {
        FeedInPreface(m, p, q);
      } else {
        FeedPastPreface(m, p, q);
      }
    }
  }

  function FeedAll(m: Monitor, chunks: seq<Bytes>): Monitor {
    if chunks == [] then m else Feed(FeedAll(m, chunks[..|chunks| - 1]), chunks[|chunks| - 1])
  }

  function Concat(chunks: seq<Bytes>): Bytes {
    if chunks == [] then [] else Concat(chunks[..|chunks| - 1]) + chunks[|chunks| - 1]
  }

  lemma {:induction false} ChunksDoNotMatter(chunks: seq<Bytes>)
    ensures FeedAll(New(), chunks) == Feed(New(), Concat(chunks))
  {
    if chunks != [] {
      var init, last := chunks[..|chunks| - 1], chunks[|chunks| - 1];
      ChunksDoNotMatter(init);
      FeedConcat(New(), Concat(init), last);
    }
  }

  lemma {:induction false} ConsumeTallies(c: Counts, b: Bytes)
    ensures Consume(c, b).0 == Tally(c, Frames(b))
    decreases |b|
  {
    if c.abuse == Quiet && HasFrame(b) {
      ConsumeTallies(Classify(c, FirstFrame(b)), Beyond(b));
      assert ([FirstFrame(b)] + Frames(Beyond(b)))[1..] == Frames(Beyond(b));
    }
  }

  /** The stream after the connection preface. */
  function Body(stream: Bytes): Bytes {
    stream[Min(PREFACE, |stream|)..]
  }

  /** For every cutting of every stream, the counters and the verdict are the whole-stream tally. */
  lemma ChunkInvariance(chunks: seq<Bytes>)
    ensures FeedAll(New(), chunks).counts == Tally(New().counts, Frames(Body(Concat(chunks))))
  {
    ChunksDoNotMatter(chunks);
    var stream := Concat(chunks);
    assert [] + stream == stream;
    ConsumeTallies(New().counts, Body(stream));
  }

  // ---------------------------------------------------------------- the frames sent

  /** A frame as its sender writes it, in the layout of section 4.1 of RFC 9113. */
  datatype Sent = Sent(ftype: Byte, flags: Byte, stream: nat, payload: Bytes)

  /** The length field has 24 bits. */
  predicate Sendable(f: Sent) {
    |f.payload| < 0x100_0000
  }

  function Header(f: Sent): (h: Bytes)
    ensures |h| == 9
  {
    BigEndian(|f.payload|, 3) + [f.ftype, f.flags] + BigEndian(f.stream, 4)
  }

  function Written(f: Sent): Bytes {
    Header(f) + f.payload
  }

  function Encoded(fs: seq<Sent>): Bytes {
    if fs == [] then [] else Written(fs[0]) + Encoded(fs[1..])
  }

  ghost predicate AllSendable(fs: seq<Sent>) {
    forall i :: 0 <= i < |fs| ==> Sendable(fs[i])
  }

  /** A frame that has not arrived in full. */
  ghost predicate Incomplete(tail: Bytes) {
    exists f :: CutShort(tail, f)
  }

  predicate CutShort(tail: Bytes, f: Sent) {
    Sendable(f) && |tail| < |Written(f)| && tail == Written(f)[..|tail|]
  }

  /** Type and payload of the frames sent. */
  function Seen(fs: seq<Sent>): seq<Frame> {
    if fs == [] then [] else [Frame(fs[0].ftype, fs[0].payload)] + Seen(fs[1..])
  }

  lemma ThreeBytes(b: Bytes)
    requires |b| >= 9
    ensures PayloadLength(b) == FromBigEndian(b[..3])
  {
    var one, two, three := b[..1], b[..2], b[..3];
    assert one[..0] == [] && two[..1] == one && three[..2] == two;
    assert FromBigEndian(one) == b[0];
    assert FromBigEndian(two) == 256 * FromBigEndian(one) + two[1];
    assert FromBigEndian(three) == 256 * FromBigEndian(two) + three[2];
  }

  lemma HeaderTells(f: Sent, b: Bytes)
    requires Sendable(f) && |b| >= 9 && b[..9] == Header(f)
    ensures PayloadLength(b) == |f.payload| && b[3] == f.ftype
  {
    ThreeBytes(b);
    var h := Header(f);
    assert b[..3] == h[..3] == BigEndian(|f.payload|, 3);
    assert Pow256(3) == 256 * (256 * (256 * Pow256(0)));
    BigEndianRoundTrip(|f.payload|, 3);
    assert b[3] == b[..9][3];
  }

  lemma FirstSent(f: Sent, rest: Bytes)
    requires Sendable(f)
    ensures var b := Written(f) + rest;
      HasFrame(b) && FirstFrame(b) == Frame(f.ftype, f.payload) && Beyond(b) == rest
  {
    var b := Written(f) + rest;
    assert b[..9] == Header(f);
    HeaderTells(f, b);
    assert b[9..9 + |f.payload|] == f.payload && b[9 + |f.payload|..] == rest;
  }

  lemma IncompleteHasNoFrame(tail: Bytes, f: Sent)
    requires CutShort(tail, f)
    ensures !HasFrame(tail)
  {
    if |tail| >= 9 {
      assert tail[..9] == Written(f)[..9] == Header(f);
      HeaderTells(f, tail);
    }
  }

  /** The monitor's reading of a stream gives back the frames that were sent in full, and nothing of the rest. */
  lemma {:induction false} SentIsSeen(fs: seq<Sent>, tail: Bytes)
    requires AllSendable(fs) && Incomplete(tail)
    ensures Frames(Encoded(fs) + tail) == Seen(fs)
  {
    if fs == [] {
      assert Encoded(fs) + tail == tail;
      var f :| CutShort(tail, f);
      IncompleteHasNoFrame(tail, f);
    } else {
      var rest := Encoded(fs[1..]) + tail;
      assert Encoded(fs) + tail == Written(fs[0]) + rest;
      FirstSent(fs[0], rest);
      SentIsSeen(fs[1..], tail);
    }
  }

  /** The frame whose header and payload these are. */
  function Unwritten(h: Bytes, payload: Bytes): Sent
    requires |h| == 9
  {
    Sent(h[3], h[4], FromBigEndian(h[5..9]), payload)
  }

  lemma WrittenBack(h: Bytes, payload: Bytes)
    requires |h| == 9 && |payload| == FromBigEndian(h[..3])
    ensures Sendable(Unwritten(h, payload)) && Written(Unwritten(h, payload)) == h + payload
  {
    FromBigEndianRoundTrip(h[..3]);
    FromBigEndianRoundTrip(h[5..9]);
    assert Pow256(3) == 256 * (256 * (256 * Pow256(0)));
    assert h == h[..3] + [h[3], h[4]] + h[5..9];
  }

  function Zeros(n: nat): Bytes {
    BigEndian(0, n)
  }

  lemma NoFrameIsIncomplete(b: Bytes)
    requires !HasFrame(b)
    ensures Incomplete(b)
  {
    if |b| >= 9 {
      var h, begun := b[..9], b[9..];
      ThreeBytes(b);
      assert h[..3] == b[..3];
      var payload := begun + Zeros(PayloadLength(b) - |begun|);
      WrittenBack(h, payload);
      assert (h + payload)[..|b|] == b;
      assert CutShort(b, Unwritten(h, payload));
    } else {
      var h := b + Zeros(9 - |b|);
      var payload := Zeros(FromBigEndian(h[..3]));
      WrittenBack(h, payload);
      assert (h + payload)[..|b|] == b;
      assert CutShort(b, Unwritten(h, payload));
    }
  }

  /** Every stream is the frames sent in full and one that is not. */
  lemma {:induction false} EveryStream(b: Bytes) returns (fs: seq<Sent>, tail: Bytes)
    ensures AllSendable(fs) && Incomplete(tail) && b == Encoded(fs) + tail
    decreases |b|
  {
    if HasFrame(b) {
      var h, payload := b[..9], FirstFrame(b).payload;
      ThreeBytes(b);
      assert h[..3] == b[..3];
      WrittenBack(h, payload);
      var more;
      more, tail := EveryStream(Beyond(b));
      fs := [Unwritten(h, payload)] + more;
      assert fs[1..] == more;
      assert b == h + payload + Beyond(b);
    } else {
      NoFrameIsIncomplete(b);
      fs, tail := [], b;
    }
  }

  // ---------------------------------------------------------------- what the verdict says

  datatype Kind = Reset | Continued | Violation | Control

  /** An increment of zero, whatever the reserved bit, or a PRIORITY frame that is not five bytes long. */
  predicate BreaksProtocol(f: Frame) {
    || (f.ftype == WINDOW_UPDATE && (f.payload == [0, 0, 0, 0] || f.payload == [0x80, 0, 0, 0]))
    || (f.ftype == PRIORITY && |f.payload| != 5)
  }

  lemma ViolatesExactly(f: Frame)
    ensures Violates(f) <==> BreaksProtocol(f)
  {
    if |f.payload| == 4 {
      IncrementZero(f.payload);
    }
  }

  lemma IncrementZero(p: Bytes)
    requires |p| == 4
    ensures Increment(p) == 0 <==> p == [0, 0, 0, 0] || p == [0x80, 0, 0, 0]
  {
    assert p == [p[0], p[1], p[2], p[3]];
    var a: int, b: int, c: int, d: int := p[0], p[1], p[2], p[3];
    LowBits(a, 0x1_0000 * b + 0x100 * c + d);
  }

  lemma LowBits(a: int, rest: nat)
    requires 0 <= a < 256 && rest < 0x100_0000
    ensures (0x100_0000 * a + rest) % 0x8000_0000 == 0 <==> rest == 0 && (a == 0 || a == 0x80)
  {
    if a < 0x80 {
      assert (0x100_0000 * a + rest) % 0x8000_0000 == 0x100_0000 * a + rest;
    } else {
      assert (0x100_0000 * a + rest) % 0x8000_0000 == 0x100_0000 * (a - 0x80) + rest;
    }
  }

  predicate Matches(kind: Kind, f: Frame) {
    match kind
    case Reset => f.ftype == RST_STREAM
    case Continued => f.ftype == CONTINUATION
    case Violation => BreaksProtocol(f)
    case Control => IsControl(f)
  }

  function Count(kind: Kind, frames: seq<Frame>): nat {
    if frames == [] then 0 else (if Matches(kind, frames[0]) then 1 else 0) + Count(kind, frames[1..])
  }

  predicate Within(c: Counts, frames: seq<Frame>) {
    && c.rst + Count(Reset, frames) <= MAX_RST
    && c.cont + Count(Continued, frames) <= MAX_CONTINUATION
    && c.protoErr + Count(Violation, frames) <= MAX_PROTO_ERR
    && c.control + Count(Control, frames) <= MAX_CONTROL
  }

  /** From quiet counters, the tally stays quiet exactly when no threshold is exceeded by the frame counts. */
  lemma {:induction false} QuietExactly(c: Counts, frames: seq<Frame>)
    requires c.abuse == Quiet && Within(c, [])
    ensures Tally(c, frames).abuse == Quiet <==> Within(c, frames)
    ensures Within(c, frames) ==> Tally(c, frames) == Counts(
      c.rst + Count(Reset, frames), c.cont + Count(Continued, frames),
      c.protoErr + Count(Violation, frames), c.control + Count(Control, frames), Quiet)
    decreases |frames|
  {
    if frames != [] {
      var c' := Classify(c, frames[0]);
      ViolatesExactly(frames[0]);
      if c'.abuse == Quiet {
        QuietExactly(c', frames[1..]);
      }
    }
  }

  predicate OverLimit(fs: seq<Sent>) {
    || Count(Reset, Seen(fs)) > MAX_RST || Count(Continued, Seen(fs)) > MAX_CONTINUATION
    || Count(Violation, Seen(fs)) > MAX_PROTO_ERR || Count(Control, Seen(fs)) > MAX_CONTROL
  }

  /**
   However the bytes are cut into chunks, a connection is flagged exactly when one of the four counts over
   the frames that were sent in full behind the preface passes its limit.
   */
  lemma FlaggedExactly(chunks: seq<Bytes>, preface: Bytes, fs: seq<Sent>, tail: Bytes)
    requires |preface| == PREFACE && AllSendable(fs) && Incomplete(tail)
    requires Concat(chunks) == preface + (Encoded(fs) + tail)
    ensures FeedAll(New(), chunks).counts.abuse != Quiet <==> OverLimit(fs)
  {
    ChunkInvariance(chunks);
    assert Body(Concat(chunks)) == Encoded(fs) + tail;
    SentIsSeen(fs, tail);
    QuietExactly(New().counts, Seen(fs));
  }

  /** The counter that passed its limit names the verdict. */
  ghost predicate Named(c: Counts) {
    && (c.abuse == ContinuationFlood <==> c.cont > MAX_CONTINUATION)
    && (c.abuse == RapidReset <==> c.rst > MAX_RST || c.protoErr > MAX_PROTO_ERR || c.control > MAX_CONTROL)
  }

  lemma {:induction false} TallyNamed(c: Counts, frames: seq<Frame>)
    requires Named(c)
    ensures Named(Tally(c, frames))
    decreases |frames|
  {
    if c.abuse == Quiet && frames != [] {
      TallyNamed(Classify(c, frames[0]), frames[1..]);
    }
  }

  /** A flood of continuations and a rapid reset are told apart by the counter that passed its limit. */
  lemma KindExactly(chunks: seq<Bytes>)
    ensures Named(FeedAll(New(), chunks).counts)
  {
    ChunkInvariance(chunks);
    TallyNamed(New().counts, Frames(Body(Concat(chunks))));
  }
}
