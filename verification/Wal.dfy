/**
 The write-ahead log, byte by byte (internal/audit/sink_wal.go): segments of
 newline-terminated JSON lines, rotation, torn-tail recovery, read and write
 errors, and crashes that leave any prefix of the line being written.

 JSON is a pair of tables constrained by `WellFormed`: what it writes, it can parse.
 Whether a record comes back unchanged is a fact about that record.
 */
module Wal {
  import opened Hashing
  import opened Canonical
  import opened Text

  const NL: Byte := 10
  const CR: Byte := 13

  /** JSON, both ways: some records cannot be rendered (NaN), some texts cannot be parsed. */
  datatype Json = Json(encoded: imap<Record, Bytes>, decoded: imap<Bytes, Record>) {
    predicate Renders(r: Record) {
      r in encoded
    }

    function Marshal(r: Record): Bytes {
      if r in encoded then encoded[r] else []
    }

    function Unmarshal(b: Bytes): Option<Record> {
      if b in decoded then Some(decoded[b]) else None
    }

    /** What a rendered record reads back as: itself, unless JSON rewrites it (a string that is not UTF-8). */
    function Back(r: Record): Record {
      var parsed := Unmarshal(Marshal(r));
      if parsed.Some? then parsed.value else r
    }
  }

  /** The text of a rendered record is non-empty, holds no raw line break, and parses. */
  ghost predicate WellFormed(json: Json) {
    forall r :: json.Renders(r) ==>
      json.Marshal(r) != [] && Plain(json.Marshal(r)) && json.Unmarshal(json.Marshal(r)).Some?
  }

  ghost predicate AllRendered(json: Json, recs: seq<Record>) {
    forall i :: 0 <= i < |recs| ==> json.Renders(recs[i])
  }

  function Reread(json: Json, recs: seq<Record>): (back: seq<Record>)
    ensures |back| == |recs|
  {
    if recs == [] then [] else [json.Back(recs[0])] + Reread(json, recs[1..])
  }

  lemma {:induction false} RereadAt(json: Json, recs: seq<Record>, i: nat)
    requires i < |recs|
    ensures Reread(json, recs)[i] == json.Back(recs[i])
  {
    if i > 0 {
      RereadAt(json, recs[1..], i - 1);
    }
  }

  lemma RereadAppend(json: Json, a: seq<Record>, b: seq<Record>)
    ensures Reread(json, a + b) == Reread(json, a) + Reread(json, b)
  {
    forall i | 0 <= i < |a + b| ensures Reread(json, a + b)[i] == (Reread(json, a) + Reread(json, b))[i] {
      RereadAt(json, a + b, i);
      if i < |a| {
        RereadAt(json, a, i);
      } else {
        RereadAt(json, b, i - |a|);
      }
    }
  }

  /** A list comes back as it was exactly when each of its records does. */
  lemma RereadExactly(json: Json, recs: seq<Record>)
    ensures Reread(json, recs) == recs <==> forall i :: 0 <= i < |recs| ==> json.Back(recs[i]) == recs[i]
  {
    forall i | 0 <= i < |recs| ensures Reread(json, recs)[i] == json.Back(recs[i]) {
      RereadAt(json, recs, i);
    }
  }

  ghost predicate Plain(b: Bytes) {
    forall i :: 0 <= i < |b| ==> b[i] != NL && b[i] != CR
  }

  function Line(json: Json, r: Record): Bytes {
    json.Marshal(r) + [NL]
  }

  function Lines(json: Json, recs: seq<Record>): Bytes {
    if recs == [] then [] else Line(json, recs[0]) + Lines(json, recs[1..])
  }

  function NewlineAt(b: Bytes): (n: nat)
    ensures n <= |b| && (n < |b| ==> b[n] == NL)
    ensures forall i :: 0 <= i < n ==> b[i] != NL
  {
    if b == [] || b[0] == NL then 0 else 1 + NewlineAt(b[1..])
  }

  function TrimBreaks(b: Bytes): Bytes {
    if b != [] && (b[|b| - 1] == NL || b[|b| - 1] == CR) then TrimBreaks(b[..|b| - 1]) else b
  }

  // ---------------------------------------------------------------- reading one segment

  /** A segment's framed records and the bytes after its last newline. */
  datatype Scanned = Corrupt | Scanned(records: seq<Record>, rest: Bytes)

  function Scan(json: Json, content: Bytes): (s: Scanned)
    ensures s.Scanned? ==> |s.rest| <= |content|
    decreases |content|
  {
    var n := NewlineAt(content);
    if n == |content| then Scanned([], content)
    else
      var trimmed := TrimBreaks(content[..n + 1]);
      match Scan(json, content[n + 1..])
      case Corrupt => Corrupt
      case Scanned(records, rest) =>
        if trimmed == [] then Scanned(records, rest)
        else
          match json.Unmarshal(trimmed)
          case None => Corrupt
          case Some(r) => Scanned([r] + records, rest)
  }

  datatype ReadError = CorruptFramed | TornInside | NotRead | NotTruncated
  datatype ReadResult = ReadOk(records: seq<Record>, content: Bytes) | ReadErr(error: ReadError)

  /** What reading a segment gives, and what it leaves of the file. */
  function Read(json: Json, content: Bytes, lastSeg: bool): ReadResult {
    match Scan(json, content)
    case Corrupt => ReadErr(CorruptFramed)
    case Scanned(records, rest) =>
      if TrimBreaks(rest) == [] then ReadOk(records, content)
      else if !lastSeg then ReadErr(TornInside)
      else ReadOk(records, content[..|content| - |rest|])
  }

  /** A segment file in use: it may stop delivering after some bytes, and truncating it may fail. */
  datatype Io = Io(failsAt: Option<nat>, truncates: bool)

  const HEALTHY := Io(None, true)

  function Delivered(content: Bytes, io: Io): Bytes {
    if io.failsAt.Some? && io.failsAt.value < |content| then content[..io.failsAt.value] else content
  }

  /** Reading under such errors: an unfinished line ends the loop before the error is looked at. */
  function ReadUnder(json: Json, content: Bytes, lastSeg: bool, io: Io): ReadResult {
    var seen := Delivered(content, io);
    Concluded(content, |seen|, Scan(json, seen), lastSeg, io)
  }

  function Concluded(content: Bytes, seen: nat, s: Scanned, lastSeg: bool, io: Io): ReadResult
    requires seen <= |content| && (s.Scanned? ==> |s.rest| <= seen)
  {
    match s
    case Corrupt => ReadErr(CorruptFramed)
    case Scanned(records, rest) =>
      if TrimBreaks(rest) == [] then
        if io.failsAt.Some? then ReadErr(NotRead) else ReadOk(records, content)
      else if !lastSeg then ReadErr(TornInside)
      else if !io.truncates then ReadErr(NotTruncated)
      else ReadOk(records, content[..seen - |rest|])
  }

  lemma HealthyRead(json: Json, content: Bytes, lastSeg: bool)
    ensures ReadUnder(json, content, lastSeg, HEALTHY) == Read(json, content, lastSeg)
  {
  }

  function Prepend(out: seq<Record>, s: Scanned): Scanned {
    match s
    case Corrupt => Corrupt
    case Scanned(records, rest) => Scanned(out + records, rest)
  }

  lemma PrependTwice(out: seq<Record>, r: Record, s: Scanned)
    ensures Prepend(out, Prepend([r], s)) == Prepend(out + [r], s)
  {
    if s.Scanned? {
      assert out + ([r] + s.records) == (out + [r]) + s.records;
    }
  }

  /** One framed line off the front of a segment. */
  lemma ScanLine(json: Json, content: Bytes, n: nat, trimmed: Bytes, rest: Bytes)
    requires n == NewlineAt(content) < |content|
    requires trimmed == TrimBreaks(content[..n + 1]) && rest == content[n + 1..]
    ensures Scan(json, content) ==
      if trimmed == [] then Scan(json, rest)
      else if json.Unmarshal(trimmed).None? then Corrupt
      else Prepend([json.Unmarshal(trimmed).value], Scan(json, rest))
  {
  }

  lemma ScanTail(json: Json, content: Bytes)
    requires NewlineAt(content) == |content|
    ensures Scan(json, content) == Scanned([], content)
  {
  }

  method ReadRecords(json: Json, content: Bytes, lastSeg: bool, io: Io) returns (res: ReadResult)
    ensures res == ReadUnder(json, content, lastSeg, io)
  {
    var out: seq<Record> := [];
    var good := 0;
    var seen := Delivered(content, io);
    var rest := seen;
    var n := NewlineAt(rest);
    ghost var whole, left := Scan(json, seen), Scan(json, seen);
    PrependNothing(whole);
    while n < |rest|
      invariant good <= |seen| && rest == seen[good..] && n == NewlineAt(rest)
      invariant left == Scan(json, rest) && whole == Prepend(out, left)
      decreases |seen| - good
    {
      var trimmed := TrimBreaks(rest[..n + 1]);
      var rest' := rest[n + 1..];
      ScanLine(json, rest, n, trimmed, rest');
      if trimmed != [] {
        var r := json.Unmarshal(trimmed);
        if r.None? {
          return ReadErr(CorruptFramed);
        }
        PrependTwice(out, r.value, Scan(json, rest'));
        out := out + [r.value];
      }
      good := good + n + 1;
      rest, n := rest', NewlineAt(rest');
      left := Scan(json, rest');
    }
    ScanTail(json, rest);
    assert whole == Scanned(out, rest);
    if TrimBreaks(rest) != [] {
      if !lastSeg {
        return ReadErr(TornInside);
      }
      if !io.truncates {
        return ReadErr(NotTruncated);
      }
      return ReadOk(out, content[..good]);
    }
    if io.failsAt.Some? {
      return ReadErr(NotRead);
    }
    return ReadOk(out, content);
  }

  lemma PrependNothing(s: Scanned)
    ensures Prepend([], s) == s
  {
  }

  // ---------------------------------------------------------------- reading what was written

  lemma {:induction false} NewlineAfter(b: Bytes, rest: Bytes)
    requires Plain(b)
    ensures NewlineAt(b + [NL] + rest) == |b|
  {
    if b == [] {
      assert (b + [NL] + rest)[0] == NL;
    } else {
      NewlineAfter(b[1..], rest);
      assert (b + [NL] + rest)[1..] == b[1..] + [NL] + rest;
      assert (b + [NL] + rest)[0] == b[0];
    }
  }

  lemma {:induction false} NoNewline(b: Bytes)
    requires Plain(b)
    ensures NewlineAt(b) == |b| && TrimBreaks(b) == b
  {
    if b != [] {
      NoNewline(b[1..]);
    }
  }

  lemma TrimLine(b: Bytes)
    requires Plain(b)
    ensures TrimBreaks(b + [NL]) == b
  {
    assert (b + [NL])[..|b|] == b;
    NoNewline(b);
  }

  /** Written lines, then a newline-free rest, scan back to the written records, as JSON reads them, and that rest. */
  lemma {:induction false} ScanWritten(json: Json, recs: seq<Record>, rest: Bytes)
    requires WellFormed(json) && AllRendered(json, recs) && Plain(rest)
    ensures Scan(json, Lines(json, recs) + rest) == Scanned(Reread(json, recs), rest)
  {
    if recs == [] {
      assert Lines(json, recs) + rest == rest;
      NoNewline(rest);
      ScanTail(json, rest);
    } else {
      var tail := Lines(json, recs[1..]) + rest;
      assert Lines(json, recs) + rest == Line(json, recs[0]) + tail;
      assert json.Renders(recs[0]);
      ScanWritten(json, recs[1..], rest);
      ScanOneWritten(json, recs[0], tail);
    }
  }

  /** A written line in front adds its record in front. */
  lemma ScanOneWritten(json: Json, r: Record, tail: Bytes)
    requires WellFormed(json) && json.Renders(r)
    ensures Scan(json, Line(json, r) + tail) == Prepend([json.Back(r)], Scan(json, tail))
  {
    var b, content := json.Marshal(r), Line(json, r) + tail;
    assert content == b + [NL] + tail;
    NewlineAfter(b, tail);
    assert content[..|b| + 1] == b + [NL] && content[|b| + 1..] == tail;
    TrimLine(b);
    ScanLine(json, content, |b|, b, tail);
  }

  /** A torn tail on the last segment is cut off; a clean segment is left as it is. */
  lemma ReadWritten(json: Json, recs: seq<Record>, tail: Bytes, lastSeg: bool)
    requires WellFormed(json) && AllRendered(json, recs) && Plain(tail) && (tail != [] ==> lastSeg)
    ensures Read(json, Lines(json, recs) + tail, lastSeg) == ReadOk(Reread(json, recs), Lines(json, recs))
  {
    ScanWritten(json, recs, tail);
    NoNewline(tail);
    var content := Lines(json, recs) + tail;
    assert content[..|content| - |tail|] == Lines(json, recs);
    assert tail == [] ==> content == Lines(json, recs);
  }

  /**
   A read error t bytes into a line of the last segment: at the start of a line it is reported and the file
   kept; anywhere inside the line it passes for a torn tail, and that line and all behind it are cut off.
   */
  lemma ReadErrorExactly(json: Json, kept: seq<Record>, r: Record, more: Bytes, t: nat)
    requires WellFormed(json) && AllRendered(json, kept) && json.Renders(r) && t <= |json.Marshal(r)|
    ensures ReadUnder(json, Lines(json, kept) + (Line(json, r) + more), true, Io(Some(|Lines(json, kept)| + t), true))
      == if t == 0 then ReadErr(NotRead) else ReadOk(Reread(json, kept), Lines(json, kept))
  {
    var front, text, recs := Lines(json, kept), json.Marshal(r), Reread(json, kept);
    PartPlain(json, r, t);
    TornScan(json, kept, text[..t]);
    ReadTorn(json, front, Line(json, r), text, more, t, recs);
  }

  lemma PartPlain(json: Json, r: Record, t: nat)
    requires WellFormed(json) && json.Renders(r) && t <= |json.Marshal(r)|
    ensures Plain(json.Marshal(r)[..t]) && Line(json, r) == json.Marshal(r) + [NL]
  {
  }

  lemma TornScan(json: Json, kept: seq<Record>, part: Bytes)
    requires WellFormed(json) && AllRendered(json, kept) && Plain(part)
    ensures Scan(json, Lines(json, kept) + part) == Scanned(Reread(json, kept), part) && TrimBreaks(part) == part
  {
    ScanWritten(json, kept, part);
    NoNewline(part);
  }

  lemma ReadTorn(json: Json, front: Bytes, line: Bytes, text: Bytes, more: Bytes, t: nat, recs: seq<Record>)
    requires line == text + [NL] && t <= |text| && TrimBreaks(text[..t]) == text[..t]
    requires Scan(json, front + text[..t]) == Scanned(recs, text[..t])
    ensures ReadUnder(json, front + (line + more), true, Io(Some(|front| + t), true))
      == if t == 0 then ReadErr(NotRead) else ReadOk(recs, front)
  {
    PartDelivered(front, text, more, t);
    ReadPart(json, front + (line + more), |front| + t, front, text[..t], recs);
  }

  lemma ReadPart(json: Json, content: Bytes, k: nat, front: Bytes, part: Bytes, recs: seq<Record>)
    requires Delivered(content, Io(Some(k), true)) == front + part && |front| <= |content|
    requires content[..|front|] == front
    requires Scan(json, front + part) == Scanned(recs, part) && TrimBreaks(part) == part
    ensures ReadUnder(json, content, true, Io(Some(k), true))
      == if part == [] then ReadErr(NotRead) else ReadOk(recs, front)
  {
  }

  lemma PartDelivered(front: Bytes, text: Bytes, more: Bytes, t: nat)
    requires t <= |text|
    ensures var content := front + ((text + [NL]) + more);
      Delivered(content, Io(Some(|front| + t), true)) == front + text[..t] && content[..|front|] == front
  {
    var content := front + ((text + [NL]) + more);
    assert content == (front + text) + ([NL] + more);
  }

  lemma {:induction false} LinesSnoc(json: Json, recs: seq<Record>, r: Record)
    ensures Lines(json, recs + [r]) == Lines(json, recs) + Line(json, r)
  {
    if recs == [] {
      assert recs + [r] == [r] && Lines(json, [r]) == Line(json, r) + Lines(json, [r][1..]);
    } else {
      LinesSnoc(json, recs[1..], r);
      assert (recs + [r])[0] == recs[0] && (recs + [r])[1..] == recs[1..] + [r];
      Associative(Line(json, recs[0]), Lines(json, recs[1..]), Line(json, r));
    }
  }

  // ---------------------------------------------------------------- all segments

  datatype AllRead = AllOk(records: seq<Record>, segments: seq<Bytes>) | AllErr(error: ReadError)

  function Combine(before: AllRead, one: ReadResult, i: nat): (a: AllRead)
    requires before.AllOk? ==> i < |before.segments|
    ensures a.AllOk? ==> before.AllOk? && |a.segments| == |before.segments|
  {
    if before.AllErr? then before
    else if one.ReadErr? then AllErr(one.error)
    else AllOk(before.records + one.records, before.segments[i := one.content])
  }

  /** Reading the first n segments; only the last of all may be torn. */
  function ReadUpTo(json: Json, segs: seq<Bytes>, n: nat): (a: AllRead)
    requires n <= |segs|
    ensures a.AllOk? ==> |a.segments| == |segs|
  {
    if n == 0 then AllOk([], segs)
    else Combine(ReadUpTo(json, segs, n - 1), Read(json, segs[n - 1], n == |segs|), n - 1)
  }

  function ReadSegments(json: Json, segs: seq<Bytes>): AllRead {
    ReadUpTo(json, segs, |segs|)
  }

  /** The results of the first n segments put together; the first error is the result. */
  function Gather(segs: seq<Bytes>, ones: seq<ReadResult>, n: nat): (a: AllRead)
    requires n <= |segs| == |ones|
    ensures a.AllOk? ==> |a.segments| == |segs|
  {
    if n == 0 then AllOk([], segs) else Combine(Gather(segs, ones, n - 1), ones[n - 1], n - 1)
  }

  /** Each segment read under its own errors; the last of all may be torn. */
  function Each(json: Json, segs: seq<Bytes>, ios: seq<Io>, n: nat): (ones: seq<ReadResult>)
    requires n <= |segs| == |ios|
    ensures |ones| == n
  {
    if n == 0 then []
    else Each(json, segs, ios, n - 1) + [ReadUnder(json, segs[n - 1], n == |segs|, ios[n - 1])]
  }

  lemma EachSnoc(json: Json, segs: seq<Bytes>, ios: seq<Io>, n: nat, i: nat)
    requires i < n <= |segs| == |ios|
    ensures i == n - 1 ==> Each(json, segs, ios, n)[i] == ReadUnder(json, segs[i], i == |segs| - 1, ios[i])
    ensures i < n - 1 ==> Each(json, segs, ios, n)[i] == Each(json, segs, ios, n - 1)[i]
  {
  }

  lemma {:induction false} EachAt(json: Json, segs: seq<Bytes>, ios: seq<Io>, n: nat, i: nat)
    requires i < n <= |segs| == |ios|
    ensures Each(json, segs, ios, n)[i] == ReadUnder(json, segs[i], i == |segs| - 1, ios[i])
  {
    EachSnoc(json, segs, ios, n, i);
    if i < n - 1 {
      EachAt(json, segs, ios, n - 1, i);
    }
  }

  function ReadSegmentsUnder(json: Json, segs: seq<Bytes>, ios: seq<Io>): AllRead
    requires |segs| == |ios|
  {
    Gather(segs, Each(json, segs, ios, |segs|), |segs|)
  }

  lemma {:induction false} HealthyReads(json: Json, segs: seq<Bytes>, ones: seq<ReadResult>, n: nat)
    requires n <= |segs| == |ones|
    requires forall i :: 0 <= i < |ones| ==> ones[i] == Read(json, segs[i], i == |segs| - 1)
    ensures Gather(segs, ones, n) == ReadUpTo(json, segs, n)
  {
    if n > 0 {
      HealthyReads(json, segs, ones, n - 1);
      ReadOneMore(json, segs, n - 1, n);
    }
  }

  /** Without errors this is what was said above. */
  lemma HealthyReadAll(json: Json, segs: seq<Bytes>, ios: seq<Io>)
    requires |segs| == |ios| && forall i :: 0 <= i < |ios| ==> ios[i] == HEALTHY
    ensures ReadSegmentsUnder(json, segs, ios) == ReadSegments(json, segs)
  {
    var ones := Each(json, segs, ios, |segs|);
    forall i | 0 <= i < |ones| ensures ones[i] == Read(json, segs[i], i == |segs| - 1) {
      EachAt(json, segs, ios, |segs|, i);
      HealthyRead(json, segs[i], i == |segs| - 1);
    }
    HealthyReads(json, segs, ones, |segs|);
  }

  function Flatten(parts: seq<seq<Record>>): seq<Record> {
    if parts == [] then [] else Flatten(parts[..|parts| - 1]) + parts[|parts| - 1]
  }

  /** Segment i holds exactly the lines of parts[i]. */
  ghost predicate Stored(json: Json, segs: seq<Bytes>, parts: seq<seq<Record>>) {
    && |segs| == |parts| > 0
    && forall i :: 0 <= i < |segs| ==> segs[i] == Lines(json, parts[i]) && AllRendered(json, parts[i])
  }

  function Tear(segs: seq<Bytes>, tail: Bytes): seq<Bytes>
    requires segs != []
  {
    segs[|segs| - 1 := segs[|segs| - 1] + tail]
  }

  lemma {:induction false} ReadUpToStored(json: Json, segs: seq<Bytes>, parts: seq<seq<Record>>, tail: Bytes, n: nat)
    requires WellFormed(json) && Stored(json, segs, parts) && Plain(tail) && n <= |segs|
    ensures ReadUpTo(json, Tear(segs, tail), n) ==
      AllOk(Reread(json, Flatten(parts[..n])), if n < |segs| then Tear(segs, tail) else segs)
  {
    if n > 0 {
      var l, torn := n - 1, Tear(segs, tail);
      ReadUpToStored(json, segs, parts, tail, l);
      ReadOneMore(json, torn, l, n);
      ReadStored(json, segs, parts, tail, l);
      PutBack(segs, tail, l);
      FlattenUpTo(parts, l, n);
      RereadAppend(json, Flatten(parts[..l]), parts[l]);
    }
  }

  lemma ReadStored(json: Json, segs: seq<Bytes>, parts: seq<seq<Record>>, tail: Bytes, l: nat)
    requires WellFormed(json) && Stored(json, segs, parts) && Plain(tail) && l < |segs|
    ensures Read(json, Tear(segs, tail)[l], l + 1 == |segs|) == ReadOk(Reread(json, parts[l]), segs[l])
  {
    var last := l + 1 == |segs|;
    var behind := if last then tail else [];
    assert Tear(segs, tail)[l] == segs[l] + behind by {
      assert segs[l] + [] == segs[l];
    }
    ReadWritten(json, parts[l], behind, last);
  }

  lemma FlattenUpTo(parts: seq<seq<Record>>, l: nat, n: nat)
    requires n == l + 1 <= |parts|
    ensures Flatten(parts[..n]) == Flatten(parts[..l]) + parts[l]
  {
    assert parts[..n][..l] == parts[..l];
  }

  lemma PutBack(segs: seq<Bytes>, tail: Bytes, l: nat)
    requires l < |segs|
    ensures Tear(segs, tail)[l := segs[l]] == if l + 1 < |segs| then Tear(segs, tail) else segs
  {
  }

  /** Recovery: whatever tail was torn off, exactly the stored records are read and exactly their lines are kept. */
  lemma RecoverTorn(json: Json, segs: seq<Bytes>, parts: seq<seq<Record>>, tail: Bytes)
    requires WellFormed(json) && Stored(json, segs, parts) && Plain(tail)
    ensures ReadSegments(json, Tear(segs, tail)) == AllOk(Reread(json, Flatten(parts)), segs)
  {
    ReadUpToStored(json, segs, parts, tail, |segs|);
    assert parts[..|parts|] == parts;
  }

  // ---------------------------------------------------------------- the sink

  /** broken: the buffered writer has failed once, and refuses everything since. */
  datatype Sink = Sink(segments: seq<Bytes>, written: nat, broken: bool)

  function LastSegment(segs: seq<Bytes>): Bytes
    requires segs != []
  {
    segs[|segs| - 1]
  }

  /** Open a directory: the latest segment is appended to, the first is created. */
  function Opened(segs: seq<Bytes>): (s: Sink)
    ensures s.segments != []
  {
    if segs == [] then Sink([[]], 0, false) else Sink(segs, |LastSegment(segs)|, false)
  }

  /** A segment at or over the limit is closed before the next line. */
  function Rotated(limit: nat, s: Sink): (s': Sink)
    requires s.segments != []
    ensures s'.segments != []
  {
    if s.written >= limit then Sink(s.segments + [[]], 0, s.broken) else s
  }

  function Written(s: Sink, line: Bytes): (s': Sink)
    requires s.segments != []
    ensures s'.segments != []
  {
    Sink(Tear(s.segments, line), s.written + |line|, s.broken)
  }

  /** What can go wrong under an append; `reached` bytes of the line are on disk by then. */
  datatype Fault = NoFault | OpenFails | BufferFails(reached: nat) | FlushFails(reached: nat) | SyncFails

  function Cut(line: Bytes, reached: nat): Bytes {
    if reached < |line| then line[..reached] else line
  }

  /** One append: the new sink, and whether it is reported as done. */
  function Appended(json: Json, limit: nat, s: Sink, r: Record, fault: Fault): (res: (Sink, bool))
    requires s.segments != []
    ensures res.0.segments != []
  {
    if !json.Renders(r) || s.broken || (s.written >= limit && fault.OpenFails?) then (s, false)
    else
      var s', line := Rotated(limit, s), Line(json, r);
      match fault
      case BufferFails(n) => (Sink(Tear(s'.segments, Cut(line, n)), s'.written, true), false)
      case FlushFails(n) => (Sink(Tear(s'.segments, Cut(line, n)), s'.written + |line|, true), false)
      case SyncFails => (Written(s', line), false)
      case _ => (Written(s', line), true)
  }

  /** The loop over all segments. */
  method ReadEach(json: Json, segs: seq<Bytes>, ios: seq<Io>) returns (res: AllRead)
    requires |segs| == |ios|
    ensures res == ReadSegmentsUnder(json, segs, ios)
  {
    var out: seq<Record> := [];
    var kept := segs;
    ghost var ones := Each(json, segs, ios, |segs|);
    for i := 0 to |segs|
      invariant |kept| == |segs| && Gather(segs, ones, i) == AllOk(out, kept)
    {
      var one := ReadRecords(json, segs[i], i == |segs| - 1, ios[i]);
      EachAt(json, segs, ios, |segs|, i);
      GatherOne(segs, ones, i, i + 1, one, out, kept);
      if one.ReadErr? {
        return AllErr(one.error);
      }
      out := out + one.records;
      kept := kept[i := one.content];
    }
    res := AllOk(out, kept);
  }

  class WALSink {
    const json: Json
    const rotateBytes: nat
    var segments: seq<Bytes>
    var written: nat
    var broken: bool

    function View(): Sink
      reads this
    {
      Sink(segments, written, broken)
    }

    constructor (json: Json, rotateBytes: nat, dir: seq<Bytes>)
      ensures this.json == json && this.rotateBytes == rotateBytes && View() == Opened(dir)
    {
      this.json, this.rotateBytes, broken := json, rotateBytes, false;
      if dir == [] {
        segments, written := [[]], 0;
      } else {
        segments, written := dir, |dir[|dir| - 1]|;
      }
    }

    method AppendRecord(r: Record, fault: Fault) returns (ok: bool)
      requires segments != []
      modifies this
      ensures segments != [] && (View(), ok) == Appended(json, rotateBytes, old(View()), r, fault)
    {
      if !json.Renders(r) {
        return false;
      }
      var line := json.Marshal(r) + [NL];
      if written >= rotateBytes {
        if broken || fault.OpenFails? {
          return false;
        }
        segments, written := segments + [[]], 0;
      }
      if broken {
        return false;
      }
      var last := |segments| - 1;
      if fault.BufferFails? {
        segments, broken := segments[last := segments[last] + Cut(line, fault.reached)], true;
        return false;
      }
      written := written + |line|;
      if fault.FlushFails? {
        segments, broken := segments[last := segments[last] + Cut(line, fault.reached)], true;
        return false;
      }
      segments := segments[last := segments[last] + line];
      ok := !fault.SyncFails?;
    }

    /** Reads every segment in order, each under its own errors; a torn last segment is truncated on disk. */
    method ReadAll(ios: seq<Io>) returns (res: AllRead)
      requires segments != [] && |ios| == |segments|
      modifies this
      ensures segments != [] && written == old(written) && broken == old(broken)
      ensures res == ReadSegmentsUnder(json, old(segments), ios)
      ensures segments == if res.AllOk? then res.segments else old(segments)
    {
      res := ReadEach(json, segments, ios);
      if res.AllOk? {
        segments := res.segments;
      }
    }
  }

  lemma ReadOneMore(json: Json, segs: seq<Bytes>, l: nat, n: nat)
    requires n == l + 1 <= |segs|
    ensures ReadUpTo(json, segs, n) == Combine(ReadUpTo(json, segs, l), Read(json, segs[l], n == |segs|), l)
  {
  }

  lemma GatherOne(segs: seq<Bytes>, ones: seq<ReadResult>, l: nat, n: nat, one: ReadResult, out: seq<Record>,
                  kept: seq<Bytes>)
    requires n == l + 1 <= |segs| == |ones| == |kept| && one == ones[l] && Gather(segs, ones, l) == AllOk(out, kept)
    ensures one.ReadErr? ==> Gather(segs, ones, |segs|) == AllErr(one.error)
    ensures one.ReadOk? ==> Gather(segs, ones, n) == AllOk(out + one.records, kept[l := one.content])
  {
    if one.ReadErr? {
      ErrorSticks(segs, ones, n, |segs|, one.error);
    }
  }

  lemma {:induction false} ErrorSticks(segs: seq<Bytes>, ones: seq<ReadResult>, n: nat, m: nat, e: ReadError)
    requires n <= m <= |segs| == |ones| && Gather(segs, ones, n) == AllErr(e)
    ensures Gather(segs, ones, m) == AllErr(e)
    decreases m
  {
    if n < m {
      ErrorSticks(segs, ones, n, m - 1, e);
    }
  }

  // ---------------------------------------------------------------- runs with failures

  /** An append that may fail or stop in any way; a read of the whole log; or a reboot, which reads it too. */
  datatype Event = Append(r: Record, fault: Fault) | Scrub | Reboot

  /** The segments after reading them. */
  function Scrubbed(json: Json, segs: seq<Bytes>): (s: seq<Bytes>)
    requires segs != []
    ensures s != []
  {
    var all := ReadSegments(json, segs);
    if all.AllOk? then all.segments else segs
  }

  /** The size of the last segment is taken before the log is read. */
  function Rebooted(json: Json, segs: seq<Bytes>): (s: Sink)
    requires segs != []
    ensures s.segments != []
  {
    Sink(Scrubbed(json, segs), |LastSegment(segs)|, false)
  }

  function Step(json: Json, limit: nat, s: Sink, e: Event): (s': Sink)
    requires s.segments != []
    ensures s'.segments != []
  {
    match e
    case Append(r, fault) => Appended(json, limit, s, r, fault).0
    case Scrub => s.(segments := Scrubbed(json, s.segments))
    case Reboot => Rebooted(json, s.segments)
  }

  function After(json: Json, limit: nat, run: seq<Event>, i: nat): (s: Sink)
    requires i <= |run|
    ensures s.segments != []
  {
    if i == 0 then Opened([]) else Step(json, limit, After(json, limit, run, i - 1), run[i - 1])
  }

  /** The whole line, newline included, reaches the disk. */
  predicate Lands(json: Json, limit: nat, s: Sink, r: Record, fault: Fault) {
    && json.Renders(r) && !s.broken && !(s.written >= limit && fault.OpenFails?)
    && (fault.BufferFails? || fault.FlushFails? ==> fault.reached >= |Line(json, r)|)
  }

  predicate Adds(json: Json, limit: nat, s: Sink, e: Event) {
    e.Append? && Lands(json, limit, s, e.r, e.fault)
  }

  /** What is reported as done is on disk. */
  lemma DoneLands(json: Json, limit: nat, s: Sink, r: Record, fault: Fault)
    requires s.segments != [] && Appended(json, limit, s, r, fault).1
    ensures Lands(json, limit, s, r, fault)
  {
  }

  /** The records whose whole line reached the disk. */
  function Durable(json: Json, limit: nat, run: seq<Event>, i: nat): seq<Record>
    requires i <= |run|
  {
    if i == 0 then []
    else
      var before := Durable(json, limit, run, i - 1);
      if Adds(json, limit, After(json, limit, run, i - 1), run[i - 1]) then before + [run[i - 1].r] else before
  }

  lemma FlattenSnoc(parts: seq<seq<Record>>, part: seq<Record>)
    ensures Flatten(parts + [part]) == Flatten(parts) + part
  {
    assert (parts + [part])[..|parts|] == parts;
  }

  /** The parts after one more record in the last segment. */
  function Extended(parts: seq<seq<Record>>, r: Record): seq<seq<Record>>
    requires parts != []
  {
    parts[..|parts| - 1] + [parts[|parts| - 1] + [r]]
  }

  lemma RotateStores(json: Json, limit: nat, s: Sink, parts: seq<seq<Record>>) returns (parts': seq<seq<Record>>)
    requires Stored(json, s.segments, parts)
    ensures Stored(json, Rotated(limit, s).segments, parts') && Flatten(parts') == Flatten(parts)
  {
    if s.written >= limit {
      parts' := parts + [[]];
      FlattenSnoc(parts, []);
    } else {
      parts' := parts;
    }
  }

  lemma WriteStores(json: Json, s: Sink, parts: seq<seq<Record>>, r: Record)
    requires Stored(json, s.segments, parts) && json.Renders(r)
    ensures Stored(json, Written(s, Line(json, r)).segments, Extended(parts, r))
    ensures Flatten(Extended(parts, r)) == Flatten(parts) + [r]
  {
    var init, last := parts[..|parts| - 1], parts[|parts| - 1];
    LinesSnoc(json, last, r);
    assert parts == init + [last];
    FlattenSnoc(init, last);
    FlattenSnoc(init, last + [r]);
    assert Flatten(init) + (last + [r]) == (Flatten(init) + last) + [r];
  }

  lemma NothingTorn(segs: seq<Bytes>)
    requires segs != []
    ensures Tear(segs, []) == segs
  {
    assert LastSegment(segs) + [] == LastSegment(segs);
  }

  /** An append leaves its whole line, or a newline-free part of it, behind the stored lines. */
  lemma AppendStores(json: Json, limit: nat, s: Sink, r: Record, fault: Fault, parts: seq<seq<Record>>)
    returns (parts': seq<seq<Record>>, segs: seq<Bytes>, tail: Bytes)
    requires WellFormed(json) && Stored(json, s.segments, parts)
    ensures Stored(json, segs, parts') && Plain(tail)
    ensures Appended(json, limit, s, r, fault).0.segments == Tear(segs, tail)
    ensures Flatten(parts') == if Lands(json, limit, s, r, fault) then Flatten(parts) + [r] else Flatten(parts)
    ensures tail != [] ==> Appended(json, limit, s, r, fault).0.broken
  {
    if !json.Renders(r) || s.broken || (s.written >= limit && fault.OpenFails?) {
      parts', segs, tail := parts, s.segments, [];
      NothingTorn(segs);
    } else {
      var rotated := RotateStores(json, limit, s, parts);
      var s' := Rotated(limit, s);
      if Lands(json, limit, s, r, fault) {
        LineLands(json, limit, s, r, fault);
        WriteStores(json, s', rotated, r);
        parts', segs, tail := Extended(rotated, r), Written(s', Line(json, r)).segments, [];
        NothingTorn(segs);
      } else {
        parts', segs, tail := rotated, s'.segments, Cut(Line(json, r), fault.reached);
        PartLands(json, r, fault.reached);
      }
    }
  }

  lemma LineLands(json: Json, limit: nat, s: Sink, r: Record, fault: Fault)
    requires s.segments != [] && Lands(json, limit, s, r, fault)
    ensures Appended(json, limit, s, r, fault).0.segments == Written(Rotated(limit, s), Line(json, r)).segments
  {
  }

  lemma PartLands(json: Json, r: Record, reached: nat)
    requires WellFormed(json) && json.Renders(r) && reached < |Line(json, r)|
    ensures Plain(Cut(Line(json, r), reached))
  {
    assert Plain(json.Marshal(r)) && Cut(Line(json, r), reached) == json.Marshal(r)[..reached];
  }

  /** The lines of the parts, and behind them at most a torn line, which a failed writer left. */
  ghost predicate Held(json: Json, s: Sink, parts: seq<seq<Record>>, segs: seq<Bytes>, tail: Bytes) {
    Stored(json, segs, parts) && Plain(tail) && s.segments == Tear(segs, tail) && (tail != [] ==> s.broken)
  }

  lemma AppendHeld(json: Json, limit: nat, s: Sink, r: Record, fault: Fault,
                   parts: seq<seq<Record>>, segs: seq<Bytes>, tail: Bytes)
    returns (parts': seq<seq<Record>>, segs': seq<Bytes>, tail': Bytes)
    requires WellFormed(json) && Held(json, s, parts, segs, tail)
    ensures Held(json, Appended(json, limit, s, r, fault).0, parts', segs', tail')
    ensures Flatten(parts') == if Lands(json, limit, s, r, fault) then Flatten(parts) + [r] else Flatten(parts)
  {
    if s.broken {
      parts', segs', tail' := parts, segs, tail;
    } else {
      NothingTorn(segs);
      parts', segs', tail' := AppendStores(json, limit, s, r, fault, parts);
    }
  }

  lemma ScrubHeld(json: Json, s: Sink, parts: seq<seq<Record>>, segs: seq<Bytes>, tail: Bytes)
    requires WellFormed(json) && Held(json, s, parts, segs, tail)
    ensures ReadSegments(json, s.segments) == AllOk(Reread(json, Flatten(parts)), segs)
    ensures Scrubbed(json, s.segments) == segs == Tear(segs, [])
  {
    RecoverTorn(json, segs, parts, tail);
    NothingTorn(segs);
  }

  lemma StepHeld(json: Json, limit: nat, s: Sink, e: Event, parts: seq<seq<Record>>, segs: seq<Bytes>, tail: Bytes)
    returns (parts': seq<seq<Record>>, segs': seq<Bytes>, tail': Bytes)
    requires WellFormed(json) && Held(json, s, parts, segs, tail)
    ensures Held(json, Step(json, limit, s, e), parts', segs', tail')
    ensures Flatten(parts') == if Adds(json, limit, s, e) then Flatten(parts) + [e.r] else Flatten(parts)
  {
    match e
    case Append(r, fault) => parts', segs', tail' := AppendHeld(json, limit, s, r, fault, parts, segs, tail);
    case _ =>
      ScrubHeld(json, s, parts, segs, tail);
      parts', segs', tail' := parts, segs, [];
  }

  lemma OneMore(json: Json, limit: nat, run: seq<Event>, l: nat, i: nat)
    requires i == l + 1 <= |run|
    ensures After(json, limit, run, i) == Step(json, limit, After(json, limit, run, l), run[l])
    ensures Durable(json, limit, run, i) ==
      if Adds(json, limit, After(json, limit, run, l), run[l])
      then Durable(json, limit, run, l) + [run[l].r] else Durable(json, limit, run, l)
  {
  }

  lemma OpenedHeld(json: Json)
    ensures Held(json, Opened([]), [[]], [[]], []) && Flatten([[]]) == []
  {
    var parts: seq<seq<Record>> := [[]];
    assert Flatten(parts) == Flatten(parts[..0]) + parts[0];
  }

  lemma {:induction false} RunHeld(json: Json, limit: nat, run: seq<Event>, i: nat)
    returns (parts: seq<seq<Record>>, segs: seq<Bytes>, tail: Bytes)
    requires WellFormed(json) && i <= |run|
    ensures Held(json, After(json, limit, run, i), parts, segs, tail)
    ensures Flatten(parts) == Durable(json, limit, run, i)
  {
    if i == 0 {
      parts, segs, tail := [[]], [[]], [];
      OpenedHeld(json);
    } else {
      var l := i - 1;
      parts, segs, tail := RunHeld(json, limit, run, l);
      parts, segs, tail := StepHeld(json, limit, After(json, limit, run, l), run[l], parts, segs, tail);
      OneMore(json, limit, run, l, i);
    }
  }

  /**
   Recovery over whole runs: after any appends, appends that fail or stop at any byte with or without a
   reboot behind them, reads and reboots, reading the log returns, in order and as JSON reads them, exactly
   the records whose line was completed. Only behind a failed writer is there anything to cut off, and once.
   */
  lemma CrashRecovery(json: Json, limit: nat, run: seq<Event>, i: nat)
    requires WellFormed(json) && i <= |run|
    ensures var s := After(json, limit, run, i);
      var all := ReadSegments(json, s.segments);
      && all.AllOk? && all.records == Reread(json, Durable(json, limit, run, i))
      && (!s.broken ==> all.segments == s.segments)
      && ReadSegments(json, all.segments) == all
  {
    var s := After(json, limit, run, i);
    var parts, segs, tail := RunHeld(json, limit, run, i);
    ScrubHeld(json, s, parts, segs, tail);
    RecoverTorn(json, segs, parts, []);
  }

  /** They are the records as written if and only if each of them survives its own JSON text. */
  lemma RecoveredExactly(json: Json, limit: nat, run: seq<Event>, i: nat)
    requires WellFormed(json) && i <= |run|
    ensures var all, durable := ReadSegments(json, After(json, limit, run, i).segments), Durable(json, limit, run, i);
      all.AllOk? &&
      (all.records == durable <==> forall j :: 0 <= j < |durable| ==> json.Back(durable[j]) == durable[j])
  {
    CrashRecovery(json, limit, run, i);
    RereadExactly(json, Durable(json, limit, run, i));
  }
}
