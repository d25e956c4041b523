/**
 Where the HTML injector may insert (internal/gate/inject.go:64-106, 142-160): the
 search runs on a case-folded copy of the look-ahead, which can be longer than the
 look-ahead itself.
 */
module InsertionPoint {
  import opened Hashing

  const MAX_LOOKAHEAD := 0x1_0000
  const CHUNK := 0x2000
  const GT: Byte := 62

  /** <!--hmn-injected--> */
  function Marker(): (m: Bytes)
    ensures |m| == 19
  {
    [60, 33, 45, 45, 104, 109, 110, 45, 105, 110, 106, 101, 99, 116, 101, 100, 45, 45, 62]
  }

  /** <head */
  function Head(): (m: Bytes)
    ensures |m| == 5
  {
    [60, 104, 101, 97, 100]
  }

  /** </head> */
  function HeadEnd(): (m: Bytes)
    ensures |m| == 7
  {
    [60, 47, 104, 101, 97, 100, 62]
  }

  /** <body */
  function BodyTag(): (m: Bytes)
    ensures |m| == 5
  {
    [60, 98, 111, 100, 121]
  }

  function Min(a: nat, b: nat): nat {
    if a < b then a else b
  }

  // ---------------------------------------------------------------- searching

  predicate MatchAt(hay: Bytes, needle: Bytes, i: int) {
    0 <= i && i + |needle| <= |hay| && hay[i..i + |needle|] == needle
  }

  function IndexFrom(hay: Bytes, needle: Bytes, from: nat): (r: int)
    ensures r == -1 || from <= r <= |hay| - |needle|
    decreases |hay| - from
  {
    if from + |needle| > |hay| then -1
    else if MatchAt(hay, needle, from) then from
    else if from == |hay| then -1
    else IndexFrom(hay, needle, from + 1)
  }

  function Index(hay: Bytes, needle: Bytes): (r: int)
    ensures r == -1 || 0 <= r <= |hay| - |needle|
  {
    IndexFrom(hay, needle, 0)
  }

  /** The index returned is the first match, and -1 means there is none. */
  lemma {:induction false} IndexFromFirst(hay: Bytes, needle: Bytes, from: nat, i: int)
    ensures var r := IndexFrom(hay, needle, from);
      && (r >= 0 ==> MatchAt(hay, needle, r))
      && (from <= i && (r == -1 || i < r) ==> !MatchAt(hay, needle, i))
    decreases |hay| - from
  {
    if from + |needle| <= |hay| && from < |hay| {
      IndexFromFirst(hay, needle, from + 1, i);
    }
  }

  lemma SliceOfFront(hay: Bytes, n: nat, from: nat, to: nat)
    requires from <= to <= n <= |hay|
    ensures hay[..n][from..to] == hay[from..to]
  {
  }

  /** More text behind a match does not move the first match. */
  lemma {:induction false} IndexFromStable(hay: Bytes, n: nat, front: Bytes, needle: Bytes, from: nat)
    requires n <= |hay| && front == hay[..n] && IndexFrom(front, needle, from) >= 0
    ensures IndexFrom(hay, needle, from) == IndexFrom(front, needle, from)
    decreases n - from
  {
    SliceOfFront(hay, n, from, from + |needle|);
    if !MatchAt(front, needle, from) {
      IndexFromStable(hay, n, front, needle, from + 1);
    }
  }

  predicate Contains(hay: Bytes, needle: Bytes) {
    Index(hay, needle) >= 0
  }

  // ---------------------------------------------------------------- case folding

  /** How many bytes one character takes, and its lower-case form. */
  datatype Folded = Folded(width: nat, text: Bytes)

  /** Lower-casing of multi-byte characters, by the (at most four) bytes in front. */
  datatype Folding = Folding(table: imap<Bytes, Folded>)

  /** U+FFFD, which replaces every byte that is not valid UTF-8. */
  const REPLACEMENT: Bytes := [0xEF, 0xBF, 0xBD]

  function LowerByte(b: Byte): Byte {
    if 65 <= b <= 90 then b + 32 else b
  }

  function First(fold: Folding, b: Bytes): (f: Folded)
    requires b != []
    ensures 1 <= f.width <= |b|
  {
    if b[0] < 0x80 then Folded(1, [LowerByte(b[0])])
    else if b[0] >= 0xF5 then Folded(1, REPLACEMENT)
    else
      var front := b[..Min(4, |b|)];
      if front in fold.table && 1 <= fold.table[front].width <= |front| then fold.table[front]
      else Folded(1, REPLACEMENT)
  }

  function Lower(fold: Folding, b: Bytes): Bytes
    decreases |b|
  {
    if b == [] then [] else First(fold, b).text + Lower(fold, b[First(fold, b).width..])
  }

  predicate IsAscii(b: Bytes) {
    forall i :: 0 <= i < |b| ==> b[i] < 0x80
  }

  lemma {:induction false} AsciiLower(fold: Folding, b: Bytes)
    requires IsAscii(b)
    ensures |Lower(fold, b)| == |b| && forall i :: 0 <= i < |b| ==> Lower(fold, b)[i] == LowerByte(b[i])
  {
    if b != [] {
      AsciiLower(fold, b[1..]);
    }
  }

  // ---------------------------------------------------------------- the insertion point

  /** Past: slicing the body at an offset of the folded copy, beyond the body's end. */
  datatype Point = Past | Nowhere | At(offset: nat)

  function FindInsertionPoint(fold: Folding, b: Bytes): Point {
    var lower := Lower(fold, b);
    var head := Index(lower, Head());
    if head >= 0 then
      if head > |b| then Past
      else
        var gt := Index(b[head..], [GT]);
        if gt >= 0 then At(head + gt + 1) else Nowhere
    else
      var close := Index(lower, HeadEnd());
      if close >= 0 then At(close)
      else
        var body := Index(lower, BodyTag());
        if body >= 0 then At(body) else Nowhere
  }

  // ---------------------------------------------------------------- the decision

  datatype Reason = NoReason | AlreadyPresent | PointNotFound

  datatype Decision = More | Crash | Pass(reason: Reason) | Insert(at: nat)

  /** What the look-ahead decides while the body goes on. */
  function Examine(fold: Folding, pre: Bytes): Decision {
    Weighed(pre, Contains(pre, Marker()), FindInsertionPoint(fold, pre))
  }

  function Weighed(pre: Bytes, marked: bool, point: Point): Decision {
    if marked then Pass(AlreadyPresent)
    else if point == Past then Crash
    else if point.At? && |pre| >= point.offset + |Marker()| then
      if MatchAt(pre, Marker(), point.offset) then Pass(AlreadyPresent) else Insert(point.offset)
    else if |pre| >= MAX_LOOKAHEAD then Pass(PointNotFound)
    else More
  }

  /** What it decides when the body has ended. */
  function Conclude(fold: Folding, pre: Bytes): Decision {
    Settled(pre, FindInsertionPoint(fold, pre))
  }

  function Settled(pre: Bytes, point: Point): Decision {
    match point
    case Past => Crash
    case Nowhere => Pass(PointNotFound)
    case At(i) => if i > |pre| then Crash else Insert(i)
  }

  lemma NothingYet(fold: Folding)
    ensures Examine(fold, []) == More
  {
  }

  predicate FitsWhole(fold: Folding, b: Bytes) {
    var p := FindInsertionPoint(fold, b);
    p != Past && (p.At? ==> p.offset <= |b|)
  }

  predicate FitsEarly(fold: Folding, b: Bytes) {
    Contains(b, Marker()) || FindInsertionPoint(fold, b) != Past
  }

  lemma FitsExactly(fold: Folding, b: Bytes)
    ensures Conclude(fold, b) == Crash <==> !FitsWhole(fold, b)
    ensures Examine(fold, b) == Crash <==> !FitsEarly(fold, b)
  {
  }

  lemma LowerInvalid(fold: Folding, rest: Bytes)
    ensures Lower(fold, [0xFF] + rest) == REPLACEMENT + Lower(fold, rest)
  {
    assert ([0xFF] + rest)[1..] == rest;
  }

  lemma MatchesThere(hay: Bytes, needle: Bytes, i: nat)
    requires MatchAt(hay, needle, i) && i < |hay|
    ensures needle != [] ==> hay[i] == needle[0]
    ensures |needle| > 1 ==> hay[i + 1] == needle[1]
  {
    var slice := hay[i..i + |needle|];
    assert needle != [] ==> slice[0] == hay[i];
    assert |needle| > 1 ==> slice[1] == hay[i + 1];
  }

  /** Three bytes that are not UTF-8 grow by six when folded: the offset of <body falls behind the end. */
  lemma FoldingOvershoots(fold: Folding)
    ensures !FitsWhole(fold, [0xFF] + ([0xFF] + ([0xFF] + BodyTag())))
  {
    var b := [0xFF] + ([0xFF] + ([0xFF] + BodyTag()));
    LowerInvalid(fold, BodyTag());
    LowerInvalid(fold, [0xFF] + BodyTag());
    LowerInvalid(fold, [0xFF] + ([0xFF] + BodyTag()));
    LowerTag(fold);
    OvershootingPoint(fold, b);
  }

  lemma LowerTag(fold: Folding)
    ensures Lower(fold, BodyTag()) == BodyTag()
  {
    AsciiLower(fold, BodyTag());
  }

  lemma OvershootingPoint(fold: Folding, b: Bytes)
    requires |b| == 8 && Lower(fold, b) == REPLACEMENT + (REPLACEMENT + (REPLACEMENT + BodyTag()))
    ensures FindInsertionPoint(fold, b) == At(9)
  {
    OvershootingText(Lower(fold, b));
  }

  lemma OvershootingText(lower: Bytes)
    requires lower == REPLACEMENT + (REPLACEMENT + (REPLACEMENT + BodyTag()))
    ensures Index(lower, Head()) == -1 && Index(lower, HeadEnd()) == -1 && Index(lower, BodyTag()) == 9
  {
    OnlyAngle(lower, Head());
    OnlyAngle(lower, HeadEnd());
    OnlyAngle(lower, BodyTag());
    assert lower[9..14] == BodyTag();
    IndexFromFirst(lower, BodyTag(), 0, 9);
  }

  /** The only tag such a text can start is its last five bytes. */
  lemma OnlyAngle(lower: Bytes, tag: Bytes)
    requires |lower| == 14 && forall i :: 0 <= i < 14 ==> (lower[i] == 60 <==> i == 9)
    requires |tag| > 1 && tag[0] == 60
    ensures Index(lower, tag) == -1 || (Index(lower, tag) == 9 && |tag| <= 5 && lower[10] == tag[1])
  {
    IndexFromFirst(lower, tag, 0, 0);
    if Index(lower, tag) >= 0 {
      MatchesThere(lower, tag, Index(lower, tag));
    }
  }

  // ---------------------------------------------------------------- an ASCII body

  lemma AsciiFits(fold: Folding, b: Bytes)
    requires IsAscii(b)
    ensures FitsWhole(fold, b)
  {
    AsciiLower(fold, b);
  }

  /** A closed head tag found in the look-ahead is the one found in the whole body. */
  lemma HeadStable(fold: Folding, body: Bytes, n: nat, front: Bytes)
    requires IsAscii(body) && n <= |body| && front == body[..n]
    requires Contains(Lower(fold, front), Head()) && FindInsertionPoint(fold, front).At?
    ensures FindInsertionPoint(fold, body) == FindInsertionPoint(fold, front)
  {
    var head := Index(Lower(fold, front), Head());
    LowerOfFront(fold, body, n, front);
    IndexFromStable(Lower(fold, body), n, Lower(fold, front), Head(), 0);
    AfterHead(fold, front, head);
    AfterHead(fold, body, head);
    assert front[head..] == body[head..][..n - head];
    IndexFromStable(body[head..], n - head, front[head..], [GT], 0);
  }

  lemma LowerOfFront(fold: Folding, body: Bytes, n: nat, front: Bytes)
    requires IsAscii(body) && n <= |body| && front == body[..n]
    ensures |Lower(fold, body)| == |body| && |Lower(fold, front)| == n && Lower(fold, front) == Lower(fold, body)[..n]
  {
    AsciiLower(fold, body);
    AsciiLower(fold, front);
  }

  lemma AfterHead(fold: Folding, b: Bytes, head: nat)
    requires Index(Lower(fold, b), Head()) == head <= |b|
    ensures var gt := Index(b[head..], [GT]);
      FindInsertionPoint(fold, b) == if gt >= 0 then At(head + gt + 1) else Nowhere
  {
  }

  /** A tag at offset h, in any case. */
  predicate TagAt(b: Bytes, tag: Bytes, h: int) {
    0 <= h && h + |tag| <= |b| && forall j :: 0 <= j < |tag| ==> LowerByte(b[h + j]) == tag[j]
  }

  predicate FirstTag(b: Bytes, tag: Bytes, h: int) {
    TagAt(b, tag, h) && forall i :: 0 <= i < h ==> !TagAt(b, tag, i)
  }

  predicate NoTag(b: Bytes, tag: Bytes) {
    forall i :: 0 <= i < |b| ==> !TagAt(b, tag, i)
  }

  /** Offset i is right behind the first bracket that closes the tag opened at h. */
  predicate ClosedAt(b: Bytes, h: int, i: int) {
    0 <= h < i <= |b| && b[i - 1] == GT && forall j :: h <= j < i - 1 ==> b[j] != GT
  }

  lemma TagIsMatch(fold: Folding, b: Bytes, tag: Bytes, h: int)
    requires IsAscii(b)
    ensures TagAt(b, tag, h) <==> MatchAt(Lower(fold, b), tag, h)
  {
    AsciiLower(fold, b);
    var lower := Lower(fold, b);
    if 0 <= h && h + |tag| <= |b| {
      var slice := lower[h..h + |tag|];
      assert forall j :: 0 <= j < |tag| ==> slice[j] == LowerByte(b[h + j]);
      if TagAt(b, tag, h) {
        assert slice == tag;
      }
    }
  }

  /** The index in the folded copy is the first tag of the text. */
  lemma IndexIsFirstTag(fold: Folding, b: Bytes, tag: Bytes, h: int)
    requires IsAscii(b) && tag != []
    ensures Index(Lower(fold, b), tag) == -1 <==> NoTag(b, tag)
    ensures h >= 0 ==> (Index(Lower(fold, b), tag) == h <==> FirstTag(b, tag, h))
  {
    AsciiLower(fold, b);
    var lower := Lower(fold, b);
    var r := Index(lower, tag);
    forall i ensures TagAt(b, tag, i) <==> MatchAt(lower, tag, i) {
      TagIsMatch(fold, b, tag, i);
    }
    forall i | 0 <= i && (r == -1 || i < r) ensures !TagAt(b, tag, i) {
      IndexFromFirst(lower, tag, 0, i);
    }
    IndexFromFirst(lower, tag, 0, 0);
  }

  /** The first closing bracket at or after h. */
  lemma BracketIsClosed(b: Bytes, h: nat, i: int)
    requires h < |b|
    ensures var gt := Index(b[h..], [GT]); (gt >= 0 && i == h + gt + 1) <==> ClosedAt(b, h, i)
  {
    var rest := b[h..];
    var gt := Index(rest, [GT]);
    forall j: int ensures MatchAt(rest, [GT], j) <==> 0 <= j < |rest| && rest[j] == GT {
      assert 0 <= j < |rest| ==> rest[j..j + 1] == [rest[j]];
    }
    IndexFromFirst(rest, [GT], 0, 0);
    if ClosedAt(b, h, i) {
      IndexFromFirst(rest, [GT], 0, i - 1 - h);
      assert rest[i - 1 - h] == GT;
    }
    forall j | h <= j < |b| && (gt == -1 || j < h + gt) ensures b[j] != GT {
      IndexFromFirst(rest, [GT], 0, j - h);
      assert rest[j - h] == b[j];
    }
  }

  /**
   The insertion point of an ASCII text: behind the first head tag if it is closed; without
   a head tag before the first end of the head; without that before the first body tag.
   */
  lemma PointExactly(fold: Folding, b: Bytes, i: nat)
    requires IsAscii(b)
    ensures FindInsertionPoint(fold, b) == At(i) <==>
      || (exists h :: FirstTag(b, Head(), h) && ClosedAt(b, h, i))
      || (NoTag(b, Head()) && FirstTag(b, HeadEnd(), i))
      || (NoTag(b, Head()) && NoTag(b, HeadEnd()) && FirstTag(b, BodyTag(), i))
  {
    var head := Index(Lower(fold, b), Head());
    AsciiLower(fold, b);
    IndexIsFirstTag(fold, b, Head(), head);
    IndexIsFirstTag(fold, b, HeadEnd(), i);
    IndexIsFirstTag(fold, b, BodyTag(), i);
    if head >= 0 {
      BracketIsClosed(b, head, i);
      forall h | FirstTag(b, Head(), h) ensures h == head {
        IndexIsFirstTag(fold, b, Head(), h);
      }
    }
  }
}
