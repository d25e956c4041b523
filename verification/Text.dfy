/** Byte-level text helpers of the audit log: hex, decimal and 32-bit big-endian lengths. */
module Text {
  import opened Hashing

  datatype Option<T> = None | Some(value: T)

  function Ascii(s: string): (b: Bytes)
    ensures |b| == |s|
  {
    if s == "" then [] else [(s[0] as int) % 256] + Ascii(s[1..])
  }

  lemma {:induction false} AsciiAt(s: string, i: nat)
    requires i < |s|
    ensures Ascii(s)[i] == (s[i] as int) % 256
  {
    if i > 0 {
      AsciiAt(s[1..], i - 1);
    }
  }

  // ---------------------------------------------------------------- hex

  function HexDigit(d: nat): Byte
    requires d < 16
  {
    if d < 10 then 48 + d else 87 + d
  }

  /** Go's decoder takes both cases of a digit. */
  function FromHexDigit(v: Byte): Option<nat> {
    if 48 <= v <= 57 then Some(v - 48)
    else if 97 <= v <= 102 then Some(v - 87)
    else if 65 <= v <= 70 then Some(v - 55)
    else None
  }

  function Hex(b: Bytes): (s: Bytes)
    ensures |s| == 2 * |b|
  {
    if b == [] then []
    else [HexDigit(b[0] / 16), HexDigit(b[0] % 16)] + Hex(b[1..])
  }

  function Unhex(s: Bytes): Option<Bytes> {
    if s == [] then Some([])
    else if |s| == 1 then None
    else
      match (FromHexDigit(s[0]), FromHexDigit(s[1]), Unhex(s[2..]))
      case (Some(hi), Some(lo), Some(rest)) => Some([(16 * hi + lo) % 256] + rest)
      case _ => None
  }

  lemma DigitRoundTrip(d: nat)
    requires d < 16
    ensures FromHexDigit(HexDigit(d)) == Some(d)
  {
  }

  lemma ByteRoundTrip(v: Byte)
    ensures var n: int := v; (16 * (n / 16) + n % 16) % 256 == n
  {
  }

  lemma UnhexCons(hi: Byte, lo: Byte, rest: Bytes)
    requires FromHexDigit(hi).Some? && FromHexDigit(lo).Some? && Unhex(rest).Some?
    ensures Unhex([hi, lo] + rest) ==
      Some([(16 * FromHexDigit(hi).value + FromHexDigit(lo).value) % 256] + Unhex(rest).value)
  {
    assert ([hi, lo] + rest)[2..] == rest;
  }

  lemma {:induction false} HexRoundTrip(b: Bytes)
    ensures Unhex(Hex(b)) == Some(b)
  {
    if b != [] {
      var hi, lo, rest := b[0] / 16, b[0] % 16, b[1..];
      DigitRoundTrip(hi);
      DigitRoundTrip(lo);
      HexRoundTrip(rest);
      UnhexCons(HexDigit(hi), HexDigit(lo), Hex(rest));
      ByteRoundTrip(b[0]);
      assert b == [b[0]] + rest;
    }
  }

  lemma HexInjective(a: Bytes, b: Bytes)
    requires Hex(a) == Hex(b)
    ensures a == b
  {
    HexRoundTrip(a);
    HexRoundTrip(b);
  }

  // ---------------------------------------------------------------- integers

  function Decimal(v: int): Bytes {
    if v < 0 then [45] + Digits(-v) else Digits(v)
  }

  function Digits(v: nat): Bytes {
    (if v < 10 then [] else Digits(v / 10)) + [48 + v % 10]
  }

  function FromDigits(b: Bytes): int {
    if b == [] then 0
    else
      var last: int := b[|b| - 1];
      10 * FromDigits(b[..|b| - 1]) + last - 48
  }

  lemma {:induction false} DigitsRoundTrip(v: nat)
    ensures FromDigits(Digits(v)) == v && Digits(v) != [] && Digits(v)[0] != 45
  {
    var d := Digits(v);
    if v < 10 {
      assert d == [48 + v];
      assert d[..0] == [];
    } else {
      DigitsRoundTrip(v / 10);
      assert d[..|d| - 1] == Digits(v / 10);
    }
  }

  lemma DecimalInjective(a: int, b: int)
    requires Decimal(a) == Decimal(b)
    ensures a == b
  {
    var x, y := if a < 0 then -a else a, if b < 0 then -b else b;
    DigitsRoundTrip(x);
    DigitsRoundTrip(y);
    assert Digits(x) == if a < 0 then Decimal(a)[1..] else Decimal(a);
    assert Digits(y) == if b < 0 then Decimal(b)[1..] else Decimal(b);
  }

  const TWO32: nat := 0x1_0000_0000
  const TWO63: nat := 0x8000_0000_0000_0000
  const TWO64: nat := 0x1_0000_0000_0000_0000

  type U64 = x: int | 0 <= x < 0x1_0000_0000_0000_0000

  /** The conversion of an unsigned 64-bit number to Go's signed int. */
  function AsInt64(u: U64): int {
    if u < TWO63 then u else u - TWO64
  }

  /** The lowest `width` bytes of n, most significant first. */
  function BigEndian(n: nat, width: nat): (b: Bytes)
    ensures |b| == width
  {
    if width == 0 then [] else BigEndian(n / 256, width - 1) + [n % 256]
  }

  function FromBigEndian(b: Bytes): nat {
    if b == [] then 0 else 256 * FromBigEndian(b[..|b| - 1]) + b[|b| - 1]
  }

  function Pow256(width: nat): (p: nat)
    ensures p > 0
  {
    if width == 0 then 1 else 256 * Pow256(width - 1)
  }

  lemma {:induction false} BigEndianRoundTrip(n: nat, width: nat)
    requires n < Pow256(width)
    ensures FromBigEndian(BigEndian(n, width)) == n
  {
    if width > 0 {
      BigEndianRoundTrip(n / 256, width - 1);
      assert BigEndian(n, width)[..width - 1] == BigEndian(n / 256, width - 1);
    }
  }

  lemma {:induction false} FromBigEndianRoundTrip(b: Bytes)
    ensures FromBigEndian(b) < Pow256(|b|) && BigEndian(FromBigEndian(b), |b|) == b
  {
    if b != [] {
      var init := b[..|b| - 1];
      FromBigEndianRoundTrip(init);
      LastByte(FromBigEndian(init), b[|b| - 1]);
      assert b == init + [b[|b| - 1]];
    }
  }

  lemma LastByte(n: nat, v: Byte)
    ensures var m: int := v; (256 * n + m) / 256 == n && (256 * n + m) % 256 == m
  {
  }

  /** A length, truncated to 32 bits, in big-endian order. */
  function BE32(n: nat): (r: Bytes)
    ensures |r| == 4
  {
    BigEndian(n, 4)
  }

  lemma LengthRoundTrip(n: nat)
    requires n < TWO32
    ensures FromBigEndian(BE32(n)) == n
  {
    assert Pow256(4) == 256 * (256 * (256 * (256 * Pow256(0))));
    BigEndianRoundTrip(n, 4);
  }
}
