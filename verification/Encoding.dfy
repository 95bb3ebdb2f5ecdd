/**
 * Order-preserving key encodings (crates/pelago-core/src/encoding.rs): big-endian
 * integers with a flipped sign bit, IEEE 754 binary64 patterns, and FoundationDB-style
 * tuples.
 */
module Encoding {
  import opened Common
  import opened ByteOrder

  // ---- big-endian numbers ----

  function Bound(width: nat): nat {
    if width == 0 then 1 else 256 * Bound(width - 1)
  }

  function Value(b: Bytes): nat {
    if b == [] then 0 else 256 * Value(b[..|b| - 1]) + b[|b| - 1]
  }

  function BigEndian(n: nat, width: nat): (r: Bytes)
    ensures |r| == width
  {
    if width == 0 then [] else BigEndian(n / 256, width - 1) + [n % 256]
  }

  lemma {:induction false} BigEndianValue(n: nat, width: nat)
    requires n < Bound(width)
    ensures Value(BigEndian(n, width)) == n
  {
    if width > 0 {
      BigEndianValue(n / 256, width - 1);
      assert BigEndian(n, width)[..width - 1] == BigEndian(n / 256, width - 1);
    }
  }

  /** Byte strings of one width order as the numbers they spell. */
  lemma {:induction false} ValueOrder(a: Bytes, b: Bytes)
    requires |a| == |b|
    ensures Less(a, b) <==> Value(a) < Value(b)
    ensures a == b <==> Value(a) == Value(b)
    decreases |a|
  {
    if a != [] {
      var n := |a| - 1;
      ValueOrder(a[..n], b[..n]);
      LessEqualWidth(a[..n], b[..n], [a[n]], [b[n]]);
      assert a == a[..n] + [a[n]] && b == b[..n] + [b[n]];
      assert !Less([a[n]][1..], [b[n]][1..]);
    }
  }

  lemma ShiftHead(a: int, m: int, v: int, d: int)
    ensures 256 * (a * m + v) + d == a * (256 * m) + (256 * v + d)
  {
    assert a * (256 * m) == 256 * (a * m);
  }

  lemma ValueSnoc(b: Bytes, d: Byte)
    ensures Value(b + [d]) == 256 * Value(b) + d
  {
    assert (b + [d])[..|b|] == b;
  }

  lemma {:induction false} ValueHead(b: Bytes)
    requires b != []
    ensures Value(b) == b[0] * Bound(|b| - 1) + Value(b[1..])
    ensures Value(b[1..]) < Bound(|b| - 1)
    decreases |b|
  {
    var n := |b| - 1;
    var front, d := b[..n], b[n];
    assert b == front + [d];
    ValueSnoc(front, d);
    if n == 0 {
      assert front == [] && b[1..] == [] && Bound(0) == 1;
    } else {
      ValueHead(front);
      assert b[1..] == front[1..] + [d] && front[0] == b[0];
      ValueSnoc(front[1..], d);
      assert Bound(n) == 256 * Bound(n - 1);
      ShiftHead(b[0], Bound(n - 1), Value(front[1..]), d);
    }
  }

  lemma BoundEight()
    ensures Bound(7) == 0x100_0000_0000_0000
    ensures Bound(8) == 0x1_0000_0000_0000_0000
  {
    assert Bound(4) == 0x1_0000_0000;
    assert Bound(6) == 0x1_0000_0000_0000;
  }

  // ---- 64-bit integers ----

  const TWO63 := 0x8000_0000_0000_0000
  const TWO64 := 0x1_0000_0000_0000_0000

  type I64 = n: int | -0x8000_0000_0000_0000 <= n < 0x8000_0000_0000_0000

  function TwosComplement(n: I64): nat {
    if n < 0 then n + TWO64 else n
  }

  function FromTwosComplement(u: nat): I64
    requires u < TWO64
  {
    if u < TWO63 then u else u - TWO64
  }

  /** XOR with 0x80. */
  function FlipHighBit(b: Byte): Byte {
    if b < 0x80 then b + 0x80 else b - 0x80
  }

  function EncodeInt(n: I64): (r: Bytes)
    ensures |r| == 8
  {
    var bytes := BigEndian(TwosComplement(n), 8);
    bytes[0 := FlipHighBit(bytes[0])]
  }

  function DecodeInt(bytes: Bytes): I64
    requires |bytes| == 8
  {
    var buf := bytes[0 := FlipHighBit(bytes[0])];
    ValueBelow(buf);
    FromTwosComplement(Value(buf))
  }

  lemma ValueBelow(b: Bytes)
    requires |b| == 8
    ensures Value(b) < TWO64
  {
    ValueHead(b);
    BoundEight();
  }

  lemma FlipValue(b: Bytes)
    requires |b| == 8
    ensures Value(b[0 := FlipHighBit(b[0])]) == if Value(b) < TWO63 then Value(b) + TWO63 else Value(b) - TWO63
  {
    var c := b[0 := FlipHighBit(b[0])];
    ValueHead(b);
    ValueHead(c);
    assert b[1..] == c[1..];
    BoundEight();
  }

  /** The encoded bytes spell the integer shifted up by 2^63. */
  lemma EncodeIntValue(n: I64)
    ensures Value(EncodeInt(n)) == n + TWO63
  {
    BoundEight();
    BigEndianValue(TwosComplement(n), 8);
    FlipValue(BigEndian(TwosComplement(n), 8));
  }

  lemma EncodeIntOrder(m: I64, n: I64)
    ensures Less(EncodeInt(m), EncodeInt(n)) <==> m < n
    ensures EncodeInt(m) == EncodeInt(n) <==> m == n
  {
    EncodeIntValue(m);
    EncodeIntValue(n);
    ValueOrder(EncodeInt(m), EncodeInt(n));
  }

  lemma IntRoundTrip(n: I64)
    ensures DecodeInt(EncodeInt(n)) == n
  {
    EncodeIntValue(n);
    FlipValue(EncodeInt(n));
    ValueBelow(EncodeInt(n)[0 := FlipHighBit(EncodeInt(n)[0])]);
  }

  // ---- binary64 patterns ----

  type Bits64 = b: int | 0 <= b < 0x1_0000_0000_0000_0000

  function EncodeFloat(bits: Bits64): (r: Bytes)
    ensures |r| == 8
  {
    // A set sign bit inverts every bit, a clear one flips only the sign.
    BigEndian(if bits >= TWO63 then TWO64 - 1 - bits else bits + TWO63, 8)
  }

  function DecodeFloat(bytes: Bytes): Bits64
    requires |bytes| == 8
  {
    ValueBelow(bytes);
    var encoded := Value(bytes);
    if encoded < TWO63 then TWO64 - 1 - encoded else encoded - TWO63
  }

  lemma EncodeFloatValue(bits: Bits64)
    ensures Value(EncodeFloat(bits)) == if bits >= TWO63 then TWO64 - 1 - bits else bits + TWO63
  {
    BoundEight();
    BigEndianValue(if bits >= TWO63 then TWO64 - 1 - bits else bits + TWO63, 8);
  }

  lemma FloatRoundTrip(bits: Bits64)
    ensures DecodeFloat(EncodeFloat(bits)) == bits
  {
    EncodeFloatValue(bits);
    ValueBelow(EncodeFloat(bits));
  }

  const TWO52 := 0x10_0000_0000_0000
  const TWO51 := 0x8_0000_0000_0000

  predicate Negative(x: Bits64) {
    x >= TWO63
  }

  function Exponent(x: Bits64): nat {
    (x % TWO63) / TWO52
  }

  function Fraction(x: Bits64): nat {
    x % TWO52
  }

  predicate IsNaN(x: Bits64) {
    Exponent(x) == 2047 && Fraction(x) != 0
  }

  predicate IsInfinite(x: Bits64) {
    Exponent(x) == 2047 && Fraction(x) == 0
  }

  function Pow2(k: nat): nat {
    if k == 0 then 1 else 2 * Pow2(k - 1)
  }

  /** The magnitude of a finite number in units of 2^-1074, subnormals included. */
  function Magnitude(x: Bits64): nat {
    if Exponent(x) == 0 then Fraction(x) else (TWO52 + Fraction(x)) * Pow2(Exponent(x) - 1)
  }

  function ScaledValue(x: Bits64): int {
    var m: int := Magnitude(x);
    if Negative(x) then -m else m
  }

  /** `x < y` as numbers, infinities included. */
  predicate NumberLess(x: Bits64, y: Bits64)
    requires !IsNaN(x) && !IsNaN(y)
  {
    if IsInfinite(x) then Negative(x) && !(IsInfinite(y) && Negative(y))
    else if IsInfinite(y) then !Negative(y)
    else ScaledValue(x) < ScaledValue(y)
  }

  predicate Quiet(x: Bits64) {
    Fraction(x) >= TWO51
  }

  /** Among two NaNs of one sign: signalling before quiet, then the lesser payload. */
  predicate NaNAtMost(x: Bits64, y: Bits64) {
    if Quiet(x) != Quiet(y) then Quiet(y) else Fraction(x) % TWO51 <= Fraction(y) % TWO51
  }

  /** totalOrder of section 5.10 of IEEE 754-2019, by its own case analysis. */
  predicate TotalOrder(x: Bits64, y: Bits64) {
    if IsNaN(x) && IsNaN(y) then
      if Negative(x) != Negative(y) then Negative(x)
      else if Negative(x) then NaNAtMost(y, x)
      else NaNAtMost(x, y)
    else if IsNaN(x) then Negative(x)
    else if IsNaN(y) then !Negative(y)
    else if NumberLess(x, y) then true
    else if NumberLess(y, x) then false
    else Negative(x) || !Negative(y)
  }

  lemma Decompose(x: Bits64)
    ensures Exponent(x) <= 2047 && Fraction(x) < TWO52
    ensures x == (if Negative(x) then TWO63 else 0) + Exponent(x) * TWO52 + Fraction(x)
  {
    assert TWO63 == 2048 * TWO52;
    assert (x % TWO63) % TWO52 == x % TWO52;
  }

  lemma {:induction false} MagnitudeStep(x: Bits64, y: Bits64)
    requires Exponent(x) < Exponent(y)
    ensures Magnitude(x) < Magnitude(y)
  {
    Decompose(x);
    PowMonotone(Exponent(x), Exponent(y) - 1);
    var p := Pow2(Exponent(y) - 1);
    assert Magnitude(y) >= TWO52 * p by {
      assert (TWO52 + Fraction(y)) * p == TWO52 * p + Fraction(y) * p;
    }
    if Exponent(x) > 0 {
      var q := Pow2(Exponent(x) - 1);
      assert (TWO52 + Fraction(x)) * q < (2 * TWO52) * q by {
        ScaleLess(TWO52 + Fraction(x), 2 * TWO52, q);
      }
      assert (2 * TWO52) * q == TWO52 * Pow2(Exponent(x));
      assert TWO52 * Pow2(Exponent(x)) <= TWO52 * p;
    } else {
      assert TWO52 * p >= TWO52;
    }
  }

  lemma ScaleLess(a: nat, b: nat, q: nat)
    requires a < b && q > 0
    ensures a * q < b * q
  {
  }

  lemma {:induction false} PowMonotone(a: nat, b: nat)
    requires a <= b
    ensures 1 <= Pow2(a) <= Pow2(b)
    decreases b
  {
    if a < b {
      PowMonotone(a, b - 1);
    } else if b > 0 {
      PowMonotone(a - 1, b - 1);
    }
  }

  /** The bit pattern below the sign. */
  function Unsigned(x: Bits64): nat {
    if Negative(x) then x - TWO63 else x
  }

  /** Magnitudes order as the bit patterns below the sign. */
  lemma MagnitudeMonotone(x: Bits64, y: Bits64)
    requires Unsigned(x) < Unsigned(y)
    ensures Magnitude(x) < Magnitude(y)
  {
    Decompose(x);
    Decompose(y);
    if Exponent(x) < Exponent(y) {
      MagnitudeStep(x, y);
    } else if Exponent(x) > 0 {
      PowMonotone(0, Exponent(x) - 1);
      ScaleLess(TWO52 + Fraction(x), TWO52 + Fraction(y), Pow2(Exponent(x) - 1));
    }
  }

  /** Bit patterns below the sign determine the magnitude. */
  lemma MagnitudeDetermined(x: Bits64, y: Bits64)
    requires Unsigned(x) == Unsigned(y)
    ensures Exponent(x) == Exponent(y) && Fraction(x) == Fraction(y)
    ensures Magnitude(x) == Magnitude(y)
  {
    Decompose(x);
    Decompose(y);
  }

  lemma ZeroMagnitude(x: Bits64)
    ensures Magnitude(x) == 0 ==> Unsigned(x) == 0
  {
    if Unsigned(x) > 0 {
      MagnitudeMonotone(0, x);
    }
  }

  predicate SignedAtMost(x: Bits64, y: Bits64) {
    if Negative(x) != Negative(y) then Negative(x)
    else if Negative(x) then Unsigned(y) <= Unsigned(x)
    else Unsigned(x) <= Unsigned(y)
  }

  lemma NaNTop(x: Bits64)
    ensures IsNaN(x) <==> Unsigned(x) > 2047 * TWO52
    ensures IsInfinite(x) <==> Unsigned(x) == 2047 * TWO52
  {
    Decompose(x);
  }

  lemma NumberOrder(x: Bits64, y: Bits64)
    requires !IsNaN(x) && !IsNaN(y)
    ensures NumberLess(x, y) <==> SignedAtMost(x, y) && x != y && !(Unsigned(x) == Unsigned(y) == 0)
  {
    NaNTop(x);
    NaNTop(y);
    ZeroMagnitude(x);
    ZeroMagnitude(y);
    if Unsigned(x) < Unsigned(y) {
      MagnitudeMonotone(x, y);
    } else if Unsigned(y) < Unsigned(x) {
      MagnitudeMonotone(y, x);
    } else {
      MagnitudeDetermined(x, y);
    }
  }

  lemma NaNOrder(x: Bits64, y: Bits64)
    requires IsNaN(x) && IsNaN(y)
    ensures NaNAtMost(x, y) <==> Unsigned(x) <= Unsigned(y)
  {
    Decompose(x);
    Decompose(y);
    assert Fraction(x) == (if Quiet(x) then TWO51 else 0) + Fraction(x) % TWO51;
    assert Fraction(y) == (if Quiet(y) then TWO51 else 0) + Fraction(y) % TWO51;
  }

  lemma TotalOrderIsSigned(x: Bits64, y: Bits64)
    ensures TotalOrder(x, y) <==> SignedAtMost(x, y)
  {
    NaNTop(x);
    NaNTop(y);
    if IsNaN(x) && IsNaN(y) {
      NaNOrder(x, y);
      NaNOrder(y, x);
    } else if !IsNaN(x) && !IsNaN(y) {
      NumberOrder(x, y);
      NumberOrder(y, x);
    }
  }

  /** The key order of encoded floats is exactly IEEE totalOrder. */
  lemma EncodeFloatOrder(x: Bits64, y: Bits64)
    ensures AtMost(EncodeFloat(x), EncodeFloat(y)) <==> TotalOrder(x, y)
    ensures EncodeFloat(x) == EncodeFloat(y) <==> x == y
  {
    EncodeFloatValue(x);
    EncodeFloatValue(y);
    ValueOrder(EncodeFloat(x), EncodeFloat(y));
    TotalOrderIsSigned(x, y);
  }

  // ---- tuples ----

  datatype Element =
    | BytesElement(bytes: Bytes)
    | StringElement(text: Bytes)
    | IntElement(n: I64)

  function Escape(s: Bytes): Bytes {
    if s == [] then []
    else (if s[0] == 0x00 then [0x00, 0xFF] else [s[0]]) + Escape(s[1..])
  }

  function EncodeString(s: Bytes): Bytes {
    [0x02] + (Escape(s) + [0x00])
  }

  function EncodeElement(e: Element): Bytes {
    match e
    case BytesElement(b) => [0x01] + (Escape(b) + [0x00])
    case StringElement(s) => EncodeString(s)
    case IntElement(n) => [0x14] + EncodeInt(n)
  }

  function EncodeTuple(t: seq<Element>): Bytes {
    if t == [] then [] else EncodeElement(t[0]) + EncodeTuple(t[1..])
  }

  function TypeCode(e: Element): Byte {
    match e
    case BytesElement(_) => 0x01
    case StringElement(_) => 0x02
    case IntElement(_) => 0x14
  }

  predicate ElementLess(a: Element, b: Element) {
    match (a, b)
    case (BytesElement(x), BytesElement(y)) => Less(x, y)
    case (StringElement(x), StringElement(y)) => Less(x, y)
    case (IntElement(x), IntElement(y)) => x < y
    case _ => TypeCode(a) < TypeCode(b)
  }

  predicate TupleLess(a: seq<Element>, b: seq<Element>) {
    b != [] && (a == [] || ElementLess(a[0], b[0]) || (a[0] == b[0] && TupleLess(a[1..], b[1..])))
  }

  /** What may follow a terminated string: nothing, or a byte other than 0xFF. */
  predicate SafeTail(r: Bytes) {
    r == [] || r[0] < 0xFF
  }

  /** `k` lies in the scan range of `e`. */
  predicate Extends(e: Bytes, k: Bytes) {
    e <= k && (|e| < |k| ==> k[|e|] < 0xFF)
  }

  function EscapedByte(b: Byte): (r: Bytes)
    ensures r != [] && r[0] == b
  {
    if b == 0x00 then [0x00, 0xFF] else [b]
  }

  /** An escaped, terminated string followed by `r`. */
  function Terminated(s: Bytes, r: Bytes): (t: Bytes)
    ensures t != []
  {
    if s == [] then [0x00] + r else EscapedByte(s[0]) + Terminated(s[1..], r)
  }

  lemma {:induction false} TerminatedIs(s: Bytes, r: Bytes)
    ensures Terminated(s, r) == Escape(s) + [0x00] + r
    decreases |s|
  {
    if s == [] {
      assert Escape(s) + [0x00] == [0x00];
    } else {
      TerminatedIs(s[1..], r);
      assert Escape(s) + [0x00] + r == EscapedByte(s[0]) + (Escape(s[1..]) + [0x00] + r);
    }
  }

  lemma ExtendsPrefix(p: Bytes, a: Bytes, b: Bytes)
    ensures Extends(p + a, p + b) <==> Extends(a, b)
  {
    if a <= b {
      assert p + a <= p + b;
    }
    if p + a <= p + b {
      assert a == (p + a)[|p|..] && b == (p + b)[|p|..];
    }
    if |a| < |b| {
      assert (p + b)[|p + a|] == b[|a|];
    }
  }

  lemma {:induction false} TerminatedLess(s: Bytes, t: Bytes, q: Bytes, r: Bytes)
    requires SafeTail(q) && SafeTail(r)
    ensures Less(Terminated(s, q), Terminated(t, r)) <==> Less(s, t) || (s == t && Less(q, r))
    decreases |s|
  {
    if s == [] && t == [] {
      LessCommonPrefix([0x00], q, r);
    } else if s == [] {
      EndsBeforeEscape(q, t, r);
    } else if t == [] {
      EndsBeforeEscape(r, s, q);
      LessTrichotomy(Terminated(s, q), Terminated(t, r));
    } else if s[0] == t[0] {
      TerminatedLess(s[1..], t[1..], q, r);
      LessCommonPrefix(EscapedByte(s[0]), Terminated(s[1..], q), Terminated(t[1..], r));
      SameHead(s, t);
    }
  }

  lemma SameHead<T>(s: seq<T>, t: seq<T>)
    requires s != [] && t != [] && s[0] == t[0]
    ensures s == t <==> s[1..] == t[1..]
    ensures s <= t <==> s[1..] <= t[1..]
  {
    assert s == [s[0]] + s[1..] && t == [t[0]] + t[1..];
  }

  /** A terminator sorts below, and is never extended by, an escaped zero byte. */
  lemma EndsBeforeEscape(q: Bytes, t: Bytes, r: Bytes)
    requires SafeTail(q) && t != []
    ensures Less([0x00] + q, Terminated(t, r))
    ensures !([0x00] + q <= Terminated(t, r)) || (q == [] && Terminated(t, r)[1] == 0xFF)
    ensures !(Terminated(t, r) <= [0x00] + q)
    ensures t[0] == 0x00 ==> |Terminated(t, r)| > 1
  {
    if t[0] == 0x00 {
      var rest := Terminated(t[1..], r);
      assert Terminated(t, r) == [0x00] + ([0xFF] + rest);
      LessCommonPrefix([0x00], q, [0xFF] + rest);
      assert q == [] || ([0x00] + q)[1] == q[0];
    }
  }

  lemma {:induction false} TerminatedExtends(s: Bytes, t: Bytes, q: Bytes, r: Bytes)
    requires SafeTail(q) && SafeTail(r)
    ensures Extends(Terminated(s, q), Terminated(t, r)) <==> s == t && Extends(q, r)
    decreases |s|
  {
    if s == [] && t == [] {
      ExtendsPrefix([0x00], q, r);
    } else if s == [] {
      EndsBeforeEscape(q, t, r);
    } else if t == [] {
      EndsBeforeEscape(r, s, q);
    } else if s[0] == t[0] {
      TerminatedExtends(s[1..], t[1..], q, r);
      ExtendsPrefix(EscapedByte(s[0]), Terminated(s[1..], q), Terminated(t[1..], r));
      SameHead(s, t);
    } else {
      assert Terminated(s, q)[0] == s[0] && Terminated(t, r)[0] == t[0];
    }
  }

  lemma EncodedString(s: Bytes, q: Bytes)
    ensures EncodeString(s) + q == [0x02] + Terminated(s, q)
  {
    TerminatedIs(s, q);
  }

  lemma EncodedStringExtends(s: Bytes, t: Bytes, q: Bytes, r: Bytes)
    requires SafeTail(q) && SafeTail(r)
    ensures Extends(EncodeString(s) + q, EncodeString(t) + r) <==> s == t && Extends(q, r)
  {
    EncodedString(s, q);
    EncodedString(t, r);
    TerminatedExtends(s, t, q, r);
    ExtendsPrefix([0x02], Terminated(s, q), Terminated(t, r));
  }

  /** Everything after the type code of an encoded element followed by `q`. */
  function Body(e: Element, q: Bytes): Bytes {
    match e
    case BytesElement(b) => Terminated(b, q)
    case StringElement(s) => Terminated(s, q)
    case IntElement(n) => EncodeInt(n) + q
  }

  lemma ElementBody(e: Element, q: Bytes)
    ensures EncodeElement(e) + q == [TypeCode(e)] + Body(e, q)
  {
    match e
    case BytesElement(b) => TerminatedIs(b, q);
    case StringElement(s) => TerminatedIs(s, q);
    case IntElement(n) =>
  }

  lemma BodyCompare(a: Element, b: Element, q: Bytes, r: Bytes)
    requires TypeCode(a) == TypeCode(b) && SafeTail(q) && SafeTail(r)
    ensures Less(Body(a, q), Body(b, r)) <==> ElementLess(a, b) || (a == b && Less(q, r))
    ensures Extends(Body(a, q), Body(b, r)) <==> a == b && Extends(q, r)
  {
    match a
    case BytesElement(x) =>
      TerminatedLess(x, b.bytes, q, r);
      TerminatedExtends(x, b.bytes, q, r);
    case StringElement(x) =>
      TerminatedLess(x, b.text, q, r);
      TerminatedExtends(x, b.text, q, r);
    case IntElement(x) =>
      EncodeIntOrder(x, b.n);
      LessEqualWidth(EncodeInt(x), EncodeInt(b.n), q, r);
      if x == b.n {
        ExtendsPrefix(EncodeInt(x), q, r);
      } else {
        assert (EncodeInt(x) + q)[..8] == EncodeInt(x) && (EncodeInt(b.n) + r)[..8] == EncodeInt(b.n);
      }
  }

  lemma ElementCompare(a: Element, b: Element, q: Bytes, r: Bytes)
    requires SafeTail(q) && SafeTail(r)
    ensures Less(EncodeElement(a) + q, EncodeElement(b) + r) <==> ElementLess(a, b) || (a == b && Less(q, r))
    ensures Extends(EncodeElement(a) + q, EncodeElement(b) + r) <==> a == b && Extends(q, r)
  {
    ElementBody(a, q);
    ElementBody(b, r);
    if TypeCode(a) == TypeCode(b) {
      BodyCompare(a, b, q, r);
      LessCommonPrefix([TypeCode(a)], Body(a, q), Body(b, r));
      ExtendsPrefix([TypeCode(a)], Body(a, q), Body(b, r));
    }
  }

  lemma TupleSafeTail(t: seq<Element>)
    ensures SafeTail(EncodeTuple(t))
    ensures t != [] ==> EncodeTuple(t) != []
  {
    if t != [] {
      ElementBody(t[0], EncodeTuple(t[1..]));
    }
  }

  /** Tuple encoding preserves order, and byte-wise extension means tuple extension. */
  lemma {:induction false} TupleOrder(a: seq<Element>, b: seq<Element>)
    ensures Less(EncodeTuple(a), EncodeTuple(b)) <==> TupleLess(a, b)
    ensures Extends(EncodeTuple(a), EncodeTuple(b)) <==> a <= b
    decreases |a|
  {
    TupleSafeTail(a);
    TupleSafeTail(b);
    if a != [] && b != [] {
      var x, y := EncodeTuple(a[1..]), EncodeTuple(b[1..]);
      TupleSafeTail(a[1..]);
      TupleSafeTail(b[1..]);
      TupleOrder(a[1..], b[1..]);
      ElementCompare(a[0], b[0], x, y);
      if a[0] == b[0] {
        SameHead(a, b);
      }
    }
  }

  lemma TupleInjective(a: seq<Element>, b: seq<Element>)
    requires EncodeTuple(a) == EncodeTuple(b)
    ensures a == b
  {
    TupleOrder(a, b);
    TupleOrder(b, a);
  }

  lemma TuplePrefixScan(p: seq<Element>, t: seq<Element>)
    ensures InRange(EncodeTuple(t), EncodeTuple(p), EncodeTuple(p) + [0xFF]) <==> p <= t
  {
    PrefixRange(EncodeTuple(p), EncodeTuple(t));
    TupleOrder(p, t);
  }

  /** The builder that appends elements to one growing buffer. */
  class TupleBuilder {
    var buf: Bytes

    constructor ()
      ensures buf == []
    {
      buf := [];
    }

    method AddEscaped(code: Byte, s: Bytes)
      modifies this
      ensures buf == old(buf) + [code] + Escape(s) + [0x00]
    {
      buf := buf + [code];
      var i := 0;
      assert Escape(s) == Escape(s[0..]);
      while i < |s|
        invariant 0 <= i <= |s|
        invariant buf + Escape(s[i..]) == old(buf) + [code] + Escape(s)
      {
        assert s[i..][1..] == s[i + 1..];
        ghost var was := buf;
        if s[i] == 0x00 {
          buf := buf + [0x00];
          buf := buf + [0xFF];
        } else {
          buf := buf + [s[i]];
        }
        assert buf + Escape(s[i + 1..]) == was + Escape(s[i..]);
        i := i + 1;
      }
      assert Escape(s[i..]) == [];
      buf := buf + [0x00];
    }

    method AddElement(e: Element)
      modifies this
      ensures buf == old(buf) + EncodeElement(e)
    {
      match e {
        case BytesElement(b) => AddEscaped(0x01, b);
        case StringElement(s) => AddEscaped(0x02, s);
        case IntElement(n) =>
          buf := buf + [0x14];
          buf := buf + EncodeInt(n);
      }
    }
  }

  /** Undo the escaping up to the first terminator (or the end of the data). */
  function Unescape(data: Bytes): Bytes {
    if data == [] then []
    else if data[0] != 0x00 then [data[0]] + Unescape(data[1..])
    else if |data| > 1 && data[1] == 0xFF then [0x00] + Unescape(data[2..])
    else []
  }

  method ExtractTupleString(data: Bytes) returns (r: Bytes)
    ensures r == if data == [] || data[0] != 0x02 then [] else Unescape(data[1..])
  {
    if data == [] || data[0] != 0x02 {
      return [];
    }
    r := [];
    var i := 1;
    while i < |data|
      invariant 1 <= i <= |data|
      invariant r + Unescape(data[i..]) == Unescape(data[1..])
    {
      assert data[i..][1..] == data[i + 1..];
      if data[i] == 0x00 {
        if i + 1 < |data| && data[i + 1] == 0xFF {
          assert data[i..][2..] == data[i + 2..];
          r := r + [0x00];
          i := i + 2;
        } else {
          break;
        }
      } else {
        r := r + [data[i]];
        i := i + 1;
      }
    }
    assert Unescape(data[i..]) == [];
  }

  lemma {:induction false} UnescapeInverts(s: Bytes, r: Bytes)
    requires SafeTail(r)
    ensures Unescape(Terminated(s, r)) == s
    decreases |s|
  {
    if s != [] {
      UnescapeInverts(s[1..], r);
      var rest := Terminated(s[1..], r);
      assert Terminated(s, r)[|EscapedByte(s[0])|..] == rest;
    }
  }

  /** Any encoded string is recovered when what follows does not start with 0xFF. */
  lemma ExtractInverts(s: Bytes, r: Bytes)
    requires SafeTail(r)
    ensures Unescape((EncodeString(s) + r)[1..]) == s
  {
    UnescapeInverts(s, r);
    EncodedString(s, r);
  }

  /** The side condition is needed: a following 0xFF is read as an escaped zero byte. */
  lemma ExtractNeedsSafeTail()
    ensures Unescape((EncodeString([0x61]) + [0xFF])[1..]) != [0x61]
  {
    var data := (EncodeString([0x61]) + [0xFF])[1..];
    assert Escape([0x61]) == [0x61] + Escape([]);
    assert data == [0x61, 0x00, 0xFF];
    assert data[1..] == [0x00, 0xFF];
    assert Unescape(data[1..]) == [0x00] + Unescape([]);
  }
}
