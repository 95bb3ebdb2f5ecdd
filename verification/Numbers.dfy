/** Decimal numbers as the source language prints and parses them. */
module Numbers {
  import opened Common

  function DigitChar(n: nat): char
    requires n < 10
  {
    ('0' as int + n) as char
  }

  function Digits(n: nat): (r: string)
    ensures r != []
  {
    if n < 10 then [DigitChar(n)] else Digits(n / 10) + [DigitChar(n % 10)]
  }

  function Decimal(n: int): (r: string)
    ensures r != []
  {
    if n < 0 then "-" + Digits(-n) else Digits(n)
  }

  predicate AllDigits(s: string) {
    forall i :: 0 <= i < |s| ==> '0' <= s[i] <= '9'
  }

  function DigitsValue(s: string): nat
    requires AllDigits(s)
  {
    if s == [] then 0 else 10 * DigitsValue(s[..|s| - 1]) + (s[|s| - 1] as int - '0' as int)
  }

  const I64_LIMIT: int := 0x8000_0000_0000_0000

  predicate IsI64(n: int) {
    -I64_LIMIT <= n < I64_LIMIT
  }

  /** A signed 64-bit decimal number. */
  function ParseI64(s: string): Option<int> {
    var signed := s != [] && (s[0] == '-' || s[0] == '+');
    var body := if signed then s[1..] else s;
    if body == [] || !AllDigits(body) then None
    else
      var n: int := if signed && s[0] == '-' then 0 - DigitsValue(body) else DigitsValue(body);
      if IsI64(n) then Some(n) else None
  }

  lemma {:induction false} DigitsRead(n: nat)
    ensures AllDigits(Digits(n)) && DigitsValue(Digits(n)) == n
    decreases n
  {
    if n < 10 {
      assert Digits(n)[..0] == [];
    } else {
      DigitsRead(n / 10);
      assert Digits(n)[..|Digits(n)| - 1] == Digits(n / 10);
    }
  }

  lemma UnsignedRead(body: string, n: nat)
    requires body != [] && AllDigits(body) && DigitsValue(body) == n && IsI64(n)
    ensures ParseI64(body) == Some(n)
  {
    assert '0' <= body[0] <= '9';
  }

  lemma NegativeRead(body: string, n: nat)
    requires body != [] && AllDigits(body) && DigitsValue(body) == n && IsI64(0 - n)
    ensures ParseI64(['-'] + body) == Some(0 - n)
  {
    assert (['-'] + body)[1..] == body;
  }

  lemma DecimalRead(n: int)
    requires IsI64(n)
    ensures ParseI64(Decimal(n)) == Some(n)
  {
    if n < 0 {
      DigitsRead(-n);
      NegativeRead(Digits(-n), -n);
    } else {
      DigitsRead(n);
      UnsignedRead(Digits(n), n);
    }
  }

  // ---- exactly which texts are numbers ----

  function Zeros(k: nat): (z: string)
    ensures |z| == k && forall i :: 0 <= i < k ==> z[i] == '0'
  {
    seq(k, i => '0')
  }

  function Size(n: int): nat {
    if n < 0 then -n else n
  }

  lemma LastDigit(front: string, c: char)
    requires AllDigits(front) && '0' <= c <= '9'
    ensures AllDigits(front + [c]) && DigitsValue(front + [c]) == 10 * DigitsValue(front) + (c as int - '0' as int)
  {
    assert (front + [c])[..|front|] == front;
  }

  lemma {:induction false} PaddedRead(k: nat, n: nat)
    ensures AllDigits(Zeros(k) + Digits(n)) && DigitsValue(Zeros(k) + Digits(n)) == n
    decreases n
  {
    if n < 10 {
      ZerosRead(k);
      LastDigit(Zeros(k), DigitChar(n));
    } else {
      PaddedRead(k, n / 10);
      LastDigit(Zeros(k) + Digits(n / 10), DigitChar(n % 10));
      assert Zeros(k) + Digits(n) == (Zeros(k) + Digits(n / 10)) + [DigitChar(n % 10)];
    }
  }

  lemma {:induction false} ZerosRead(k: nat)
    ensures AllDigits(Zeros(k)) && DigitsValue(Zeros(k)) == 0
    decreases k
  {
    if k > 0 {
      ZerosRead(k - 1);
      assert Zeros(k)[..k - 1] == Zeros(k - 1);
    }
  }

  /** Digits are a canonical number behind some zeros. */
  lemma {:induction false} DigitsAre(body: string) returns (k: nat)
    requires body != [] && AllDigits(body)
    ensures body == Zeros(k) + Digits(DigitsValue(body))
    decreases |body|
  {
    var n := |body| - 1;
    var front, d := body[..n], body[n] as int - '0' as int;
    assert body == front + [DigitChar(d)];
    if n == 0 {
      k := 0;
      assert front == [] && DigitsValue(front) == 0;
    } else {
      var j := DigitsAre(front);
      var v := DigitsValue(front);
      if v == 0 {
        k := j + 1;
        assert Zeros(j) + Digits(0) == Zeros(k);
      } else {
        k := j;
        assert (10 * v + d) / 10 == v && (10 * v + d) % 10 == d;
        assert Zeros(j) + (Digits(v) + [DigitChar(d)]) == (Zeros(j) + Digits(v)) + [DigitChar(d)];
      }
    }
  }

  predicate SignFor(sign: string, n: int) {
    ((sign == "" || sign == "+") && n >= 0) || (sign == "-" && n <= 0)
  }

  /** The number, with a sign or leading zeros perhaps. */
  ghost predicate Writes(s: string, n: int, sign: string, k: nat) {
    SignFor(sign, n) && s == sign + (Zeros(k) + Digits(Size(n)))
  }

  /** The number of a sign and digits, if it has 64 bits. */
  function Signed(negative: bool, body: string): Option<int> {
    if body == [] || !AllDigits(body) then None
    else
      var n := if negative then 0 - DigitsValue(body) else DigitsValue(body);
      if IsI64(n) then Some(n) else None
  }

  lemma ParseSigned(c: char, body: string)
    requires c == '-' || c == '+'
    ensures ParseI64([c] + body) == Signed(c == '-', body)
  {
    assert ([c] + body)[1..] == body;
  }

  lemma ParsePlain(body: string)
    requires body == [] || (body[0] != '-' && body[0] != '+')
    ensures ParseI64(body) == Signed(false, body)
  {
  }

  lemma WrittenIsRead(s: string, n: int, sign: string, k: nat)
    requires IsI64(n) && Writes(s, n, sign, k)
    ensures ParseI64(s) == Some(n)
  {
    var body := Zeros(k) + Digits(Size(n));
    PaddedRead(k, Size(n));
    if sign == "" {
      assert s == body;
      assert '0' <= body[0] <= '9';
      ParsePlain(body);
    } else {
      assert sign == [sign[0]];
      ParseSigned(sign[0], body);
    }
  }

  lemma SignedIs(negative: bool, body: string, n: int) returns (k: nat)
    requires Signed(negative, body) == Some(n)
    ensures body == Zeros(k) + Digits(Size(n)) && (if negative then n <= 0 else n >= 0)
  {
    k := DigitsAre(body);
  }

  lemma ReadIsWritten(s: string, n: int) returns (sign: string, k: nat)
    requires ParseI64(s) == Some(n)
    ensures Writes(s, n, sign, k)
  {
    if s[0] == '-' || s[0] == '+' {
      sign := [s[0]];
      assert s == sign + s[1..];
      ParseSigned(s[0], s[1..]);
      k := SignedIs(s[0] == '-', s[1..], n);
    } else {
      sign := "";
      ParsePlain(s);
      k := SignedIs(false, s, n);
      assert sign + s == s;
    }
  }

  /** A text is read as a 64-bit number exactly if it is its decimal form with a sign or zeros in front. */
  lemma ParseI64Iff(s: string, n: int)
    ensures ParseI64(s) == Some(n) <==> IsI64(n) && exists sign, k :: Writes(s, n, sign, k)
  {
    if ParseI64(s) == Some(n) {
      var sign, k := ReadIsWritten(s, n);
    }
    if IsI64(n) {
      if sign, k :| Writes(s, n, sign, k) {
        WrittenIsRead(s, n, sign, k);
      }
    }
  }

  lemma DecimalInjective(m: int, n: int)
    requires IsI64(m) && IsI64(n) && Decimal(m) == Decimal(n)
    ensures m == n
  {
    DecimalRead(m);
    DecimalRead(n);
  }
}
