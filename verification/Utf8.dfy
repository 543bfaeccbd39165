/** UTF-8 as the repository's Rust and Python code meets it: `str::as_bytes`,
    `String::from_utf8_lossy` and `bytes.decode("utf-8", "replace")`.

    The byte `b` is written as the character with code `b`, so an ASCII literal is its
    own encoding. A byte string is a string of characters below 256; nothing here
    depends on that bound except where `IsBytes` is required. */
module Utf8 {

  type Bytes = string

  predicate IsBytes(b: Bytes) {
    forall i | 0 <= i < |b| :: b[i] as int < 256
  }

  const REPLACEMENT: char := '\U{FFFD}'

  function Octet(n: int): char
    requires 0 <= n < 256
  {
    n as char
  }

  function EncodeChar(c: char): (b: Bytes)
    ensures 1 <= |b| <= 4 && IsBytes(b)
  {
    var n := c as int;
    if n < 0x80 then [c]
    else if n < 0x800 then [Octet(0xC0 + n / 64), Octet(0x80 + n % 64)]
    else if n < 0x1_0000 then
      [Octet(0xE0 + n / 4096), Octet(0x80 + n / 64 % 64), Octet(0x80 + n % 64)]
    else
      [Octet(0xF0 + n / 262144), Octet(0x80 + n / 4096 % 64), Octet(0x80 + n / 64 % 64), Octet(0x80 + n % 64)]
  }

  /** The UTF-8 bytes of a string (`str::as_bytes`). */
  function Encode(s: string): Bytes {
    if s == [] then [] else EncodeChar(s[0]) + Encode(s[1..])
  }

  predicate InRange(b: Bytes, i: nat, lo: int, hi: int) {
    i < |b| && lo <= b[i] as int <= hi
  }

  predicate Cont(b: Bytes, i: nat) {
    InRange(b, i, 0x80, 0xBF)
  }

  /** Lowest and highest second byte a lead byte admits. */
  function SecondLow(lead: int): int {
    if lead == 0xE0 then 0xA0 else if lead == 0xF0 then 0x90 else 0x80
  }

  function SecondHigh(lead: int): int {
    if lead == 0xED then 0x9F else if lead == 0xF4 then 0x8F else 0xBF
  }

  /** One decoding step: the character and how many bytes it took. An ill-formed
      sequence gives U+FFFD for its maximal well-formed prefix (at least one byte). */
  function DecodeStep(b: Bytes): (r: (char, nat))
    requires |b| > 0
    ensures 1 <= r.1 <= |b|
  {
    var lead := b[0] as int;
    if lead < 0x80 then (b[0], 1)
    else if 0xC2 <= lead <= 0xDF then
      if Cont(b, 1) then (((lead - 0xC0) * 64 + (b[1] as int - 0x80)) as char, 2)
      else (REPLACEMENT, 1)
    else if 0xE0 <= lead <= 0xEF then
      if !InRange(b, 1, SecondLow(lead), SecondHigh(lead)) then (REPLACEMENT, 1)
      else if !Cont(b, 2) then (REPLACEMENT, 2)
      else (((lead - 0xE0) * 4096 + (b[1] as int - 0x80) * 64 + (b[2] as int - 0x80)) as char, 3)
    else if 0xF0 <= lead <= 0xF4 then
      if !InRange(b, 1, SecondLow(lead), SecondHigh(lead)) then (REPLACEMENT, 1)
      else if !Cont(b, 2) then (REPLACEMENT, 2)
      else if !Cont(b, 3) then (REPLACEMENT, 3)
      else (((lead - 0xF0) * 262144 + (b[1] as int - 0x80) * 4096
             + (b[2] as int - 0x80) * 64 + (b[3] as int - 0x80)) as char, 4)
    else (REPLACEMENT, 1)
  }

  /** `String::from_utf8_lossy`. */
  function Lossy(b: Bytes): string
    decreases |b|
  {
    if b == [] then [] else
      var (c, n) := DecodeStep(b);
      [c] + Lossy(b[n..])
  }

  predicate IsAscii(s: string) {
    forall i | 0 <= i < |s| :: s[i] as int < 0x80
  }

  // -- laws ------------------------------------------------------------------

  lemma TwoByteStep(n: int, b: Bytes)
    requires 0x80 <= n < 0x800
    requires |b| >= 2 && b[0] as int == 0xC0 + n / 64 && b[1] as int == 0x80 + n % 64
    ensures DecodeStep(b) == (n as char, 2)
  {
  }

  lemma ThreeByteStep(n: int, b: Bytes)
    requires 0x800 <= n < 0xD800 || 0xE000 <= n < 0x1_0000
    requires |b| >= 3 && b[0] as int == 0xE0 + n / 4096
    requires b[1] as int == 0x80 + n / 64 % 64 && b[2] as int == 0x80 + n % 64
    ensures DecodeStep(b) == (n as char, 3)
  {
    var h, m, l := n / 4096, n / 64 % 64, n % 64;
    assert n == h * 4096 + m * 64 + l;
    assert InRange(b, 1, SecondLow(0xE0 + h), SecondHigh(0xE0 + h));
  }

  lemma FourByteStep(n: int, b: Bytes)
    requires 0x1_0000 <= n < 0x11_0000
    requires |b| >= 4 && b[0] as int == 0xF0 + n / 262144 && b[1] as int == 0x80 + n / 4096 % 64
    requires b[2] as int == 0x80 + n / 64 % 64 && b[3] as int == 0x80 + n % 64
    ensures DecodeStep(b) == (n as char, 4)
  {
    FourDigits(n);
    FourByteDigits(n, n / 262144, n / 4096 % 64, n / 64 % 64, n % 64, b);
  }

  lemma FourDigits(n: int)
    requires n >= 0
    ensures n == n / 262144 * 262144 + n / 4096 % 64 * 4096 + n / 64 % 64 * 64 + n % 64
  {
    var q := n / 64;
    var r := q / 64;
    Quotient(n);
    assert n == q * 64 + n % 64 && q == r * 64 + q % 64 && r == r / 64 * 64 + r % 64;
  }

  lemma Quotient(n: int)
    requires n >= 0
    ensures n / 64 / 64 == n / 4096 && n / 4096 / 64 == n / 262144
  {
  }

  lemma FourByteDigits(n: int, h: int, k: int, m: int, l: int, b: Bytes)
    requires 0x1_0000 <= n < 0x11_0000 && n == h * 262144 + k * 4096 + m * 64 + l
    requires 0 <= k < 64 && 0 <= m < 64 && 0 <= l < 64
    requires |b| >= 4 && b[0] as int == 0xF0 + h && b[1] as int == 0x80 + k
    requires b[2] as int == 0x80 + m && b[3] as int == 0x80 + l
    ensures DecodeStep(b) == (n as char, 4)
  {
    assert InRange(b, 1, SecondLow(0xF0 + h), SecondHigh(0xF0 + h));
  }

  lemma DecodeStepOfEncodeChar(c: char, rest: Bytes)
    ensures DecodeStep(EncodeChar(c) + rest) == (c, |EncodeChar(c)|)
  {
    var n := c as int;
    var b: Bytes := EncodeChar(c) + rest;
    if n < 0x80 {
    } else if n < 0x800 {
      TwoByteStep(n, b);
    } else if n < 0x1_0000 {
      ThreeByteStep(n, b);
    } else {
      FourByteStep(n, b);
    }
  }

  lemma LossyUnfold(b: Bytes, c: char, n: nat)
    requires b != [] && DecodeStep(b) == (c, n)
    ensures Lossy(b) == [c] + Lossy(b[n..])
  {
  }

  lemma LossyOfCharThen(c: char, tail: Bytes)
    ensures Lossy(EncodeChar(c) + tail) == [c] + Lossy(tail)
  {
    var b: Bytes := EncodeChar(c) + tail;
    DecodeStepOfEncodeChar(c, tail);
    LossyUnfold(b, c, |EncodeChar(c)|);
    assert b[|EncodeChar(c)|..] == tail;
  }

  /** Lossy decoding of encoded text followed by anything decodes the text exactly. */
  lemma {:induction false} LossyOfEncodeThen(s: string, rest: Bytes)
    ensures Lossy(Encode(s) + rest) == s + Lossy(rest)
    decreases |s|
  {
    if s == [] {
      assert Encode(s) + rest == rest;
    } else {
      LossyOfEncodeThen(s[1..], rest);
      LossyStep(s[0], Encode(s[1..]), rest, s[1..]);
      assert [s[0]] + s[1..] == s;
      hide Lossy, EncodeChar;
    }
  }

  lemma LossyStep(c: char, b: Bytes, rest: Bytes, t: string)
    requires Lossy(b + rest) == t + Lossy(rest)
    ensures Lossy(EncodeChar(c) + b + rest) == [c] + t + Lossy(rest)
  {
    hide *;
    assert EncodeChar(c) + b + rest == EncodeChar(c) + (b + rest);
    LossyOfCharThen(c, b + rest);
    assert [c] + t + Lossy(rest) == [c] + (t + Lossy(rest));
  }

  /** Text survives `as_bytes` followed by `from_utf8_lossy`. */
  lemma LossyOfEncode(s: string)
    ensures Lossy(Encode(s)) == s
  {
    LossyOfEncodeThen(s, []);
    assert Encode(s) + [] == Encode(s);
  }

  lemma {:induction false} EncodeConcat(s: string, t: string)
    ensures Encode(s + t) == Encode(s) + Encode(t)
    decreases |s|
  {
    if s == [] {
      assert s + t == t;
    } else {
      assert (s + t)[1..] == s[1..] + t;
      EncodeConcat(s[1..], t);
    }
  }

  lemma {:induction false} EncodeAscii(s: string)
    requires IsAscii(s)
    ensures Encode(s) == s
    decreases |s|
  {
    if s != [] {
      EncodeAscii(s[1..]);
    }
  }

  lemma {:induction false} EncodeIsBytes(s: string)
    ensures IsBytes(Encode(s))
    decreases |s|
  {
    if s != [] {
      EncodeIsBytes(s[1..]);
    }
  }

  /** An ASCII byte occurs in the encoding exactly when the character occurs in the text. */
  lemma {:induction false} EncodeAsciiMember(s: string, c: char)
    requires c as int < 0x80
    ensures c in Encode(s) <==> c in s
    decreases |s|
  {
    if s != [] {
      EncodeAsciiMember(s[1..], c);
      assert s == [s[0]] + s[1..];
      assert c in EncodeChar(s[0]) <==> c == s[0];
    }
  }
}
