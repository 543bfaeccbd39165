/** Base64 with padding (section 4 of RFC 4648): the local adapter's own encoder
    (crates/mw-assist/src/adapters.rs) and the strict decoding that undoes it, used for
    S/MIME bodies (crates/mw-crypto/src/mime.rs). */
module Base64 {
  import opened Wrappers
  import opened Text
  import opened Utf8

  /** The alphabet: `A`-`Z`, `a`-`z`, `0`-`9`, `+`, `/`. */
  function Digit(n: int): char
    requires 0 <= n < 64
  {
    if n < 26 then ('A' as int + n) as char
    else if n < 52 then ('a' as int + (n - 26)) as char
    else if n < 62 then ('0' as int + (n - 52)) as char
    else if n == 62 then '+' else '/'
  }

  function Value(c: char): Option<int> {
    if 'A' <= c <= 'Z' then Some(c as int - 'A' as int)
    else if 'a' <= c <= 'z' then Some(c as int - 'a' as int + 26)
    else if '0' <= c <= '9' then Some(c as int - '0' as int + 52)
    else if c == '+' then Some(62)
    else if c == '/' then Some(63)
    else None
  }

  /** Four characters for a chunk of one to three bytes. */
  function Group(chunk: Bytes): (r: string)
    requires 1 <= |chunk| <= 3 && IsBytes(chunk)
    ensures |r| == 4
  {
    var n := chunk[0] as int * 65536
             + (if |chunk| > 1 then chunk[1] as int * 256 else 0)
             + (if |chunk| > 2 then chunk[2] as int else 0);
    [Digit(n / 262144), Digit(n / 4096 % 64),
     if |chunk| > 1 then Digit(n / 64 % 64) else '=',
     if |chunk| > 2 then Digit(n % 64) else '=']
  }

  function ChunkLength(rest: nat): nat {
    if rest < 3 then rest else 3
  }

  function Encode(input: Bytes): string
    requires IsBytes(input)
  {
    if input == "" then "" else
      var k := ChunkLength(|input|);
      Group(input[..k]) + Encode(input[k..])
  }

  lemma EncodeNext(input: Bytes, i: nat, k: nat, out: string)
    requires IsBytes(input) && i < |input| && k == ChunkLength(|input| - i)
    ensures out + Encode(input[i..]) == out + Group(input[i..i + k]) + Encode(input[i + k..])
  {
    var rest := input[i..];
    assert rest[..k] == input[i..i + k] && rest[k..] == input[i + k..];
  }

  method EncodeBytes(input: Bytes) returns (out: string)
    requires IsBytes(input)
    ensures out == Encode(input)
  {
    out := "";
    var i := 0;
    EncodeEnds(input);
    hide Encode, Group;
    while i < |input|
      invariant i <= |input|
      invariant out + Encode(input[i..]) == Encode(input)
    {
      var k := ChunkLength(|input| - i);
      EncodeNext(input, i, k, out);
      out := out + Group(input[i..i + k]);
      i := i + k;
    }
    assert input[i..] == "" && out + Encode("") == out;
  }

  lemma EncodeEnds(input: Bytes)
    requires IsBytes(input)
    ensures Encode("") == "" && input[0..] == input && "" + Encode(input) == Encode(input)
  {
  }

  /** The bytes of one group; padding is only read where the encoder writes it, and the
      bits it leaves unused must be zero. */
  function Ungroup(s: string): Option<Bytes>
    requires |s| == 4
  {
    var a, b, c, d := Value(s[0]), Value(s[1]), Value(s[2]), Value(s[3]);
    if a.None? || b.None? then None
    else if s[2] == '=' && s[3] == '=' then
      if b.value % 16 == 0 then Some([ByteOf(a.value * 4 + b.value / 16)]) else None
    else if c.None? then None
    else if s[3] == '=' then
      if c.value % 4 == 0 then
        Some([ByteOf(a.value * 4 + b.value / 16), ByteOf(b.value % 16 * 16 + c.value / 4)])
      else None
    else if d.None? then None
    else Some([ByteOf(a.value * 4 + b.value / 16), ByteOf(b.value % 16 * 16 + c.value / 4),
               ByteOf(c.value % 4 * 64 + d.value)])
  }

  function ByteOf(n: int): char {
    if 0 <= n < 256 then n as char else '\0'
  }

  function Decode(s: string): Option<Bytes> {
    if s == "" then Some("")
    else if |s| < 4 then None
    else if |s| == 4 then Ungroup(s)
    else if s[3] == '=' then None
    else
      var head :- Ungroup(s[..4]);
      var tail :- Decode(s[4..]);
      Some(head + tail)
  }

  // -- decoding undoes encoding -----------------------------------------------

  lemma ValueOfDigit(n: int)
    requires 0 <= n < 64
    ensures Value(Digit(n)) == Some(n) && Digit(n) != '='
  {
  }

  lemma Bits(x: int, y: int, z: int)
    requires 0 <= x < 256 && 0 <= y < 256 && 0 <= z < 256
    ensures
      var n := x * 65536 + y * 256 + z;
      && 0 <= n / 262144 < 64
      && n / 262144 == x / 4 && n / 4096 % 64 == x % 4 * 16 + y / 16
      && n / 64 % 64 == y % 16 * 4 + z / 64 && n % 64 == z % 64
  {
    TopBits(x, y, z);
    var n := x * 65536 + y * 256 + z;
    assert n / 4096 == x * 16 + y / 16;
    assert n / 64 == x * 1024 + y * 4 + z / 64;
  }

  lemma TopBits(x: int, y: int, z: int)
    requires 0 <= x < 256 && 0 <= y < 256 && 0 <= z < 256
    ensures (x * 65536 + y * 256 + z) / 262144 == x / 4
  {
  }

  lemma Recombine(x: int, y: int, z: int)
    requires 0 <= x < 256 && 0 <= y < 256 && 0 <= z < 256
    ensures x / 4 * 4 + (x % 4 * 16 + y / 16) / 16 == x
    ensures (x % 4 * 16 + y / 16) % 16 * 16 + (y % 16 * 4 + z / 64) / 4 == y
    ensures (y % 16 * 4 + z / 64) % 4 * 64 + z % 64 == z
    ensures z == 0 ==> (y % 16 * 4 + z / 64) % 4 == 0
    ensures y == 0 ==> (x % 4 * 16 + y / 16) % 16 == 0
  {
  }

  lemma UngroupDigits(a: int, b: int, c: int, d: int)
    requires 0 <= a < 64 && 0 <= b < 64 && 0 <= c < 64 && 0 <= d < 64
    ensures
      Ungroup([Digit(a), Digit(b), Digit(c), Digit(d)])
      == Some([ByteOf(a * 4 + b / 16), ByteOf(b % 16 * 16 + c / 4), ByteOf(c % 4 * 64 + d)])
    ensures c % 4 == 0 ==>
              Ungroup([Digit(a), Digit(b), Digit(c), '='])
              == Some([ByteOf(a * 4 + b / 16), ByteOf(b % 16 * 16 + c / 4)])
    ensures b % 16 == 0 ==> Ungroup([Digit(a), Digit(b), '=', '=']) == Some([ByteOf(a * 4 + b / 16)])
  {
    ValueOfDigit(a);
    ValueOfDigit(b);
    ValueOfDigit(c);
    ValueOfDigit(d);
  }

  lemma ChunkBytes(chunk: Bytes, x: int, y: int, z: int)
    requires 1 <= |chunk| <= 3 && IsBytes(chunk) && x == chunk[0] as int
    requires y == (if |chunk| > 1 then chunk[1] as int else 0) && z == (if |chunk| > 2 then chunk[2] as int else 0)
    ensures |chunk| == 3 ==> chunk == [ByteOf(x), ByteOf(y), ByteOf(z)]
    ensures |chunk| == 2 ==> chunk == [ByteOf(x), ByteOf(y)] && z == 0
    ensures |chunk| == 1 ==> chunk == [ByteOf(x)] && y == 0
    ensures 0 <= x < 256 && 0 <= y < 256 && 0 <= z < 256
  {
  }

  lemma UngroupOfGroup(chunk: Bytes)
    requires 1 <= |chunk| <= 3 && IsBytes(chunk)
    ensures Ungroup(Group(chunk)) == Some(chunk)
    ensures |chunk| == 3 ==> Group(chunk)[3] != '='
  {
    hide *;
    var x, y, z := chunk[0] as int, if |chunk| > 1 then chunk[1] as int else 0,
                   if |chunk| > 2 then chunk[2] as int else 0;
    ChunkBytes(chunk, x, y, z);
    GroupDigits(chunk, x, y, z);
    ValueOfDigit(z % 64);
    if |chunk| == 3 {
      UngroupThree(x, y, z);
    } else if |chunk| == 2 {
      UngroupTwo(x, y);
    } else {
      UngroupOne(x);
    }
  }

  lemma UngroupThree(x: int, y: int, z: int)
    requires 0 <= x < 256 && 0 <= y < 256 && 0 <= z < 256
    ensures Ungroup([Digit(x / 4), Digit(x % 4 * 16 + y / 16), Digit(y % 16 * 4 + z / 64), Digit(z % 64)])
         == Some([ByteOf(x), ByteOf(y), ByteOf(z)])
  {
    hide *;
    Recombine(x, y, z);
    UngroupDigits(x / 4, x % 4 * 16 + y / 16, y % 16 * 4 + z / 64, z % 64);
  }

  lemma UngroupTwo(x: int, y: int)
    requires 0 <= x < 256 && 0 <= y < 256
    ensures Ungroup([Digit(x / 4), Digit(x % 4 * 16 + y / 16), Digit(y % 16 * 4 + 0 / 64), '='])
         == Some([ByteOf(x), ByteOf(y)])
  {
    hide *;
    Recombine(x, y, 0);
    UngroupDigits(x / 4, x % 4 * 16 + y / 16, y % 16 * 4 + 0 / 64, 0);
  }

  lemma UngroupOne(x: int)
    requires 0 <= x < 256
    ensures Ungroup([Digit(x / 4), Digit(x % 4 * 16 + 0 / 16), '=', '=']) == Some([ByteOf(x)])
  {
    hide *;
    Recombine(x, 0, 0);
    UngroupDigits(x / 4, x % 4 * 16 + 0 / 16, 0, 0);
  }

  lemma GroupDigits(chunk: Bytes, x: int, y: int, z: int)
    requires 1 <= |chunk| <= 3 && IsBytes(chunk) && x == chunk[0] as int
    requires y == (if |chunk| > 1 then chunk[1] as int else 0) && z == (if |chunk| > 2 then chunk[2] as int else 0)
    ensures Group(chunk) == [Digit(x / 4), Digit(x % 4 * 16 + y / 16),
                             if |chunk| > 1 then Digit(y % 16 * 4 + z / 64) else '=',
                             if |chunk| > 2 then Digit(z % 64) else '=']
  {
    Bits(x, y, z);
  }

  lemma DecodeGroupThen(g: string, rest: string, chunk: Bytes)
    requires |g| == 4 && Ungroup(g) == Some(chunk)
    requires rest == "" || (g[3] != '=' && |rest| >= 4)
    ensures Decode(g + rest) == match Decode(rest) case None => None case Some(t) => Some(chunk + t)
  {
    var s := g + rest;
    assert s[..4] == g && s[4..] == rest && s[3] == g[3];
    if rest == "" {
      assert s == g && chunk + "" == chunk;
    }
  }

  lemma EncodeLength(input: Bytes)
    requires IsBytes(input) && input != ""
    ensures |Encode(input)| >= 4
  {
  }

  /** Decoding an encoding gives the bytes back. */
  lemma {:induction false} DecodeOfEncode(input: Bytes)
    requires IsBytes(input)
    ensures Decode(Encode(input)) == Some(input)
    decreases |input|
  {
    if input != "" {
      var k := ChunkLength(|input|);
      var chunk, rest := input[..k], input[k..];
      UngroupOfGroup(chunk);
      DecodeOfEncode(rest);
      if rest != "" {
        EncodeLength(rest);
      }
      DecodeGroupThen(Group(chunk), Encode(rest), chunk);
      assert input == chunk + rest;
    }
  }

  // -- in lines of 76 ----------------------------------------------------------

  /** Drops ASCII white space. */
  function Strip(s: string): string {
    if s == "" then "" else (if IsAsciiSpace(s[0]) then "" else [s[0]]) + Strip(s[1..])
  }

  /** The text in lines of 76 characters, each ended by CRLF. */
  function Lines(s: string): string {
    if s == "" then "" else
      var k := if |s| < 76 then |s| else 76;
      s[..k] + "\r\n" + Lines(s[k..])
  }

  lemma {:induction false} StripConcat(a: string, b: string)
    ensures Strip(a + b) == Strip(a) + Strip(b)
    decreases |a|
  {
    if a == "" {
      assert a + b == b;
    } else {
      assert (a + b)[1..] == a[1..] + b;
      StripConcat(a[1..], b);
    }
  }

  predicate Dense(s: string) {
    forall i | 0 <= i < |s| :: !IsAsciiSpace(s[i])
  }

  lemma {:induction false} StripDense(s: string)
    requires Dense(s)
    ensures Strip(s) == s
    decreases |s|
  {
    if s != "" {
      StripDense(s[1..]);
    }
  }

  lemma {:induction false} StripOfLines(s: string)
    requires Dense(s)
    ensures Strip(Lines(s)) == s
    decreases |s|
  {
    if s != "" {
      var k := if |s| < 76 then |s| else 76;
      StripConcat(s[..k] + "\r\n", Lines(s[k..]));
      StripConcat(s[..k], "\r\n");
      StripDense(s[..k]);
      assert Strip("\r\n") == "" by {
        assert "\r\n"[1..] == "\n" && "\n"[1..] == "";
      }
      StripOfLines(s[k..]);
      assert s == s[..k] + s[k..];
    }
  }

  /** A character the encoder writes. */
  predicate Written(c: char) {
    c == '=' || Value(c).Some?
  }

  lemma {:induction false} EncodeIsWritten(input: Bytes)
    requires IsBytes(input)
    ensures forall i | 0 <= i < |Encode(input)| :: Written(Encode(input)[i])
    decreases |input|
  {
    if input != "" {
      EncodeIsWritten(input[ChunkLength(|input|)..]);
    }
  }

  lemma WrittenIsDense(c: char)
    requires Written(c)
    ensures !IsAsciiSpace(c) && c != '-' && c as int < 128
  {
  }

  /** What `decode_body` does with base64: white space dropped, nothing if malformed. */
  function DecodeBody(body: Bytes): Bytes {
    Decode(Strip(body)).GetOr("")
  }

  lemma DecodeBodyOfLines(der: Bytes)
    requires IsBytes(der)
    ensures DecodeBody(Lines(Encode(der))) == der
  {
    EncodeIsWritten(der);
    forall i | 0 <= i < |Encode(der)| ensures !IsAsciiSpace(Encode(der)[i]) {
      WrittenIsDense(Encode(der)[i]);
    }
    StripOfLines(Encode(der));
    DecodeOfEncode(der);
  }

  // -- nothing else decodes ----------------------------------------------------

  lemma DigitOfValue(c: char)
    requires Value(c).Some?
    ensures 0 <= Value(c).value < 64 && Digit(Value(c).value) == c && c != '='
  {
  }

  lemma FromDigits(a: int, b: int, c: int, d: int)
    requires 0 <= a < 64 && 0 <= b < 64 && 0 <= c < 64 && 0 <= d < 64
    ensures
      var x, y, z := a * 4 + b / 16, b % 16 * 16 + c / 4, c % 4 * 64 + d;
      && 0 <= x < 256 && 0 <= y < 256 && 0 <= z < 256
      && x / 4 == a && x % 4 * 16 + y / 16 == b && y % 16 * 4 + z / 64 == c && z % 64 == d
  {
  }

  /** The bytes that four digits stand for. */
  function BytesOf(a: int, b: int, c: int, d: int): Bytes {
    [ByteOf(a * 4 + b / 16), ByteOf(b % 16 * 16 + c / 4), ByteOf(c % 4 * 64 + d)]
  }

  lemma GroupBack(a: int, b: int, c: int, d: int, n: nat)
    requires 0 <= a < 64 && 0 <= b < 64 && 0 <= c < 64 && 0 <= d < 64 && 1 <= n <= 3
    requires (n <= 2 ==> c % 4 == 0 && d == 0) && (n == 1 ==> b % 16 == 0 && c == 0)
    ensures
      var chunk := BytesOf(a, b, c, d)[..n];
      && IsBytes(chunk)
      && Group(chunk) == [Digit(a), Digit(b), if n > 1 then Digit(c) else '=', if n > 2 then Digit(d) else '=']
  {
    var x, y, z := a * 4 + b / 16, b % 16 * 16 + c / 4, c % 4 * 64 + d;
    FromDigits(a, b, c, d);
    var chunk := BytesOf(a, b, c, d)[..n];
    assert forall i | 0 <= i < |chunk| :: chunk[i] as int == (if i == 0 then x else if i == 1 then y else z);
    hide Digit, Group;
    GroupDigits(chunk, x, y, z);
  }

  /** One group decodes only to what is encoded as it. */
  lemma GroupOfUngroup(s: string)
    requires |s| == 4 && Ungroup(s).Some?
    ensures
      var b := Ungroup(s).value;
      1 <= |b| <= 3 && IsBytes(b) && Group(b) == s && (s[3] != '=' ==> |b| == 3)
  {
    var a, b := Value(s[0]).value, Value(s[1]).value;
    DigitOfValue(s[0]);
    DigitOfValue(s[1]);
    hide Digit, Group, Value, IsBytes;
    if s[2] == '=' && s[3] == '=' {
      GroupBack(a, b, 0, 0, 1);
      assert BytesOf(a, b, 0, 0)[..1] == Ungroup(s).value;
      assert s == [s[0], s[1], '=', '='];
    } else {
      var c := Value(s[2]).value;
      DigitOfValue(s[2]);
      if s[3] == '=' {
        GroupBack(a, b, c, 0, 2);
        assert BytesOf(a, b, c, 0)[..2] == Ungroup(s).value;
        assert s == [s[0], s[1], s[2], '='];
      } else {
        DigitOfValue(s[3]);
        GroupBack(a, b, c, Value(s[3]).value, 3);
        assert BytesOf(a, b, c, Value(s[3]).value)[..3] == Ungroup(s).value;
        assert s == [s[0], s[1], s[2], s[3]];
      }
    }
  }

  /** Decoding is strict: a text decodes to bytes exactly when it is their encoding. */
  lemma {:induction false} DecodeIff(s: string, b: Bytes)
    ensures Decode(s) == Some(b) <==> IsBytes(b) && Encode(b) == s
    decreases |s|
  {
    if IsBytes(b) && Encode(b) == s {
      DecodeOfEncode(b);
    }
    if Decode(s) == Some(b) {
      OnlyEncodings(s);
    }
  }

  lemma {:induction false} OnlyEncodings(s: string)
    requires Decode(s).Some?
    ensures IsBytes(Decode(s).value) && Encode(Decode(s).value) == s
    decreases |s|
  {
    hide Group, Ungroup;
    if s != "" {
      assert |s| == 4 ==> s[..4] == s;
      GroupOfUngroup(s[..4]);
      var head := Ungroup(s[..4]).value;
      if |s| == 4 {
        assert s[..4] == s && head[|head|..] == "" && head[..|head|] == head;
      } else {
        OnlyEncodings(s[4..]);
        var tail := Decode(s[4..]).value;
        assert (head + tail)[..3] == head && (head + tail)[3..] == tail;
        assert s == s[..4] + s[4..];
      }
    }
  }
}
