/** Canonical line breaks and the quoted-printable encoding of signed text
    (crates/mw-crypto/src/mime.rs; section 6.7 of RFC 2045). */
module QuotedPrintable {
  import opened Wrappers
  import opened Text
  import opened Utf8

  // -- canonical line breaks ---------------------------------------------------

  /** CR, LF and CRLF all become CRLF. */
  function Canon(s: string): string {
    if s == "" then ""
    else if s[0] == '\r' then "\r\n" + Canon(if |s| > 1 && s[1] == '\n' then s[2..] else s[1..])
    else if s[0] == '\n' then "\r\n" + Canon(s[1..])
    else [s[0]] + Canon(s[1..])
  }

  method Canonicalize(data: Bytes) returns (out: Bytes)
    ensures out == Canon(data)
  {
    out := "";
    var i := 0;
    while i < |data|
      invariant i <= |data|
      invariant out + Canon(data[i..]) == Canon(data)
    {
      hide *;
      CanonNext(out, data, i);
      if data[i] == '\r' {
        out := out + "\r\n";
        if i + 1 < |data| && data[i + 1] == '\n' {
          i := i + 1;
        }
      } else if data[i] == '\n' {
        out := out + "\r\n";
      } else {
        out := out + [data[i]];
      }
      i := i + 1;
    }
    assert out + Canon("") == out;
  }

  lemma CanonNext(out: Bytes, data: Bytes, i: nat)
    requires i < |data|
    ensures data[i] == '\r' && i + 1 < |data| && data[i + 1] == '\n' ==>
              out + Canon(data[i..]) == (out + "\r\n") + Canon(data[i + 2..])
    ensures data[i] == '\r' && !(i + 1 < |data| && data[i + 1] == '\n') ==>
              out + Canon(data[i..]) == (out + "\r\n") + Canon(data[i + 1..])
    ensures data[i] == '\n' ==> out + Canon(data[i..]) == (out + "\r\n") + Canon(data[i + 1..])
    ensures data[i] != '\r' && data[i] != '\n' ==> out + Canon(data[i..]) == (out + [data[i]]) + Canon(data[i + 1..])
  {
    assert data[i..][1..] == data[i + 1..];
    assert i + 1 < |data| ==> data[i..][2..] == data[i + 2..];
  }

  /** Every CR is followed by LF and every LF preceded by CR. */
  predicate NoBareBreak(s: string) {
    && (forall i | 0 <= i < |s| && s[i] == '\r' :: i + 1 < |s| && s[i + 1] == '\n')
    && (forall i | 0 <= i < |s| && s[i] == '\n' :: i > 0 && s[i - 1] == '\r')
  }

  lemma NoBareBreakTail(s: string, n: nat)
    requires NoBareBreak(s) && n <= |s|
    requires n == 0 || s[n - 1] != '\r'
    ensures NoBareBreak(s[n..])
  {
  }

  lemma NoBareBreakCrlf(s: string)
    requires NoBareBreak(s)
    ensures NoBareBreak("\r\n" + s)
  {
    var r := "\r\n" + s;
    assert forall i | 2 <= i < |r| :: r[i] == s[i - 2];
    assert r[0] == '\r' && r[1] == '\n';
  }

  lemma NoBareBreakPlain(c: char, s: string)
    requires NoBareBreak(s) && c != '\r' && c != '\n'
    ensures NoBareBreak([c] + s)
  {
    var r := [c] + s;
    assert forall i | 1 <= i < |r| :: r[i] == s[i - 1];
  }

  /** Canonicalization leaves no bare CR or LF. */
  lemma {:induction false} CanonHasNoBareBreak(s: string)
    ensures NoBareBreak(Canon(s))
    decreases |s|
  {
    if s == "" {
    } else if s[0] == '\r' || s[0] == '\n' {
      var rest := if s[0] == '\r' && |s| > 1 && s[1] == '\n' then s[2..] else s[1..];
      CanonHasNoBareBreak(rest);
      NoBareBreakCrlf(Canon(rest));
    } else {
      CanonHasNoBareBreak(s[1..]);
      NoBareBreakPlain(s[0], Canon(s[1..]));
    }
  }

  lemma {:induction false} CanonOfCanonical(s: string)
    requires NoBareBreak(s)
    ensures Canon(s) == s
    decreases |s|
  {
    if s == "" {
    } else if s[0] == '\r' {
      NoBareBreakTail(s, 2);
      CanonOfCanonical(s[2..]);
      assert s == "\r\n" + s[2..];
    } else {
      NoBareBreakTail(s, 1);
      CanonOfCanonical(s[1..]);
    }
  }

  /** The texts canonicalization leaves alone are exactly those without bare breaks; in
      particular it is idempotent. */
  lemma CanonFixpoints(s: string)
    ensures Canon(s) == s <==> NoBareBreak(s)
    ensures Canon(Canon(s)) == Canon(s)
  {
    CanonHasNoBareBreak(s);
    CanonOfCanonical(Canon(s));
    if NoBareBreak(s) {
      CanonOfCanonical(s);
    }
  }

  lemma {:induction false} CanonPlainPrefix(a: string, rest: string)
    requires '\r' !in a && '\n' !in a
    ensures Canon(a + rest) == a + Canon(rest)
    decreases |a|
  {
    if a == "" {
      assert a + rest == rest;
    } else {
      assert (a + rest)[1..] == a[1..] + rest;
      CanonPlainPrefix(a[1..], rest);
    }
  }

  lemma EncodeCharBreaks(c: char)
    ensures '\r' in EncodeChar(c) <==> c == '\r'
    ensures '\n' in EncodeChar(c) <==> c == '\n'
    ensures EncodeChar(c)[0] == '\n' <==> c == '\n'
  {
  }

  lemma EncodeCons(s: string)
    requires s != ""
    ensures Encode(s) == EncodeChar(s[0]) + Encode(s[1..])
  {
  }

  /** Canonicalizing the bytes of a text is canonicalizing the text. */
  lemma {:induction false} CanonOfEncode(s: string)
    ensures Canon(Encode(s)) == Encode(Canon(s))
    decreases |s|
  {
    if s != "" {
      EncodeCons(s);
      EncodeCharBreaks(s[0]);
      if s[0] == '\r' || s[0] == '\n' {
        var skip := s[0] == '\r' && |s| > 1 && s[1] == '\n';
        var rest := if skip then s[2..] else s[1..];
        CanonOfEncode(rest);
        CanonBreakOfEncode(s, rest);
        EncodeConcat("\r\n", Canon(rest));
        EncodeAscii("\r\n");
      } else {
        CanonOfEncode(s[1..]);
        CanonPlainPrefix(EncodeChar(s[0]), Encode(s[1..]));
        EncodeConcat([s[0]], Canon(s[1..]));
        EncodeCons([s[0]]);
      }
    }
  }

  lemma CanonBreakOfEncode(s: string, rest: string)
    requires s != "" && (s[0] == '\r' || s[0] == '\n')
    requires rest == if s[0] == '\r' && |s| > 1 && s[1] == '\n' then s[2..] else s[1..]
    ensures Canon(Encode(s)) == "\r\n" + Canon(Encode(rest))
  {
    var b := Encode(s);
    EncodeCons(s);
    assert b[0] == s[0] && b[1..] == Encode(s[1..]);
    if s[0] == '\r' && |s| > 1 {
      EncodeCons(s[1..]);
      EncodeCharBreaks(s[1]);
      assert b[1] == EncodeChar(s[1])[0];
      if s[1] == '\n' {
        assert s[1..][1..] == s[2..] && b[2..] == Encode(s[2..]);
      }
    }
  }

  // -- encoding ----------------------------------------------------------------

  function HexDigit(n: int): char
    requires 0 <= n < 16
  {
    "0123456789ABCDEF"[n]
  }

  /** Must byte `j` of the line be written as `=XX`? */
  predicate Needs(line: Bytes, j: nat)
    requires j < |line|
  {
    var b := line[j];
    var last := j + 1 == |line|;
    || b == '='
    || !(b == ' ' || b == '\t' || '!' <= b <= '~')
    || ((b == ' ' || b == '\t') && last)
    || (j == 0 && (b == '-' || (b == 'F' && "From " <= line)))
    || (j == 0 && b == '.')
  }

  function Token(line: Bytes, j: nat): Bytes
    requires j < |line| && IsBytes(line)
  {
    if Needs(line, j) then ['=', HexDigit(line[j] as int / 16), HexDigit(line[j] as int % 16)] else [line[j]]
  }

  function Tokens(line: Bytes, j: nat): seq<Bytes>
    requires j <= |line| && IsBytes(line)
    decreases |line| - j
  {
    if j == |line| then [] else [Token(line, j)] + Tokens(line, j + 1)
  }

  /** The tokens with soft line breaks, the current line being `width` wide. */
  function Emit(tokens: seq<Bytes>, width: nat): Bytes
    decreases |tokens|
  {
    if tokens == [] then ""
    else if width + |tokens[0]| > 75 then "=\r\n" + (tokens[0] + Emit(tokens[1..], |tokens[0]|))
    else tokens[0] + Emit(tokens[1..], width + |tokens[0]|)
  }

  function SplitCrlf(s: string): (r: seq<string>)
    ensures r != []
    decreases |s|
  {
    match Find(s, "\r\n")
    case None => [s]
    case Some(i) => [s[..i]] + SplitCrlf(s[i + 2..])
  }

  function JoinCrlf(lines: seq<string>): string
    requires lines != []
  {
    if |lines| == 1 then lines[0] else lines[0] + ("\r\n" + JoinCrlf(lines[1..]))
  }

  function EncodeLine(line: string): Bytes {
    EncodeIsBytes(line);
    Emit(Tokens(Encode(line), 0), 0)
  }

  function EncodeLines(lines: seq<string>): Bytes
    requires lines != []
  {
    if |lines| == 1 then EncodeLine(lines[0]) else EncodeLine(lines[0]) + ("\r\n" + EncodeLines(lines[1..]))
  }

  function QuotedText(text: string): Bytes {
    EncodeLines(SplitCrlf(Lossy(Canon(Encode(text)))))
  }

  method TokenizeLine(line: Bytes) returns (tokens: seq<Bytes>)
    requires IsBytes(line)
    ensures tokens == Tokens(line, 0)
  {
    tokens := [];
    for j := 0 to |line|
      invariant tokens + Tokens(line, j) == Tokens(line, 0)
    {
      tokens := tokens + [Token(line, j)];
    }
    assert tokens + [] == tokens;
  }

  lemma EmitNext(tokens: seq<Bytes>, k: nat, width: nat, out: Bytes)
    requires k < |tokens|
    ensures
      var tok := tokens[k];
      out + Emit(tokens[k..], width)
      == if width + |tok| > 75 then out + "=\r\n" + tok + Emit(tokens[k + 1..], |tok|)
         else out + tok + Emit(tokens[k + 1..], width + |tok|)
  {
    assert tokens[k..][1..] == tokens[k + 1..];
  }

  method EmitTokens(tokens: seq<Bytes>) returns (out: Bytes)
    ensures out == Emit(tokens, 0)
  {
    out := "";
    var width: nat := 0;
    for k := 0 to |tokens|
      invariant out + Emit(tokens[k..], width) == Emit(tokens, 0)
    {
      var tok := tokens[k];
      EmitNext(tokens, k, width, out);
      if width + |tok| > 75 {
        out := out + "=\r\n";
        width := 0;
      }
      width := width + |tok|;
      out := out + tok;
    }
    assert out + "" == out;
  }

  method EncodeText(text: string) returns (out: Bytes)
    ensures out == QuotedText(text)
  {
    var canonical := Canonicalize(Encode(text));
    var lines := SplitCrlf(Lossy(canonical));
    out := "";
    for idx := 0 to |lines|
      invariant idx < |lines| ==> out + EncodeLines(lines[idx..]) == EncodeLines(lines)
      invariant idx == |lines| ==> out == EncodeLines(lines)
    {
      hide *;
      EncodeIsBytes(lines[idx]);
      var tokens := TokenizeLine(Encode(lines[idx]));
      var line := EmitTokens(tokens);
      ghost var before := out;
      out := out + line;
      if idx + 1 < |lines| {
        out := out + "\r\n";
        LineThenRest(before, line, lines, idx);
      } else {
        LastLine(before, line, lines, idx);
      }
    }
  }

  lemma LineThenRest(before: Bytes, line: Bytes, lines: seq<string>, i: nat)
    requires i + 1 < |lines| && IsBytes(Encode(lines[i])) && line == Emit(Tokens(Encode(lines[i]), 0), 0)
    ensures before + EncodeLines(lines[i..]) == (before + line + "\r\n") + EncodeLines(lines[i + 1..])
  {
    assert lines[i..][0] == lines[i] && lines[i..][1..] == lines[i + 1..];
    hide Emit, Tokens, Encode;
    assert EncodeLines(lines[i..]) == line + "\r\n" + EncodeLines(lines[i + 1..]);
  }

  lemma LastLine(before: Bytes, line: Bytes, lines: seq<string>, i: nat)
    requires i + 1 == |lines| && IsBytes(Encode(lines[i])) && line == Emit(Tokens(Encode(lines[i]), 0), 0)
    ensures before + EncodeLines(lines[i..]) == before + line
  {
    assert lines[i..] == [lines[i]];
    hide Emit, Tokens, Encode;
  }

  // -- decoding ----------------------------------------------------------------

  function HexValue(c: char): Option<int> {
    if '0' <= c <= '9' then Some(c as int - '0' as int)
    else if 'A' <= c <= 'F' then Some(c as int - 'A' as int + 10)
    else if 'a' <= c <= 'f' then Some(c as int - 'a' as int + 10)
    else None
  }

  /** `u8::from_str_radix(_, 16)` of two characters, which admits a leading `+`. */
  function HexPair(a: char, b: char): (r: Option<int>)
    ensures r.Some? ==> 0 <= r.value < 256
  {
    var lo := HexValue(b);
    if lo.None? then None
    else if a == '+' then lo
    else if HexValue(a).Some? then Some(16 * HexValue(a).value + lo.value)
    else None
  }

  /** How many bytes one decoding step takes and what it yields. */
  function DecodeStep(b: Bytes): (r: (nat, Bytes))
    requires b != ""
    ensures 0 < r.0 <= |b|
  {
    if b[0] == '=' && CrlfAt(b, 1) then (3, "")
    else if b[0] == '=' && |b| > 1 && b[1] == '\n' then (2, "")
    else if b[0] == '=' && |b| > 2 && HexPair(b[1], b[2]).Some? then (3, [HexPair(b[1], b[2]).value as char])
    else (1, [b[0]])
  }

  function Decode(b: Bytes): Bytes
    decreases |b|
  {
    if b == "" then "" else
      var (n, out) := DecodeStep(b);
      out + Decode(b[n..])
  }

  lemma DecodeNext(body: Bytes, i: nat, n: nat, piece: Bytes, out: Bytes)
    requires i < |body| && DecodeStep(body[i..]) == (n, piece)
    ensures i + n <= |body| && out + Decode(body[i..]) == out + piece + Decode(body[i + n..])
  {
    assert body[i..][n..] == body[i + n..];
  }

  method DecodeQp(body: Bytes) returns (out: Bytes)
    ensures out == Decode(body)
  {
    out := "";
    var i := 0;
    while i < |body|
      invariant i <= |body|
      invariant out + Decode(body[i..]) == Decode(body)
    {
      ghost var (n, piece) := DecodeStep(body[i..]);
      DecodeNext(body, i, n, piece, out);
      hide Decode;
      if body[i] == '=' && CrlfAt(body, i + 1) {
        i := i + 3;
        assert out + "" == out;
        continue;
      }
      if body[i] == '=' && i + 1 < |body| && body[i + 1] == '\n' {
        i := i + 2;
        assert out + "" == out;
        continue;
      }
      if body[i] == '=' && i + 2 < |body| && HexPair(body[i + 1], body[i + 2]).Some? {
        out := out + [HexPair(body[i + 1], body[i + 2]).value as char];
        i := i + 3;
        continue;
      }
      out := out + [body[i]];
      i := i + 1;
    }
    assert out + Decode("") == out;
  }

  // -- decoding undoes encoding -----------------------------------------------

  lemma HexPairOfDigits(n: int)
    requires 0 <= n < 256
    ensures HexPair(HexDigit(n / 16), HexDigit(n % 16)) == Some(n)
  {
    HexValueOfDigit(n / 16);
    HexValueOfDigit(n % 16);
  }

  lemma HexValueOfDigit(n: int)
    requires 0 <= n < 16
    ensures HexValue(HexDigit(n)) == Some(n) && HexDigit(n) != '+' && HexDigit(n) != '\r' && HexDigit(n) != '\n'
  {
  }

  lemma DecodeUnfold(b: Bytes, n: nat, out: Bytes)
    requires b != "" && DecodeStep(b) == (n, out)
    ensures Decode(b) == out + Decode(b[n..])
  {
  }

  lemma DecodeToken(line: Bytes, j: nat, rest: Bytes)
    requires IsBytes(line) && j < |line|
    ensures Decode(Token(line, j) + rest) == [line[j]] + Decode(rest)
  {
    var tok := Token(line, j);
    var b := tok + rest;
    var n := line[j] as int;
    if Needs(line, j) {
      HexValueOfDigit(n / 16);
      HexPairOfDigits(n);
      assert b[1] == HexDigit(n / 16) && b[2] == HexDigit(n % 16);
      DecodeUnfold(b, 3, [line[j]]);
      assert b[3..] == rest;
    } else {
      DecodeUnfold(b, 1, [line[j]]);
      assert b[1..] == rest;
    }
  }

  lemma DecodeSoftBreak(rest: Bytes)
    ensures Decode("=\r\n" + rest) == Decode(rest)
  {
    var b := "=\r\n" + rest;
    assert b[1] == '\r' && b[2] == '\n';
    DecodeUnfold(b, 3, "");
    assert b[3..] == rest && "" + Decode(rest) == Decode(rest);
  }

  lemma DecodeCrlf(rest: Bytes)
    ensures Decode("\r\n" + rest) == "\r\n" + Decode(rest)
  {
    var b := "\r\n" + rest;
    DecodeUnfold(b, 1, "\r");
    assert b[1..] == "\n" + rest;
    DecodeUnfold("\n" + rest, 1, "\n");
    assert ("\n" + rest)[1..] == rest;
  }

  lemma TokensCons(line: Bytes, j: nat)
    requires IsBytes(line) && j < |line|
    ensures Tokens(line, j) != [] && Tokens(line, j)[0] == Token(line, j) && Tokens(line, j)[1..] == Tokens(line, j + 1)
  {
  }

  /** What `Emit` writes, one token at a time. */
  lemma EmitCons(line: Bytes, j: nat, width: nat)
    requires IsBytes(line) && j < |line|
    ensures
      var tok := Token(line, j);
      Emit(Tokens(line, j), width)
      == if width + |tok| > 75 then "=\r\n" + (tok + Emit(Tokens(line, j + 1), |tok|))
         else tok + Emit(Tokens(line, j + 1), width + |tok|)
  {
    TokensCons(line, j);
  }

  lemma DecodeAfterSoftBreak(x: Bytes, rest: Bytes)
    ensures Decode(("=\r\n" + x) + rest) == Decode(x + rest)
  {
    Assoc("=\r\n", x, rest);
    DecodeSoftBreak(x + rest);
  }

  lemma DecodeTokenThen(line: Bytes, j: nat, more: Bytes, rest: Bytes)
    requires IsBytes(line) && j < |line|
    ensures Decode((Token(line, j) + more) + rest) == [line[j]] + Decode(more + rest)
  {
    Assoc(Token(line, j), more, rest);
    DecodeToken(line, j, more + rest);
  }

  lemma FirstThenTail(line: Bytes, j: nat, rest: Bytes)
    requires j < |line|
    ensures [line[j]] + (line[j + 1..] + rest) == line[j..] + rest
  {
  }

  lemma DecodeEmitEnd(line: Bytes, j: nat, width: nat, rest: Bytes)
    requires IsBytes(line) && j == |line|
    ensures Decode(Emit(Tokens(line, j), width) + rest) == line[j..] + Decode(rest)
  {
    assert "" + rest == rest && line[j..] + Decode(rest) == Decode(rest);
  }

  lemma {:induction false} DecodeEmit(line: Bytes, j: nat, width: nat, rest: Bytes)
    requires IsBytes(line) && j <= |line|
    ensures Decode(Emit(Tokens(line, j), width) + rest) == line[j..] + Decode(rest)
    decreases |line| - j
  {
    hide *;
    if j == |line| {
      DecodeEmitEnd(line, j, width, rest);
    } else {
      var tok := Token(line, j);
      var soft := width + |tok| > 75;
      var w := if soft then |tok| else width + |tok|;
      var more := Emit(Tokens(line, j + 1), w);
      EmitCons(line, j, width);
      DecodeEmit(line, j + 1, w, rest);
      DecodeTokenThen(line, j, more, rest);
      DecodeAfterSoftBreak(tok + more, rest);
      FirstThenTail(line, j, Decode(rest));
    }
  }

  lemma {:induction false} DecodeLines(lines: seq<string>)
    requires lines != []
    ensures Decode(EncodeLines(lines)) == Encode(JoinCrlf(lines))
    decreases |lines|
  {
    var line := Encode(lines[0]);
    EncodeIsBytes(lines[0]);
    if |lines| == 1 {
      DecodeEmit(line, 0, 0, "");
      assert EncodeLine(lines[0]) + "" == EncodeLine(lines[0]) && line[0..] + Decode("") == line;
    } else {
      var more := EncodeLines(lines[1..]);
      DecodeEmit(line, 0, 0, "\r\n" + more);
      DecodeCrlf(more);
      DecodeLines(lines[1..]);
      assert line[0..] == line;
      EncodeConcat(lines[0], "\r\n" + JoinCrlf(lines[1..]));
      EncodeConcat("\r\n", JoinCrlf(lines[1..]));
      EncodeAscii("\r\n");
    }
  }

  lemma JoinCons(line: string, lines: seq<string>)
    requires lines != []
    ensures JoinCrlf([line] + lines) == line + ("\r\n" + JoinCrlf(lines))
  {
    assert ([line] + lines)[1..] == lines;
  }

  lemma {:induction false} JoinOfSplit(s: string)
    ensures JoinCrlf(SplitCrlf(s)) == s
    decreases |s|
  {
    var r := Find(s, "\r\n");
    if r.Some? {
      var i := r.value;
      JoinOfSplit(s[i + 2..]);
      MatchIsSlice(s, "\r\n", i);
      assert s == s[..i] + ("\r\n" + s[i + 2..]);
      assert SplitCrlf(s) == [s[..i]] + SplitCrlf(s[i + 2..]);
      hide SplitCrlf;
      JoinCons(s[..i], SplitCrlf(s[i + 2..]));
    }
  }

  /** Decoding the encoding of any text gives the text's bytes with canonical line
      breaks. */
  lemma DecodeUndoesEncode(text: string)
    ensures Decode(QuotedText(text)) == Canon(Encode(text))
  {
    CanonOfEncode(text);
    LossyOfEncode(Canon(text));
    DecodeLines(SplitCrlf(Canon(text)));
    JoinOfSplit(Canon(text));
  }

  // -- soft breaks and malformed escapes ---------------------------------------

  /** A soft break goes, with either line break. */
  lemma SoftBreaksGo(rest: Bytes)
    ensures Decode("=\r\n" + rest) == Decode(rest) && Decode("=\n" + rest) == Decode(rest)
  {
    var a, b := "=\r\n" + rest, "=\n" + rest;
    assert a[3..] == rest && b[2..] == rest && "" + Decode(rest) == Decode(rest);
    assert DecodeStep(a) == (3, "") && DecodeStep(b) == (2, "");
    hide DecodeStep;
  }

  /** Behind an equals sign two digits give their byte; any other equals sign stays. */
  lemma EscapesAre(rest: Bytes)
    requires !(rest != "" && rest[0] == '\n') && !("\r\n" <= rest)
    ensures
      var escaped := |rest| > 1 && HexPair(rest[0], rest[1]).Some?;
      Decode("=" + rest)
      == if escaped then [HexPair(rest[0], rest[1]).value as char] + Decode(rest[2..]) else "=" + Decode(rest)
  {
    var b := "=" + rest;
    assert b[1..] == rest && (|rest| > 1 ==> b[3..] == rest[2..] && b[1] == rest[0] && b[2] == rest[1]);
    CrlfIff(b);
    EscapeStep(b);
    hide DecodeStep, HexPair, CrlfAt;
    assert b[0] == '=';
  }

  lemma CrlfIff(b: Bytes)
    requires b != ""
    ensures CrlfAt(b, 1) <==> "\r\n" <= b[1..]
  {
  }

  lemma EscapeStep(b: Bytes)
    requires b != "" && b[0] == '=' && !(|b| > 1 && b[1] == '\n') && !CrlfAt(b, 1)
    ensures DecodeStep(b) == if |b| > 2 && HexPair(b[1], b[2]).Some? then (3, [HexPair(b[1], b[2]).value as char])
                             else (1, "=")
  {
    hide HexPair, CrlfAt;
  }

  const HEX: string := "0123456789ABCDEF"

  /** Two digits of either case are read as a byte, and so is a plus sign with one digit;
      nothing else is. */
  lemma HexPairIff(a: char, b: char)
    ensures forall i, j | 0 <= i < 16 && 0 <= j < 16 && a in {HEX[i], LowerChar(HEX[i])}
              && b in {HEX[j], LowerChar(HEX[j])} ::
              HexPair(a, b) == Some(16 * i + j)
    ensures forall j | 0 <= j < 16 && a == '+' && b in {HEX[j], LowerChar(HEX[j])} :: HexPair(a, b) == Some(j)
    ensures HexPair(a, b).Some? ==>
              (a == '+' || exists i | 0 <= i < 16 :: a in {HEX[i], LowerChar(HEX[i])})
              && exists j | 0 <= j < 16 :: b in {HEX[j], LowerChar(HEX[j])}
  {
    HexDigits(a);
    HexDigits(b);
    hide HexValue, LowerChar;
    assert '+' !in HEX;
  }

  lemma HexDigits(c: char)
    ensures forall i | 0 <= i < 16 :: c in {HEX[i], LowerChar(HEX[i])} ==> HexValue(c) == Some(i) && c != '+'
    ensures HexValue(c).Some? ==>
              0 <= HexValue(c).value < 16 && c in {HEX[HexValue(c).value], LowerChar(HEX[HexValue(c).value])}
  {
  }
}
