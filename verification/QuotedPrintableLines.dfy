/** The shape of quoted-printable output: short lines, no trailing blanks, no `=XX` cut
    in two, nothing at the start of a text line that a transport rewrites
    (crates/mw-crypto/src/mime.rs; section 6.7 of RFC 2045). */
module QuotedPrintableLines {
  import opened Text
  import opened Utf8
  import opened QuotedPrintable

  predicate UpperHex(c: char) {
    '0' <= c <= '9' || 'A' <= c <= 'F'
  }

  /** Characters that stand for themselves. */
  predicate Literal(c: char) {
    c == ' ' || c == '\t' || ('!' <= c <= '~' && c != '=')
  }

  /** Literal characters and complete `=XX` triplets only. */
  predicate Whole(l: Bytes) {
    if l == "" then true
    else if l[0] == '=' then |l| >= 3 && UpperHex(l[1]) && UpperHex(l[2]) && Whole(l[3..])
    else Literal(l[0]) && Whole(l[1..])
  }

  predicate NoTrailingBlank(l: Bytes) {
    l != "" ==> l[|l| - 1] != ' ' && l[|l| - 1] != '\t'
  }

  /** A line as it goes out: complete, or complete up to the `=` of a soft break. */
  predicate GoodLine(l: Bytes) {
    && |l| <= 76 && NoTrailingBlank(l)
    && (Whole(l) || (l != "" && l[|l| - 1] == '=' && Whole(l[..|l| - 1])))
  }

  predicate AllGood(lines: seq<Bytes>) {
    forall k | 0 <= k < |lines| :: GoodLine(lines[k])
  }

  /** The physical lines `Emit` writes when `cur` is already on the current line. */
  function PhysicalLines(tokens: seq<Bytes>, cur: Bytes): (r: seq<Bytes>)
    ensures r != []
    decreases |tokens|
  {
    if tokens == [] then [cur]
    else if |cur| + |tokens[0]| > 75 then [cur + "="] + PhysicalLines(tokens[1..], tokens[0])
    else PhysicalLines(tokens[1..], cur + tokens[0])
  }

  function TextLines(lines: seq<string>): (r: seq<Bytes>)
    ensures lines != [] ==> r != []
  {
    if lines == [] then [] else
      EncodeIsBytes(lines[0]);
      PhysicalLines(Tokens(Encode(lines[0]), 0), "") + TextLines(lines[1..])
  }

  // -- the output is its physical lines joined ---------------------------------

  lemma {:induction false} JoinConcat(a: seq<string>, b: seq<string>)
    requires a != [] && b != []
    ensures JoinCrlf(a + b) == JoinCrlf(a) + ("\r\n" + JoinCrlf(b))
    decreases |a|
  {
    assert (a + b)[1..] == a[1..] + b;
    if |a| == 1 {
      assert a[1..] + b == b;
    } else {
      JoinConcat(a[1..], b);
      var x, y := JoinCrlf(a[1..]), "\r\n" + JoinCrlf(b);
      assert a[0] + ("\r\n" + (x + y)) == (a[0] + ("\r\n" + x)) + y;
    }
  }

  lemma {:induction false} EmitIsJoin(tokens: seq<Bytes>, cur: Bytes)
    ensures cur + Emit(tokens, |cur|) == JoinCrlf(PhysicalLines(tokens, cur))
    decreases |tokens|
  {
    if tokens == [] {
      assert cur + "" == cur;
    } else {
      var tok, rest := tokens[0], tokens[1..];
      if |cur| + |tok| > 75 {
        EmitIsJoin(rest, tok);
        JoinCons(cur + "=", PhysicalLines(rest, tok));
        SoftBreak(cur, tok + Emit(rest, |tok|));
      } else {
        EmitIsJoin(rest, cur + tok);
        Assoc(cur, tok, Emit(rest, |cur| + |tok|));
      }
    }
  }

  lemma SoftBreak(cur: Bytes, x: Bytes)
    ensures cur + ("=\r\n" + x) == (cur + "=") + ("\r\n" + x)
  {
  }

  lemma {:induction false} EncodeLinesIsJoin(lines: seq<string>)
    requires lines != []
    ensures EncodeLines(lines) == JoinCrlf(TextLines(lines))
    decreases |lines|
  {
    EncodeIsBytes(lines[0]);
    var tokens := Tokens(Encode(lines[0]), 0);
    EmitIsJoin(tokens, "");
    assert "" + Emit(tokens, 0) == Emit(tokens, 0);
    if |lines| == 1 {
      assert TextLines(lines[1..]) == [];
      assert PhysicalLines(tokens, "") + [] == PhysicalLines(tokens, "");
    } else {
      EncodeLinesIsJoin(lines[1..]);
      JoinConcat(PhysicalLines(tokens, ""), TextLines(lines[1..]));
    }
  }

  // -- every physical line is good ---------------------------------------------

  lemma {:induction false} WholeConcat(a: Bytes, b: Bytes)
    requires Whole(a) && Whole(b)
    ensures Whole(a + b)
    decreases |a|
  {
    if a == "" {
      assert a + b == b;
    } else {
      var n := if a[0] == '=' then 3 else 1;
      assert (a + b)[n..] == a[n..] + b;
      WholeConcat(a[n..], b);
    }
  }

  lemma DigitIsUpperHex(n: int)
    requires 0 <= n < 16
    ensures UpperHex(HexDigit(n))
  {
  }

  lemma TokenIsWhole(line: Bytes, j: nat)
    requires IsBytes(line) && j < |line|
    ensures Whole(Token(line, j)) && 1 <= |Token(line, j)| <= 3
    ensures j + 1 == |line| ==> NoTrailingBlank(Token(line, j))
  {
    var tok := Token(line, j);
    DigitIsUpperHex(line[j] as int / 16);
    DigitIsUpperHex(line[j] as int % 16);
    if Needs(line, j) {
      assert tok[3..] == "";
    } else {
      assert tok[1..] == "";
    }
  }

  lemma SoftLineIsGood(cur: Bytes)
    requires Whole(cur) && |cur| <= 75
    ensures GoodLine(cur + "=")
  {
    assert (cur + "=")[..|cur|] == cur;
  }

  lemma {:induction false} PhysicalLinesGood(line: Bytes, j: nat, cur: Bytes)
    requires IsBytes(line) && j <= |line|
    requires Whole(cur) && |cur| <= 75 && (j == |line| ==> NoTrailingBlank(cur))
    ensures AllGood(PhysicalLines(Tokens(line, j), cur))
    decreases |line| - j
  {
    if j < |line| {
      var tok, rest := Token(line, j), Tokens(line, j + 1);
      TokensCons(line, j);
      TokenIsWhole(line, j);
      if |cur| + |tok| > 75 {
        SoftLineIsGood(cur);
        PhysicalLinesGood(line, j + 1, tok);
      } else {
        WholeConcat(cur, tok);
        PhysicalLinesGood(line, j + 1, cur + tok);
      }
    }
  }

  lemma {:induction false} TextLinesGood(lines: seq<string>)
    ensures AllGood(TextLines(lines))
    decreases |lines|
  {
    if lines != [] {
      EncodeIsBytes(lines[0]);
      PhysicalLinesGood(Encode(lines[0]), 0, "");
      TextLinesGood(lines[1..]);
    }
  }

  // -- reading the lines back off the output -----------------------------------

  lemma {:induction false} WholeHasNoBreak(l: Bytes)
    requires Whole(l)
    ensures '\r' !in l
    decreases |l|
  {
    if l != "" {
      var n := if l[0] == '=' then 3 else 1;
      WholeHasNoBreak(l[n..]);
      assert l == l[..n] + l[n..];
    }
  }

  lemma GoodLineHasNoBreak(l: Bytes)
    requires GoodLine(l)
    ensures '\r' !in l
  {
    if Whole(l) {
      WholeHasNoBreak(l);
    } else {
      WholeHasNoBreak(l[..|l| - 1]);
      assert l == l[..|l| - 1] + [l[|l| - 1]];
    }
  }

  lemma NoCrlfInside(l: string, rest: string)
    requires '\r' !in l
    ensures SplitCrlf(l) == [l]
    ensures SplitCrlf(l + ("\r\n" + rest)) == [l] + SplitCrlf(rest)
  {
    forall i: nat ensures !MatchesAt(l, "\r\n", i) {
      NoMatch(l, "\r\n", i, 0);
    }
    var s := l + ("\r\n" + rest);
    assert s[|l|] == '\r' && s[|l| + 1] == '\n';
    assert MatchesAt(s, "\r\n", |l|);
    forall i: nat | i < |l| ensures !MatchesAt(s, "\r\n", i) {
      assert s[i] == l[i];
      NoMatch(s, "\r\n", i, 0);
    }
    FindIs(s, "\r\n", |l|);
    assert s[..|l|] == l && s[|l| + 2..] == rest;
  }

  lemma {:induction false} SplitOfJoin(lines: seq<string>)
    requires lines != [] && forall k | 0 <= k < |lines| :: '\r' !in lines[k]
    ensures SplitCrlf(JoinCrlf(lines)) == lines
    decreases |lines|
  {
    if |lines| == 1 {
      NoCrlfInside(lines[0], "");
    } else {
      NoCrlfInside(lines[0], JoinCrlf(lines[1..]));
      SplitOfJoin(lines[1..]);
    }
  }

  /** Every line of the output, split at its CRLFs, has at most 76 characters, ends in no
      space or tab, and holds only printable characters and complete `=XX` triplets,
      except for the `=` of a soft break at its end. */
  lemma OutputLinesAreGood(text: string)
    ensures AllGood(SplitCrlf(QuotedText(text)))
  {
    var lines := SplitCrlf(Lossy(Canon(Encode(text))));
    EncodeLinesIsJoin(lines);
    TextLinesGood(lines);
    var out := TextLines(lines);
    forall k | 0 <= k < |out| ensures '\r' !in out[k] {
      GoodLineHasNoBreak(out[k]);
    }
    SplitOfJoin(out);
  }

  // -- what a text line may not start with -------------------------------------

  /** A literal first character of the output is the line's own character, written as
      itself. */
  lemma LiteralStart(line: Bytes, j: nat, width: nat)
    requires IsBytes(line) && j <= |line| && width <= 72
    requires Emit(Tokens(line, j), width) != "" && Emit(Tokens(line, j), width)[0] != '='
    ensures j < |line| && !Needs(line, j) && line[j] == Emit(Tokens(line, j), width)[0]
    ensures Emit(Tokens(line, j), width)[1..] == Emit(Tokens(line, j + 1), width + 1)
  {
    TokensCons(line, j);
    EmitCons(line, j, width);
    var tok := Token(line, j);
    var more := Emit(Tokens(line, j + 1), width + |tok|);
    assert Emit(Tokens(line, j), width) == tok + more;
    assert (tok + more)[0] == tok[0];
    if !Needs(line, j) {
      assert (tok + more)[1..] == more;
    }
  }

  lemma {:induction false} LiteralPrefix(line: Bytes, j: nat, width: nat, prefix: Bytes)
    requires IsBytes(line) && j <= |line| && width + |prefix| <= 73 && '=' !in prefix
    requires prefix <= Emit(Tokens(line, j), width)
    ensures j + |prefix| <= |line| && prefix == line[j..j + |prefix|]
    ensures prefix != "" ==> !Needs(line, j)
    decreases |prefix|
  {
    if prefix != "" {
      var out := Emit(Tokens(line, j), width);
      assert out[0] == prefix[0] && prefix[0] in prefix;
      LiteralStart(line, j, width);
      assert prefix[1..] <= out[1..];
      LiteralPrefix(line, j + 1, width + 1, prefix[1..]);
      assert line[j..j + |prefix|] == [line[j]] + line[j + 1..j + |prefix|];
    }
  }

  /** Output that starts literally with `prefix` comes from a line that starts with it and
      whose first character needs no encoding. */
  lemma LiteralLineStart(line: string, prefix: Bytes)
    requires prefix != "" && |prefix| <= 73 && '=' !in prefix && prefix <= EncodeLine(line)
    ensures prefix <= Encode(line) && !Needs(Encode(line), 0)
  {
    EncodeIsBytes(line);
    LiteralPrefix(Encode(line), 0, 0, prefix);
  }

  /** The output for a text line never starts with `-`, `.` or `From `. */
  lemma LineStartIsSafe(line: string)
    ensures !("-" <= EncodeLine(line)) && !("." <= EncodeLine(line)) && !("From " <= EncodeLine(line))
  {
    if "-" <= EncodeLine(line) {
      LiteralLineStart(line, "-");
    } else if "." <= EncodeLine(line) {
      LiteralLineStart(line, ".");
    } else if "From " <= EncodeLine(line) {
      LiteralLineStart(line, "From ");
    }
  }
}
