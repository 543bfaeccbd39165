/** Folding a header field for transmission (crates/mw-crypto/src/mime.rs; section 2.2.3
    of RFC 5322). */
module HeaderFolding {
  import opened Wrappers
  import opened Text
  import opened Utf8
  import opened MimeEntity

  const LIMIT: nat := 78
  const CHUNK: nat := 76

  /** How many characters come before the first white space. */
  function WordLength(s: string): (n: nat)
    ensures n <= |s| && (forall i | 0 <= i < n :: !IsWhitespace(s[i])) && (n < |s| ==> IsWhitespace(s[n]))
  {
    if s == "" || IsWhitespace(s[0]) then 0 else 1 + WordLength(s[1..])
  }

  /** `split_whitespace`. */
  function Words(s: string): seq<string>
    decreases |s|
  {
    if s == "" then [] else if IsWhitespace(s[0]) then Words(s[1..])
    else
      var n := WordLength(s);
      [s[..n]] + Words(s[n..])
  }

  /** A word in pieces of 76, each on a line of its own. */
  function Pieces(w: string): string
    decreases |w|
  {
    if w == "" then "" else
      var k := if |w| < CHUNK then |w| else CHUNK;
      "\r\n " + w[..k] + Pieces(w[k..])
  }

  /** The width of the line the last piece is on. */
  function LastWidth(w: string): nat
    decreases |w|
  {
    if |w| <= CHUNK then 1 + |w| else LastWidth(w[CHUNK..])
  }

  /** What is appended for the words, behind a line of that many bytes. */
  function Folded(words: seq<string>, width: nat): string
    decreases |words|
  {
    if words == [] then "" else
      var w, n := words[0], |Encode(words[0])|;
      if width + 1 + n <= LIMIT then " " + w + Folded(words[1..], width + 1 + n)
      else if n < LIMIT || !IsAscii(w) then "\r\n " + w + Folded(words[1..], 1 + n)
      else Pieces(w) + Folded(words[1..], LastWidth(w))
  }

  function FoldHeader(name: string, value: string): string {
    name + ":" + Folded(Words(value), |Encode(name + ":")|)
  }

  method Fold(name: string, value: string) returns (out: string)
    ensures out == FoldHeader(name, value)
  {
    out := name + ":";
    var width: nat := |Encode(out)|;
    var words := Words(value);
    for i := 0 to |words|
      invariant out + Folded(words[i..], width) == FoldHeader(name, value)
    {
      var w := words[i];
      var n := |Encode(w)|;
      hide *;
      if width + 1 + n <= LIMIT {
        NextFits(out, words, i, width);
        out := out + " " + w;
        width := width + 1 + n;
      } else if n < LIMIT || !IsAscii(w) {
        NextBreaks(out, words, i, width);
        out := out + "\r\n " + w;
        width := 1 + n;
      } else {
        NextIsCut(out, words, i, width);
        LongWordNotEmpty(w);
        out, width := FoldPieces(out, w);
      }
    }
    assert words[|words|..] == [] && out + "" == out;
  }

  /** The chunks of one long word. */
  method FoldPieces(before: string, w: string) returns (out: string, width: nat)
    requires w != ""
    ensures out == before + Pieces(w) && width == LastWidth(w)
  {
    out, width := before, 0;
    var i := 0;
    while i < |w|
      invariant i <= |w| && out + Pieces(w[i..]) == before + Pieces(w)
      invariant if i < |w| then LastWidth(w[i..]) == LastWidth(w) else width == LastWidth(w)
    {
      var k := if |w| - i < CHUNK then |w| - i else CHUNK;
      PiecesNext(out, w, i);
      out := out + "\r\n " + w[i..i + k];
      width := 1 + k;
      i := i + k;
    }
    assert w[|w|..] == "" && out + "" == out;
  }

  lemma PiecesNext(out: string, w: string, i: nat)
    requires i < |w|
    ensures
      var k := if |w| - i < CHUNK then |w| - i else CHUNK;
      && out + Pieces(w[i..]) == (out + "\r\n " + w[i..i + k]) + Pieces(w[i + k..])
      && LastWidth(w[i..]) == if i + k < |w| then LastWidth(w[i + k..]) else 1 + k
  {
    var k := if |w| - i < CHUNK then |w| - i else CHUNK;
    assert w[i..][..k] == w[i..i + k] && w[i..][k..] == w[i + k..];
    if i + k == |w| {
      assert w[i + k..] == "";
    }
  }

  lemma LongWordNotEmpty(w: string)
    requires |Encode(w)| >= LIMIT
    ensures w != ""
  {
  }

  /** What the next word adds: it fits, it goes on a new line, or it is cut. */
  lemma NextFits(out: string, words: seq<string>, i: nat, width: nat)
    requires i < |words| && width + 1 + |Encode(words[i])| <= LIMIT
    ensures out + Folded(words[i..], width)
         == (out + " " + words[i]) + Folded(words[i + 1..], width + 1 + |Encode(words[i])|)
  {
    assert words[i..][0] == words[i] && words[i..][1..] == words[i + 1..];
    hide Encode, Pieces, LastWidth;
  }

  lemma NextBreaks(out: string, words: seq<string>, i: nat, width: nat)
    requires i < |words| && width + 1 + |Encode(words[i])| > LIMIT && (|Encode(words[i])| < LIMIT || !IsAscii(words[i]))
    ensures out + Folded(words[i..], width)
         == (out + "\r\n " + words[i]) + Folded(words[i + 1..], 1 + |Encode(words[i])|)
  {
    assert words[i..][0] == words[i] && words[i..][1..] == words[i + 1..];
    hide Encode, Pieces, LastWidth, IsAscii;
  }

  lemma NextIsCut(out: string, words: seq<string>, i: nat, width: nat)
    requires i < |words| && width + 1 + |Encode(words[i])| > LIMIT && |Encode(words[i])| >= LIMIT && IsAscii(words[i])
    ensures out + Folded(words[i..], width) == (out + Pieces(words[i])) + Folded(words[i + 1..], LastWidth(words[i]))
  {
    assert words[i..][0] == words[i] && words[i..][1..] == words[i + 1..];
    hide Encode, Pieces, LastWidth, IsAscii;
  }

  // -- words -------------------------------------------------------------------

  predicate IsWord(w: string) {
    w != "" && forall i | 0 <= i < |w| :: !IsWhitespace(w[i])
  }

  predicate AllWords(words: seq<string>) {
    forall i | 0 <= i < |words| :: IsWord(words[i])
  }

  lemma {:induction false} WordsAreWords(s: string)
    ensures AllWords(Words(s))
    decreases |s|
  {
    if s != "" {
      if IsWhitespace(s[0]) {
        WordsAreWords(s[1..]);
      } else {
        WordsAreWords(s[WordLength(s)..]);
      }
    }
  }

  // -- nothing but white space is added ---------------------------------------

  /** The text without white space. */
  function Squeezed(s: string): string {
    if s == "" then "" else (if IsWhitespace(s[0]) then "" else [s[0]]) + Squeezed(s[1..])
  }

  function Glued(words: seq<string>): string {
    if words == [] then "" else words[0] + Glued(words[1..])
  }

  lemma {:induction false} SqueezedConcat(a: string, b: string)
    ensures Squeezed(a + b) == Squeezed(a) + Squeezed(b)
    decreases |a|
  {
    if |a| == 0 {
      assert a + b == b;
    } else {
      assert (a + b)[1..] == a[1..] + b;
      SqueezedConcat(a[1..], b);
    }
  }

  lemma {:induction false} SqueezedWord(w: string)
    requires forall i | 0 <= i < |w| :: !IsWhitespace(w[i])
    ensures Squeezed(w) == w
    decreases |w|
  {
    if |w| > 0 {
      SqueezedWord(w[1..]);
    }
  }

  lemma SqueezedBreak(w: string)
    requires forall i | 0 <= i < |w| :: !IsWhitespace(w[i])
    ensures Squeezed(" " + w) == w && Squeezed("\r\n " + w) == w
  {
    SqueezedConcat(" ", w);
    SqueezedConcat("\r\n ", w);
    SqueezedWord(w);
    assert " "[1..] == "" && "\r\n "[1..] == "\n " && "\n "[1..] == " ";
  }

  lemma {:induction false} SqueezedPieces(w: string)
    requires forall i | 0 <= i < |w| :: !IsWhitespace(w[i])
    ensures Squeezed(Pieces(w)) == w
    decreases |w|
  {
    if |w| > 0 {
      var k := if |w| < CHUNK then |w| else CHUNK;
      SqueezedPieces(w[k..]);
      SqueezedBreak(w[..k]);
      SqueezedConcat("\r\n " + w[..k], Pieces(w[k..]));
      assert w == w[..k] + w[k..];
    }
  }

  lemma SqueezedStep(head: string, w: string, tail: string, rest: string)
    requires Squeezed(head) == w && Squeezed(tail) == rest
    ensures Squeezed(head + tail) == w + rest
  {
    SqueezedConcat(head, tail);
  }

  lemma {:induction false} SqueezedFolded(words: seq<string>, width: nat)
    requires AllWords(words)
    ensures Squeezed(Folded(words, width)) == Glued(words)
    decreases |words|
  {
    if |words| > 0 {
      var w, n, rest := words[0], |Encode(words[0])|, Glued(words[1..]);
      SqueezedBreak(w);
      SqueezedPieces(w);
      hide Squeezed, Encode, Pieces, LastWidth;
      if width + 1 + n <= LIMIT {
        SqueezedFolded(words[1..], width + 1 + n);
        SqueezedStep(" " + w, w, Folded(words[1..], width + 1 + n), rest);
      } else if n < LIMIT || !IsAscii(w) {
        SqueezedFolded(words[1..], 1 + n);
        SqueezedStep("\r\n " + w, w, Folded(words[1..], 1 + n), rest);
      } else {
        SqueezedFolded(words[1..], LastWidth(w));
        SqueezedStep(Pieces(w), w, Folded(words[1..], LastWidth(w)), rest);
      }
    }
  }

  lemma {:induction false} SqueezedValue(s: string)
    ensures Glued(Words(s)) == Squeezed(s)
    decreases |s|
  {
    if |s| > 0 {
      if IsWhitespace(s[0]) {
        SqueezedValue(s[1..]);
      } else {
        var n := WordLength(s);
        SqueezedValue(s[n..]);
        SqueezedWord(s[..n]);
        SqueezedConcat(s[..n], s[n..]);
        assert s == s[..n] + s[n..];
      }
    }
  }

  /** Folding changes white space only: without it, the folded field is the name, the
      colon and the value. */
  lemma FoldingKeepsText(name: string, value: string)
    ensures Squeezed(FoldHeader(name, value)) == Squeezed(name + ":") + Squeezed(value)
  {
    WordsAreWords(value);
    SqueezedConcat(name + ":", Folded(Words(value), |Encode(name + ":")|));
    SqueezedFolded(Words(value), |Encode(name + ":")|);
    SqueezedValue(value);
  }

  // -- short lines -------------------------------------------------------------

  /** Every line, without its CR, has at most 78 characters. */
  predicate ShortLines(lines: seq<string>) {
    forall i | 0 <= i < |lines| :: |StripCr(lines[i])| <= LIMIT
  }

  predicate AllAscii(words: seq<string>) {
    forall i | 0 <= i < |words| :: IsAscii(words[i])
  }

  /** A line, a line break, and what follows. */
  function Break(line: string, rest: string): string {
    line + ("\r\n" + rest)
  }

  /** A continuation line. */
  function Cont(t: string): string {
    " " + t
  }

  function Spaced(t: string, w: string): string {
    t + " " + w
  }

  lemma BreakSplits(line: string, rest: string)
    requires '\n' !in line
    ensures SplitChar(Break(line, rest), '\n') == [line + "\r"] + SplitChar(rest, '\n')
  {
    assert Break(line, rest) == (line + "\r") + ['\n'] + rest;
    hide *;
    SplitCharAfter(line + "\r", '\n', rest);
  }

  lemma ShortHead(line: string, lines: seq<string>)
    requires |line| <= LIMIT && ShortLines(lines)
    ensures ShortLines([line + "\r"] + lines)
  {
    assert StripCr(line + "\r") == line;
    hide StripCr;
  }

  lemma ShortFirst(line: string, rest: string)
    requires '\n' !in line && |line| <= LIMIT && ShortLines(SplitChar(rest, '\n'))
    ensures ShortLines(SplitChar(Break(line, rest), '\n'))
  {
    hide *;
    BreakSplits(line, rest);
    ShortHead(line, SplitChar(rest, '\n'));
  }

  lemma ShortOnly(line: string)
    requires '\n' !in line && |line| <= LIMIT
    ensures ShortLines(SplitChar(line + "", '\n'))
  {
    assert line + "" == line;
    NoSplit(line, '\n');
  }

  lemma WordHasNoBreak(w: string)
    requires IsWord(w)
    ensures '\n' !in w && '\r' !in w
  {
    assert IsWhitespace('\n') && IsWhitespace('\r');
  }

  lemma NoBreaks(line: string, w: string)
    requires '\n' !in line && '\n' !in w
    ensures '\n' !in Spaced(line, w) && |Spaced(line, w)| == |line| + 1 + |w|
    ensures '\n' !in Cont(w) && |Cont(w)| == 1 + |w|
  {
  }

  lemma FromFirst(words: seq<string>)
    requires |words| > 0
    ensures words[0..] == words && words[0 + 1..] == words[1..]
  {
  }

  /** The first word, whole: on this line or on the next. */
  lemma FirstOnLine(line: string, words: seq<string>, width: nat)
    requires |words| > 0 && width + 1 + |Encode(words[0])| <= LIMIT
    ensures line + Folded(words, width) == Spaced(line, words[0]) + Folded(words[1..], width + 1 + |Encode(words[0])|)
  {
    FromFirst(words);
    NextFits(line, words, 0, width);
    hide Folded, Encode;
  }

  lemma FirstOnNext(line: string, words: seq<string>, width: nat)
    requires |words| > 0 && width + 1 + |Encode(words[0])| > LIMIT && (|Encode(words[0])| < LIMIT || !IsAscii(words[0]))
    ensures line + Folded(words, width) == Break(line, Cont(words[0]) + Folded(words[1..], 1 + |Encode(words[0])|))
  {
    hide *;
    FromFirst(words);
    NextBreaks(line, words, 0, width);
    BreakMoves(line, words[0], Folded(words[1..], 1 + |Encode(words[0])|));
  }

  lemma FirstIsCut(line: string, words: seq<string>, width: nat)
    requires |words| > 0 && width + 1 + |Encode(words[0])| > LIMIT && |Encode(words[0])| >= LIMIT && IsAscii(words[0])
    ensures line + Folded(words, width) == line + (Pieces(words[0]) + Folded(words[1..], LastWidth(words[0])))
  {
    hide *;
    FromFirst(words);
    NextIsCut(line, words, 0, width);
    Assoc(line, Pieces(words[0]), Folded(words[1..], LastWidth(words[0])));
  }

  lemma BreakMoves(line: string, w: string, tail: string)
    ensures (line + "\r\n " + w) + tail == Break(line, Cont(w) + tail)
  {
    assert "\r\n " == "\r\n" + " ";
  }

  lemma TailIsAscii(words: seq<string>)
    requires |words| > 0 && AllWords(words) && AllAscii(words)
    ensures AllWords(words[1..]) && AllAscii(words[1..]) && IsWord(words[0]) && IsAscii(words[0])
  {
  }

  lemma FoldedNothing(line: string, words: seq<string>)
    requires |words| == 0
    ensures line + Folded(words, |line|) == line + ""
  {
  }

  /** Behind a line of `|line|` ASCII characters the folded words make short lines. */
  lemma {:induction false} FoldedIsShort(line: string, words: seq<string>)
    requires '\n' !in line && |line| <= LIMIT && AllWords(words) && AllAscii(words)
    ensures ShortLines(SplitChar(line + Folded(words, |line|), '\n'))
    decreases |words|, 0
  {
    hide *;
    if |words| == 0 {
      FoldedNothing(line, words);
      ShortOnly(line);
    } else {
      var w, rest := words[0], words[1..];
      TailIsAscii(words);
      WordHasNoBreak(w);
      EncodeAscii(w);
      NoBreaks(line, w);
      if |line| + 1 + |w| <= LIMIT {
        FirstOnLine(line, words, |line|);
        FoldedIsShort(Spaced(line, w), rest);
      } else if |w| < LIMIT {
        FirstOnNext(line, words, |line|);
        FoldedIsShort(Cont(w), rest);
        ShortFirst(line, Cont(w) + Folded(rest, 1 + |w|));
      } else {
        FirstIsCut(line, words, |line|);
        LongEnough(w);
        PiecesAreShort(line, w, rest);
      }
    }
  }

  lemma LongEnough(w: string)
    requires |w| >= LIMIT
    ensures w != ""
  {
  }

  lemma {:induction false} PiecesAreShort(line: string, w: string, words: seq<string>)
    requires '\n' !in line && |line| <= LIMIT && '\n' !in w && w != "" && AllWords(words) && AllAscii(words)
    ensures ShortLines(SplitChar(line + (Pieces(w) + Folded(words, LastWidth(w))), '\n'))
    decreases |words|, 1 + |w|
  {
    hide *;
    var k := FirstPiece(w);
    var next := Cont(w[..k]);
    PieceHasNoBreak(w);
    if k == |w| {
      LastPiece(line, w, Folded(words, LastWidth(w)));
      FoldedIsShort(next, words);
      ShortFirst(line, next + Folded(words, |next|));
    } else {
      OnePiece(line, w, Folded(words, LastWidth(w)));
      PiecesAreShort(next, w[k..], words);
      ShortFirst(line, next + (Pieces(w[k..]) + Folded(words, LastWidth(w[k..]))));
    }
  }

  function FirstPiece(w: string): (k: nat)
    ensures k <= |w| && (w != "" ==> 0 < k)
  {
    if |w| < CHUNK then |w| else CHUNK
  }

  lemma PieceHasNoBreak(w: string)
    requires '\n' !in w && w != ""
    ensures '\n' !in Cont(w[..FirstPiece(w)]) && |Cont(w[..FirstPiece(w)])| <= LIMIT && '\n' !in w[FirstPiece(w)..]
    ensures FirstPiece(w) < |w| ==> w[FirstPiece(w)..] != ""
  {
  }

  lemma LastPiece(line: string, w: string, tail: string)
    requires w != "" && FirstPiece(w) == |w|
    ensures line + (Pieces(w) + tail) == Break(line, Cont(w[..FirstPiece(w)]) + tail)
    ensures LastWidth(w) == |Cont(w[..FirstPiece(w)])|
  {
    assert w[..|w|] == w && w[|w|..] == "";
    assert Pieces(w) == "\r\n " + w;
    BreakMoves(line, w, tail);
    hide Pieces;
    assert line + ("\r\n " + w + tail) == (line + "\r\n " + w) + tail;
  }

  lemma OnePiece(line: string, w: string, tail: string)
    requires w != "" && FirstPiece(w) < |w|
    ensures
      var k := FirstPiece(w);
      && line + (Pieces(w) + tail) == Break(line, Cont(w[..k]) + (Pieces(w[k..]) + tail))
      && LastWidth(w) == LastWidth(w[k..])
  {
    var k := FirstPiece(w);
    assert Pieces(w) == "\r\n " + w[..k] + Pieces(w[k..]);
    BreakMoves(line, w[..k], Pieces(w[k..]) + tail);
    hide Pieces;
    FourParts(line, "\r\n " + w[..k], Pieces(w[k..]), tail);
    Assoc(line, "\r\n ", w[..k]);
  }

  lemma FourParts(a: string, b: string, c: string, d: string)
    ensures a + ((b + c) + d) == (a + b) + (c + d)
  {
  }

  lemma {:induction false} AsciiWords(s: string)
    requires IsAscii(s)
    ensures AllAscii(Words(s))
    decreases |s|
  {
    if |s| > 0 {
      if IsWhitespace(s[0]) {
        AsciiWords(s[1..]);
      } else {
        AsciiWords(s[WordLength(s)..]);
      }
    }
  }

  /** Every line of a folded ASCII field has at most 78 characters, however long its
      words, unless the name alone is longer. */
  lemma FoldedLinesAreShort(name: string, value: string)
    requires IsAscii(name) && IsAscii(value) && '\n' !in name && |name| + 1 <= LIMIT
    ensures ShortLines(SplitChar(FoldHeader(name, value), '\n'))
  {
    WordsAreWords(value);
    AsciiWords(value);
    EncodeAscii(name + ":");
    hide Words, Folded, ShortLines, AllWords, AllAscii, SplitChar;
    FoldedIsShort(name + ":", Words(value));
  }

  // -- reading back ------------------------------------------------------------

  /** `t` and the words, with single spaces. */
  function Follow(t: string, words: seq<string>): string
    decreases |words|
  {
    if words == [] then t else Follow(Spaced(t, words[0]), words[1..])
  }

  /** The value with its white space normalized. */
  function Normalized(words: seq<string>): string {
    if words == [] then "" else Follow(words[0], words[1..])
  }

  lemma SpacedThrice(a: string, t: string, w: string)
    ensures Spaced(Spaced(a, t), w) == Spaced(a, Spaced(t, w))
  {
  }

  lemma {:induction false} FollowPrefix(a: string, t: string, words: seq<string>)
    ensures Follow(Spaced(a, t), words) == Spaced(a, Follow(t, words))
    decreases |words|
  {
    if |words| > 0 {
      SpacedThrice(a, t, words[0]);
      hide Spaced;
      FollowPrefix(a, Spaced(t, words[0]), words[1..]);
    }
  }

  /** A word that is cut: too long for any line, and ASCII. */
  predicate Cut(w: string) {
    |Encode(w)| >= LIMIT && IsAscii(w)
  }

  /** The pieces of a cut word. */
  function Chunks(w: string): (r: seq<string>)
    ensures |r| >= 1
    decreases |w|
  {
    if |w| <= CHUNK then [w] else [w[..CHUNK]] + Chunks(w[CHUNK..])
  }

  /** The words as a reader sees them: each piece of a cut word is a word. */
  function Shown(words: seq<string>): seq<string> {
    if words == [] then [] else (if Cut(words[0]) then Chunks(words[0]) else [words[0]]) + Shown(words[1..])
  }

  /** Text as it stands on a line: no white space at its ends, no line break. */
  predicate LineText(t: string) {
    t != "" && Trimmed(t) && '\n' !in t && '\r' !in t
  }

  lemma WordIsLineText(w: string)
    requires IsWord(w)
    ensures LineText(w)
  {
    WordHasNoBreak(w);
  }

  lemma LineTextGrows(t: string, w: string)
    requires LineText(t) && LineText(w)
    ensures LineText(Spaced(t, w))
  {
    var s := Spaced(t, w);
    assert s[0] == t[0] && s[|s| - 1] == w[|w| - 1];
  }

  /** A continuation line appends its text to the field before. */
  lemma ReadContinuation(name: string, v: string, t: string)
    requires LineText(t)
    ensures '\n' !in Cont(t)
    ensures ReadLine([(name, v)], Cont(t)) == ReadLine([(name, v)], Cont(t) + "\r") == [(name, Spaced(v, t))]
  {
    TrimSpace(t);
    TrimOfTrimmed(t);
    var line := " " + t;
    assert line[|line| - 1] == t[|t| - 1];
    assert StripCr(line + "\r") == line && StripCr(line) == line;
    hide Trim, StripCr;
    assert [(name, v)][0 := (name, v + " " + t)] == [(name, v + " " + t)];
  }

  predicate FieldName(n: string) {
    Trimmed(n) && ':' !in n && '\n' !in n
  }

  /** The first line of a field, with some text on it or none. */
  function First(name: string, t: string): string {
    name + ":" + (if t == "" then "" else " " + t)
  }

  lemma ReadFirst(name: string, t: string)
    requires FieldName(name) && (t == "" || LineText(t))
    ensures '\n' !in First(name, t)
    ensures ReadLine([], First(name, t)) == ReadLine([], First(name, t) + "\r") == [(name, t)]
  {
    FirstShape(name, t);
    TrimOfTrimmed(name);
    TrimOfTrimmed(t);
    TrimSpace(t);
    hide Trim, SplitOnce, First, FieldName, LineText, Trimmed;
    CrDropped(First(name, t));
  }

  lemma CrDropped(line: string)
    requires line != "" && line[|line| - 1] != '\r'
    ensures StripCr(line) == StripCr(line + "\r") == line
  {
  }

  lemma FirstShape(name: string, t: string)
    requires FieldName(name) && (t == "" || LineText(t))
    ensures
      var line := First(name, t);
      && line != "" && line[0] != ' ' && line[0] != '\t' && line[|line| - 1] != '\r' && '\n' !in line
      && SplitOnce(line, ':') == Some((name, if t == "" then "" else " " + t))
  {
    var tail := if t == "" then "" else " " + t;
    var line := First(name, t);
    assert line == name + [':'] + tail;
    SplitOnceAfter(name, ':', tail);
    hide SplitOnce;
    assert line[0] == if name == "" then ':' else name[0];
    assert line[|line| - 1] == if t == "" then ':' else t[|t| - 1];
  }

  lemma LineThenBreak(out: seq<Field>, line: string, rest: string)
    requires '\n' !in line
    ensures ReadLines(out, SplitChar(Break(line, rest), '\n'))
         == ReadLines(ReadLine(out, line + "\r"), SplitChar(rest, '\n'))
  {
    hide *;
    BreakSplits(line, rest);
    ReadFirstLine(out, line + "\r", SplitChar(rest, '\n'));
  }

  lemma LineAtEnd(out: seq<Field>, line: string, words: seq<string>, width: nat)
    requires '\n' !in line && |words| == 0
    ensures ReadLines(out, SplitChar(line + Folded(words, width), '\n')) == ReadLine(out, line)
  {
    assert line + "" == line;
    NoSplit(line, '\n');
    hide ReadLine, SplitChar;
    ReadOneLine(out, line);
  }

  lemma WordTail(words: seq<string>)
    requires |words| > 0 && AllWords(words)
    ensures AllWords(words[1..]) && IsWord(words[0])
  {
  }

  lemma ShownWhole(words: seq<string>)
    requires |words| > 0 && (|Encode(words[0])| < LIMIT || !IsAscii(words[0]))
    ensures Shown(words) == [words[0]] + Shown(words[1..])
    ensures ([words[0]] + Shown(words[1..]))[0] == words[0]
         && ([words[0]] + Shown(words[1..]))[1..] == Shown(words[1..])
    ensures |Shown(words)| > 0
  {
    hide Encode, IsAscii;
  }

  lemma ShownCut(words: seq<string>)
    requires |words| > 0 && |Encode(words[0])| >= LIMIT && IsAscii(words[0])
    ensures Shown(words) == Chunks(words[0]) + Shown(words[1..]) && |Shown(words)| > 0 && words[0] != ""
  {
    hide IsAscii;
  }

  lemma ShownNothing(words: seq<string>)
    requires |words| == 0
    ensures |Shown(words)| == 0
  {
  }

  lemma FollowNext(t: string, words: seq<string>)
    requires |words| > 0
    ensures Follow(t, words) == Follow(Spaced(t, words[0]), words[1..]) == Spaced(t, Follow(words[0], words[1..]))
  {
    hide Spaced;
    FollowPrefix(t, words[0], words[1..]);
  }

  lemma FollowNothing(t: string, words: seq<string>)
    requires |words| == 0
    ensures Follow(t, words) == t
  {
  }

  lemma GrownCont(t: string, w: string)
    ensures Spaced(Cont(t), w) == Cont(Spaced(t, w))
  {
  }

  lemma GrownFirst(name: string, t: string, w: string)
    requires t != ""
    ensures Spaced(First(name, t), w) == First(name, Spaced(t, w))
  {
  }

  /** A text and then the words: the words with the text in front. */
  lemma FollowSpaced(t: string, words: seq<string>)
    requires |words| > 0
    ensures Follow(t, words) == Spaced(t, Normalized(words))
  {
    FollowNext(t, words);
    hide Spaced, Follow;
  }

  lemma LastChunk(w: string, words: seq<string>)
    requires w != "" && FirstPiece(w) == |w|
    ensures w[..FirstPiece(w)] == w && Normalized(Chunks(w) + words) == Follow(w, words)
  {
    assert ([w] + words)[1..] == words;
  }

  lemma FirstChunk(w: string, words: seq<string>)
    requires w != "" && FirstPiece(w) < |w|
    ensures
      var k := FirstPiece(w);
      && |Chunks(w[k..]) + words| > 0
      && Normalized(Chunks(w) + words) == Follow(w[..k], Chunks(w[k..]) + words)
  {
    var k := FirstPiece(w);
    assert Chunks(w) == [w[..k]] + Chunks(w[k..]);
    assert ([w[..k]] + Chunks(w[k..]) + words)[1..] == Chunks(w[k..]) + words;
  }

  lemma PieceIsWord(w: string)
    requires IsWord(w)
    ensures IsWord(w[..FirstPiece(w)]) && '\n' !in w && w != ""
    ensures FirstPiece(w) < |w| ==> IsWord(w[FirstPiece(w)..])
  {
    WordHasNoBreak(w);
  }

  /** A cut word behind a line that reads as `v`: its pieces follow as words. */
  lemma {:induction false} ReadPieces(out: seq<Field>, line: string, name: string, v: string, w: string,
                                      words: seq<string>)
    requires '\n' !in line && ReadLine(out, line + "\r") == [(name, v)] && IsWord(w) && AllWords(words)
    ensures ReadLines(out, SplitChar(line + (Pieces(w) + Folded(words, LastWidth(w))), '\n'))
         == [(name, Spaced(v, Normalized(Chunks(w) + Shown(words))))]
    decreases |words|, 1 + |w|
  {
    hide *;
    var k, tail := FirstPiece(w), Folded(words, LastWidth(w));
    var piece := w[..k];
    PieceIsWord(w);
    WordIsLineText(piece);
    ReadContinuation(name, v, piece);
    if k == |w| {
      LastPiece(line, w, tail);
      LineThenBreak(out, line, Cont(piece) + tail);
      LastChunk(w, Shown(words));
      ReadRest(name, v, piece, words, LastWidth(w));
    } else {
      OnePiece(line, w, tail);
      LineThenBreak(out, line, Cont(piece) + (Pieces(w[k..]) + tail));
      ReadPieces([(name, v)], Cont(piece), name, Spaced(v, piece), w[k..], words);
      FirstChunk(w, Shown(words));
      FollowSpaced(piece, Chunks(w[k..]) + Shown(words));
      SpacedThrice(v, piece, Normalized(Chunks(w[k..]) + Shown(words)));
    }
  }

  /** Continuation lines: all words follow the value so far. */
  lemma {:induction false} ReadRest(name: string, v: string, t: string, words: seq<string>, width: nat)
    requires LineText(t) && AllWords(words)
    ensures ReadLines([(name, v)], SplitChar(Cont(t) + Folded(words, width), '\n'))
         == [(name, Spaced(v, Follow(t, Shown(words))))]
    decreases |words|, 0
  {
    hide *;
    ReadContinuation(name, v, t);
    if |words| == 0 {
      LineAtEnd([(name, v)], Cont(t), words, width);
      ShownNothing(words);
      FollowNothing(t, Shown(words));
    } else {
      var w, n, rest := words[0], |Encode(words[0])|, words[1..];
      WordTail(words);
      WordIsLineText(w);
      if width + 1 + n <= LIMIT {
        ShownWhole(words);
        FollowNext(t, Shown(words));
        FirstOnLine(Cont(t), words, width);
        LineTextGrows(t, w);
        GrownCont(t, w);
        ReadRest(name, v, Spaced(t, w), rest, width + 1 + n);
      } else if n < LIMIT || !IsAscii(w) {
        ShownWhole(words);
        FollowNext(t, Shown(words));
        FirstOnNext(Cont(t), words, width);
        LineThenBreak([(name, v)], Cont(t), Cont(w) + Folded(rest, 1 + n));
        ReadRest(name, Spaced(v, t), w, rest, 1 + n);
        SpacedThrice(v, t, Follow(w, Shown(rest)));
      } else {
        ShownCut(words);
        FirstIsCut(Cont(t), words, width);
        ReadPieces([(name, v)], Cont(t), name, Spaced(v, t), w, rest);
        FollowSpaced(t, Shown(words));
        SpacedThrice(v, t, Normalized(Shown(words)));
      }
    }
  }

  /** The first line, with some text on it already. */
  lemma {:induction false} ReadFrom(name: string, t: string, words: seq<string>, width: nat)
    requires FieldName(name) && LineText(t) && AllWords(words)
    ensures ReadLines([], SplitChar(First(name, t) + Folded(words, width), '\n')) == [(name, Follow(t, Shown(words)))]
    decreases |words|
  {
    hide *;
    ReadFirst(name, t);
    if |words| == 0 {
      LineAtEnd([], First(name, t), words, width);
      ShownNothing(words);
      FollowNothing(t, Shown(words));
    } else {
      var w, n, rest := words[0], |Encode(words[0])|, words[1..];
      WordTail(words);
      WordIsLineText(w);
      if width + 1 + n <= LIMIT {
        ShownWhole(words);
        FollowNext(t, Shown(words));
        FirstOnLine(First(name, t), words, width);
        LineTextGrows(t, w);
        TextIsThere(t);
        GrownFirst(name, t, w);
        ReadFrom(name, Spaced(t, w), rest, width + 1 + n);
      } else if n < LIMIT || !IsAscii(w) {
        ShownWhole(words);
        FollowNext(t, Shown(words));
        FirstOnNext(First(name, t), words, width);
        LineThenBreak([], First(name, t), Cont(w) + Folded(rest, 1 + n));
        ReadRest(name, t, w, rest, 1 + n);
      } else {
        ShownCut(words);
        FirstIsCut(First(name, t), words, width);
        ReadPieces([], First(name, t), name, t, w, rest);
        FollowSpaced(t, Shown(words));
      }
    }
  }

  lemma TextIsThere(t: string)
    requires LineText(t)
    ensures t != ""
  {
  }

  /** Whether the first word still fits on the line of the name. */
  predicate FirstFits(name: string, words: seq<string>) {
    words == [] || |Encode(name + ":")| + 1 + |Encode(words[0])| <= LIMIT
  }

  /** The value a folded field reads back with. */
  function ReadBack(name: string, words: seq<string>): string {
    if FirstFits(name, words) then Normalized(Shown(words)) else Spaced("", Normalized(Shown(words)))
  }

  lemma StartEmpty(name: string, words: seq<string>)
    requires |words| == 0
    ensures ReadBack(name, words) == ""
  {
  }

  lemma StartShape(name: string)
    ensures name + ":" == First(name, "")
  {
    assert name + ":" + "" == name + ":";
  }

  /** How the value read back starts. */
  lemma StartFits(name: string, words: seq<string>)
    requires |words| > 0 && |Encode(name + ":")| + 1 + |Encode(words[0])| <= LIMIT && words[0] != ""
    ensures ReadBack(name, words) == Follow(words[0], Shown(words[1..]))
         && Spaced(First(name, ""), words[0]) == First(name, words[0])
  {
    ShownWhole(words);
    hide Encode, Follow, Shown;
  }

  lemma StartBreaks(name: string, words: seq<string>)
    requires |words| > 0 && |Encode(name + ":")| + 1 + |Encode(words[0])| > LIMIT
    ensures ReadBack(name, words) == Spaced("", Normalized(Shown(words)))
  {
    hide Encode, Follow, Shown;
  }

  lemma NormalizedWhole(words: seq<string>)
    requires |words| > 0 && (|Encode(words[0])| < LIMIT || !IsAscii(words[0]))
    ensures Normalized(Shown(words)) == Follow(words[0], Shown(words[1..]))
  {
    ShownWhole(words);
    hide Encode, Follow, Shown, IsAscii;
  }

  lemma ReadStart(name: string, words: seq<string>, width: nat)
    requires FieldName(name) && AllWords(words) && width == |Encode(name + ":")|
    ensures ReadLines([], SplitChar(name + ":" + Folded(words, width), '\n')) == [(name, ReadBack(name, words))]
  {
    hide *;
    StartShape(name);
    EmptyText();
    ReadFirst(name, "");
    if |words| == 0 {
      LineAtEnd([], First(name, ""), words, width);
      StartEmpty(name, words);
    } else {
      var w, n, rest := words[0], |Encode(words[0])|, words[1..];
      WordTail(words);
      WordIsLineText(w);
      TextIsThere(w);
      if width + 1 + n <= LIMIT {
        FirstOnLine(First(name, ""), words, width);
        StartFits(name, words);
        ReadFrom(name, w, rest, width + 1 + n);
      } else if n < LIMIT || !IsAscii(w) {
        FirstOnNext(First(name, ""), words, width);
        LineThenBreak([], First(name, ""), Cont(w) + Folded(rest, 1 + n));
        StartBreaks(name, words);
        NormalizedWhole(words);
        ReadRest(name, "", w, rest, 1 + n);
      } else {
        ShownCut(words);
        StartBreaks(name, words);
        FirstIsCut(First(name, ""), words, width);
        ReadPieces([], First(name, ""), name, "", w, rest);
      }
    }
  }

  lemma EmptyText()
    ensures |""| == 0
  {
  }

  // -- when the value comes back as it was ------------------------------------

  /** Some word is cut. */
  predicate SomeCut(words: seq<string>) {
    exists i | 0 <= i < |words| :: Cut(words[i])
  }

  /** The words end to end. */
  function Total(words: seq<string>): nat {
    if words == [] then 0 else |words[0]| + Total(words[1..])
  }

  lemma {:induction false} FollowLength(t: string, words: seq<string>)
    ensures |Follow(t, words)| == |t| + Total(words) + |words|
    decreases |words|
  {
    if |words| > 0 {
      FollowLength(Spaced(t, words[0]), words[1..]);
    }
  }

  lemma NormalizedLength(words: seq<string>)
    ensures words != [] ==> |Normalized(words)| == Total(words) + |words| - 1
  {
    if words != [] {
      FollowLength(words[0], words[1..]);
    }
  }

  lemma {:induction false} TotalConcat(a: seq<string>, b: seq<string>)
    ensures Total(a + b) == Total(a) + Total(b)
    decreases |a|
  {
    if |a| == 0 {
      assert a + b == b;
    } else {
      assert (a + b)[1..] == a[1..] + b;
      TotalConcat(a[1..], b);
    }
  }

  lemma {:induction false} ChunksTotal(w: string)
    ensures Total(Chunks(w)) == |w| && (|w| >= LIMIT ==> |Chunks(w)| >= 2)
    decreases |w|
  {
    if |w| <= CHUNK {
      assert [w][1..] == [];
    } else {
      ChunksTotal(w[CHUNK..]);
      var rest := Chunks(w[CHUNK..]);
      assert ([w[..CHUNK]] + rest)[1..] == rest;
    }
  }

  /** Showing loses no character, and makes more words exactly when one is cut. */
  lemma {:induction false} ShownSize(words: seq<string>)
    ensures Total(Shown(words)) == Total(words)
    ensures |Shown(words)| >= |words| && (|Shown(words)| == |words| <==> !SomeCut(words))
    ensures !SomeCut(words) ==> Shown(words) == words
    decreases |words|
  {
    if |words| > 0 {
      var w, rest := words[0], words[1..];
      ShownSize(rest);
      ChunksTotal(w);
      OneWord(w);
      CutFirst(words);
      hide Chunks, SomeCut, Total, Cut;
      TotalConcat(if Cut(w) then Chunks(w) else [w], Shown(rest));
      TotalConcat([w], rest);
      assert words == [w] + rest;
    }
  }

  lemma OneWord(w: string)
    ensures Total([w]) == |w| && (Cut(w) ==> |w| >= LIMIT)
  {
    assert [w][1..] == [];
    if Cut(w) {
      EncodeAscii(w);
    }
  }

  lemma CutFirst(words: seq<string>)
    requires |words| > 0
    ensures SomeCut(words) <==> Cut(words[0]) || SomeCut(words[1..])
  {
    hide Cut;
    if SomeCut(words) {
      var i :| 0 <= i < |words| && Cut(words[i]);
      assert i > 0 ==> words[1..][i - 1] == words[i];
    }
    if SomeCut(words[1..]) {
      var i :| 0 <= i < |words[1..]| && Cut(words[1..][i]);
      assert words[i + 1] == words[1..][i];
    }
  }

  lemma BlockLines(block: string)
    ensures HeaderBlock(block) == ReadLines([], SplitChar(block, '\n'))
  {
  }

  lemma ReadBackIff(name: string, words: seq<string>)
    ensures ReadBack(name, words) == Normalized(words) <==> FirstFits(name, words) && !SomeCut(words)
  {
    if |words| == 0 {
      StartEmpty(name, words);
    } else {
      ShownSize(words);
      NormalizedLength(words);
      NormalizedLength(Shown(words));
      assert |Shown(words)| > 0;
      hide Encode, Shown, SomeCut, Normalized, Total;
      assert |Spaced("", Normalized(Shown(words)))| == 1 + |Normalized(Shown(words))|;
      assert |ReadBack(name, words)| == Total(words) + |Shown(words)| - if FirstFits(name, words) then 1 else 0;
    }
  }

  /** Every folded field reads back as one field. A cut word comes back as its pieces with
      spaces between them, and a first word that does not fit beside the name leaves a space
      in front; the value comes back with its white space normalized exactly when neither
      happens. */
  lemma FoldedReadsBack(name: string, value: string)
    requires FieldName(name)
    ensures
      var words := Words(value);
      && HeaderBlock(FoldHeader(name, value)) == [(name, ReadBack(name, words))]
      && (ReadBack(name, words) == Normalized(words) <==> FirstFits(name, words) && !SomeCut(words))
  {
    var words := Words(value);
    WordsAreWords(value);
    ReadStart(name, words, |Encode(name + ":")|);
    ReadBackIff(name, words);
    assert FoldHeader(name, value) == name + ":" + Folded(words, |Encode(name + ":")|);
    hide *;
    assert HeaderBlock(FoldHeader(name, value))
        == ReadLines([], SplitChar(FoldHeader(name, value), '\n'))
    by {
      BlockLines(FoldHeader(name, value));
    }
  }
}
