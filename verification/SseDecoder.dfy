/** Decoding server-sent events out of transport chunks
    (crates/mw-assist/src/adapters.rs). JSON frames are a function parameter. */
module SseDecoder {
  import opened Wrappers
  import opened Text
  import opened Utf8

  datatype StreamChunk = StreamChunk(delta: string, done: bool)
  datatype Item = Chunk(chunk: StreamChunk) | Failed(message: string)

  /** What a `data:` payload that is neither empty nor the end marker decodes to. */
  type FrameDecoder = string -> Option<Item>

  /** `trim_end_matches(['\n', '\r'])`. */
  function TrimBreaks(s: string): string {
    if s != "" && (s[|s| - 1] == '\n' || s[|s| - 1] == '\r') then TrimBreaks(s[..|s| - 1]) else s
  }

  function DecodeLine(frame: FrameDecoder, line: string): Option<Item> {
    if !("data:" <= line) then None else
      var data := Trim(line[5..]);
      if data == "" then None
      else if data == "[DONE]" then Some(Chunk(StreamChunk("", true)))
      else frame(data)
  }

  function ItemsOfLine(frame: FrameDecoder, line: string): seq<Item> {
    match DecodeLine(frame, TrimBreaks(line)) case None => [] case Some(item) => [item]
  }

  // -- the whole stream at once ------------------------------------------------

  function ItemsOfLines(frame: FrameDecoder, lines: seq<string>): seq<Item> {
    if lines == [] then [] else ItemsOfLine(frame, lines[0]) + ItemsOfLines(frame, lines[1..])
  }

  /** The lines of a text that end with a line feed. */
  function CompleteLines(text: string): seq<string> {
    var pieces := SplitChar(text, '\n');
    pieces[..|pieces| - 1]
  }

  /** What follows the last line feed. */
  function Tail(text: string): (r: string)
    ensures '\n' !in r
  {
    SplitCharPieces(text, '\n');
    var pieces := SplitChar(text, '\n');
    pieces[|pieces| - 1]
  }

  function Items(frame: FrameDecoder, text: string): seq<Item> {
    ItemsOfLines(frame, CompleteLines(text))
  }

  // -- the decoder -------------------------------------------------------------

  class Decoder {
    const frame: FrameDecoder
    var buf: string

    constructor (frame: FrameDecoder)
      ensures this.frame == frame && buf == ""
    {
      this.frame := frame;
      buf := "";
    }

    method Push(bytes: Bytes) returns (out: seq<Item>)
      modifies this
      ensures out == Items(frame, old(buf) + Lossy(bytes))
      ensures buf == Tail(old(buf) + Lossy(bytes))
    {
      buf := buf + Lossy(bytes);
      ghost var text := buf;
      out := [];
      while '\n' in buf
        invariant out + Items(frame, buf) == Items(frame, text)
        invariant Tail(buf) == Tail(text)
        decreases |buf|
      {
        hide *;
        var i := IndexOf(buf, '\n');
        var line := buf[..i + 1];
        FirstLine(frame, buf);
        buf := buf[i + 1..];
        var item := DecodeLine(frame, TrimBreaks(line));
        LineDone(frame, line, item);
        Assoc(out, ItemsOfLine(frame, line), Items(frame, buf));
        if item.Some? {
          out := out + [item.value];
        } else {
          EmptyRight(out);
        }
      }
      hide *;
      NoLine(frame, buf);
      EmptyRight(out);
    }
  }

  lemma LineDone(frame: FrameDecoder, line: string, item: Option<Item>)
    requires item == DecodeLine(frame, TrimBreaks(line))
    ensures ItemsOfLine(frame, line) == (if item.Some? then [item.value] else [])
  {
  }

  lemma TrimBreaksDrops(line: string)
    ensures TrimBreaks(line + "\n") == TrimBreaks(line)
  {
    assert (line + "\n")[..|line|] == line;
  }

  /** Taking the first line off. */
  lemma FirstLine(frame: FrameDecoder, text: string)
    requires '\n' in text
    ensures
      var i := IndexOf(text, '\n');
      && Items(frame, text) == ItemsOfLine(frame, text[..i + 1]) + Items(frame, text[i + 1..])
      && Tail(text) == Tail(text[i + 1..])
  {
    hide *;
    FirstPiece(text);
    FirstLineItems(frame, text, IndexOf(text, '\n'));
  }

  lemma FirstLineItems(frame: FrameDecoder, text: string, i: nat)
    requires i < |text| && text[i] == '\n' && CompleteLines(text) == [text[..i]] + CompleteLines(text[i + 1..])
    ensures Items(frame, text) == ItemsOfLine(frame, text[..i + 1]) + Items(frame, text[i + 1..])
  {
    hide *;
    SliceWithBreak(text, i);
    ItemsVia(frame, text, text[..i], text[i + 1..]);
    LineWithBreak(frame, text[..i]);
  }

  lemma SliceWithBreak(text: string, i: nat)
    requires i < |text| && text[i] == '\n'
    ensures text[..i + 1] == text[..i] + "\n"
  {
  }

  lemma ItemsVia(frame: FrameDecoder, text: string, line: string, rest: string)
    requires CompleteLines(text) == [line] + CompleteLines(rest)
    ensures Items(frame, text) == ItemsOfLine(frame, line) + Items(frame, rest)
  {
    ItemsOfCons(frame, line, CompleteLines(rest));
  }

  lemma LineWithBreak(frame: FrameDecoder, line: string)
    ensures ItemsOfLine(frame, line + "\n") == ItemsOfLine(frame, line)
  {
    TrimBreaksDrops(line);
  }

  lemma FirstPiece(text: string)
    requires '\n' in text
    ensures
      var i := IndexOf(text, '\n');
      && CompleteLines(text) == [text[..i]] + CompleteLines(text[i + 1..])
      && Tail(text) == Tail(text[i + 1..])
  {
    var i := IndexOf(text, '\n');
    FrontAndLast(text[..i], SplitChar(text[i + 1..], '\n'));
  }

  lemma FrontAndLast<T>(x: T, p: seq<T>)
    requires p != []
    ensures
      var q := [x] + p;
      q[..|q| - 1] == [x] + p[..|p| - 1] && q[|q| - 1] == p[|p| - 1]
  {
  }

  lemma ItemsOfCons(frame: FrameDecoder, line: string, lines: seq<string>)
    ensures ItemsOfLines(frame, [line] + lines) == ItemsOfLine(frame, line) + ItemsOfLines(frame, lines)
  {
    assert ([line] + lines)[1..] == lines;
  }

  // -- runs --------------------------------------------------------------------

  /** All items of a sequence of pushes that starts with `buf` buffered. */
  function PushAll(frame: FrameDecoder, buf: string, chunks: seq<Bytes>): (seq<Item>, string)
    decreases |chunks|
  {
    if chunks == [] then ([], buf) else
      var text := buf + Lossy(chunks[0]);
      var rest := PushAll(frame, Tail(text), chunks[1..]);
      (Items(frame, text) + rest.0, rest.1)
  }

  function LossyAll(chunks: seq<Bytes>): string {
    if chunks == [] then "" else Lossy(chunks[0]) + LossyAll(chunks[1..])
  }

  /** The items of a text are those of a part of it, then those of its tail and the rest. */
  lemma {:induction false} ItemsConcat(frame: FrameDecoder, a: string, b: string)
    ensures Items(frame, a + b) == Items(frame, a) + Items(frame, Tail(a) + b)
    ensures Tail(a + b) == Tail(Tail(a) + b)
    decreases |a|
  {
    hide *;
    if '\n' !in a {
      NoLine(frame, a);
      EmptyLeft(Items(frame, a + b));
    } else {
      var i := IndexOf(a, '\n');
      FirstLine(frame, a);
      SameFirstLine(a, b);
      ItemsConcat(frame, a[i + 1..], b);
      FirstLine(frame, a + b);
      Assoc(ItemsOfLine(frame, a[..i + 1]), Items(frame, a[i + 1..]), Items(frame, Tail(a) + b));
    }
  }

  lemma EmptyLeft<T>(s: seq<T>)
    ensures [] + s == s
  {
  }

  lemma NoLine(frame: FrameDecoder, text: string)
    requires '\n' !in text
    ensures Items(frame, text) == [] && Tail(text) == text
  {
    NoSplit(text, '\n');
  }

  lemma SameFirstLine(a: string, b: string)
    requires '\n' in a
    ensures
      var i := IndexOf(a, '\n');
      '\n' in a + b && IndexOf(a + b, '\n') == i && (a + b)[..i + 1] == a[..i + 1] && (a + b)[i + 1..] == a[i + 1..] + b
  {
    var i := IndexOf(a, '\n');
    assert a + b == a[..i] + ['\n'] + (a[i + 1..] + b);
    IndexOfAfter(a[..i], '\n', a[i + 1..] + b);
  }

  /** The items of all pushes are those of the text the chunks decode to one by one, and
      the buffer is its unterminated tail. */
  lemma {:induction false} PushesDecodeText(frame: FrameDecoder, buf: string, chunks: seq<Bytes>)
    requires '\n' !in buf
    ensures PushAll(frame, buf, chunks)
         == (Items(frame, buf + LossyAll(chunks)), Tail(buf + LossyAll(chunks)))
    decreases |chunks|
  {
    if chunks == [] {
      NoSplit(buf, '\n');
      assert buf + "" == buf;
    } else {
      var text := buf + Lossy(chunks[0]);
      PushesDecodeText(frame, Tail(text), chunks[1..]);
      PushOne(frame, buf, chunks);
      hide *;
      ItemsConcat(frame, text, LossyAll(chunks[1..]));
      LossyFirst(buf, chunks);
    }
  }

  lemma PushOne(frame: FrameDecoder, buf: string, chunks: seq<Bytes>)
    requires chunks != []
    ensures
      var text := buf + Lossy(chunks[0]);
      var rest := PushAll(frame, Tail(text), chunks[1..]);
      PushAll(frame, buf, chunks) == (Items(frame, text) + rest.0, rest.1)
  {
    hide Items, Tail, Lossy;
  }

  lemma LossyFirst(buf: string, chunks: seq<Bytes>)
    requires chunks != []
    ensures buf + LossyAll(chunks) == buf + Lossy(chunks[0]) + LossyAll(chunks[1..])
  {
    hide Lossy;
  }

  // -- which ways of cutting are harmless --------------------------------------

  /** Every chunk is UTF-8 by itself: no character is cut. */
  predicate CutAtCharacters(chunks: seq<Bytes>) {
    forall i | 0 <= i < |chunks| :: Encode(Lossy(chunks[i])) == chunks[i]
  }

  lemma {:induction false} WholeCharactersDecode(chunks: seq<Bytes>)
    requires CutAtCharacters(chunks)
    ensures Encode(LossyAll(chunks)) == Flatten(chunks)
    decreases |chunks|
  {
    if chunks != [] {
      WholeCharactersDecode(chunks[1..]);
      EncodeConcat(Lossy(chunks[0]), LossyAll(chunks[1..]));
    }
  }

  predicate AllCont(b: Bytes) {
    forall i | 0 <= i < |b| :: 0x80 <= b[i] as int <= 0xBF
  }

  /** Stray continuation bytes give one replacement character each. */
  lemma {:induction false} StrayBytes(a: Bytes, b: Bytes)
    requires AllCont(a)
    ensures |Lossy(a + b)| == |a| + |Lossy(b)|
    decreases |a|
  {
    if a == "" {
      assert a + b == b;
    } else {
      assert DecodeStep(a + b).1 == 1;
      assert (a + b)[1..] == a[1..] + b;
      StrayBytes(a[1..], b);
    }
  }

  /** A step within `a` does not depend on what follows `a`. */
  lemma StepWithin(a: Bytes, b: Bytes)
    requires a != "" && DecodeStep(a + b).1 <= |a|
    ensures DecodeStep(a + b).1 == DecodeStep(a).1
  {
  }

  lemma StepBeyond(a: Bytes, b: Bytes)
    requires a != "" && DecodeStep(a + b).1 > |a|
    ensures AllCont(b[..DecodeStep(a + b).1 - |a|])
  {
    var n := DecodeStep(a + b).1 - |a|;
    forall i | 0 <= i < n ensures 0x80 <= b[i] as int <= 0xBF {
      assert b[i] == (a + b)[|a| + i];
      StepTail(a + b, |a| + i);
    }
  }

  lemma StepTail(b: Bytes, j: nat)
    requires b != "" && 0 < j < DecodeStep(b).1
    ensures 0x80 <= b[j] as int <= 0xBF
  {
  }

  /** Cutting never makes fewer characters. */
  lemma {:induction false} CutsAddCharacters(a: Bytes, b: Bytes)
    ensures |Lossy(a + b)| <= |Lossy(a)| + |Lossy(b)|
    decreases |a|
  {
    if a == "" {
      assert a + b == b;
    } else {
      var n := DecodeStep(a + b).1;
      if n <= |a| {
        StepWithin(a, b);
        assert (a + b)[n..] == a[n..] + b;
        CutsAddCharacters(a[n..], b);
      } else {
        var k := n - |a|;
        StepBeyond(a, b);
        StrayBytes(b[..k], b[k..]);
        assert b[..k] + b[k..] == b && (a + b)[n..] == b[k..];
      }
    }
  }

  lemma {:induction false} ChunksAddCharacters(chunks: seq<Bytes>)
    ensures |Lossy(Flatten(chunks))| <= |LossyAll(chunks)|
    decreases |chunks|
  {
    if chunks != [] {
      ChunksAddCharacters(chunks[1..]);
      CutsAddCharacters(chunks[0], Flatten(chunks[1..]));
    }
  }

  lemma CharTailIsCont(c: char, k: nat)
    requires 0 < k <= |EncodeChar(c)|
    ensures AllCont(EncodeChar(c)[k..])
  {
  }

  /** Encoded text cut in two: either between characters, or the pieces decode to more
      characters than the text has. */
  lemma {:induction false} CutInTwo(text: string, a: Bytes, b: Bytes)
    requires a + b == Encode(text)
    ensures (exists i :: 0 <= i <= |text| && a == Encode(text[..i]) && b == Encode(text[i..]))
         || |Lossy(a)| + |Lossy(b)| > |text|
    decreases |text|
  {
    if a == "" {
      assert a + b == b && text[..0] == "" && text[0..] == text;
    } else {
      var head, rest := EncodeChar(text[0]), text[1..];
      if |a| < |head| {
        CutFirst(text, a, b);
      } else {
        var a' := a[|head|..];
        assert a == head + a' by { assert (a + b)[..|head|] == head; }
        assert a' + b == Encode(rest) by { assert (a + b)[|head|..] == a' + b; }
        CutInTwo(rest, a', b);
        LossyOfCharThen(text[0], a');
        if i :| 0 <= i <= |rest| && a' == Encode(rest[..i]) && b == Encode(rest[i..]) {
          ShiftCut(text, a', i);
        }
      }
    }
  }

  lemma ShiftCut(text: string, a: Bytes, i: nat)
    requires text != "" && i <= |text[1..]| && a == Encode(text[1..][..i])
    ensures EncodeChar(text[0]) + a == Encode(text[..i + 1]) && text[1..][i..] == text[i + 1..]
  {
    assert text[..i + 1][1..] == text[1..][..i];
  }

  /** A cut inside the first character. */
  lemma CutFirst(text: string, a: Bytes, b: Bytes)
    requires text != "" && a + b == Encode(text) && 0 < |a| < |EncodeChar(text[0])|
    ensures |Lossy(a)| + |Lossy(b)| > |text|
  {
    var head, rest := EncodeChar(text[0]), Encode(text[1..]);
    CharTailIsCont(text[0], |a|);
    LossyOfEncode(text[1..]);
    LossyNotEmpty(a);
    hide EncodeChar, Lossy, AllCont;
    RestOfSum(a, b, head, rest);
    StrayBytes(head[|a|..], rest);
  }

  lemma LossyNotEmpty(a: Bytes)
    requires a != ""
    ensures |Lossy(a)| >= 1
  {
  }

  lemma RestOfSum(a: Bytes, b: Bytes, head: Bytes, rest: Bytes)
    requires a + b == head + rest && |a| <= |head|
    ensures b == head[|a|..] + rest
  {
    assert (a + b)[|a|..] == b && (head + rest)[|a|..] == head[|a|..] + rest;
  }

  /** For a stream that is UTF-8 as a whole, the decoder sees exactly its text if and only
      if no chunk cuts a character. */
  lemma {:induction false} SeenExactlyIffWholeCharacters(text: string, chunks: seq<Bytes>)
    requires Flatten(chunks) == Encode(text)
    ensures LossyAll(chunks) == text <==> CutAtCharacters(chunks)
    decreases |chunks|
  {
    if CutAtCharacters(chunks) {
      WholeCharactersDecode(chunks);
      LossyOfEncode(LossyAll(chunks));
      LossyOfEncode(text);
    } else {
      var a, rest := chunks[0], chunks[1..];
      CutInTwo(text, a, Flatten(rest));
      ChunksAddCharacters(rest);
      if |Lossy(a)| + |Lossy(Flatten(rest))| <= |text| {
        var i :| 0 <= i <= |text| && a == Encode(text[..i]) && Flatten(rest) == Encode(text[i..]);
        FirstChunkWhole(text, chunks, i);
      }
    }
  }

  lemma FirstChunkWhole(text: string, chunks: seq<Bytes>, i: nat)
    requires chunks != [] && i <= |text| && chunks[0] == Encode(text[..i]) && Flatten(chunks[1..]) == Encode(text[i..])
    requires !CutAtCharacters(chunks)
    ensures LossyAll(chunks) != text
    decreases |chunks|, 0
  {
    LossyOfEncode(text[..i]);
    var bad :| 0 <= bad < |chunks| && Encode(Lossy(chunks[bad])) != chunks[bad];
    assert chunks[1..][bad - 1] == chunks[bad];
    SeenExactlyIffWholeCharacters(text[i..], chunks[1..]);
    assert LossyAll(chunks)[i..] == LossyAll(chunks[1..]);
  }

  /** Chunking does not matter: for every stream cut between characters, all pushes
      together give the items of its newline-terminated lines, and what stays buffered is
      its unterminated tail. */
  lemma ChunkingDoesNotMatter(frame: FrameDecoder, text: string, chunks: seq<Bytes>)
    requires Flatten(chunks) == Encode(text) && CutAtCharacters(chunks)
    ensures PushAll(frame, "", chunks) == (Items(frame, text), Tail(text))
  {
    SeenExactlyIffWholeCharacters(text, chunks);
    PushesDecodeText(frame, "", chunks);
    assert "" + LossyAll(chunks) == LossyAll(chunks);
  }

  /** A frame cut inside a character comes out with two replacement characters. */
  lemma CutCharacterIsLost(frame: FrameDecoder)
    requires forall s :: frame(s) == Some(Chunk(StreamChunk(s, false)))
    ensures
      var e := '\U{00E9}';
      && Items(frame, "data:" + [e] + "\n") == [Chunk(StreamChunk([e], false))]
      && PushAll(frame, "", ["data:" + Encode([e])[..1], Encode([e])[1..] + "\n"]).0
         == [Chunk(StreamChunk([REPLACEMENT, REPLACEMENT], false))]
  {
    var e := '\U{00E9}';
    var chunks := ["data:" + Encode([e])[..1], Encode([e])[1..] + "\n"];
    OneItem(frame, [e]);
    OneItem(frame, [REPLACEMENT, REPLACEMENT]);
    CutChunks();
    PushesDecodeText(frame, "", chunks);
    assert "" + LossyAll(chunks) == LossyAll(chunks);
  }

  lemma CutChunks()
    ensures
      var e := '\U{00E9}';
      LossyAll(["data:" + Encode([e])[..1], Encode([e])[1..] + "\n"]) == "data:" + [REPLACEMENT, REPLACEMENT] + "\n"
  {
    var e := '\U{00E9}';
    var e1, e2 := Encode([e])[..1], Encode([e])[1..] + "\n";
    LossyOfEncodeThen("data:", e1);
    EncodeAscii("data:");
    FirstHalf(e1);
    SecondHalf(e2);
    hide *;
    TwoChunks("data:" + e1, e2);
    HalvesTogether();
  }

  lemma HalvesTogether()
    ensures "data:" + [REPLACEMENT] + ([REPLACEMENT] + "\n") == "data:" + [REPLACEMENT, REPLACEMENT] + "\n"
  {
  }

  lemma FirstHalf(b: Bytes)
    requires b == Encode(['\U{00E9}'])[..1]
    ensures Lossy(b) == [REPLACEMENT]
  {
    assert b[1..] == "";
  }

  lemma SecondHalf(b: Bytes)
    requires b == Encode(['\U{00E9}'])[1..] + "\n"
    ensures Lossy(b) == [REPLACEMENT] + "\n"
  {
    assert b[1..] == "\n" && "\n"[1..] == "";
    assert Lossy("\n") == "\n";
  }

  lemma TwoChunks(a: Bytes, b: Bytes)
    ensures LossyAll([a, b]) == Lossy(a) + Lossy(b)
  {
    assert [a, b][1..] == [b] && [b][1..] == [];
    assert LossyAll([b]) == Lossy(b) + LossyAll([]);
  }

  lemma OneItem(frame: FrameDecoder, word: string)
    requires forall s :: frame(s) == Some(Chunk(StreamChunk(s, false)))
    requires Trimmed(word) && word != "" && word[0] != '[' && '\n' !in word
    ensures Items(frame, "data:" + word + "\n") == [Chunk(StreamChunk(word, false))]
  {
    var line := "data:" + word;
    assert line + "\n" == line + ['\n'] + "";
    SplitCharAfter(line, '\n', "");
    NoSplit("", '\n');
    assert CompleteLines(line + "\n") == [line] && [line][1..] == [];
    LineItem(frame, word);
    assert ItemsOfLines(frame, [line]) == ItemsOfLine(frame, line) + ItemsOfLines(frame, []);
  }

  lemma LineItem(frame: FrameDecoder, word: string)
    requires forall s :: frame(s) == Some(Chunk(StreamChunk(s, false)))
    requires Trimmed(word) && word != "" && word[0] != '['
    ensures ItemsOfLine(frame, "data:" + word) == [Chunk(StreamChunk(word, false))]
  {
    var line := "data:" + word;
    assert line[|line| - 1] == word[|word| - 1] && IsWhitespace('\r') && IsWhitespace('\n');
    assert TrimBreaks(line) == line;
    TrimOfTrimmed(word);
    assert line[5..] == word;
    assert "[DONE]"[0] == '[';
  }

  // -- streams of frames -------------------------------------------------------

  /** One line of a stream: a payload, the end marker, or something else. */
  datatype SseLine = Payload(lead: string, data: string) | End | Other(text: string)

  function Written(l: SseLine): string {
    match l
    case Payload(lead, data) => "data:" + (lead + data)
    case End => "data:" + (" " + "[DONE]")
    case Other(text) => text
  }

  /** Lines with their breaks, either CRLF or LF. */
  function Stream(lines: seq<SseLine>, crlf: bool): string {
    if lines == [] then "" else Written(lines[0]) + (if crlf then "\r" else "") + "\n" + Stream(lines[1..], crlf)
  }

  function Meant(frame: FrameDecoder, l: SseLine): seq<Item> {
    match l
    case Payload(_, data) => (match frame(data) case None => [] case Some(item) => [item])
    case End => [Chunk(StreamChunk("", true))]
    case Other(_) => []
  }

  function AllMeant(frame: FrameDecoder, lines: seq<SseLine>): seq<Item> {
    if lines == [] then [] else Meant(frame, lines[0]) + AllMeant(frame, lines[1..])
  }

  /** No line breaks; a payload that is trimmed, not empty and not the end marker; other
      lines are not `data:` lines, or hold nothing. */
  predicate GoodLine(l: SseLine) {
    match l
    case Payload(lead, data) =>
      && (forall i | 0 <= i < |lead| :: lead[i] == ' ') && Trimmed(data) && data != "" && data != "[DONE]"
      && '\n' !in data && '\r' !in data
    case End => true
    case Other(text) => '\n' !in text && '\r' !in text && !("data:" <= text && text != "data:")
  }

  lemma {:induction false} TrimLead(lead: string, data: string)
    requires (forall i | 0 <= i < |lead| :: lead[i] == ' ') && Trimmed(data) && data != ""
    ensures Trim(lead + data) == data
    decreases |lead|
  {
    if lead == "" {
      assert lead + data == data;
      TrimOfTrimmed(data);
    } else {
      assert (lead + data)[1..] == lead[1..] + data;
      TrimLead(lead[1..], data);
    }
  }

  lemma NoBreakToTrim(s: string)
    requires '\n' !in s && '\r' !in s
    ensures TrimBreaks(s) == s && TrimBreaks(s + "\r") == s
  {
    assert (s + "\r")[..|s|] == s;
  }

  lemma DataLine(frame: FrameDecoder, lead: string, data: string)
    requires (forall i | 0 <= i < |lead| :: lead[i] == ' ') && Trimmed(data) && data != ""
    ensures DecodeLine(frame, "data:" + (lead + data))
         == if data == "[DONE]" then Some(Chunk(StreamChunk("", true))) else frame(data)
  {
    var line := "data:" + (lead + data);
    assert line[5..] == lead + data && "data:" <= line;
    TrimLead(lead, data);
  }

  lemma OneLineMeans(frame: FrameDecoder, l: SseLine, crlf: bool)
    requires GoodLine(l)
    ensures ItemsOfLine(frame, Written(l) + (if crlf then "\r" else "")) == Meant(frame, l)
    ensures '\n' !in Written(l) + (if crlf then "\r" else "")
  {
    var w := Written(l);
    assert w + "" == w;
    match l {
      case Payload(lead, data) =>
        NoBreakToTrim(w);
        DataLine(frame, lead, data);
      case End =>
        NoBreakToTrim(w);
        DataLine(frame, " ", "[DONE]");
      case Other(text) =>
        NoBreakToTrim(w);
        assert text == "data:" ==> text[5..] == "";
    }
  }

  /** The items of a stream: what each payload decodes to, a final chunk for every end
      marker, nothing for other lines; in order, with either line break. */
  lemma {:induction false} ItemsOfStream(frame: FrameDecoder, lines: seq<SseLine>, crlf: bool)
    requires forall i | 0 <= i < |lines| :: GoodLine(lines[i])
    ensures Items(frame, Stream(lines, crlf)) == AllMeant(frame, lines) && Tail(Stream(lines, crlf)) == ""
    decreases |lines|
  {
    if lines == [] {
      NoLine(frame, "");
    } else {
      ItemsOfStream(frame, lines[1..], crlf);
      OneLineMeans(frame, lines[0], crlf);
      hide *;
      var first, rest := Written(lines[0]) + (if crlf then "\r" else ""), Stream(lines[1..], crlf);
      StreamIs(lines, crlf);
      LineThen(frame, first, rest);
      MeantCons(frame, lines);
    }
  }

  lemma StreamIs(lines: seq<SseLine>, crlf: bool)
    requires lines != []
    ensures Stream(lines, crlf) == Written(lines[0]) + (if crlf then "\r" else "") + "\n" + Stream(lines[1..], crlf)
  {
  }

  lemma MeantCons(frame: FrameDecoder, lines: seq<SseLine>)
    requires lines != []
    ensures AllMeant(frame, lines) == Meant(frame, lines[0]) + AllMeant(frame, lines[1..])
  {
  }

  lemma LineThen(frame: FrameDecoder, line: string, rest: string)
    requires '\n' !in line
    ensures Items(frame, line + "\n" + rest) == ItemsOfLine(frame, line) + Items(frame, rest)
    ensures Tail(line + "\n" + rest) == Tail(rest)
  {
    var text := line + "\n" + rest;
    IndexOfAfter(line, '\n', rest);
    assert text == line + ['\n'] + rest;
    assert text[..|line| + 1] == line + "\n" && text[|line| + 1..] == rest;
    hide Items, Tail, ItemsOfLine;
    FirstLine(frame, text);
    LineWithBreak(frame, line);
  }
}
