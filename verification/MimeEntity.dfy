/** MIME entities: header block, exact body, and their serialization
    (crates/mw-crypto/src/mime.rs). */
module MimeEntity {
  import opened Wrappers
  import opened Text
  import opened Utf8

  type Field = (string, string)

  /** A header block, unfolded and in order, and the exact remaining bytes. */
  datatype Entity = Entity(headers: seq<Field>, body: Bytes) {
    function ToBytes(): Bytes {
      Encode(HeaderText(headers)) + "\r\n" + body
    }

    function Header(name: string): Option<string> {
      FirstField(headers, name)
    }
  }

  function Line(f: Field): string {
    f.0 + ": " + f.1
  }

  function HeaderText(headers: seq<Field>): string {
    if headers == [] then "" else Line(headers[0]) + "\r\n" + HeaderText(headers[1..])
  }

  function FirstField(fields: seq<Field>, name: string): Option<string> {
    if fields == [] then None
    else if SameIgnoringCase(fields[0].0, name) then Some(fields[0].1)
    else FirstField(fields[1..], name)
  }

  // -- reading -----------------------------------------------------------------

  /** Where the header block ends and where the body starts. */
  function HeaderEnd(raw: Bytes): (r: (nat, nat))
    ensures r.0 <= r.1 <= |raw|
  {
    if CrlfAt(raw, 0) then (0, 2)
    else if raw != [] && raw[0] == '\n' then (0, 1)
    else
      var crlf, lf := Find(raw, "\r\n\r\n"), Find(raw, "\n\n");
      if crlf.Some? && (lf.None? || crlf.value <= lf.value) then (crlf.value, crlf.value + 4)
      else if lf.Some? then (lf.value, lf.value + 2)
      else (|raw|, |raw|)
  }

  function ParseEntity(raw: Bytes): Entity {
    var (end, start) := HeaderEnd(raw);
    Entity(HeaderBlock(Lossy(raw[..end])), raw[start..])
  }

  function StripCr(line: string): string {
    if line != "" && line[|line| - 1] == '\r' then line[..|line| - 1] else line
  }

  /** The fields after reading one more physical line. */
  function ReadLine(out: seq<Field>, physical: string): seq<Field> {
    var line := StripCr(physical);
    if line == "" then out
    else if line[0] == ' ' || line[0] == '\t' then
      if out == [] then out else
        var last := out[|out| - 1];
        out[|out| - 1 := (last.0, last.1 + " " + Trim(line))]
    else
      match SplitOnce(line, ':')
      case None => out
      case Some((n, v)) => out + [(Trim(n), Trim(v))]
  }

  function ReadLines(out: seq<Field>, lines: seq<string>): seq<Field>
    decreases |lines|
  {
    if lines == [] then out else ReadLines(ReadLine(out, lines[0]), lines[1..])
  }

  /** The fields of a header block. */
  function HeaderBlock(block: string): seq<Field> {
    ReadLines([], SplitChar(block, '\n'))
  }

  method ParseHeaderBlock(block: string) returns (out: seq<Field>)
    ensures out == HeaderBlock(block)
  {
    out := [];
    var lines := SplitChar(block, '\n');
    for i := 0 to |lines|
      invariant ReadLines(out, lines[i..]) == HeaderBlock(block)
    {
      var line := StripCr(lines[i]);
      if line == "" {
        assert lines[i..][1..] == lines[i + 1..];
        continue;
      }
      if line[0] == ' ' || line[0] == '\t' {
        if out != [] {
          var last := out[|out| - 1];
          out := out[|out| - 1 := (last.0, last.1 + " " + Trim(line))];
        }
        assert lines[i..][1..] == lines[i + 1..];
        continue;
      }
      var split := SplitOnce(line, ':');
      if split.Some? {
        out := out + [(Trim(split.value.0), Trim(split.value.1))];
      }
      assert lines[i..][1..] == lines[i + 1..];
    }
  }

  // -- writing, then reading ---------------------------------------------------

  /** What a field must look like to survive a header line. Every field the reader
      returns is of this kind. */
  predicate Writable(f: Field) {
    && Trimmed(f.0) && ':' !in f.0 && '\n' !in f.0 && '\n' !in f.1
    && (f.1 == "" || f.1[|f.1| - 1] != '\r')
  }

  predicate AllWritable(fields: seq<Field>) {
    forall i | 0 <= i < |fields| :: Writable(fields[i])
  }

  function TrimValues(fields: seq<Field>): seq<Field> {
    seq(|fields|, i requires 0 <= i < |fields| => (fields[i].0, Trim(fields[i].1)))
  }

  lemma TrimmedPairWritable(n: string, v: string)
    requires ':' !in n && '\n' !in n && '\n' !in v
    ensures Writable((Trim(n), Trim(v)))
  {
    TrimResult(n);
    TrimResult(v);
  }

  lemma ContinuedWritable(f: Field, line: string)
    requires Writable(f) && '\n' !in line
    ensures Writable((f.0, f.1 + " " + Trim(line)))
  {
    TrimResult(line);
    var v := f.1 + " " + Trim(line);
    assert v[|v| - 1] == if Trim(line) == "" then ' ' else Trim(line)[|Trim(line)| - 1];
  }

  lemma ReadLineWritable(out: seq<Field>, physical: string)
    requires AllWritable(out) && '\n' !in physical
    ensures AllWritable(ReadLine(out, physical))
  {
    hide Writable, Trim;
    var line := StripCr(physical);
    assert '\n' !in line;
    if line != "" {
      if line[0] == ' ' || line[0] == '\t' {
        if out != [] {
          ContinuedWritable(out[|out| - 1], line);
        }
      } else if ':' in line {
        SplitOnceParts(line, ':');
        var (n, v) := SplitOnce(line, ':').value;
        TrimmedPairWritable(n, v);
      }
    }
  }

  lemma {:induction false} ReadLinesWritable(out: seq<Field>, lines: seq<string>)
    requires AllWritable(out) && forall i | 0 <= i < |lines| :: '\n' !in lines[i]
    ensures AllWritable(ReadLines(out, lines))
    decreases |lines|
  {
    if lines != [] {
      ReadLineWritable(out, lines[0]);
      ReadLinesWritable(ReadLine(out, lines[0]), lines[1..]);
    }
  }

  /** Every field the reader returns can be written back. */
  lemma HeaderBlockWritable(block: string)
    ensures AllWritable(HeaderBlock(block))
  {
    SplitCharPieces(block, '\n');
    ReadLinesWritable([], SplitChar(block, '\n'));
  }

  /** Header lines with line breaks between them but none after the last. */
  function BlockText(headers: seq<Field>): string
    requires headers != []
  {
    if |headers| == 1 then Line(headers[0])
    else Line(headers[0]) + "\r\n" + BlockText(headers[1..])
  }

  lemma {:induction false} HeaderTextIsBlock(headers: seq<Field>)
    requires headers != []
    ensures HeaderText(headers) == BlockText(headers) + "\r\n"
    decreases |headers|
  {
    if |headers| > 1 {
      HeaderTextIsBlock(headers[1..]);
      assert HeaderText(headers) == Line(headers[0]) + "\r\n" + (BlockText(headers[1..]) + "\r\n");
    } else {
      assert HeaderText(headers[1..]) == "";
    }
  }

  lemma TrimSpace(v: string)
    ensures Trim(" " + v) == Trim(v)
  {
    assert (" " + v)[1..] == v;
  }

  lemma WrittenLineShape(f: Field)
    requires Writable(f)
    ensures
      var line := Line(f);
      && line != "" && line[0] != ' ' && line[0] != '\t' && line[|line| - 1] != '\r' && '\n' !in line
      && SplitOnce(line, ':') == Some((f.0, " " + f.1))
  {
    var line := Line(f);
    assert line[|line| - 1] == if f.1 == "" then ' ' else f.1[|f.1| - 1];
    assert line[0] == if f.0 == "" then ':' else f.0[0];
    assert line == f.0 + [':'] + (" " + f.1);
    SplitOnceAfter(f.0, ':', " " + f.1);
  }

  /** A written line, with or without the CR that precedes its LF, reads back. */
  lemma ReadWrittenLine(out: seq<Field>, f: Field)
    requires Writable(f)
    ensures ReadLine(out, Line(f)) == ReadLine(out, Line(f) + "\r") == out + [(f.0, Trim(f.1))]
  {
    WrittenLineShape(f);
    TrimOfTrimmed(f.0);
    TrimSpace(f.1);
    hide Line, Writable, Trim, SplitOnce;
    var line := Line(f);
    assert StripCr(line + "\r") == line;
  }

  lemma ReadOneLine(out: seq<Field>, line: string)
    ensures ReadLines(out, [line]) == ReadLine(out, line)
  {
    assert [line][1..] == [];
  }

  lemma ReadFirstLine(out: seq<Field>, line: string, rest: seq<string>)
    ensures ReadLines(out, [line] + rest) == ReadLines(ReadLine(out, line), rest)
  {
    assert ([line] + rest)[1..] == rest;
  }

  lemma BlockTextCons(headers: seq<Field>)
    requires |headers| > 1
    ensures BlockText(headers) == (Line(headers[0]) + "\r") + ['\n'] + BlockText(headers[1..])
  {
    BreakIs(Line(headers[0]), BlockText(headers[1..]));
    hide Line;
  }

  lemma BreakIs(line: string, rest: string)
    ensures line + "\r\n" + rest == (line + "\r") + ['\n'] + rest
  {
  }

  lemma BlockLines(headers: seq<Field>)
    requires |headers| > 1 && Writable(headers[0])
    ensures SplitChar(BlockText(headers), '\n')
         == [Line(headers[0]) + "\r"] + SplitChar(BlockText(headers[1..]), '\n')
  {
    hide *;
    WrittenLineShape(headers[0]);
    BlockTextCons(headers);
    SplitCharAfter(Line(headers[0]) + "\r", '\n', BlockText(headers[1..]));
  }

  lemma ReadLastWrittenLine(out: seq<Field>, headers: seq<Field>)
    requires |headers| == 1 && Writable(headers[0])
    ensures ReadLines(out, SplitChar(BlockText(headers), '\n')) == out + TrimValues(headers)
  {
    var f := headers[0];
    ReadWrittenLine(out, f);
    WrittenLineShape(f);
    NoSplit(Line(f), '\n');
    ReadOneLine(out, Line(f));
    assert TrimValues(headers) == [(f.0, Trim(f.1))];
  }

  lemma ReadOneWrittenLine(out: seq<Field>, headers: seq<Field>)
    requires |headers| > 1 && Writable(headers[0])
    ensures
      ReadLines(out, SplitChar(BlockText(headers), '\n'))
      == ReadLines(out + [(headers[0].0, Trim(headers[0].1))], SplitChar(BlockText(headers[1..]), '\n'))
  {
    var f := headers[0];
    ReadWrittenLine(out, f);
    BlockLines(headers);
    hide *;
    ReadFirstLine(out, Line(f) + "\r", SplitChar(BlockText(headers[1..]), '\n'));
  }

  lemma {:induction false} ReadWrittenLines(out: seq<Field>, headers: seq<Field>)
    requires headers != [] && AllWritable(headers)
    ensures ReadLines(out, SplitChar(BlockText(headers), '\n')) == out + TrimValues(headers)
    decreases |headers|
  {
    if |headers| == 1 {
      ReadLastWrittenLine(out, headers);
    } else {
      ReadOneWrittenLine(out, headers);
      var out' := out + [(headers[0].0, Trim(headers[0].1))];
      ReadWrittenLines(out', headers[1..]);
      TrimValuesCons(out, headers);
    }
  }

  lemma TrimValuesCons(out: seq<Field>, headers: seq<Field>)
    requires headers != []
    ensures out + TrimValues(headers) == out + [(headers[0].0, Trim(headers[0].1))] + TrimValues(headers[1..])
  {
  }

  // -- finding the end of a written header block ------------------------------

  /** No LF is followed by another line break: there is no blank line inside. */
  predicate NoBlankLine(b: Bytes) {
    forall j | 0 <= j < |b| - 1 && b[j] == '\n' :: b[j + 1] != '\r' && b[j + 1] != '\n'
  }

  lemma EncodedLine(f: Field)
    requires Writable(f)
    ensures
      var b := Encode(Line(f));
      b != "" && b[0] != '\r' && b[0] != '\n' && '\n' !in b
  {
    var line := Line(f);
    EncodeAsciiMember(line, '\n');
    var c := line[0];
    assert c == if f.0 == "" then ':' else f.0[0];
    assert Encode(line)[0] == EncodeChar(c)[0];
  }

  /** No blank line, and, unless empty, starting with text and ending with CRLF. */
  predicate GoodBlock(b: Bytes) {
    NoBlankLine(b) && (b != "" ==> |b| > 2 && CrlfAt(b, |b| - 2) && b[0] != '\r' && b[0] != '\n')
  }

  lemma GoodBlockConcat(line: Bytes, tail: Bytes)
    requires line != "" && line[0] != '\r' && line[0] != '\n' && '\n' !in line
    requires GoodBlock(tail)
    ensures GoodBlock(line + "\r\n" + tail)
  {
    var b := line + "\r\n" + tail;
    assert b[|line|] == '\r' && b[|line| + 1] == '\n';
    assert tail != "" ==> b[|b| - 2] == tail[|tail| - 2] && b[|b| - 1] == tail[|tail| - 1];
    forall j | 0 <= j < |b| - 1 && b[j] == '\n' ensures b[j + 1] != '\r' && b[j + 1] != '\n' {
      assert forall k | 0 <= k < |line| :: b[k] in line;
      if j >= |line| + 2 {
        assert b[j] == tail[j - |line| - 2] && b[j + 1] == tail[j - |line| - 1];
      }
    }
  }

  lemma EncodedHeaderText(headers: seq<Field>)
    requires headers != []
    ensures Encode(HeaderText(headers)) == Encode(Line(headers[0])) + "\r\n" + Encode(HeaderText(headers[1..]))
  {
    EncodeConcat(Line(headers[0]) + "\r\n", HeaderText(headers[1..]));
    EncodeConcat(Line(headers[0]), "\r\n");
    EncodeAscii("\r\n");
  }

  lemma {:induction false} EncodedHeadersAreGood(headers: seq<Field>)
    requires AllWritable(headers)
    ensures GoodBlock(Encode(HeaderText(headers)))
    decreases |headers|
  {
    if headers != [] {
      EncodedHeadersAreGood(headers[1..]);
      EncodedLine(headers[0]);
      EncodedHeaderText(headers);
      GoodBlockConcat(Encode(Line(headers[0])), Encode(HeaderText(headers[1..])));
    }
  }

  /** The first empty line after a block without blank lines is the one that ends it. */
  lemma SeparatorAfterBlock(block: Bytes, rest: Bytes)
    requires block != "" && GoodBlock(block)
    ensures Find(block + "\r\n" + rest, "\r\n\r\n") == Some(|block| - 2)
  {
    var raw: Bytes := block + "\r\n" + rest;
    var e := |block| - 2;
    assert raw[e] == '\r' && raw[e + 1] == '\n' && raw[e + 2] == '\r' && raw[e + 3] == '\n';
    assert MatchesAt(raw, "\r\n\r\n", e);
    forall j | 0 <= j < e ensures !MatchesAt(raw, "\r\n\r\n", j) {
      assert raw[j + 1] == block[j + 1] && raw[j + 2] == block[j + 2];
      NoMatch(raw, "\r\n\r\n", j, if block[j + 1] == '\n' then 2 else 1);
    }
    FindIs(raw, "\r\n\r\n", e);
  }

  lemma NoBareSeparatorBefore(block: Bytes, rest: Bytes)
    requires block != "" && GoodBlock(block)
    ensures
      var lf := Find(block + "\r\n" + rest, "\n\n");
      lf.Some? ==> lf.value >= |block| - 2
  {
    var raw: Bytes := block + "\r\n" + rest;
    forall j | 0 <= j < |block| - 2 ensures !MatchesAt(raw, "\n\n", j) {
      assert raw[j] == block[j] && raw[j + 1] == block[j + 1];
      NoMatch(raw, "\n\n", j, if block[j] == '\n' then 1 else 0);
    }
  }

  lemma HeaderEndAfterBlock(block: Bytes, rest: Bytes)
    requires block != "" && GoodBlock(block)
    ensures HeaderEnd(block + "\r\n" + rest) == (|block| - 2, |block| + 2)
  {
    SeparatorAfterBlock(block, rest);
    NoBareSeparatorBefore(block, rest);
    assert (block + "\r\n" + rest)[0] == block[0];
  }

  lemma ParseOfNoHeaders(body: Bytes)
    ensures ParseEntity("\r\n" + body) == Entity([], body)
  {
    var raw := "\r\n" + body;
    assert raw[0] == '\r' && raw[1] == '\n' && raw[..0] == "" && raw[2..] == body;
    assert Lossy("") == "";
    NoSplit("", '\n');
    ReadOneLine([], "");
  }

  lemma ParseOfBlock(block: Bytes, text: string, body: Bytes)
    requires GoodBlock(block) && block == Encode(text) + "\r\n"
    ensures ParseEntity(block + "\r\n" + body) == Entity(HeaderBlock(text), body)
  {
    HeaderEndAfterBlock(block, body);
    var raw := block + "\r\n" + body;
    assert raw[..|block| - 2] == Encode(text);
    assert raw[|block| + 2..] == body;
    LossyOfEncode(text);
  }

  lemma EncodedBlockText(headers: seq<Field>)
    requires headers != []
    ensures Encode(HeaderText(headers)) == Encode(BlockText(headers)) + "\r\n"
  {
    HeaderTextIsBlock(headers);
    EncodeConcat(BlockText(headers), "\r\n");
    EncodeAscii("\r\n");
  }

  /** Serializing and parsing gives back the body exactly and every field with its value
      trimmed. */
  lemma ParseSerialized(e: Entity)
    requires AllWritable(e.headers)
    ensures ParseEntity(e.ToBytes()) == Entity(TrimValues(e.headers), e.body)
  {
    if e.headers == [] {
      ParseOfNoHeaders(e.body);
      assert "" + "\r\n" + e.body == "\r\n" + e.body;
    } else {
      EncodedHeadersAreGood(e.headers);
      EncodedBlockText(e.headers);
      ReadWrittenLines([], e.headers);
      hide HeaderText, BlockText, GoodBlock, ReadLines, ParseEntity, Encode;
      ParseOfBlock(Encode(HeaderText(e.headers)), BlockText(e.headers), e.body);
      assert [] + TrimValues(e.headers) == TrimValues(e.headers);
    }
  }

  // -- a header block with nothing behind it -----------------------------------

  lemma HeaderTextLines(headers: seq<Field>)
    requires headers != [] && Writable(headers[0])
    ensures SplitChar(HeaderText(headers), '\n')
         == [Line(headers[0]) + "\r"] + SplitChar(HeaderText(headers[1..]), '\n')
  {
    WrittenLineShape(headers[0]);
    var line, rest := Line(headers[0]) + "\r", HeaderText(headers[1..]);
    assert HeaderText(headers) == line + ['\n'] + rest;
    hide *;
    SplitCharAfter(line, '\n', rest);
  }

  lemma {:induction false} ReadHeaderText(out: seq<Field>, headers: seq<Field>)
    requires AllWritable(headers)
    ensures ReadLines(out, SplitChar(HeaderText(headers), '\n')) == out + TrimValues(headers)
    decreases |headers|
  {
    if headers == [] {
      NoSplit("", '\n');
      ReadOneLine(out, "");
      assert out + TrimValues(headers) == out;
    } else {
      var out' := out + [(headers[0].0, Trim(headers[0].1))];
      HeaderTextLines(headers);
      ReadWrittenLine(out, headers[0]);
      ReadFirstLine(out, Line(headers[0]) + "\r", SplitChar(HeaderText(headers[1..]), '\n'));
      ReadHeaderText(out', headers[1..]);
      TrimValuesCons(out, headers);
    }
  }

  lemma HeaderEndOfBlock(b: Bytes)
    requires GoodBlock(b) && b != ""
    ensures HeaderEnd(b) == (|b|, |b|)
  {
    forall j: nat ensures !MatchesAt(b, "\r\n\r\n", j) {
      NoMatch(b, "\r\n\r\n", j, if j + 3 < |b| && b[j + 1] == '\n' then 2 else if j + 3 < |b| then 1 else 3);
    }
    forall j: nat ensures !MatchesAt(b, "\n\n", j) {
      NoMatch(b, "\n\n", j, if j + 1 < |b| && b[j] == '\n' then 1 else if j + 1 < |b| then 0 else 1);
    }
  }

  /** Header lines with nothing behind them, not even the blank line. */
  lemma ParseHeadersOnly(headers: seq<Field>)
    requires headers != [] && AllWritable(headers)
    ensures ParseEntity(Encode(HeaderText(headers))) == Entity(TrimValues(headers), "")
  {
    var b := Encode(HeaderText(headers));
    EncodedHeadersAreGood(headers);
    EncodedHeaderText(headers);
    HeaderEndOfBlock(b);
    assert b[..|b|] == b && b[|b|..] == "";
    LossyOfEncode(HeaderText(headers));
    ReadHeaderText([], headers);
    assert [] + TrimValues(headers) == TrimValues(headers);
  }

  lemma FirstFieldOfTrimmed(fields: seq<Field>, name: string)
    ensures FirstField(TrimValues(fields), name)
         == (match FirstField(fields, name) case None => None case Some(v) => Some(Trim(v)))
    decreases |fields|
  {
    if fields != [] {
      assert TrimValues(fields)[1..] == TrimValues(fields[1..]);
    }
  }

  // -- any message -------------------------------------------------------------

  /** No empty line, with either line break, starts before `n`. */
  ghost predicate NoEmptyLine(raw: Bytes, n: nat) {
    forall j: nat | j < n :: !MatchesAt(raw, "\r\n\r\n", j) && !MatchesAt(raw, "\n\n", j)
  }

  /** Any message, with either line break, is cut at its first empty line; a message that
      starts with one has no fields, and one without any has no body. */
  lemma FirstEmptyLineCuts(head: Bytes, gap: string, body: Bytes)
    requires gap in {"\r\n\r\n", "\n\n"} && head != "" && head[0] != '\n' && !("\r\n" <= head + (gap + body))
    requires NoEmptyLine(head + (gap + body), |head|)
    ensures ParseEntity(head + (gap + body)) == Entity(HeaderBlock(Lossy(head)), body)
  {
    EmptyLineEnds(head, gap, body);
    CutsAt(head, gap, body);
    hide HeaderEnd, HeaderBlock, Lossy;
  }

  lemma CutsAt(head: Bytes, gap: string, body: Bytes)
    ensures (head + (gap + body))[..|head|] == head && (head + (gap + body))[|head| + |gap|..] == body
  {
  }

  lemma NoBreakAhead(head: Bytes, rest: Bytes)
    requires head != "" && head[0] != '\n' && !("\r\n" <= head + rest)
    ensures !CrlfAt(head + rest, 0) && head + rest != "" && (head + rest)[0] != '\n'
  {
    CrlfFirst(head + rest);
  }

  lemma CrlfFirst(raw: Bytes)
    ensures CrlfAt(raw, 0) <==> "\r\n" <= raw
  {
  }

  lemma EmptyLineEnds(head: Bytes, gap: string, body: Bytes)
    requires gap in {"\r\n\r\n", "\n\n"} && head != "" && head[0] != '\n' && !("\r\n" <= head + (gap + body))
    requires NoEmptyLine(head + (gap + body), |head|)
    ensures HeaderEnd(head + (gap + body)) == (|head|, |head| + |gap|)
  {
    EmptyLineFound(head, gap, body);
    NoBreakAhead(head, gap + body);
    hide Find, CrlfAt;
  }

  lemma EmptyLineFound(head: Bytes, gap: string, body: Bytes)
    requires gap in {"\r\n\r\n", "\n\n"} && NoEmptyLine(head + (gap + body), |head|)
    ensures
      var raw := head + (gap + body);
      var crlf, lf := Find(raw, "\r\n\r\n"), Find(raw, "\n\n");
      && (gap == "\r\n\r\n" ==> crlf == Some(|head|) && (lf.Some? ==> lf.value >= |head|))
      && (gap == "\n\n" ==> lf == Some(|head|) && (crlf.Some? ==> crlf.value > |head|))
  {
    var raw := head + (gap + body);
    MatchesAtSuffix(head, gap + body, gap, |head|);
    MatchIsSlice(gap + body, gap, 0);
    assert (gap + body)[..|gap|] == gap;
    assert raw[|head|] == gap[0];
    FindIs(raw, gap, |head|);
    if gap == "\n\n" {
      NoMatch(raw, "\r\n\r\n", |head|, 0);
    }
    hide MatchesAt, Find;
  }

  lemma LeadingBreak(body: Bytes)
    ensures ParseEntity("\n" + body) == Entity(HeaderBlock(""), body)
    ensures ParseEntity("\r\n" + body) == Entity(HeaderBlock(""), body)
  {
    assert ("\n" + body)[1..] == body && ("\r\n" + body)[2..] == body;
    hide HeaderBlock;
  }
}
