/** Cutting a multipart body at its delimiter lines, on exact bytes
    (crates/mw-crypto/src/mime.rs; section 5.1.1 of RFC 2046). */
module Multipart {
  import opened Wrappers
  import opened Text
  import opened Utf8

  /** A delimiter line: where its own line break starts, where the next part's content
      starts, and whether it closes the multipart. */
  datatype Mark = Mark(lineStart: nat, content: nat, closing: bool)

  function Delimiter(boundary: string): Bytes {
    Encode("--" + boundary)
  }

  predicate DashesAt(b: Bytes, i: int) {
    0 <= i && i + 2 <= |b| && b[i] == '-' && b[i + 1] == '-'
  }

  predicate AtLineStart(body: Bytes, pos: nat)
    requires pos <= |body|
  {
    pos == 0 || body[pos - 1] == '\n'
  }

  /** Skips the spaces and tabs a transport may have added. */
  function SkipPadding(body: Bytes, i: nat): (r: nat)
    requires i <= |body|
    ensures i <= r <= |body|
    decreases |body| - i
  {
    if i < |body| && (body[i] == ' ' || body[i] == '\t') then SkipPadding(body, i + 1) else i
  }

  function MarkAt(body: Bytes, d: Bytes, pos: nat): (m: Mark)
    requires MatchesAt(body, d, pos)
    ensures m.lineStart <= pos && pos + |d| <= m.content <= |body|
  {
    var after := pos + |d|;
    var closing := DashesAt(body, after);
    var eol := SkipPadding(body, if closing then after + 2 else after);
    var content := if CrlfAt(body, eol) then eol + 2 else if eol < |body| && body[eol] == '\n' then eol + 1 else eol;
    var lineStart := if CrlfAt(body, pos - 2) then pos - 2
                     else if pos >= 1 && body[pos - 1] == '\n' then pos - 1
                     else pos;
    Mark(lineStart, content, closing)
  }

  function Max(a: nat, b: nat): nat {
    if a < b then b else a
  }

  /** The delimiter lines from `i` on, up to and including the closing one. */
  function Marks(body: Bytes, d: Bytes, i: nat): seq<Mark>
    requires d != [] && i <= |body|
    decreases |body| - i
  {
    match FindFrom(body, d, i)
    case None => []
    case Some(pos) =>
      if !AtLineStart(body, pos) then Marks(body, d, pos + 1)
      else
        var m := MarkAt(body, d, pos);
        if m.closing then [m] else [m] + Marks(body, d, Max(m.content, pos + 1))
  }

  predicate Inside(body: Bytes, marks: seq<Mark>) {
    forall k | 0 <= k < |marks| :: marks[k].content <= |body| && marks[k].lineStart <= |body|
  }

  /** The bytes between consecutive delimiter lines. */
  function Between(body: Bytes, marks: seq<Mark>): seq<Bytes>
    requires Inside(body, marks)
  {
    if |marks| < 2 then [] else
      var start := marks[0].content;
      [body[start..Max(marks[1].lineStart, start)]] + Between(body, marks[1..])
  }

  lemma {:induction false} MarksInside(body: Bytes, d: Bytes, i: nat)
    requires d != [] && i <= |body|
    ensures Inside(body, Marks(body, d, i))
    decreases |body| - i
  {
    var r := FindFrom(body, d, i);
    if r.Some? {
      var pos := r.value;
      if !AtLineStart(body, pos) {
        MarksInside(body, d, pos + 1);
      } else {
        MarksInside(body, d, Max(MarkAt(body, d, pos).content, pos + 1));
      }
    }
  }

  lemma DelimiterNotEmpty(boundary: string)
    ensures Delimiter(boundary) == "--" + Encode(boundary) && Delimiter(boundary) != []
  {
    EncodeConcat("--", boundary);
    EncodeAscii("--");
  }

  /** The parts' exact bytes; `None` when the closing delimiter is missing. */
  function Split(body: Bytes, boundary: string): Option<seq<Bytes>> {
    DelimiterNotEmpty(boundary);
    var marks := Marks(body, Delimiter(boundary), 0);
    MarksInside(body, Delimiter(boundary), 0);
    if marks != [] && marks[|marks| - 1].closing then Some(Between(body, marks)) else None
  }

  /** The delimiter line found at `pos`. */
  method ReadMark(body: Bytes, d: Bytes, pos: nat) returns (m: Mark)
    requires MatchesAt(body, d, pos)
    ensures m == MarkAt(body, d, pos)
  {
    var after := pos + |d|;
    var closing := DashesAt(body, after);
    ghost var from := if closing then after + 2 else after;
    var eol := if closing then after + 2 else after;
    while eol < |body| && (body[eol] == ' ' || body[eol] == '\t')
      invariant from <= eol <= |body|
      invariant SkipPadding(body, eol) == SkipPadding(body, from)
    {
      eol := eol + 1;
    }
    var content := if CrlfAt(body, eol) then eol + 2 else if eol < |body| && body[eol] == '\n' then eol + 1 else eol;
    var lineStart := if CrlfAt(body, pos - 2) then pos - 2
                     else if pos >= 1 && body[pos - 1] == '\n' then pos - 1
                     else pos;
    m := Mark(lineStart, content, closing);
  }

  method FindMarks(body: Bytes, d: Bytes) returns (marks: seq<Mark>)
    requires d != []
    ensures marks == Marks(body, d, 0)
  {
    marks := [];
    var i := 0;
    while true
      invariant i <= |body|
      invariant marks + Marks(body, d, i) == Marks(body, d, 0)
      decreases |body| - i
    {
      var r := FindFrom(body, d, i);
      if r.None? {
        assert marks + [] == marks;
        return;
      }
      var pos := r.value;
      if AtLineStart(body, pos) {
        var m := ReadMark(body, d, pos);
        marks := marks + [m];
        if m.closing {
          return;
        }
        i := Max(m.content, pos + 1);
      } else {
        i := pos + 1;
      }
    }
  }

  method SplitMultipart(body: Bytes, boundary: string) returns (parts: Option<seq<Bytes>>)
    ensures parts == Split(body, boundary)
  {
    DelimiterNotEmpty(boundary);
    MarksInside(body, Delimiter(boundary), 0);
    var marks := FindMarks(body, Delimiter(boundary));
    if marks == [] || !marks[|marks| - 1].closing {
      return None;
    }
    var out: seq<Bytes> := [];
    for k := 0 to |marks| - 1
      invariant out + Between(body, marks[k..]) == Between(body, marks)
    {
      var start := marks[k].content;
      out := out + [body[start..Max(marks[k + 1].lineStart, start)]];
      assert marks[k..][1..] == marks[k + 1..];
    }
    assert out + [] == out;
    return Some(out);
  }

  // -- where the marks of a laid-out multipart are ----------------------------

  /** At `pos` a delimiter line stands, followed by `parts`, each ended by a delimiter
      line of its own, the last of which closes. */
  predicate LaidOut(body: Bytes, pos: nat, d: Bytes, parts: seq<Bytes>)
    decreases |parts|
  {
    && MatchesAt(body, d, pos) && AtLineStart(body, pos)
    && if parts == [] then DashesAt(body, pos + |d|)
       else
         var start := pos + |d| + 2;
         var end := start + |parts[0]|;
         && CrlfAt(body, start - 2) && MatchesAt(body, parts[0], start) && CrlfAt(body, end)
         && LaidOut(body, end + 2, d, parts[1..])
  }

  /** No line of `text` starts with the delimiter. */
  predicate NoDelimiterLine(text: Bytes, d: Bytes) {
    forall j: nat | j <= |text| && AtLineStart(text, j) :: !MatchesAt(text, d, j)
  }

  predicate AllFresh(parts: seq<Bytes>, d: Bytes) {
    forall k | 0 <= k < |parts| :: NoDelimiterLine(parts[k], d)
  }

  predicate GoodDelimiter(d: Bytes) {
    |d| >= 2 && d[0] == '-' && '\r' !in d && '\n' !in d
  }

  /** Nothing at a line start between `i` and `pos` matches, so the scan from `i` goes on
      from `pos`. */
  lemma {:induction false} SkipTo(body: Bytes, d: Bytes, i: nat, pos: nat)
    requires d != [] && i <= pos && MatchesAt(body, d, pos) && AtLineStart(body, pos)
    requires forall j | i <= j < pos && AtLineStart(body, j) :: !MatchesAt(body, d, j)
    ensures Marks(body, d, i) == Marks(body, d, pos)
    decreases pos - i
  {
    var at := FindFrom(body, d, i).value;
    if at == pos {
      MarksFromMatch(body, d, i, pos);
    } else {
      MarksPastMatch(body, d, i, at);
      SkipTo(body, d, at + 1, pos);
    }
  }

  lemma MarksFromMatch(body: Bytes, d: Bytes, i: nat, pos: nat)
    requires d != [] && i <= |body| && FindFrom(body, d, i) == Some(pos)
    ensures Marks(body, d, i) == Marks(body, d, pos)
  {
    FindHere(body, d, pos);
  }

  lemma MarksPastMatch(body: Bytes, d: Bytes, i: nat, pos: nat)
    requires d != [] && i <= |body| && FindFrom(body, d, i) == Some(pos) && !AtLineStart(body, pos)
    ensures Marks(body, d, i) == Marks(body, d, pos + 1)
  {
  }

  lemma FindHere(body: Bytes, d: Bytes, pos: nat)
    requires MatchesAt(body, d, pos)
    ensures FindFrom(body, d, pos) == Some(pos)
  {
  }

  lemma MarksHere(body: Bytes, d: Bytes, pos: nat)
    requires d != [] && MatchesAt(body, d, pos) && AtLineStart(body, pos)
    ensures
      var m := MarkAt(body, d, pos);
      Marks(body, d, pos) == if m.closing then [m] else [m] + Marks(body, d, m.content)
  {
    FindHere(body, d, pos);
  }

  /** Between a part's content and the next delimiter line nothing matches at a line
      start. */
  lemma NoMarkInside(body: Bytes, start: nat, p: Bytes, d: Bytes, j: nat)
    requires GoodDelimiter(d) && NoDelimiterLine(p, d)
    requires CrlfAt(body, start - 2) && MatchesAt(body, p, start) && CrlfAt(body, start + |p|)
    requires start <= j < start + |p| + 2 && AtLineStart(body, j)
    ensures !MatchesAt(body, d, j)
  {
    var k := j - start;
    if k >= |p| {
      NoMatch(body, d, j, 0);
    } else if k + |d| > |p| {
      NoMatch(body, d, j, |p| - k);
    } else {
      if k > 0 {
        assert p[k - 1] == body[start + (k - 1)];
      }
      assert AtLineStart(p, k) && !MatchesAt(p, d, k);
      var m :| 0 <= m < |d| && d[m] != p[k + m];
      assert p[k + m] == body[start + (k + m)];
      NoMatch(body, d, j, m);
    }
  }

  /** From a part's content the scan goes on at the delimiter after the part. */
  lemma ScanAcrossPart(body: Bytes, start: nat, p: Bytes, d: Bytes, pos: nat)
    requires GoodDelimiter(d) && NoDelimiterLine(p, d) && pos == start + |p| + 2
    requires CrlfAt(body, start - 2) && MatchesAt(body, p, start) && CrlfAt(body, start + |p|)
          && MatchesAt(body, d, pos)
    ensures Marks(body, d, start) == Marks(body, d, pos)
  {
    forall j | start <= j < pos && AtLineStart(body, j) ensures !MatchesAt(body, d, j) {
      NoMarkInside(body, start, p, d, j);
    }
    SkipTo(body, d, start, pos);
  }

  lemma BetweenUnfold(body: Bytes, m: Mark, ms: seq<Mark>)
    requires Inside(body, ms) && ms != [] && m.content <= |body| && m.lineStart <= |body|
    ensures Inside(body, [m] + ms)
    ensures Between(body, [m] + ms) == [body[m.content..Max(ms[0].lineStart, m.content)]] + Between(body, ms)
  {
    assert ([m] + ms)[1..] == ms;
  }

  lemma MarkOfOpen(body: Bytes, d: Bytes, pos: nat)
    requires MatchesAt(body, d, pos) && CrlfAt(body, pos + |d|)
    ensures MarkAt(body, d, pos) == Mark(MarkAt(body, d, pos).lineStart, pos + |d| + 2, false)
  {
  }

  lemma MarkLineStart(body: Bytes, d: Bytes, pos: nat)
    requires MatchesAt(body, d, pos)
    ensures CrlfAt(body, pos - 2) ==> MarkAt(body, d, pos).lineStart == pos - 2
  {
  }

  /** A laid-out multipart has one mark per delimiter line, and between them exactly the
      parts. */
  lemma {:induction false} MarksOfLaidOut(body: Bytes, pos: nat, d: Bytes, parts: seq<Bytes>)
    requires GoodDelimiter(d) && AllFresh(parts, d) && LaidOut(body, pos, d, parts)
    ensures
      var ms := Marks(body, d, pos);
      && ms != [] && ms[0] == MarkAt(body, d, pos) && ms[|ms| - 1].closing
      && Inside(body, ms) && Between(body, ms) == parts
    decreases |parts|
  {
    MarksInside(body, d, pos);
    if parts == [] {
      MarksHere(body, d, pos);
    } else {
      var p, rest := parts[0], parts[1..];
      var pos' := pos + |d| + |p| + 4;
      MarksAcrossPart(body, pos, d, p, pos');
      SliceAcrossPart(body, pos, d, p, pos');
      assert LaidOut(body, pos', d, rest);
      assert AllFresh(rest, d);
      MarksOfLaidOut(body, pos', d, rest);
      hide *;
      MarksInside(body, d, pos');
      BetweenUnfold(body, MarkAt(body, d, pos), Marks(body, d, pos'));
    }
  }

  /** The delimiter line before `p` gives one mark, and the scan goes on at the delimiter
      line after `p`, whose own line break ends `p`. */
  lemma MarksAcrossPart(body: Bytes, pos: nat, d: Bytes, p: Bytes, pos': nat)
    requires GoodDelimiter(d) && NoDelimiterLine(p, d) && pos' == pos + |d| + |p| + 4
    requires MatchesAt(body, d, pos) && AtLineStart(body, pos) && CrlfAt(body, pos + |d|)
    requires MatchesAt(body, p, pos + |d| + 2) && CrlfAt(body, pos' - 2) && MatchesAt(body, d, pos')
    ensures Marks(body, d, pos) == [MarkAt(body, d, pos)] + Marks(body, d, pos')
  {
    MarksOfOpen(body, d, pos);
    hide *;
    ScanAcrossPart(body, pos + |d| + 2, p, d, pos');
  }

  lemma MarksOfOpen(body: Bytes, d: Bytes, pos: nat)
    requires GoodDelimiter(d) && MatchesAt(body, d, pos) && AtLineStart(body, pos) && CrlfAt(body, pos + |d|)
    ensures Marks(body, d, pos) == [MarkAt(body, d, pos)] + Marks(body, d, pos + |d| + 2)
  {
    MarkOfOpen(body, d, pos);
    hide Marks, MarkAt;
    MarksHere(body, d, pos);
  }

  lemma SliceAcrossPart(body: Bytes, pos: nat, d: Bytes, p: Bytes, pos': nat)
    requires pos' == pos + |d| + |p| + 4 && MatchesAt(body, d, pos) && CrlfAt(body, pos + |d|)
    requires MatchesAt(body, p, pos + |d| + 2) && CrlfAt(body, pos' - 2) && MatchesAt(body, d, pos')
    ensures MarkAt(body, d, pos).content <= MarkAt(body, d, pos').lineStart
    ensures body[MarkAt(body, d, pos).content..MarkAt(body, d, pos').lineStart] == p
  {
    MarkOfOpen(body, d, pos);
    MarkLineStart(body, d, pos');
    hide MarkAt;
    MatchIsSlice(body, p, pos + |d| + 2);
  }

  // -- joining, then splitting -------------------------------------------------

  /** What follows a delimiter when `parts` are still to come. */
  function AfterDelimiter(d: Bytes, parts: seq<Bytes>, epilogue: Bytes): Bytes {
    if parts == [] then "--" + epilogue
    else "\r\n" + (parts[0] + ("\r\n" + (d + AfterDelimiter(d, parts[1..], epilogue))))
  }

  /** A multipart body as the builders write it. */
  function Join(preamble: Bytes, boundary: string, parts: seq<Bytes>, epilogue: Bytes): Bytes {
    preamble + (Delimiter(boundary) + AfterDelimiter(Delimiter(boundary), parts, epilogue))
  }

  predicate Fresh(text: Bytes, boundary: string) {
    NoDelimiterLine(text, Delimiter(boundary))
  }

  lemma PeelCrlf(s: Bytes, i: nat, b: Bytes)
    requires i <= |s| && s[i..] == "\r\n" + b
    ensures CrlfAt(s, i) && s[i + 2..] == b
  {
    Peel(s, i, "\r\n", b);
    assert s[i] == s[i..i + 2][0] && s[i + 1] == s[i..i + 2][1];
  }

  lemma PeelPart(s: Bytes, i: nat, p: Bytes, b: Bytes)
    requires i <= |s| && s[i..] == "\r\n" + (p + ("\r\n" + b))
    ensures CrlfAt(s, i) && MatchesAt(s, p, i + 2) && CrlfAt(s, i + 2 + |p|) && s[i + |p| + 4..] == b
  {
    PeelCrlf(s, i, p + ("\r\n" + b));
    Peel(s, i + 2, p, "\r\n" + b);
    PeelCrlf(s, i + 2 + |p|, b);
  }

  lemma AfterUnfold(d: Bytes, parts: seq<Bytes>, epilogue: Bytes)
    requires parts != []
    ensures AfterDelimiter(d, parts, epilogue)
         == "\r\n" + (parts[0] + ("\r\n" + (d + AfterDelimiter(d, parts[1..], epilogue))))
  {
  }

  lemma JoinOnePart(body: Bytes, pos: nat, d: Bytes, p: Bytes, next: Bytes)
    requires pos <= |body| && body[pos..] == d + ("\r\n" + (p + ("\r\n" + next)))
    ensures
      var end := pos + |d| + 2 + |p|;
      && MatchesAt(body, d, pos) && CrlfAt(body, pos + |d|) && MatchesAt(body, p, pos + |d| + 2) && CrlfAt(body, end)
      && body[end + 2..] == next
  {
    Peel(body, pos, d, "\r\n" + (p + ("\r\n" + next)));
    hide *;
    PeelPart(body, pos + |d|, p, next);
  }

  lemma {:induction false} JoinIsLaidOut(body: Bytes, pos: nat, d: Bytes, parts: seq<Bytes>, epilogue: Bytes)
    requires pos <= |body| && AtLineStart(body, pos) && body[pos..] == d + AfterDelimiter(d, parts, epilogue)
    ensures LaidOut(body, pos, d, parts)
    decreases |parts|
  {
    if parts == [] {
      Peel(body, pos, d, "--" + epilogue);
      PeelDashes(body, pos + |d|, epilogue);
    } else {
      AfterUnfold(d, parts, epilogue);
      hide AfterDelimiter, MatchesAt;
      JoinOnePart(body, pos, d, parts[0], d + AfterDelimiter(d, parts[1..], epilogue));
      JoinIsLaidOut(body, pos + |d| + |parts[0]| + 4, d, parts[1..], epilogue);
    }
  }

  lemma PeelDashes(s: Bytes, i: nat, b: Bytes)
    requires i <= |s| && s[i..] == "--" + b
    ensures DashesAt(s, i)
  {
    Peel(s, i, "--", b);
    assert s[i] == s[i..i + 2][0] && s[i + 1] == s[i..i + 2][1];
  }

  lemma NoMarkInPreamble(preamble: Bytes, d: Bytes, body: Bytes, j: nat)
    requires GoodDelimiter(d) && preamble != [] && preamble[|preamble| - 1] == '\n' && preamble <= body
    requires NoDelimiterLine(preamble, d) && j < |preamble| && AtLineStart(body, j)
    ensures !MatchesAt(body, d, j)
  {
    if j + |d| > |preamble| {
      NoMatch(body, d, j, |preamble| - 1 - j);
    } else {
      assert AtLineStart(preamble, j) && !MatchesAt(preamble, d, j);
      var m :| 0 <= m < |d| && d[m] != preamble[j + m];
      NoMatch(body, d, j, m);
    }
  }

  /** Splitting gives back exactly the parts that were joined, provided no line of the
      preamble or of a part starts with the delimiter. */
  lemma SplitOfJoin(preamble: Bytes, boundary: string, parts: seq<Bytes>, epilogue: Bytes)
    requires '\r' !in boundary && '\n' !in boundary
    requires preamble == [] || preamble[|preamble| - 1] == '\n'
    requires Fresh(preamble, boundary) && AllFresh(parts, Delimiter(boundary))
    ensures Split(Join(preamble, boundary, parts, epilogue), boundary) == Some(parts)
  {
    var d, pos := Delimiter(boundary), |preamble|;
    GoodDelimiterOf(boundary);
    var body := Join(preamble, boundary, parts, epilogue);
    assert body[pos..] == d + AfterDelimiter(d, parts, epilogue);
    JoinIsLaidOut(body, pos, d, parts, epilogue);
    MarksOfLaidOut(body, pos, d, parts);
    forall j | 0 <= j < pos && AtLineStart(body, j) ensures !MatchesAt(body, d, j) {
      NoMarkInPreamble(preamble, d, body, j);
    }
    SkipTo(body, d, 0, pos);
  }

  lemma GoodDelimiterOf(boundary: string)
    requires '\r' !in boundary && '\n' !in boundary
    ensures GoodDelimiter(Delimiter(boundary))
  {
    DelimiterNotEmpty(boundary);
    EncodeAsciiMember(boundary, '\r');
    EncodeAsciiMember(boundary, '\n');
  }

  /** A delimiter line closes exactly when two dashes follow it. */
  lemma ClosingIff(body: Bytes, d: Bytes, pos: nat)
    requires MatchesAt(body, d, pos)
    ensures MarkAt(body, d, pos).closing <==> MatchesAt(body, d + "--", pos)
  {
    var after := pos + |d|;
    if MatchesAt(body, d + "--", pos) {
      assert (d + "--")[|d|] == body[after] && (d + "--")[|d| + 1] == body[after + 1];
    }
    hide SkipPadding, CrlfAt;
  }
}
