/** Multipart bodies with either line break and with padded delimiter lines are cut as well
    (crates/mw-crypto/src/mime.rs; section 5.1.1 of RFC 2046). */
module MultipartLines {
  import opened Wrappers
  import opened Text
  import opened Utf8
  import opened Multipart

  /** A part with the rest of the delimiter line before it and the line break behind it. */
  datatype Part = Part(pad: string, eol: string, content: Bytes, before: string)

  function Contents(parts: seq<Part>): seq<Bytes> {
    if parts == [] then [] else [parts[0].content] + Contents(parts[1..])
  }

  /** What follows a delimiter; whatever stands behind the closing one is the epilogue. */
  function AfterMark(d: Bytes, parts: seq<Part>, epilogue: Bytes): Bytes {
    if parts == [] then "--" + epilogue else
      parts[0].pad + (parts[0].eol
        + (parts[0].content + (parts[0].before + (d + AfterMark(d, parts[1..], epilogue)))))
  }

  predicate Padding(s: string) {
    forall i | 0 <= i < |s| :: s[i] == ' ' || s[i] == '\t'
  }

  /** The line break behind a part is its delimiter's: bare only where no CR stands before. */
  predicate GoodPart(p: Part, d: Bytes) {
    && Padding(p.pad) && p.eol in {"\r\n", "\n"} && p.before in {"\r\n", "\n"} && NoDelimiterLine(p.content, d)
    && (p.before == "\n" && p.content != "" ==> p.content[|p.content| - 1] != '\r')
  }

  predicate GoodParts(parts: seq<Part>, d: Bytes) {
    forall i | 0 <= i < |parts| :: GoodPart(parts[i], d)
  }

  // -- one delimiter line ------------------------------------------------------

  lemma {:induction false} SkipsPadding(body: Bytes, i: nat, n: nat)
    requires i + n <= |body| && (forall j | i <= j < i + n :: body[j] == ' ' || body[j] == '\t')
    requires i + n < |body| ==> body[i + n] != ' ' && body[i + n] != '\t'
    ensures SkipPadding(body, i) == i + n
    decreases n
  {
    if n > 0 {
      SkipsPadding(body, i + 1, n - 1);
    }
  }

  function Start(pos: nat, d: Bytes, p: Part): nat {
    pos + |d| + |p.pad| + |p.eol|
  }

  function Next(pos: nat, d: Bytes, p: Part): nat {
    Start(pos, d, p) + |p.content| + |p.before|
  }

  /** At `pos` a delimiter line stands, and behind it the part and its line break. */
  predicate Stands(body: Bytes, pos: nat, d: Bytes, p: Part) {
    var at, start := pos + |d|, Start(pos, d, p);
    && Next(pos, d, p) <= |body| && MatchesAt(body, d, pos)
    && body[at..at + |p.pad|] == p.pad && body[at + |p.pad|..start] == p.eol
    && body[start..start + |p.content|] == p.content
    && body[start + |p.content|..Next(pos, d, p)] == p.before
  }

  lemma StandsThere(body: Bytes, pos: nat, d: Bytes, p: Part, rest: Bytes)
    requires pos <= |body| && body[pos..] == d + (p.pad + (p.eol + (p.content + (p.before + rest))))
    ensures Stands(body, pos, d, p) && body[Next(pos, d, p)..] == rest
  {
    LineStands(body, pos, d, p, p.content + (p.before + rest));
    PartStands(body, Start(pos, d, p), p, rest);
    hide MatchesAt;
  }

  lemma LineStands(body: Bytes, pos: nat, d: Bytes, p: Part, rest: Bytes)
    requires pos <= |body| && body[pos..] == d + (p.pad + (p.eol + rest))
    ensures
      var at, start := pos + |d|, Start(pos, d, p);
      && start <= |body| && MatchesAt(body, d, pos) && body[at..at + |p.pad|] == p.pad
      && body[at + |p.pad|..start] == p.eol && body[start..] == rest
  {
    hide MatchesAt;
    Peel(body, pos, d, p.pad + (p.eol + rest));
    Peel(body, pos + |d|, p.pad, p.eol + rest);
    Peel(body, pos + |d| + |p.pad|, p.eol, rest);
  }

  lemma PartStands(body: Bytes, start: nat, p: Part, rest: Bytes)
    requires start <= |body| && body[start..] == p.content + (p.before + rest)
    ensures
      var end := start + |p.content|;
      && end + |p.before| <= |body| && body[start..end] == p.content
      && body[end..end + |p.before|] == p.before && body[end + |p.before|..] == rest
  {
    hide MatchesAt;
    Peel(body, start, p.content, p.before + rest);
    Peel(body, start + |p.content|, p.before, rest);
  }

  lemma OpenMark(body: Bytes, d: Bytes, pos: nat, pad: string, eol: string)
    requires MatchesAt(body, d, pos) && Padding(pad) && eol in {"\r\n", "\n"} && pos + |d| + |pad| + |eol| <= |body|
    requires body[pos + |d|..pos + |d| + |pad|] == pad
    requires body[pos + |d| + |pad|..pos + |d| + |pad| + |eol|] == eol
    ensures !MarkAt(body, d, pos).closing && MarkAt(body, d, pos).content == pos + |d| + |pad| + |eol|
  {
    var at := pos + |d|;
    forall j | at <= j < at + |pad| ensures body[j] == ' ' || body[j] == '\t' {
      assert body[j] == pad[j - at];
    }
    assert forall k | 0 <= k < |eol| :: body[at + |pad| + k] == eol[k];
    SkipsPadding(body, at, |pad|);
    hide SkipPadding;
  }

  lemma MarkStart(body: Bytes, d: Bytes, pos: nat, before: string)
    requires MatchesAt(body, d, pos) && before in {"\r\n", "\n"} && |before| <= pos
    requires body[pos - |before|..pos] == before
    requires before == "\n" && pos >= 2 ==> body[pos - 2] != '\r'
    ensures MarkAt(body, d, pos).lineStart == pos - |before|
  {
    assert forall k | 0 <= k < |before| :: body[pos - |before| + k] == before[k];
    hide SkipPadding;
  }

  /** Between a part's start and the next delimiter nothing matches at a line start. */
  lemma NothingInside(body: Bytes, start: nat, p: Part, d: Bytes, j: nat)
    requires GoodDelimiter(d) && GoodPart(p, d) && start + |p.content| + |p.before| <= |body|
    requires body[start..start + |p.content|] == p.content && start > 0 && body[start - 1] == '\n'
    requires body[start + |p.content|..start + |p.content| + |p.before|] == p.before
    requires start <= j < start + |p.content| + |p.before| && AtLineStart(body, j)
    ensures !MatchesAt(body, d, j)
  {
    var k, n := j - start, |p.content|;
    assert p.before[0] in {'\r', '\n'} && body[start + n] == p.before[0];
    if k >= n {
      assert body[j] == p.before[k - n] && p.before[k - n] in {'\r', '\n'};
      NoMatch(body, d, j, 0);
    } else if k + |d| > n {
      NoMatch(body, d, j, n - k);
    } else {
      assert k > 0 ==> p.content[k - 1] == body[start + (k - 1)];
      assert AtLineStart(p.content, k) && !MatchesAt(p.content, d, k);
      var m :| 0 <= m < |d| && d[m] != p.content[k + m];
      assert p.content[k + m] == body[start + (k + m)];
      NoMatch(body, d, j, m);
    }
  }

  lemma AcrossPart(body: Bytes, start: nat, p: Part, d: Bytes)
    requires GoodDelimiter(d) && GoodPart(p, d) && start + |p.content| + |p.before| <= |body|
    requires body[start..start + |p.content|] == p.content && start > 0 && body[start - 1] == '\n'
    requires body[start + |p.content|..start + |p.content| + |p.before|] == p.before
    requires MatchesAt(body, d, start + |p.content| + |p.before|)
    ensures
      var pos := start + |p.content| + |p.before|;
      AtLineStart(body, pos) && Marks(body, d, start) == Marks(body, d, pos)
  {
    var pos := start + |p.content| + |p.before|;
    assert body[pos - 1] == p.before[|p.before| - 1];
    forall j | start <= j < pos && AtLineStart(body, j) ensures !MatchesAt(body, d, j) {
      NothingInside(body, start, p, d, j);
    }
    hide GoodPart, MatchesAt;
    SkipTo(body, d, start, pos);
  }

  // -- all of them -------------------------------------------------------------

  /** What the marks from a delimiter on say about the parts behind it. */
  ghost predicate Cut(body: Bytes, d: Bytes, pos: nat, parts: seq<Part>)
    requires MatchesAt(body, d, pos) && d != []
  {
    var ms := Marks(body, d, pos);
    && ms != [] && ms[0] == MarkAt(body, d, pos) && ms[|ms| - 1].closing
    && Inside(body, ms) && Between(body, ms) == Contents(parts)
  }

  lemma LastMark(body: Bytes, pos: nat, d: Bytes, epilogue: Bytes)
    requires GoodDelimiter(d) && pos <= |body| && body[pos..] == d + ("--" + epilogue) && AtLineStart(body, pos)
    ensures MatchesAt(body, d, pos) && Cut(body, d, pos, [])
  {
    Peel(body, pos, d, "--" + epilogue);
    Peel(body, pos + |d|, "--", epilogue);
    assert body[pos + |d|] == "--"[0] && body[pos + |d| + 1] == "--"[1];
    MarksInside(body, d, pos);
    hide MatchesAt;
    MarksHere(body, d, pos);
  }

  lemma OneMark(body: Bytes, pos: nat, d: Bytes, p: Part)
    requires GoodDelimiter(d) && GoodPart(p, d) && pos <= |body| && AtLineStart(body, pos)
    requires Stands(body, pos, d, p) && MatchesAt(body, d, Next(pos, d, p))
    ensures
      var start, next := Start(pos, d, p), Next(pos, d, p);
      && MatchesAt(body, d, pos) && AtLineStart(body, next)
      && Marks(body, d, pos) == [MarkAt(body, d, pos)] + Marks(body, d, next)
      && MarkAt(body, d, pos).content == start <= MarkAt(body, d, next).lineStart
      && body[start..MarkAt(body, d, next).lineStart] == p.content
  {
    PlacesOf(body, pos, d, p);
    hide GoodPart, MatchesAt, MarkAt, Marks, NoDelimiterLine;
    AcrossPart(body, Start(pos, d, p), p, d);
    MarksHere(body, d, pos);
  }

  lemma PlacesOf(body: Bytes, pos: nat, d: Bytes, p: Part)
    requires GoodPart(p, d) && Stands(body, pos, d, p) && MatchesAt(body, d, Next(pos, d, p))
    ensures
      var start, next := Start(pos, d, p), Next(pos, d, p);
      && start > 0 && body[start - 1] == '\n'
      && MarkAt(body, d, pos).content == start && !MarkAt(body, d, pos).closing
      && MarkAt(body, d, next).lineStart == start + |p.content|
  {
    GoodBreaks(p, d);
    StandsIs(body, pos, d, p);
    hide *;
    StartPlace(body, pos, d, p, Start(pos, d, p));
    NextPlace(body, d, p, Start(pos, d, p), Next(pos, d, p));
  }

  lemma StartPlace(body: Bytes, pos: nat, d: Bytes, p: Part, start: nat)
    requires start == pos + |d| + |p.pad| + |p.eol| <= |body| && MatchesAt(body, d, pos)
    requires Padding(p.pad) && p.eol in {"\r\n", "\n"}
    requires body[pos + |d|..pos + |d| + |p.pad|] == p.pad && body[pos + |d| + |p.pad|..start] == p.eol
    ensures start > 0 && body[start - 1] == '\n'
    ensures MarkAt(body, d, pos).content == start && !MarkAt(body, d, pos).closing
  {
    hide MatchesAt, MarkAt, Padding;
    OpenMark(body, d, pos, p.pad, p.eol);
    Ends(body, pos + |d| + |p.pad|, p.eol);
  }

  lemma NextPlace(body: Bytes, d: Bytes, p: Part, start: nat, next: nat)
    requires next == start + |p.content| + |p.before| <= |body| && MatchesAt(body, d, next)
    requires p.before in {"\r\n", "\n"} && start > 0 && body[start - 1] == '\n'
    requires p.before == "\n" && p.content != "" ==> p.content[|p.content| - 1] != '\r'
    requires body[start..start + |p.content|] == p.content && body[start + |p.content|..next] == p.before
    ensures MarkAt(body, d, next).lineStart == start + |p.content|
  {
    hide MatchesAt, MarkAt;
    BeforeBreak(body, start, p, next);
    MarkStart(body, d, next, p.before);
  }

  lemma StandsIs(body: Bytes, pos: nat, d: Bytes, p: Part)
    requires Stands(body, pos, d, p)
    ensures
      var at, start, next := pos + |d|, Start(pos, d, p), Next(pos, d, p);
      && start == at + |p.pad| + |p.eol| && next == start + |p.content| + |p.before| && next <= |body|
      && MatchesAt(body, d, pos) && body[at..at + |p.pad|] == p.pad && body[at + |p.pad|..start] == p.eol
      && body[start..start + |p.content|] == p.content && body[start + |p.content|..next] == p.before
  {
    hide MatchesAt;
  }

  lemma GoodBreaks(p: Part, d: Bytes)
    requires GoodPart(p, d)
    ensures Padding(p.pad) && p.eol in {"\r\n", "\n"} && p.before in {"\r\n", "\n"}
    ensures p.before == "\n" && p.content != "" ==> p.content[|p.content| - 1] != '\r'
  {
  }

  lemma Ends(body: Bytes, i: nat, eol: string)
    requires eol in {"\r\n", "\n"} && i + |eol| <= |body| && body[i..i + |eol|] == eol
    ensures |eol| > 0 && body[i + |eol| - 1] == '\n'
  {
    assert body[i + |eol| - 1] == eol[|eol| - 1];
  }

  lemma BeforeBreak(body: Bytes, start: nat, p: Part, pos: nat)
    requires p.before in {"\r\n", "\n"} && pos == start + |p.content| + |p.before| <= |body|
    requires start > 0 && body[start - 1] == '\n' && body[start..start + |p.content|] == p.content
    requires p.before == "\n" && p.content != "" ==> p.content[|p.content| - 1] != '\r'
    ensures p.before == "\n" && pos >= 2 ==> body[pos - 2] != '\r'
  {
    if p.before == "\n" && p.content != "" {
      assert body[pos - 2] == p.content[|p.content| - 1];
    }
  }

  lemma {:induction false} PartsAreCut(body: Bytes, pos: nat, d: Bytes, parts: seq<Part>, epilogue: Bytes)
    requires GoodDelimiter(d) && GoodParts(parts, d) && pos <= |body| && AtLineStart(body, pos)
    requires body[pos..] == d + AfterMark(d, parts, epilogue)
    ensures MatchesAt(body, d, pos) && Cut(body, d, pos, parts)
    decreases |parts|
  {
    if |parts| == 0 {
      AfterLast(d, parts, epilogue);
      LastMark(body, pos, d, epilogue);
    } else {
      var p, rest := parts[0], AfterMark(d, parts[1..], epilogue);
      AfterOne(d, parts, epilogue);
      hide *;
      StandsThere(body, pos, d, p, d + rest);
      Peel(body, Next(pos, d, p), d, rest);
      OneMark(body, pos, d, p);
      PartsAreCut(body, Next(pos, d, p), d, parts[1..], epilogue);
      OneMore(body, d, pos, Next(pos, d, p), parts);
    }
  }

  lemma AfterLast(d: Bytes, parts: seq<Part>, epilogue: Bytes)
    requires parts == []
    ensures AfterMark(d, parts, epilogue) == "--" + epilogue
  {
  }

  lemma AfterOne(d: Bytes, parts: seq<Part>, epilogue: Bytes)
    requires parts != []
    ensures
      var p, rest := parts[0], d + AfterMark(d, parts[1..], epilogue);
      AfterMark(d, parts, epilogue) == p.pad + (p.eol + (p.content + (p.before + rest)))
    ensures GoodParts(parts, d) ==> GoodPart(parts[0], d) && GoodParts(parts[1..], d)
    ensures GoodDelimiter(d) ==> d != []
  {
    hide GoodPart;
  }

  lemma OneMore(body: Bytes, d: Bytes, pos: nat, next: nat, parts: seq<Part>)
    requires d != [] && parts != [] && MatchesAt(body, d, pos) && MatchesAt(body, d, next)
    requires Cut(body, d, next, parts[1..]) && Marks(body, d, pos) == [MarkAt(body, d, pos)] + Marks(body, d, next)
    requires MarkAt(body, d, pos).content <= MarkAt(body, d, next).lineStart
    requires body[MarkAt(body, d, pos).content..MarkAt(body, d, next).lineStart] == parts[0].content
    ensures Cut(body, d, pos, parts)
  {
    hide Marks, MarkAt, MatchesAt;
    BetweenUnfold(body, MarkAt(body, d, pos), Marks(body, d, next));
  }

  /** A multipart body with any mixture of line breaks and padding, any preamble and any
      epilogue splits into exactly its parts. */
  lemma SplitOfLines(preamble: Bytes, boundary: string, parts: seq<Part>, epilogue: Bytes)
    requires '\r' !in boundary && '\n' !in boundary && GoodParts(parts, Delimiter(boundary))
    requires Fresh(preamble, boundary) && (preamble == [] || preamble[|preamble| - 1] == '\n')
    ensures Split(preamble + (Delimiter(boundary) + AfterMark(Delimiter(boundary), parts, epilogue)), boundary)
         == Some(Contents(parts))
  {
    hide *;
    var d := Delimiter(boundary);
    var body := preamble + (d + AfterMark(d, parts, epilogue));
    GoodDelimiterOf(boundary);
    BehindPreamble(body, preamble, boundary, d + AfterMark(d, parts, epilogue));
    PartsAreCut(body, |preamble|, d, parts, epilogue);
    PreambleSkipped(body, preamble, d, d + AfterMark(d, parts, epilogue));
    SplitIf(body, |preamble|, boundary, parts);
  }

  /** Where no line break ends a delimiter's padding, content starts right behind it. */
  lemma NoBreakNoSkip(body: Bytes, d: Bytes, pos: nat, pad: string)
    requires MatchesAt(body, d, pos) && Padding(pad) && pos + |d| + |pad| < |body|
    requires body[pos + |d|..pos + |d| + |pad|] == pad && body[pos + |d| + |pad|] !in {' ', '\t', '\r', '\n'}
    requires pad == "" ==> body[pos + |d|] != '-'
    ensures !MarkAt(body, d, pos).closing && MarkAt(body, d, pos).content == pos + |d| + |pad|
  {
    var at := pos + |d|;
    forall j | at <= j < at + |pad| ensures body[j] == ' ' || body[j] == '\t' {
      assert body[j] == pad[j - at];
    }
    SkipsPadding(body, at, |pad|);
    hide SkipPadding;
  }

  // -- a body without a closing delimiter --------------------------------------

  lemma {:induction false} PaddingHasNoBreak(body: Bytes, i: nat)
    requires i <= |body|
    ensures forall j | i <= j < SkipPadding(body, i) :: body[j] != '\n'
    decreases |body| - i
  {
    if i < |body| && (body[i] == ' ' || body[i] == '\t') {
      PaddingHasNoBreak(body, i + 1);
    }
  }

  /** No line starts inside a delimiter line. */
  lemma NoLineInside(body: Bytes, d: Bytes, pos: nat, j: nat)
    requires GoodDelimiter(d) && MatchesAt(body, d, pos) && pos < j <= |body| && AtLineStart(body, j)
    ensures MarkAt(body, d, pos).content <= j
  {
    var after := pos + |d|;
    var from := if DashesAt(body, after) then after + 2 else after;
    PaddingHasNoBreak(body, from);
    assert forall k | pos <= k < after :: body[k] == d[k - pos];
    hide SkipPadding;
  }

  lemma {:induction false} ClosingReached(body: Bytes, d: Bytes, i: nat, j: nat)
    requires GoodDelimiter(d) && i <= j <= |body| && MatchesAt(body, d + "--", j) && AtLineStart(body, j)
    ensures Marks(body, d, i) != [] && Marks(body, d, i)[|Marks(body, d, i)| - 1].closing
    decreases |body| - i
  {
    ShorterMatches(body, d, j);
    hide MatchesAt;
    var pos := FindFrom(body, d, i).value;
    if !AtLineStart(body, pos) {
      ClosingReached(body, d, pos + 1, j);
    } else if !MarkAt(body, d, pos).closing {
      ClosingIff(body, d, pos);
      NoLineInside(body, d, pos, j);
      ClosingReached(body, d, Max(MarkAt(body, d, pos).content, pos + 1), j);
    }
  }

  lemma ShorterMatches(body: Bytes, d: Bytes, j: nat)
    requires MatchesAt(body, d + "--", j)
    ensures MatchesAt(body, d, j)
  {
    assert forall k | 0 <= k < |d| :: (d + "--")[k] == d[k];
  }

  lemma MatchInside(body: Bytes, d: Bytes, pos: nat)
    requires MatchesAt(body, d, pos)
    ensures pos + |d| <= |body|
  {
  }

  lemma {:induction false} NeverClosed(body: Bytes, d: Bytes, i: nat)
    requires d != [] && i <= |body|
    requires forall j: nat | i <= j <= |body| && AtLineStart(body, j) :: !MatchesAt(body, d + "--", j)
    ensures forall k | 0 <= k < |Marks(body, d, i)| :: !Marks(body, d, i)[k].closing
    decreases |body| - i
  {
    hide MatchesAt, MarkAt;
    var found := FindFrom(body, d, i);
    if found.Some? {
      var pos := found.value;
      MatchInside(body, d, pos);
      if !AtLineStart(body, pos) {
        NeverClosed(body, d, pos + 1);
      } else {
        ClosingIff(body, d, pos);
        NeverClosed(body, d, Max(MarkAt(body, d, pos).content, pos + 1));
      }
    }
  }

  /** A body splits exactly when a closing delimiter starts one of its lines. */
  lemma SplitIff(body: Bytes, boundary: string)
    requires '\r' !in boundary && '\n' !in boundary
    ensures Split(body, boundary).Some?
        <==> exists j: nat | j <= |body| && AtLineStart(body, j) :: MatchesAt(body, Delimiter(boundary) + "--", j)
  {
    var d := Delimiter(boundary);
    GoodDelimiterOf(boundary);
    hide MatchesAt, Marks, Delimiter;
    if j: nat :| j <= |body| && AtLineStart(body, j) && MatchesAt(body, d + "--", j) {
      ClosingReached(body, d, 0, j);
    } else {
      NeverClosed(body, d, 0);
    }
  }

  lemma BehindPreamble(body: Bytes, preamble: Bytes, boundary: string, rest: Bytes)
    requires body == preamble + rest && Fresh(preamble, boundary)
    requires preamble == [] || preamble[|preamble| - 1] == '\n'
    ensures |preamble| <= |body| && body[|preamble|..] == rest && AtLineStart(body, |preamble|)
    ensures NoDelimiterLine(preamble, Delimiter(boundary))
  {
    hide NoDelimiterLine;
  }

  lemma SplitIf(body: Bytes, pos: nat, boundary: string, parts: seq<Part>)
    requires GoodDelimiter(Delimiter(boundary)) && MatchesAt(body, Delimiter(boundary), pos)
    requires Cut(body, Delimiter(boundary), pos, parts)
    requires Marks(body, Delimiter(boundary), 0) == Marks(body, Delimiter(boundary), pos)
    ensures Split(body, boundary) == Some(Contents(parts))
  {
    hide Marks, MarkAt, MatchesAt, Between, Contents, Delimiter;
  }

  lemma PreambleSkipped(body: Bytes, preamble: Bytes, d: Bytes, rest: Bytes)
    requires GoodDelimiter(d) && body == preamble + rest && MatchesAt(body, d, |preamble|)
    requires NoDelimiterLine(preamble, d) && (preamble == [] || preamble[|preamble| - 1] == '\n')
    ensures Marks(body, d, 0) == Marks(body, d, |preamble|)
  {
    forall j | 0 <= j < |preamble| && AtLineStart(body, j) ensures !MatchesAt(body, d, j) {
      assert AtLineStart(preamble, j);
      if j + |d| <= |preamble| {
        MatchesAtPrefix(preamble, rest, d, j);
      } else {
        NoMatch(body, d, j, |preamble| - 1 - j);
      }
    }
    hide MatchesAt;
    SkipTo(body, d, 0, |preamble|);
  }
}
