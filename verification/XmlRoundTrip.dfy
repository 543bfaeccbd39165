/** Reading a written document gives the tree it means, up to the depth cap
    (crates/mw-autoconfig/src/xml.rs, crates/mw-carddav/src/request.rs). */
module XmlRoundTrip {
  import opened Wrappers
  import opened Text
  import opened Utf8
  import opened XmlEscape
  import opened XmlReader
  import opened XmlMarkup

  // -- encoded text ------------------------------------------------------------

  lemma AsciiThen(a: string, rest: string)
    requires IsAscii(a)
    ensures Encode(a + rest) == a + Encode(rest)
  {
    EncodeConcat(a, rest);
    EncodeAscii(a);
  }

  lemma CharBytes(c: char, i: nat)
    requires i < |EncodeChar(c)|
    ensures if c as int < 0x80 then EncodeChar(c) == [c] else EncodeChar(c)[i] as int >= 0x80
  {
  }

  /** ASCII bytes of encoded text are its ASCII characters. */
  lemma {:induction false} AsciiBytes(s: string, i: nat)
    requires i < |Encode(s)|
    ensures Encode(s)[i] as int >= 0x80 || Encode(s)[i] in s
    decreases |s|
  {
    var n := |EncodeChar(s[0])|;
    if i < n {
      CharBytes(s[0], i);
    } else {
      AsciiBytes(s[1..], i - n);
      assert Encode(s)[i] == Encode(s[1..])[i - n];
    }
  }

  /** An ASCII prefix of the bytes is a prefix of the text. */
  lemma {:induction false} PrefixBytes(s: string, m: string)
    requires IsAscii(m)
    ensures m <= Encode(s) <==> m <= s
    decreases |m|
  {
    if m != "" && s != "" {
      var first, rest := EncodeChar(s[0]), Encode(s[1..]);
      PrefixBytes(s[1..], m[1..]);
      CharBytes(s[0], 0);
      hide EncodeChar;
      assert Encode(s) == first + rest && Encode(s)[0] == first[0];
      assert m == [m[0]] + m[1..] && s == [s[0]] + s[1..];
      if s[0] as int < 0x80 {
        assert Encode(s)[1..] == rest;
        PrefixByHead(m, Encode(s));
        PrefixByHead(m, s);
      }
    }
  }

  lemma PrefixByHead(m: string, s: string)
    requires m != "" && s != ""
    ensures m <= s <==> m[0] == s[0] && m[1..] <= s[1..]
  {
    if m[0] == s[0] && m[1..] <= s[1..] {
      assert m == [m[0]] + m[1..] && s == [s[0]] + s[1..];
      assert forall i | 0 <= i < |m| :: m[i] == s[i] by {
        forall i | 0 <= i < |m| ensures m[i] == s[i] {
          if i > 0 {
            assert m[1..][i - 1] == s[1..][i - 1];
          }
        }
      }
    }
  }

  lemma StartIsMatch(s: string, m: string)
    ensures MatchesAt(s, m, 0) <==> m <= s
  {
    MatchIsSlice(s, m, 0);
  }

  lemma TailEndsFirst(t: string, m: string)
    requires t != "" && EndsFirst(t, m)
    ensures EndsFirst(t[1..], m)
  {
    forall i: nat | i < |t[1..]| ensures !MatchesAt(t[1..] + m, m, i) {
      assert t + m == [t[0]] + (t[1..] + m);
      MatchesAtSuffix([t[0]], t[1..] + m, m, i + 1);
    }
  }

  /** A marker that comes first at the end of the text does so in its bytes. */
  lemma {:induction false} BytesEndFirst(t: string, m: string)
    requires IsAscii(m) && m != "" && EndsFirst(t, m)
    ensures EndsFirst(Encode(t), m)
    decreases |t|
  {
    if t != "" {
      TailEndsFirst(t, m);
      BytesEndFirst(t[1..], m);
      HeadEndsFirst(t, m);
      var head, tail := EncodeChar(t[0]), Encode(t[1..]);
      hide EncodeChar, MatchesAt;
      assert Encode(t) + m == head + (tail + m);
      forall i: nat | i < |Encode(t)| ensures !MatchesAt(Encode(t) + m, m, i) {
        if i >= |head| {
          MatchesAtSuffix(head, tail + m, m, i);
        }
      }
    }
  }

  lemma HeadEndsFirst(t: string, m: string)
    requires t != "" && IsAscii(m) && m != "" && EndsFirst(t, m)
    ensures forall i: nat | i < |EncodeChar(t[0])| :: !MatchesAt(Encode(t) + m, m, i)
  {
    forall i: nat | i < |EncodeChar(t[0])| ensures !MatchesAt(Encode(t) + m, m, i) {
      CharBytes(t[0], i);
      if i == 0 {
        EncodeConcat(t, m);
        EncodeAscii(m);
        PrefixBytes(t + m, m);
        StartIsMatch(t + m, m);
        StartIsMatch(Encode(t) + m, m);
      } else {
        assert (Encode(t) + m)[i] == EncodeChar(t[0])[i];
        NoMatch(Encode(t) + m, m, i, 0);
      }
    }
  }

  /** The first marker behind text that holds none. */
  lemma FindMarker(t: string, m: string, rest: string)
    requires IsAscii(m) && m != "" && EndsFirst(t, m)
    ensures
      var s := Encode(t + (m + rest));
      && s == Encode(t) + (m + Encode(rest)) && Find(s, m) == Some(|Encode(t)|)
      && s[..|Encode(t)|] == Encode(t) && s[|Encode(t)| + |m|..] == Encode(rest)
  {
    BytesEndFirst(t, m);
    EncodeConcat(t, m + rest);
    AsciiThen(m, rest);
    hide Encode, IsAscii;
    FindEnd(Encode(t), m, Encode(rest));
  }

  lemma FindEnd(b: Bytes, m: string, rest: Bytes)
    requires m != "" && EndsFirst(b, m)
    ensures Find(b + (m + rest), m) == Some(|b|)
    ensures (b + (m + rest))[..|b|] == b && (b + (m + rest))[|b| + |m|..] == rest
  {
    var s := b + (m + rest);
    assert s == (b + m) + rest;
    forall j | 0 <= j < |b| ensures !MatchesAt(s, m, j) {
      MatchesAtPrefix(b + m, rest, m, j);
    }
    MatchesAtSuffix(b, m + rest, m, |b|);
    hide Find;
    FindIs(s, m, |b|);
  }

  lemma SkipMarker(t: string, m: string, rest: string)
    requires IsAscii(m) && m != "" && EndsFirst(t, m)
    ensures SkipUntil(Encode(t + (m + rest)), m) == Encode(rest)
  {
    FindMarker(t, m, rest);
    hide Encode, IsAscii, EndsFirst, Find;
  }

  // -- blanks and names --------------------------------------------------------

  lemma {:induction false} SpanOver(a: Bytes, rest: Bytes, stop: char -> bool)
    requires forall i | 0 <= i < |a| :: !stop(a[i])
    requires rest == "" || stop(rest[0])
    ensures Span(a + rest, stop) == |a|
    decreases |a|
  {
    if a == "" {
      assert a + rest == rest;
    } else {
      assert (a + rest)[1..] == a[1..] + rest;
      SpanOver(a[1..], rest, stop);
    }
  }

  lemma BlankIsAscii(b: string)
    requires Blank(b)
    ensures IsAscii(b)
  {
  }

  lemma {:induction false} SkipOver(b: string, rest: Bytes)
    requires Blank(b)
    ensures SkipWs(b + rest) == SkipWs(rest)
    decreases |b|
  {
    if b == "" {
      assert b + rest == rest;
    } else {
      assert (b + rest)[1..] == b[1..] + rest;
      SkipOver(b[1..], rest);
    }
  }

  lemma NoBlanks(s: Bytes)
    requires s != "" ==> !IsAsciiSpace(s[0])
    ensures SkipWs(s) == s
  {
  }

  lemma SkipBlank(b: string, rest: string)
    requires Blank(b)
    ensures SkipWs(Encode(b + rest)) == SkipWs(Encode(rest))
  {
    BlankIsAscii(b);
    AsciiThen(b, rest);
    SkipOver(b, Encode(rest));
  }

  lemma NameBytes(n: string)
    requires LegalAttrName(n)
    ensures Encode(n) != "" && forall i | 0 <= i < |Encode(n)| :: !EndsName(Encode(n)[i])
  {
    forall i | 0 <= i < |Encode(n)| ensures !EndsName(Encode(n)[i]) {
      AsciiBytes(n, i);
    }
  }

  /** The rest starts with a character that ends a name. */
  predicate AfterName(rest: string) {
    rest != "" && rest[0] as int < 0x80 && EndsName(rest[0])
  }

  lemma FirstByte(rest: string)
    requires rest != "" && rest[0] as int < 0x80
    ensures Encode(rest) == [rest[0]] + Encode(rest[1..])
  {
  }

  lemma ReadNameBack(n: string, rest: string)
    requires LegalAttrName(n) && AfterName(rest)
    ensures ReadName(Encode(n + rest)) == (n, Encode(rest))
    ensures SkipWs(Encode(n + rest)) == Encode(n + rest)
    ensures Encode(n + rest) != "" && !EndsName(Encode(n + rest)[0])
  {
    NameBytes(n);
    EncodeConcat(n, rest);
    FirstByte(rest);
    LossyOfEncode(n);
    hide Encode, Lossy, LegalAttrName;
    var b, r := Encode(n), Encode(rest);
    NoBlanks(b + r);
    SpanOver(b, r, EndsName);
    assert (b + r)[..|b|] == b && (b + r)[|b|..] == r;
  }

  // -- tags --------------------------------------------------------------------

  /** What may follow an attribute. */
  predicate AfterAttr(rest: string) {
    AfterName(rest) && rest[0] != '=' && !("=" <= SkipWs(Encode(rest)))
  }

  lemma QuotedBack(quote: char, raw: string, rest: string)
    requires quote in {'"', '\''} && quote !in raw
    ensures
      var s := Encode([quote] + (raw + ([quote] + rest)));
      ReadQuoted(s) == Some((Unescape(raw), Encode(rest))) && SkipWs(s) == s
  {
    var e := Encode(raw);
    forall i | 0 <= i < |e| ensures e[i] != quote {
      AsciiBytes(raw, i);
    }
    LossyOfEncode(raw);
    AsciiThen([quote], raw + ([quote] + rest));
    EncodeConcat(raw, [quote] + rest);
    AsciiThen([quote], rest);
    hide Encode, Lossy, Unescape;
    QuotedPieces(quote, e, Encode(rest));
  }

  lemma SpanTo(a: Bytes, rest: Bytes, c: char)
    requires forall i | 0 <= i < |a| :: a[i] != c
    ensures Span(a + ([c] + rest), x => x == c) == |a|
  {
    SpanOver(a, [c] + rest, x => x == c);
  }

  lemma QuotedPieces(quote: char, e: Bytes, rest: Bytes)
    requires quote in {'"', '\''} && forall i | 0 <= i < |e| :: e[i] != quote
    ensures
      var s := [quote] + (e + ([quote] + rest));
      ReadQuoted(s) == Some((Unescape(Lossy(e)), rest)) && SkipWs(s) == s
  {
    var t := e + ([quote] + rest);
    var s := [quote] + t;
    hide Span, Unescape, Lossy, SkipWs;
    NoBlanks(s);
    assert s[1..] == t && s[0] == quote;
    SpanTo(e, rest, quote);
    assert t[..|e|] == e && t[|e|..] == [quote] + rest && ([quote] + rest)[1..] == rest;
  }

  /** Reading a tag goes on behind blanks. */
  lemma TagBehindBlanks(s: Bytes, attrs: seq<(string, string)>)
    ensures ReadTag(SkipWs(s), attrs) == ReadTag(s, attrs)
  {
    NoBlanks(SkipWs(s));
    hide ReadName, ReadQuoted;
  }

  lemma BareStep(s: Bytes, t: Bytes, before: seq<(string, string)>, name: string, u: Bytes)
    requires SkipWs(s) == t && t != "" && !EndsName(t[0])
    requires name != "" && ReadName(t) == (name, u) && !("=" <= SkipWs(u))
    ensures ReadTag(s, before) == ReadTag(SkipWs(u), before + [(name, "")])
  {
    assert !("/>" <= t) && !(">" <= t);
    hide ReadName, ReadQuoted, SkipWs;
  }

  lemma QuotedStep(s: Bytes, t: Bytes, before: seq<(string, string)>, name: string, u: Bytes, q: Bytes, value: string,
                   rest: Bytes)
    requires SkipWs(s) == t && t != "" && !EndsName(t[0])
    requires name != "" && ReadName(t) == (name, u) && "=" <= SkipWs(u) && SkipWs(SkipWs(u)[1..]) == q
    requires ReadQuoted(q) == Some((value, rest))
    ensures ReadTag(s, before) == ReadTag(rest, before + [(name, value)])
  {
    assert !("/>" <= t) && !(">" <= t);
    hide ReadName, ReadQuoted, SkipWs;
  }

  /** An attribute is read, and the scan goes on behind it. */
  lemma ReadAttr(a: Attr, rest: string, before: seq<(string, string)>)
    requires LegalAttr(a) && AfterAttr(rest)
    ensures ReadTag(Encode(AttrOnto(a, rest)), before) == ReadTag(Encode(rest), before + [AttrMeaning(a)])
  {
    match a {
      case Bare(lead, name) =>
        hide *;
        LegalBare(a);
        ReadNameBack(name, rest);
        SkipBlank(lead, name + rest);
        BareStep(Encode(lead + (name + rest)), Encode(name + rest), before, name, Encode(rest));
        TagBehindBlanks(Encode(rest), before + [(name, "")]);
        BareIs(a, rest);
        AfterAttrIs(rest);
      case Quoted(lead, name, _, _, _, _) =>
        var u := ValueOnto(a, rest);
        QuotedIs(a, rest);
        hide *;
        LegalQuoted(a, rest);
        ReadNameBack(name, u);
        SkipBlank(lead, name + u);
        ReadValue(a, rest);
        QuotedStep(Encode(lead + (name + u)), Encode(name + u), before, name, Encode(u),
                   Encode(QuoteOnto(a, rest)), Unescape(a.raw), Encode(rest));
    }
  }

  lemma AfterAttrIs(rest: string)
    requires AfterAttr(rest)
    ensures AfterName(rest) && !("=" <= SkipWs(Encode(rest)))
  {
  }

  lemma BareIs(a: Attr, rest: string)
    requires a.Bare?
    ensures AttrOnto(a, rest) == a.lead + (a.name + rest) && AttrMeaning(a) == (a.name, "")
  {
  }

  lemma LegalBare(a: Attr)
    requires LegalAttr(a)
    ensures Blank(a.lead) && LegalAttrName(a.name) && a.name != ""
  {
  }

  /** A quoted value with what follows, and with the sign and blanks before it. */
  function QuoteOnto(a: Attr, rest: string): string
    requires a.Quoted?
  {
    [a.quote] + (a.raw + ([a.quote] + rest))
  }

  function ValueOnto(a: Attr, rest: string): string
    requires a.Quoted?
  {
    a.before + ("=" + (a.after + QuoteOnto(a, rest)))
  }

  lemma QuotedIs(a: Attr, rest: string)
    requires a.Quoted?
    ensures AttrOnto(a, rest) == a.lead + (a.name + ValueOnto(a, rest))
    ensures AttrMeaning(a) == (a.name, Unescape(a.raw))
  {
  }

  lemma LegalQuoted(a: Attr, rest: string)
    requires LegalAttr(a) && a.Quoted?
    ensures Blank(a.lead) && LegalAttrName(a.name) && a.name != "" && AfterName(ValueOnto(a, rest))
  {
    if a.before != "" {
      assert ValueOnto(a, rest)[0] == a.before[0];
      assert IsAsciiSpace(a.before[0]);
    }
  }

  lemma ReadValue(a: Attr, rest: string)
    requires LegalAttr(a) && a.Quoted?
    ensures
      var u, q := SkipWs(Encode(ValueOnto(a, rest))), Encode(QuoteOnto(a, rest));
      "=" <= u && SkipWs(u[1..]) == q && ReadQuoted(q) == Some((Unescape(a.raw), Encode(rest)))
  {
    var r := a.after + QuoteOnto(a, rest);
    hide Encode, ReadQuoted, Unescape;
    SkipBlank(a.before, "=" + r);
    AsciiThen("=", r);
    NoBlanks("=" + Encode(r));
    assert ("=" + Encode(r))[1..] == Encode(r);
    SkipBlank(a.after, QuoteOnto(a, rest));
    QuotedBack(a.quote, a.raw, rest);
  }

  /** The end of a tag. */
  predicate TagEnd(end: string) {
    end == ">" || end == "/>"
  }

  lemma EndFollows(blanks: string, end: string, rest: string)
    requires Blank(blanks) && TagEnd(end)
    ensures AfterAttr(blanks + (end + rest))
  {
    var s := blanks + (end + rest);
    SkipBlank(blanks, end + rest);
    AsciiThen(end, rest);
    NoBlanks(Encode(end + rest));
    assert s[0] == if blanks == "" then end[0] else blanks[0];
    assert blanks != "" ==> IsAsciiSpace(blanks[0]);
  }

  lemma AttrFollows(a: Attr, rest: string)
    requires LegalAttr(a) && AfterName(rest)
    ensures AfterAttr(AttrOnto(a, rest))
  {
    var u := if a.Bare? then rest else ValueOnto(a, rest);
    if a.Quoted? {
      QuotedIs(a, rest);
      LegalQuoted(a, rest);
    }
    var s := a.lead + (a.name + u);
    assert s[0] == a.lead[0] && IsAsciiSpace(a.lead[0]);
    hide Encode, LegalAttrName;
    SkipBlank(a.lead, a.name + u);
    ReadNameBack(a.name, u);
  }

  lemma {:induction false} AttrsFollow(attrs: seq<Attr>, rest: string)
    requires LegalAttrs(attrs) && AfterAttr(rest)
    ensures AfterAttr(AttrsOnto(attrs, rest))
    decreases |attrs|
  {
    if attrs != [] {
      assert LegalAttrs(attrs[1..]);
      AttrsFollow(attrs[1..], rest);
      AttrFollows(attrs[0], AttrsOnto(attrs[1..], rest));
    }
  }

  lemma ReadTagEnd(blanks: string, end: string, rest: string, before: seq<(string, string)>)
    requires Blank(blanks) && TagEnd(end)
    ensures ReadTag(Encode(blanks + (end + rest)), before) == Some(Tag(before, end == "/>", Encode(rest)))
  {
    SkipBlank(blanks, end + rest);
    AsciiThen(end, rest);
    NoBlanks(end + Encode(rest));
    hide Encode;
    var t := end + Encode(rest);
    assert t[|end|..] == Encode(rest);
  }

  /** All attributes are read, and the scan goes on behind them. */
  lemma {:induction false} ReadAttrs(attrs: seq<Attr>, tail: string, before: seq<(string, string)>)
    requires LegalAttrs(attrs) && AfterAttr(tail)
    ensures ReadTag(Encode(AttrsOnto(attrs, tail)), before) == ReadTag(Encode(tail), before + AttrMeanings(attrs))
    decreases |attrs|
  {
    if attrs == [] {
      assert before + [] == before;
    } else {
      var rest := AttrsOnto(attrs[1..], tail);
      assert LegalAttrs(attrs[1..]) && LegalAttr(attrs[0]);
      AttrsFollow(attrs[1..], tail);
      hide ReadTag, Encode, LegalAttr, AfterAttr, AttrOnto, AttrMeaning;
      ReadAttr(attrs[0], rest, before);
      ReadAttrs(attrs[1..], tail, before + [AttrMeaning(attrs[0])]);
      Assoc(before, [AttrMeaning(attrs[0])], AttrMeanings(attrs[1..]));
    }
  }

  lemma ReadTagBack(attrs: seq<Attr>, blanks: string, end: string, rest: string, before: seq<(string, string)>)
    requires LegalAttrs(attrs) && Blank(blanks) && TagEnd(end)
    ensures ReadTag(Encode(AttrsOnto(attrs, blanks + (end + rest))), before)
         == Some(Tag(before + AttrMeanings(attrs), end == "/>", Encode(rest)))
  {
    hide *;
    EndFollows(blanks, end, rest);
    ReadAttrs(attrs, blanks + (end + rest), before);
    ReadTagEnd(blanks, end, rest, before + AttrMeanings(attrs));
  }

  // -- content -----------------------------------------------------------------

  /** What the content loop looks at first. */
  lemma Starts(s: string)
    ensures s != "" ==> Encode(s) != ""
    ensures "</" <= Encode(s) <==> "</" <= s
    ensures "<!--" <= Encode(s) <==> "<!--" <= s
    ensures CDATA <= Encode(s) <==> CDATA <= s
    ensures "<?" <= Encode(s) <==> "<?" <= s
    ensures "<!" <= Encode(s) <==> "<!" <= s
    ensures "<" <= Encode(s) <==> "<" <= s
  {
    PrefixBytes(s, "</");
    PrefixBytes(s, "<!--");
    PrefixBytes(s, CDATA);
    PrefixBytes(s, "<?");
    PrefixBytes(s, "<!");
    PrefixBytes(s, "<");
  }

  lemma ReadComment(text: string, rest: string, depth: nat, node: Node)
    requires EndsFirst("<!--" + text, "-->")
    ensures ReadContent(Encode("<!--" + (text + ("-->" + rest))), depth, node) == ReadContent(Encode(rest), depth, node)
  {
    var s := "<!--" + (text + ("-->" + rest));
    Assoc("<!--", text, "-->" + rest);
    hide Encode, EndsFirst, SkipUntil;
    SkipMarker("<!--" + text, "-->", rest);
    Starts(s);
    assert s[1] == '!';
    assert "<!--" <= s;
  }

  lemma ReadInstruction(text: string, rest: string, depth: nat, node: Node)
    requires EndsFirst("<?" + text, "?>")
    ensures ReadContent(Encode("<?" + (text + ("?>" + rest))), depth, node) == ReadContent(Encode(rest), depth, node)
  {
    var s := "<?" + (text + ("?>" + rest));
    Assoc("<?", text, "?>" + rest);
    hide Encode, EndsFirst, SkipUntil;
    SkipMarker("<?" + text, "?>", rest);
    Starts(s);
    assert s[1] == '?' && CDATA[1] == '!';
    assert "<?" <= s;
  }

  lemma CdataBytes(data: Bytes, i: nat, depth: nat, node: Node)
    requires Find(data, "]]>") == Some(i)
    ensures ReadContent(CDATA + data, depth, node)
         == ReadContent(data[i + 3..], depth, node.(text := node.text + Lossy(data[..i])))
  {
    var s := CDATA + data;
    CdataIsAscii();
    assert s[9..] == data && s[1] == '!' && s[2] == '[';
    hide Find, Lossy;
  }

  lemma ReadCdata(text: string, rest: string, depth: nat, node: Node)
    requires EndsFirst(text, "]]>")
    ensures ReadContent(Encode(CDATA + (text + ("]]>" + rest))), depth, node)
         == ReadContent(Encode(rest), depth, node.(text := node.text + text))
  {
    FindMarker(text, "]]>", rest);
    LossyOfEncode(text);
    CdataIsAscii();
    hide *;
    AsciiThen(CDATA, text + ("]]>" + rest));
    CdataBytes(Encode(text + ("]]>" + rest)), |Encode(text)|, depth, node);
  }

  lemma CdataIsAscii()
    ensures IsAscii(CDATA) && |CDATA| == 9 && CDATA[1] == '!' && CDATA[2] == '['
  {
  }

  lemma ReadRun(raw: string, rest: string, depth: nat, node: Node)
    requires raw != "" && '<' !in raw && (rest == "" || rest[0] == '<')
    ensures ReadContent(Encode(raw + rest), depth, node)
         == ReadContent(Encode(rest), depth, node.(text := node.text + Unescape(raw)))
  {
    var e := Encode(raw);
    forall i | 0 <= i < |e| ensures e[i] != '<' {
      AsciiBytes(raw, i);
    }
    LossyOfEncode(raw);
    EncodeConcat(raw, rest);
    if rest != "" {
      FirstByte(rest);
    }
    Starts(raw);
    hide Encode, Lossy, Unescape;
    RunBytes(e, Encode(rest), depth, node);
  }

  lemma RunBytes(e: Bytes, rest: Bytes, depth: nat, node: Node)
    requires e != "" && (forall i | 0 <= i < |e| :: e[i] != '<') && (rest == "" || rest[0] == '<')
    ensures ReadContent(e + rest, depth, node)
         == ReadContent(rest, depth, node.(text := node.text + Unescape(Lossy(e))))
  {
    var s := e + rest;
    SpanOver(e, rest, IsLess);
    assert s[..|e|] == e && s[|e|..] == rest && s[0] != '<';
    hide Lossy, Unescape, Span;
  }

  /** Blanks, and then bytes that do not end a name, are passed by reading a name. */
  lemma NameLeaves(s: Bytes) returns (k: nat)
    ensures k <= |s| && ReadName(s).1 == s[k..] && forall i | 0 <= i < k :: s[i] != '>'
  {
    var j := BlanksPassed(s);
    var t := s[j..];
    var n := Span(t, EndsName);
    k := j + n;
    forall i | 0 <= i < k ensures s[i] != '>' {
      if i >= j {
        assert s[i] == t[i - j];
      }
    }
  }

  lemma {:induction false} BlanksPassed(s: Bytes) returns (k: nat)
    ensures k <= |s| && SkipWs(s) == s[k..] && forall i | 0 <= i < k :: s[i] != '>'
    decreases |s|
  {
    if s != "" && IsAsciiSpace(s[0]) {
      var m := BlanksPassed(s[1..]);
      k := m + 1;
      assert s[1..][m..] == s[k..];
      assert forall i | 0 < i < k :: s[i] == s[1..][i - 1];
    } else {
      k := 0;
    }
  }

  lemma FindClose(s: Bytes, n: nat, k: nat)
    requires n < |s| && s[n] == '>' && (forall i | 0 <= i < n :: s[i] != '>')
    requires k <= |s| && forall i | 0 <= i < k :: s[i] != '>'
    ensures SkipUntil(s[k..], ">") == s[n + 1..]
  {
    assert k <= n;
    var t := s[k..];
    forall j | 0 <= j < n - k ensures !MatchesAt(t, ">", j) {
      assert t[j] == s[k + j];
      NoMatch(t, ">", j, 0);
    }
    assert t[n - k] == '>';
    FindIs(t, ">", n - k);
  }

  lemma CloseBytes(e: Bytes, rest: Bytes)
    requires forall i | 0 <= i < |e| :: e[i] != '>'
    ensures SkipUntil(ReadName(e + (">" + rest)).1, ">") == rest
  {
    var b := e + (">" + rest);
    assert b[|e|] == '>' && b[|e| + 1..] == rest;
    hide ReadName, SkipUntil;
    var k := NameLeaves(b);
    FindClose(b, |e|, k);
  }

  lemma CloseStart(b: Bytes, depth: nat, node: Node)
    ensures ReadContent("</" + b, depth, node) == Some((node, SkipUntil(ReadName(b).1, ">")))
  {
    assert ("</" + b)[2..] == b;
    hide ReadName, SkipUntil;
  }

  /** Whatever stands in the closing tag. */
  lemma ReadClose(close: string, rest: string, depth: nat, node: Node)
    requires '>' !in close
    ensures ReadContent(Encode(CloseOnto(close, rest)), depth, node) == Some((node, Encode(rest)))
  {
    var e := Encode(close);
    AsciiThen("</", close + (">" + rest));
    EncodeConcat(close, ">" + rest);
    AsciiThen(">", rest);
    forall i | 0 <= i < |e| ensures e[i] != '>' {
      AsciiBytes(close, i);
    }
    hide Encode, ReadContent, ReadName, SkipUntil;
    CloseBytes(e, Encode(rest));
    CloseStart(e + (">" + Encode(rest)), depth, node);
  }

  // -- elements ----------------------------------------------------------------

  /** What follows the blanks of a start tag. */
  function BodyOnto(e: Element, rest: string): string {
    if e.SelfClosed? then rest else ItemsOnto(e.items, CloseOnto(e.close, rest))
  }

  function EndOf(e: Element): string {
    if e.SelfClosed? then "/>" else ">"
  }

  lemma ElementIs(e: Element, rest: string)
    ensures ElementOnto(e, rest)
         == "<" + (e.name + AttrsOnto(e.attrs, e.blanks + (EndOf(e) + BodyOnto(e, rest))))
  {
  }

  lemma OpenTag(e: Element, rest: string, depth: nat)
    requires Legal(e) && depth <= MAX_DEPTH
    ensures ReadElement(Encode(ElementOnto(e, rest)), depth)
         == if e.SelfClosed? then Some((Node(e.name, AttrMeanings(e.attrs), [], ""), Encode(rest)))
            else ReadContent(Encode(BodyOnto(e, rest)), depth, Node(e.name, AttrMeanings(e.attrs), [], ""))
  {
    ElementIs(e, rest);
    LegalIs(e);
    hide Encode, ReadName, ReadTag, ReadContent, Legal, LegalAttrs, LegalName, BodyOnto, Blank, ElementOnto, AttrsOnto,
         SkipMisc;
    ReadStart(e.name, e.attrs, e.blanks, EndOf(e), BodyOnto(e, rest));
  }

  lemma LegalIs(e: Element)
    requires Legal(e)
    ensures LegalName(e.name) && LegalAttrName(e.name) && e.name != "" && LegalAttrs(e.attrs) && Blank(e.blanks)
    ensures e.Open? ==> LegalItems(e.items) && '>' !in e.close
  {
  }

  /** A legal element's start tag is none of the other things that start with `<`. */
  lemma NotMarkup(e: Element, rest: string)
    requires LegalName(e.name)
    ensures
      var s := ElementOnto(e, rest);
      "<" <= s && !("</" <= s) && !("<!" <= s) && !("<?" <= s)
  {
    ElementIs(e, rest);
    assert ElementOnto(e, rest)[1] == e.name[0];
    hide ElementOnto;
  }

  lemma NextChild(e: Element, rest: string, depth: nat, node: Node)
    requires LegalName(e.name)
    ensures ReadContent(Encode(ElementOnto(e, rest)), depth, node)
         == (match ReadElement(Encode(ElementOnto(e, rest)), depth + 1)
             case None => None
             case Some(child) => ReadContent(child.1, depth, node.(children := node.children + [child.0])))
  {
    NotMarkup(e, rest);
    Starts(ElementOnto(e, rest));
    hide Encode, ReadElement, ElementOnto;
    assert "<!--"[..2] == "<!" && CDATA[..2] == "<!";
  }

  /** The element is read back as what it means if it fits under the cap, and refused if
      not. */
  lemma {:induction false} ReadElementBack(e: Element, rest: string, depth: nat)
    requires Legal(e)
    ensures ReadElement(Encode(ElementOnto(e, rest)), depth)
         == if depth + Levels(Meaning(e)) <= MAX_DEPTH + 1 then Some((Meaning(e), Encode(rest))) else None
    decreases e, 1
  {
    if depth <= MAX_DEPTH {
      OpenTag(e, rest, depth);
      LegalIs(e);
      if e.Open? {
        var open := Node(e.name, AttrMeanings(e.attrs), [], "");
        ReadItems(e.items, Some(e.close), rest, depth, open);
        assert [] + ChildrenOf(e.items) == ChildrenOf(e.items) && "" + TextOf(e.items) == TextOf(e.items);
      }
    }
    hide ReadContent, ElementOnto, Legal, LegalItems, ItemsOnto, AttrMeanings;
  }

  /** `node` with what these items add. */
  function Extended(node: Node, items: seq<Item>): Node {
    node.(children := node.children + ChildrenOf(items), text := node.text + TextOf(items))
  }

  lemma OneItem(i: Item)
    ensures ChildrenOf([i]) == ChildOf(i) && TextOf([i]) == TextIn(i)
  {
    assert [i][1..] == [];
    NoItems();
    EmptyRight(ChildOf(i));
    EmptyRight(TextIn(i));
  }

  lemma NoItems()
    ensures ChildrenOf([]) == [] && TextOf([]) == ""
  {
  }

  lemma ExtendedCons(node: Node, items: seq<Item>)
    requires items != []
    ensures Extended(node, items) == Extended(Extended(node, items[..1]), items[1..])
  {
    var first, rest := items[..1], items[1..];
    assert first == [items[0]];
    OneItem(items[0]);
    assert ChildrenOf(items) == ChildOf(items[0]) + ChildrenOf(rest)
        && TextOf(items) == TextIn(items[0]) + TextOf(rest);
    hide ChildrenOf, TextOf, ChildOf, TextIn;
    Assoc(node.children, ChildOf(items[0]), ChildrenOf(rest));
    Assoc(node.text, TextIn(items[0]), TextOf(rest));
  }

  /** The closing tag and what follows it, or the end of the document. */
  function EndOnto(close: Option<string>, rest: string): string {
    match close case None => "" case Some(c) => CloseOnto(c, rest)
  }

  /** What is left to read behind the end. */
  function Behind(close: Option<string>, rest: string): string {
    if close.None? then "" else rest
  }

  /** What follows a run of text. */
  lemma ItemsStart(items: seq<Item>, close: Option<string>, rest: string)
    requires items == [] || !items[0].Run?
    ensures
      var s := ItemsOnto(items, EndOnto(close, rest));
      s == "" || s[0] == '<'
  {
    if items != [] {
      match items[0]
      case Child(e) => ElementIs(e, ItemsOnto(items[1..], EndOnto(close, rest)));
      case _ =>
    }
  }

  /** One item that is not an element is read. */
  lemma ReadItem(i: Item, rest: string, depth: nat, node: Node)
    requires LegalItem(i) && !i.Child? && (i.Run? ==> rest == "" || rest[0] == '<')
    ensures ReadContent(Encode(ItemOnto(i, rest)), depth, node) == ReadContent(Encode(rest), depth, Extended(node, [i]))
  {
    OneItem(i);
    assert node.children + [] == node.children && node.text + "" == node.text;
    hide Encode, ReadContent, EndsFirst, Unescape, ChildrenOf, TextOf;
    match i {
      case Run(raw) => ReadRun(raw, rest, depth, node);
      case Comment(text) => ReadComment(text, rest, depth, node);
      case Cdata(text) => ReadCdata(text, rest, depth, node);
      case Instruction(text) => ReadInstruction(text, rest, depth, node);
    }
  }

  lemma LegalCons(items: seq<Item>)
    requires LegalItems(items) && items != []
    ensures LegalItem(items[0]) && LegalItems(items[1..]) && items[..1] == [items[0]]
    ensures items[0].Run? ==> items[1..] == [] || !items[1..][0].Run?
  {
    hide LegalItem;
  }

  lemma MostCons(items: seq<Item>)
    requires items != []
    ensures
      var rest := MostLevels(ChildrenOf(items[1..]));
      MostLevels(ChildrenOf(items))
      == if items[0].Child? && Levels(Meaning(items[0].element)) > rest then Levels(Meaning(items[0].element)) else rest
  {
    if items[0].Child? {
      var first := Meaning(items[0].element);
      assert ChildrenOf(items) == [first] + ChildrenOf(items[1..]);
      assert ChildrenOf(items)[1..] == ChildrenOf(items[1..]);
    } else {
      assert ChildrenOf(items) == ChildrenOf(items[1..]);
    }
    hide Levels, Meaning;
  }

  lemma ItemsCons(items: seq<Item>, rest: string)
    requires items != []
    ensures ItemsOnto(items, rest) == ItemOnto(items[0], ItemsOnto(items[1..], rest))
  {
  }

  lemma ReadLast(close: Option<string>, rest: string, depth: nat, node: Node)
    requires close.Some? ==> '>' !in close.value
    ensures ReadContent(Encode(ItemsOnto([], EndOnto(close, rest))), depth, node)
         == Some((Extended(node, []), Encode(Behind(close, rest))))
  {
    assert node.children + [] == node.children && node.text + "" == node.text;
    if close.None? {
      assert ReadContent("", depth, node) == Some((node, ""));
    } else {
      hide ReadContent, Encode, CloseOnto;
      ReadClose(close.value, rest, depth, node);
    }
  }

  /** From these items on, all are read up to the closing tag or the end, or an element is
      too deep. */
  lemma {:induction false} ReadItems(items: seq<Item>, close: Option<string>, rest: string, depth: nat, node: Node)
    requires LegalItems(items) && (close.Some? ==> '>' !in close.value) && depth <= MAX_DEPTH
    ensures ReadContent(Encode(ItemsOnto(items, EndOnto(close, rest))), depth, node)
         == if depth + MostLevels(ChildrenOf(items)) <= MAX_DEPTH
            then Some((Extended(node, items), Encode(Behind(close, rest)))) else None
    decreases items, 0
  {
    if |items| == 0 {
      ReadLast(close, rest, depth, node);
      assert items == [];
    } else {
      LegalCons(items);
      hide *;
      var tail := ItemsOnto(items[1..], EndOnto(close, rest));
      ReadItems(items[1..], close, rest, depth, Extended(node, items[..1]));
      ExtendedCons(node, items);
      ItemsCons(items, EndOnto(close, rest));
      MostCons(items);
      if items[0].Child? {
        ReadFirstChild(items, tail, depth, node);
      } else {
        if items[0].Run? {
          ItemsStart(items[1..], close, rest);
        }
        ReadItem(items[0], tail, depth, node);
      }
    }
  }

  lemma {:induction false} ReadFirstChild(items: seq<Item>, tail: string, depth: nat, node: Node)
    requires LegalItems(items) && items != [] && items[0].Child? && depth <= MAX_DEPTH
    ensures
      var e := items[0].element;
      ReadContent(Encode(ItemOnto(items[0], tail)), depth, node)
      == if depth + Levels(Meaning(e)) <= MAX_DEPTH then ReadContent(Encode(tail), depth, Extended(node, [items[0]]))
         else None
    decreases items[0], 2
  {
    var e := items[0].element;
    LegalIs(e);
    hide ReadContent, Encode, ElementOnto, Meaning, Levels, Legal, LegalItems, LegalName;
    NextChild(e, tail, depth, node);
    ReadElementBack(e, tail, depth + 1);
    ChildMeans(e, node);
  }

  lemma ChildMeans(e: Element, node: Node)
    ensures Extended(node, [Child(e)]) == node.(children := node.children + [Meaning(e)])
  {
    OneItem(Child(e));
    hide Meaning, ChildrenOf, TextOf;
    assert node.text + "" == node.text;
  }

  // -- the prolog --------------------------------------------------------------

  lemma SkipOneMisc(m: Misc, rest: string)
    requires LegalMisc(m)
    ensures SkipMisc(Encode(MiscOnto(m, rest))) == SkipMisc(Encode(rest))
  {
    match m {
      case Blanks(s) => SkipBlank(s, rest);
      case Declaration(text) =>
        var s := "<?" + (text + ("?>" + rest));
        Assoc("<?", text, "?>" + rest);
        SkipMarker("<?" + text, "?>", rest);
        MiscStarts(s);
        hide Encode, SkipWs, SkipUntil;
        assert "<?" <= s;
      case Remark(text) =>
        var s := "<!--" + (text + ("-->" + rest));
        Assoc("<!--", text, "-->" + rest);
        SkipMarker("<!--" + text, "-->", rest);
        MiscStarts(s);
        hide Encode, SkipWs, SkipUntil;
        assert s[1] == '!' && "<!--" <= s;
      case Doctype(text) =>
        DoctypeEnds(text);
        var s := "<!" + (text + (">" + rest));
        Assoc("<!", text, ">" + rest);
        SkipMarker("<!" + text, ">", rest);
        MiscStarts(s);
        NoRemark(text, rest);
        hide Encode, SkipWs, SkipUntil;
        assert s[1] == '!' && "<!" <= s;
    }
  }

  lemma MiscStarts(s: string)
    requires s != "" && s[0] == '<'
    ensures SkipWs(Encode(s)) == Encode(s)
    ensures "<!--" <= Encode(s) <==> "<!--" <= s
    ensures "<?" <= Encode(s) <==> "<?" <= s
    ensures "<!" <= Encode(s) <==> "<!" <= s
  {
    Starts(s);
    FirstByte(s);
    NoBlanks(Encode(s));
  }

  lemma DoctypeEnds(text: string)
    requires '>' !in text
    ensures EndsFirst("<!" + text, ">")
  {
    var s := "<!" + text;
    forall i: nat | i < |s| ensures !MatchesAt(s + ">", ">", i) {
      assert i >= 2 ==> (s + ">")[i] == text[i - 2];
      NoMatch(s + ">", ">", i, 0);
    }
  }

  lemma NoRemark(text: string, rest: string)
    requires '>' !in text && !("--" <= text)
    ensures !("<!--" <= "<!" + (text + (">" + rest)))
  {
    var s := "<!" + (text + (">" + rest));
    if |text| >= 2 {
      assert s[2] == text[0] && s[3] == text[1];
    } else if |text| == 1 {
      assert s[3] == '>';
    } else {
      assert s[2] == '>';
    }
  }

  lemma {:induction false} SkipProlog(prolog: seq<Misc>, rest: string)
    requires LegalProlog(prolog)
    ensures SkipMisc(Encode(PrologOnto(prolog, rest))) == SkipMisc(Encode(rest))
    decreases |prolog|
  {
    if prolog != [] {
      assert LegalProlog(prolog[1..]);
      SkipProlog(prolog[1..], rest);
      SkipOneMisc(prolog[0], PrologOnto(prolog[1..], rest));
    }
  }

  lemma NothingToSkip(e: Element, rest: string)
    requires LegalName(e.name)
    ensures SkipMisc(Encode(ElementOnto(e, rest))) == Encode(ElementOnto(e, rest))
  {
    NotMarkup(e, rest);
    MiscStarts(ElementOnto(e, rest));
    hide Encode, ElementOnto, SkipWs;
    assert "<!--"[..2] == "<!";
  }

  // -- documents ---------------------------------------------------------------

  /** The reader gives a legal document's meaning: whatever stands in the prolog and behind
      the root, with comments, instructions, CDATA sections and self-closed elements
      anywhere, exactly when the root has at most `MAX_DEPTH + 1` levels; a deeper one is
      refused. */
  lemma ParseOfDocument(prolog: seq<Misc>, root: Element, behind: string)
    requires LegalProlog(prolog) && Legal(root)
    ensures ParsedDocument(PrologOnto(prolog, ElementOnto(root, behind)))
         == if Levels(Meaning(root)) <= MAX_DEPTH + 1 then Some(Meaning(root)) else None
  {
    LegalIs(root);
    SkipProlog(prolog, ElementOnto(root, behind));
    NothingToSkip(root, behind);
    ReadElementBack(root, behind, 0);
    hide SkipMisc, ReadElement, ElementOnto, PrologOnto, Levels, Meaning, Encode, Legal;
  }

  /** A start tag in front of anything. */
  function StartOnto(name: string, attrs: seq<Attr>, blanks: string, end: string, rest: string): string {
    "<" + (name + AttrsOnto(attrs, blanks + (end + rest)))
  }

  lemma ReadStart(name: string, attrs: seq<Attr>, blanks: string, end: string, rest: string)
    requires LegalName(name) && LegalAttrs(attrs) && Blank(blanks) && TagEnd(end)
    ensures
      var s := Encode(StartOnto(name, attrs, blanks, end, rest));
      && SkipMisc(s) == s && "<" <= s && ReadName(s[1..]).0 == name && name != ""
      && ReadTag(ReadName(s[1..]).1, []) == Some(Tag(AttrMeanings(attrs), end == "/>", Encode(rest)))
  {
    var s, tag := StartOnto(name, attrs, blanks, end, rest), AttrsOnto(attrs, blanks + (end + rest));
    StartIsPlain(name, tag);
    hide Encode, AttrsOnto, AfterAttr, ReadName, ReadTag, LegalAttrs, LegalName, Blank, SkipMisc;
    EndFollows(blanks, end, rest);
    AttrsFollow(attrs, blanks + (end + rest));
    AfterAttrIs(tag);
    AsciiThen("<", name + tag);
    ReadNameBack(name, tag);
    ReadTagBack(attrs, blanks, end, rest, []);
    assert [] + AttrMeanings(attrs) == AttrMeanings(attrs);
    assert ("<" + Encode(name + tag))[1..] == Encode(name + tag);
  }

  lemma StartIsPlain(name: string, tag: string)
    requires LegalName(name)
    ensures LegalAttrName(name) && name != ""
    ensures SkipMisc(Encode("<" + (name + tag))) == Encode("<" + (name + tag))
  {
    var s := "<" + (name + tag);
    assert s[1] == name[0];
    MiscStarts(s);
    hide Encode, SkipWs;
    assert "<!--"[..2] == "<!";
  }

  /** A root that the document leaves open is closed by its end. */
  lemma ParseOfUnclosed(prolog: seq<Misc>, name: string, attrs: seq<Attr>, blanks: string, items: seq<Item>)
    requires LegalProlog(prolog) && LegalName(name) && LegalAttrs(attrs) && Blank(blanks) && LegalItems(items)
    ensures ParsedDocument(PrologOnto(prolog, StartOnto(name, attrs, blanks, ">", ItemsOnto(items, ""))))
         == if MostLevels(ChildrenOf(items)) <= MAX_DEPTH
            then Some(Node(name, AttrMeanings(attrs), ChildrenOf(items), TextOf(items))) else None
  {
    var doc := StartOnto(name, attrs, blanks, ">", ItemsOnto(items, ""));
    var open := Node(name, AttrMeanings(attrs), [], "");
    SkipProlog(prolog, doc);
    ReadStart(name, attrs, blanks, ">", ItemsOnto(items, ""));
    ReadItems(items, None, "", 0, open);
    assert [] + ChildrenOf(items) == ChildrenOf(items) && "" + TextOf(items) == TextOf(items);
    hide SkipMisc, ReadContent, ReadName, ReadTag, PrologOnto, StartOnto, ItemsOnto, Encode, ChildrenOf, TextOf,
         MostLevels, AttrMeanings;
  }

  // -- malformed documents -----------------------------------------------------

  /** Where no element can start: at the end, at text, or at a tag without a name. */
  predicate NoElement(s: string) {
    || s == "" || (s[0] != '<' && s[0] as int < 0x80 && !IsAsciiSpace(s[0]))
    || (s[0] == '<' && |s| > 1 && s[1] in {'>', '/', '='})
  }

  lemma NoElementIsRead(s: string)
    requires NoElement(s)
    ensures ReadElement(SkipMisc(Encode(s)), 0) == None
  {
    if s != "" {
      FirstByte(s);
      if s[0] == '<' {
        FirstByte(s[1..]);
        hide Encode;
        NamelessIsNone(Encode(s));
      } else {
        hide Encode;
        NoBlanks(Encode(s));
      }
    }
  }

  lemma NamelessIsNone(b: Bytes)
    requires |b| > 1 && b[0] == '<' && b[1] in {'>', '/', '='}
    ensures ReadElement(SkipMisc(b), 0) == None
  {
    NoMisc(b);
    NoBlanks(b[1..]);
    NoName(b[1..]);
    hide ReadName, SkipWs, SkipMisc, ReadTag, ReadContent;
  }

  lemma NoMisc(b: Bytes)
    requires |b| > 1 && b[0] == '<' && b[1] in {'>', '/', '='}
    ensures SkipMisc(b) == b
  {
    NoBlanks(b);
    hide SkipWs;
    assert b[..2] != "<?" && b[..2] != "<!";
  }

  lemma NoName(b: Bytes)
    requires b != "" && EndsName(b[0]) && SkipWs(b) == b
    ensures ReadName(b).0 == ""
  {
    assert Span(b, EndsName) == 0 && b[..0] == "" && Lossy("") == "";
    hide SkipWs;
  }

  /** How a tag may break off: at the end of the document, at a slash that closes nothing, or
      at a value without quotes. */
  datatype Break = AtEnd | Slash(rest: string) | NoQuote(name: string, before: string, after: string, rest: string)

  function BreakOnto(b: Break): string {
    match b
    case AtEnd => ""
    case Slash(rest) => "/" + rest
    case NoQuote(name, before, after, rest) => name + (before + ("=" + (after + rest)))
  }

  predicate Breaks(b: Break) {
    match b
    case AtEnd => true
    case Slash(rest) => rest == "" || rest[0] != '>'
    case NoQuote(name, before, after, rest) =>
      && LegalAttrName(name) && Blank(before) && Blank(after)
      && (rest == "" || (rest[0] as int < 0x80 && rest[0] !in {'"', '\''} && !IsAsciiSpace(rest[0])))
  }

  lemma ReadNoQuote(s: Bytes, t: Bytes, before: seq<(string, string)>, name: string, u: Bytes)
    requires SkipWs(s) == t && t != "" && !EndsName(t[0]) && name != "" && ReadName(t) == (name, u)
    requires "=" <= SkipWs(u) && ReadQuoted(SkipWs(SkipWs(u)[1..])) == None
    ensures ReadTag(s, before) == None
  {
    assert !("/>" <= t) && !(">" <= t);
    hide ReadName, ReadQuoted, SkipWs;
  }

  lemma NoQuoteIsNone(after: string, rest: string)
    requires Blank(after)
    requires rest == "" || (rest[0] as int < 0x80 && rest[0] !in {'"', '\''} && !IsAsciiSpace(rest[0]))
    ensures ReadQuoted(SkipWs(Encode(after + rest))) == None
  {
    SkipBlank(after, rest);
    if rest != "" {
      FirstByte(rest);
    }
    NoBlanks(Encode(rest));
    hide Encode, SkipWs;
  }

  lemma NoValue(name: string, before: string, after: string, rest: string)
    requires LegalAttrName(name) && Blank(before)
    ensures
      var v := before + ("=" + (after + rest));
      && AfterName(v) && "=" <= SkipWs(Encode(v)) && SkipWs(Encode(v))[1..] == Encode(after + rest)
      && ReadName(Encode(name + v)) == (name, Encode(v)) && SkipWs(Encode(name + v)) == Encode(name + v)
      && Encode(name + v) != "" && !EndsName(Encode(name + v)[0])
  {
    var v := before + ("=" + (after + rest));
    assert v[0] == if before == "" then '=' else before[0];
    assert before != "" ==> IsAsciiSpace(before[0]);
    SkipBlank(before, "=" + (after + rest));
    AsciiThen("=", after + rest);
    NoBlanks("=" + Encode(after + rest));
    hide Encode, LegalAttrName, SkipWs, ReadName;
    ReadNameBack(name, v);
    assert ("=" + Encode(after + rest))[1..] == Encode(after + rest);
  }

  lemma BreakIsNone(lead: string, b: Break, before: seq<(string, string)>)
    requires Blank(lead) && Breaks(b)
    ensures ReadTag(Encode(lead + BreakOnto(b)), before) == None
  {
    var t := BreakOnto(b);
    SkipBlank(lead, t);
    match b {
      case AtEnd =>
      case Slash(rest) =>
        AsciiThen("/", rest);
        NoBlanks("/" + Encode(rest));
        PrefixBytes("/" + rest, "/>");
        assert ("/" + rest)[1..] == rest;
        assert Span("/" + Encode(rest), EndsName) == 0;
        hide Encode;
        assert ReadName("/" + Encode(rest)).0 == Lossy("") == "";
      case NoQuote(name, first, after, rest) =>
        hide Encode, ReadTag, SkipWs, ReadName, ReadQuoted, LegalAttrName, Blank;
        NoValue(name, first, after, rest);
        NoQuoteIsNone(after, rest);
        ReadNoQuote(Encode(lead + t), Encode(t), before, name, Encode(first + ("=" + (after + rest))));
    }
  }

  lemma BreakFollows(lead: string, b: Break)
    requires Blank(lead) && lead != "" && Breaks(b)
    ensures AfterAttr(lead + BreakOnto(b))
  {
    var t := BreakOnto(b);
    assert (lead + t)[0] == lead[0] && IsAsciiSpace(lead[0]);
    SkipBlank(lead, t);
    match b {
      case AtEnd => assert Encode(t) == "";
      case Slash(rest) =>
        AsciiThen("/", rest);
        NoBlanks("/" + Encode(rest));
      case NoQuote(name, first, after, rest) =>
        hide Encode, ReadName, LegalAttrName, SkipWs;
        NoValue(name, first, after, rest);
    }
  }

  /** A document without a root element is refused. */
  lemma NoRootIsRefused(prolog: seq<Misc>, rest: string)
    requires LegalProlog(prolog) && NoElement(rest)
    ensures ParsedDocument(PrologOnto(prolog, rest)) == None
  {
    SkipProlog(prolog, rest);
    NoElementIsRead(rest);
    hide SkipMisc, ReadElement, PrologOnto, Encode;
  }

  /** So is one whose first tag breaks off. */
  lemma BrokenTagIsRefused(prolog: seq<Misc>, name: string, attrs: seq<Attr>, lead: string, b: Break)
    requires LegalProlog(prolog) && LegalName(name) && LegalAttrs(attrs) && Blank(lead) && lead != "" && Breaks(b)
    ensures ParsedDocument(PrologOnto(prolog, "<" + (name + AttrsOnto(attrs, lead + BreakOnto(b))))) == None
  {
    var tag := AttrsOnto(attrs, lead + BreakOnto(b));
    StartIsPlain(name, tag);
    hide Encode, AttrsOnto, AfterAttr, ReadName, ReadTag, LegalAttrs, LegalName, Blank, SkipMisc, PrologOnto, BreakOnto;
    SkipProlog(prolog, "<" + (name + tag));
    BreakFollows(lead, b);
    AttrsFollow(attrs, lead + BreakOnto(b));
    AfterAttrIs(tag);
    AsciiThen("<", name + tag);
    ReadNameBack(name, tag);
    ReadAttrs(attrs, lead + BreakOnto(b), []);
    BreakIsNone(lead, b, [] + AttrMeanings(attrs));
    assert ("<" + Encode(name + tag))[1..] == Encode(name + tag);
  }

  /** In particular a tree that the repository writes is read back. */
  lemma ParseOfPrint(t: Node)
    requires Writable(t)
    ensures ParsedDocument(Print(t)) == if Levels(t) <= MAX_DEPTH + 1 then Some(t) else None
  {
    EveryTreeIsMeant(t);
    ParseOfDocument([], Plain(t), "");
    hide ParsedDocument, Levels, Meaning, Plain, Legal, ElementOnto;
  }

  // -- on every input ----------------------------------------------------------

  /** Every child of `t` has at most `n` levels. */
  predicate ChildrenWithin(t: Node, n: int) {
    forall i | 0 <= i < |t.children| :: Levels(t.children[i]) <= n
  }

  lemma {:induction false} MostWithin(nodes: seq<Node>, n: nat)
    requires forall i | 0 <= i < |nodes| :: Levels(nodes[i]) <= n
    ensures MostLevels(nodes) <= n
    decreases |nodes|
  {
    if nodes != [] {
      MostWithin(nodes[1..], n);
      hide Levels;
    }
  }

  lemma {:induction false} ElementWithin(s: Bytes, depth: nat)
    ensures
      var r := ReadElement(s, depth);
      r.Some? ==> depth + Levels(r.value.0) <= MAX_DEPTH + 1
    decreases |s|, 0
  {
    var r := ReadElement(s, depth);
    if r.Some? {
      var name := ReadName(s[1..]);
      var tag := ReadTag(name.1, []).value;
      var open := Node(name.0, tag.attrs, [], "");
      if tag.closed {
        MostWithin(open.children, 0);
      } else {
        ContentWithin(tag.rest, depth, open);
        MostWithin(r.value.0.children, MAX_DEPTH - depth);
      }
    }
  }

  lemma {:induction false} ContentWithin(s: Bytes, depth: nat, node: Node)
    requires depth <= MAX_DEPTH && ChildrenWithin(node, MAX_DEPTH - depth)
    ensures
      var r := ReadContent(s, depth, node);
      r.Some? ==> ChildrenWithin(r.value.0, MAX_DEPTH - depth)
    decreases |s|, 1
  {
    if s == "" || "</" <= s {
    } else if "<!--" <= s {
      ContentWithin(SkipUntil(s, "-->"), depth, node);
    } else if CDATA <= s {
      var data := s[9..];
      var i := Find(data, "]]>");
      if i.Some? {
        ContentWithin(data[i.value + 3..], depth, node.(text := node.text + Lossy(data[..i.value])));
      }
    } else if "<?" <= s {
      ContentWithin(SkipUntil(s, "?>"), depth, node);
    } else if "<" <= s {
      ElementWithin(s, depth + 1);
      var child := ReadElement(s, depth + 1);
      if child.Some? {
        ContentWithin(child.value.1, depth, node.(children := node.children + [child.value.0]));
      }
    } else {
      var n := Span(s, IsLess);
      ContentWithin(s[n..], depth, node.(text := node.text + Unescape(Lossy(s[..n]))));
    }
  }

  /** No document, however it is written, gives a tree deeper than the cap. */
  lemma DepthIsCapped(input: string)
    ensures
      var r := ParsedDocument(input);
      r.Some? ==> Levels(r.value) <= MAX_DEPTH + 1
  {
    ElementWithin(SkipMisc(Encode(input)), 0);
  }

  // -- markup that the document leaves open ------------------------------------

  /** The marker does not occur in the text. */
  ghost predicate Lacks(s: string, marker: string) {
    forall i: nat :: !MatchesAt(s, marker, i)
  }

  lemma {:induction false} BytesLack(s: string, m: string)
    requires IsAscii(m) && m != "" && Lacks(s, m)
    ensures Lacks(Encode(s), m)
    decreases |s|
  {
    if s == "" {
      assert Encode(s) == "";
    } else {
      var head, tail := EncodeChar(s[0]), Encode(s[1..]);
      LackTail(s, m);
      BytesLack(s[1..], m);
      PrefixBytes(s, m);
      StartIsMatch(s, m);
      StartIsMatch(Encode(s), m);
      assert Encode(s) == head + tail;
      forall i: nat ensures !MatchesAt(Encode(s), m, i) {
        if i >= |head| {
          MatchesAtSuffix(head, tail, m, i);
        } else if i > 0 {
          CharBytes(s[0], i);
          assert (head + tail)[i] == head[i];
          NoMatch(head + tail, m, i, 0);
        }
      }
    }
  }

  lemma LackTail(s: string, m: string)
    requires s != "" && Lacks(s, m)
    ensures Lacks(s[1..], m)
  {
    forall i: nat ensures !MatchesAt(s[1..], m, i) {
      assert s == [s[0]] + s[1..];
      MatchesAtSuffix([s[0]], s[1..], m, i + 1);
    }
  }

  /** A comment, an instruction or a CDATA section that is never closed runs to the end; what
      was read before it stays. */
  lemma OpenMarkupEnds(open: string, close: string, text: string, depth: nat, node: Node)
    requires (open, close) in {("<!--", "-->"), ("<?", "?>"), (CDATA, "]]>")}
    requires if open == CDATA then Lacks(text, close) else Lacks(open + text, close)
    ensures ReadContent(Encode(open + text), depth, node) == Some((node, ""))
  {
    if open == CDATA {
      CdataIsAscii();
      AsciiThen(CDATA, text);
      BytesLack(text, "]]>");
      hide *;
      OpenCdata(Encode(text), depth, node);
    } else {
      OpenOther(open, close, text, depth, node);
    }
  }

  lemma OpenOther(open: string, close: string, text: string, depth: nat, node: Node)
    requires (open, close) in {("<!--", "-->"), ("<?", "?>")} && Lacks(open + text, close)
    ensures ReadContent(Encode(open + text), depth, node) == Some((node, ""))
  {
    var s := open + text;
    Starts(s);
    BytesLack(s, close);
    hide Encode, MatchesAt;
    NeverFound(Encode(s), close);
    assert s[1] == open[1] && open <= s && CDATA[1] == '!';
    EndsThere(depth, node);
    hide SkipUntil;
  }

  lemma NeverFound(b: Bytes, m: string)
    requires m != "" && Lacks(b, m)
    ensures SkipUntil(b, m) == "" && Find(b, m) == None
  {
  }

  lemma EndsThere(depth: nat, node: Node)
    ensures ReadContent("", depth, node) == Some((node, ""))
  {
  }

  lemma OpenCdata(data: Bytes, depth: nat, node: Node)
    requires Lacks(data, "]]>")
    ensures ReadContent(CDATA + data, depth, node) == Some((node, ""))
  {
    var s := CDATA + data;
    NeverFound(data, "]]>");
    CdataIsAscii();
    assert s[9..] == data && s[1] == '!' && s[2] == '[';
    hide Find;
  }
}
