/** The three ways header protection shows the protected fields to older readers, and
    what removing it restores in each (crates/mw-crypto/src/mime.rs; RFC 9788). */
module DisplayRoundTrip {
  import opened Wrappers
  import opened Text
  import opened Utf8
  import opened MimeEntity
  import opened HeaderProtection
  import opened HeaderProtectionRoundTrip
  import CT = ContentType
  import MP = Multipart
  import CP = CryptoParts
  import SR = SignedRoundTrip

  const DISPLAY: string := "hp-legacy-display"

  /** What the header protection of a message needs of the caller's field lists. */
  predicate GoodLists(headers: seq<Field>, outer: seq<Field>) {
    (forall i | 0 <= i < |headers| && IsProtected(headers[i]) :: GoodValue(headers[i].1)) && AllOuter(outer)
  }

  /** A payload that carries no protection of its own, and whose content type does not
      end inside a quoted string. */
  predicate Bare(e: Entity) {
    NoOuter(e.headers) && Markable(TypeValue(e))
  }

  predicate NoDisplay(e: Entity) {
    CT.Parse(TypeValue(e)).Param(DISPLAY) == None
  }

  /** The text of an entity with these fields and this body. */
  function TextOf(headers: seq<Field>, body: Bytes): string {
    HeaderText(headers) + "\r\n" + Lossy(body)
  }

  /** The reader's result for the protected entity `e`, showing the payload as `text`. */
  function Restored(headers: seq<Field>, outer: seq<Field>, p: Protection, text: string): ProtectedHeaders {
    ProtectedHeaders(Protected(headers), Scheme(p), outer, text)
  }

  lemma LossyOfEntity(e: Entity)
    ensures Lossy(e.ToBytes()) == TextOf(e.headers, e.body)
  {
    var h := HeaderText(e.headers);
    EncodeConcat(h, "\r\n");
    EncodeAscii("\r\n");
    LossyOfEncodeThen(h + "\r\n", e.body);
  }

  lemma ParsedIsProtectable(payload: Bytes)
    requires Bare(ParseEntity(payload))
    ensures Protectable(ParseEntity(payload))
  {
    HeaderBlockWritable(Lossy(payload[..HeaderEnd(payload).0]));
  }

  /** The parameters of the type the reader sees. */
  lemma ReadParams(e: Entity, p: Protection, name: string)
    requires Protectable(e)
    ensures TypeRead(e, p).Param(name)
         == if CT.Parse(TypeValue(e)).Param(name).Some? then CT.Parse(TypeValue(e)).Param(name)
            else if SameIgnoringCase("hp", name) then Some(Scheme(p)) else None
  {
    FirstParamAppend(CT.Parse(TypeValue(e)).params, ("hp", Scheme(p)), name);
  }

  // -- without a display element -----------------------------------------------

  lemma SameParts(e: Entity, ct: CT.MediaType, e': Entity, ct': CT.MediaType)
    requires e.body == e'.body && ct.mime == ct'.mime && ct.Param("boundary") == ct'.Param("boundary")
    ensures DisplayedParts(e, ct) == DisplayedParts(e', ct')
  {
  }

  lemma NoStrip(e: Entity, ct: CT.MediaType, boundary: string)
    requires ct.Param(DISPLAY) != Some("1") && DisplayedParts(e, ct) == None
    ensures StripLegacyDisplay(e, ct, boundary) == e.ToBytes()
  {
    hide DisplayedParts;
  }

  lemma NothingToStrip(e: Entity, fields: seq<Field>, outer: seq<Field>, p: Protection, boundary: string)
    requires Protectable(e) && CT.Parse(TypeValue(e)).Param(DISPLAY) != Some("1")
    requires DisplayedParts(e, CT.Parse(TypeValue(e))) == None
    ensures StripLegacyDisplay(Read(e, fields, outer, p), TypeRead(e, p), boundary)
         == Read(e, fields, outer, p).ToBytes()
  {
    ParamNamesDiffer();
    ReadParams(e, p, DISPLAY);
    ReadParams(e, p, "boundary");
    hide Protectable, DisplayedParts, CT.Parse, StripLegacyDisplay, SameIgnoringCase, CT.FirstParam;
    SameParts(e, CT.Parse(TypeValue(e)), Read(e, fields, outer, p), TypeRead(e, p));
    NoStrip(Read(e, fields, outer, p), TypeRead(e, p), boundary);
  }

  /** Without a display element, removal returns the protected fields in order, the
      scheme, the outer list, and an entity with the payload's body. */
  lemma UndoneWithoutDisplay(payload: Bytes, headers: seq<Field>, outer: seq<Field>, p: Protection,
                             boundary: string, boundary': string)
    requires GoodLists(headers, outer)
    requires
      var e := ParseEntity(payload);
      && Bare(e) && CT.Parse(TypeValue(e)).Param(DISPLAY) != Some("1")
      && DisplayedParts(e, CT.Parse(TypeValue(e))) == None
    ensures
      var e := ParseEntity(payload);
      Unprotect(Protect(payload, headers, outer, p, false, boundary), boundary')
      == Some(Restored(headers, outer, p,
                       TextOf(Read(e, Protected(headers), outer, p).headers, e.body)))
  {
    var e, fields := ParseEntity(payload), Protected(headers);
    ParsedIsProtectable(payload);
    ProtectedSubset(headers);
    hide CT.Parse, HeaderEnd, ParseEntity, StripLegacyDisplay, Unprotect, WithProtection, HeaderText, Lossy;
    NothingToStrip(e, fields, outer, p, boundary');
    LossyOfEntity(Read(e, fields, outer, p));
    UnprotectProtected(e, fields, outer, p, boundary');
  }

  // -- a prefix of a plain text body -------------------------------------------

  lemma DisplayedWritable(fields: seq<Field>)
    requires AllProtected(fields)
    ensures AllWritable(Displayed(fields))
  {
    AllProtectedWritable(fields);
    SubsetWritable(fields);
  }

  lemma {:induction false} SubsetWritable(fields: seq<Field>)
    requires AllWritable(fields)
    ensures AllWritable(Displayed(fields))
    decreases |fields|
  {
    if fields != [] {
      SubsetWritable(fields[1..]);
    }
  }

  /** After at least one display line, the cut is where the body starts. */
  lemma CutAfterLines(shown: seq<Field>, body: Bytes)
    requires shown != [] && AllWritable(shown)
    ensures
      var all := Encode(HeaderText(shown)) + "\r\n" + body;
      all[AfterDisplay(all)..] == body
  {
    var lines := Encode(HeaderText(shown));
    EncodedHeadersAreGood(shown);
    EncodedHeaderText(shown);
    SeparatorAfterBlock(lines, body);
  }

  /** Without display lines, the cut is somewhere else. */
  lemma CutWithoutLines(body: Bytes)
    ensures
      var cut := AfterDisplay("\r\n" + body);
      cut != 2 && (cut > 2 ==> ("\r\n" + body)[cut - 1] == '\n')
  {
    var all := "\r\n" + body;
    var crlf, lf := Find(all, "\r\n\r\n"), Find(all, "\n\n");
    if crlf.Some? {
      assert "\r\n\r\n"[3] == all[crlf.value + 3];
    } else if lf.Some? {
      assert "\n\n"[0] == all[lf.value] && "\n\n"[1] == all[lf.value + 1];
    }
  }

  lemma StepsOverHighBytes(b: Bytes, j: nat)
    requires b != [] && j < DecodeStep(b).1 && DecodeStep(b).1 > 1
    ensures b[j] as int >= 0x80
  {
  }

  /** Dropping some bytes up to an ASCII byte drops some characters. */
  lemma {:induction false} LossyShrinks(b: Bytes, k: nat)
    requires 0 < k <= |b| && b[k - 1] as int < 0x80
    ensures |Lossy(b[k..])| < |Lossy(b)|
    decreases k
  {
    var n := DecodeStep(b).1;
    if n > 1 && k <= n {
      StepsOverHighBytes(b, k - 1);
    } else if n < k {
      assert b[n..][k - n - 1] == b[k - 1];
      LossyShrinks(b[n..], k - n);
      assert b[n..][k - n..] == b[k..];
    }
  }

  /** Without display lines the text read back is not the body's. */
  lemma TextWithoutLines(body: Bytes)
    ensures var all := "\r\n" + body; Lossy(all[AfterDisplay(all)..]) != Lossy(body)
  {
    var all := "\r\n" + body;
    var cut := AfterDisplay(all);
    CutWithoutLines(body);
    LossyOfEncodeThen("\r\n", body);
    EncodeAscii("\r\n");
    if cut > 2 {
      LossyShrinks(body, cut - 2);
      assert body[cut - 2..] == all[cut..];
    } else if cut == 1 {
      OneByteCut(body);
    } else {
      assert all[0..] == all;
    }
  }

  lemma OneByteCut(body: Bytes)
    ensures AfterDisplay("\r\n" + body) != 1
  {
  }

  /** The payload with the prefix is one the protection can be added to, and the reader
      sees it as marked plain text. */
  lemma PrefixedIsMarked(e: Entity, lines: Bytes, p: Protection)
    requires Protectable(e) && NoDisplay(e) && PlainIdentity(e)
    ensures
      var e1 := WithPrefix(e, lines);
      Protectable(e1) && TypeRead(e1, p).mime == "text/plain" && TypeRead(e1, p).Param(DISPLAY) == Some("1")
  {
    var e1 := WithPrefix(e, lines);
    MarkedParses(TypeValue(e));
    MarkedWritable(e);
    SetFieldResult(e.headers, Marked(TypeValue(e)));
    assert TypeValue(e1) == Marked(TypeValue(e));
    PlainType(e);
    hide CT.Parse, SetField, PlainIdentity, Markable, Marked, CT.Closed, WritableValue;
    ReadParams(e1, p, DISPLAY);
  }

  lemma MarkedWritable(e: Entity)
    requires AllWritable(e.headers)
    ensures WritableValue(Marked(TypeValue(e)))
  {
    TypeValueHasNoBreak(e);
  }

  lemma PlainType(e: Entity)
    requires PlainIdentity(e)
    ensures CT.Parse(TypeValue(e)).mime == "text/plain"
  {
    if e.Header("content-type").None? {
      DefaultTypeParses();
    }
  }

  lemma StripMarked(e: Entity, ct: CT.MediaType, boundary: string)
    requires ct.mime == "text/plain" && ct.Param(DISPLAY) == Some("1")
    ensures StripLegacyDisplay(e, ct, boundary) == Entity(e.headers, e.body[AfterDisplay(e.body)..]).ToBytes()
  {
  }

  /** The headers the reader meets when the displayed fields are a prefix of the body. */
  function PrefixedHeaders(e: Entity, headers: seq<Field>, outer: seq<Field>, p: Protection): seq<Field> {
    var fields := Protected(headers);
    Read(WithPrefix(e, Encode(HeaderText(Displayed(fields)))), fields, outer, p).headers
  }

  function AfterPrefix(fields: seq<Field>, body: Bytes): Bytes {
    var all := Encode(HeaderText(Displayed(fields))) + "\r\n" + body;
    all[AfterDisplay(all)..]
  }

  lemma PrefixRemoved(e: Entity, headers: seq<Field>, outer: seq<Field>, p: Protection, boundary: string)
    requires Protectable(e) && GoodLists(headers, outer) && NoDisplay(e) && PlainIdentity(e)
    ensures
      var fields := Protected(headers);
      Unprotect(WithProtection(WithPrefix(e, Encode(HeaderText(Displayed(fields)))), fields, outer, p).ToBytes(),
                boundary)
      == Some(Restored(headers, outer, p,
                       TextOf(PrefixedHeaders(e, headers, outer, p), AfterPrefix(fields, e.body))))
  {
    var fields := Protected(headers);
    var lines := Encode(HeaderText(Displayed(fields)));
    var e1 := WithPrefix(e, lines);
    ProtectedSubset(headers);
    PrefixedIsMarked(e, lines, p);
    var r := Read(e1, fields, outer, p);
    assert r.body == lines + "\r\n" + e.body;
    hide Protectable, PlainIdentity, NoDisplay, Unprotect, StripLegacyDisplay, WithProtection, Read, HeaderText,
         Lossy, AfterDisplay;
    UnprotectProtected(e1, fields, outer, p, boundary);
    StripMarked(r, TypeRead(e1, p), boundary);
    LossyOfEntity(Entity(r.headers, AfterPrefix(fields, e.body)));
  }

  lemma ProtectWithPrefix(payload: Bytes, headers: seq<Field>, outer: seq<Field>, p: Protection, boundary: string)
    requires PlainIdentity(ParseEntity(payload))
    ensures
      var fields := Protected(headers);
      Protect(payload, headers, outer, p, true, boundary)
      == WithProtection(WithPrefix(ParseEntity(payload), Encode(HeaderText(Displayed(fields)))), fields, outer,
                        p).ToBytes()
  {
  }

  lemma SameText(headers: seq<Field>, a: Bytes, b: Bytes)
    ensures TextOf(headers, a) == TextOf(headers, b) <==> Lossy(a) == Lossy(b)
  {
    var h := HeaderText(headers) + "\r\n";
    assert (h + Lossy(a))[|h|..] == Lossy(a) && (h + Lossy(b))[|h|..] == Lossy(b);
  }

  /** With the prefix, removal returns the fields, the scheme and the outer list, and it
      returns an entity with the payload's body exactly when the prefix showed at least
      one field. */
  lemma UndoneWithPrefix(payload: Bytes, headers: seq<Field>, outer: seq<Field>, p: Protection,
                         boundary: string, boundary': string)
    requires GoodLists(headers, outer)
    requires
      var e := ParseEntity(payload);
      Bare(e) && NoDisplay(e) && PlainIdentity(e)
    ensures
      var e := ParseEntity(payload);
      var r := Unprotect(Protect(payload, headers, outer, p, true, boundary), boundary');
      && (exists text :: r == Some(Restored(headers, outer, p, text)))
      && (r == Some(Restored(headers, outer, p, TextOf(PrefixedHeaders(e, headers, outer, p), e.body)))
          <==> Displayed(Protected(headers)) != [])
  {
    var e, fields := ParseEntity(payload), Protected(headers);
    ParsedIsProtectable(payload);
    ProtectedSubset(headers);
    hide Protectable, PlainIdentity, NoDisplay, Unprotect, Protect, WithProtection, PrefixedHeaders, AfterPrefix,
         TextOf;
    ProtectWithPrefix(payload, headers, outer, p, boundary);
    PrefixRemoved(e, headers, outer, p, boundary');
    PrefixCut(fields, e.body);
    SameText(PrefixedHeaders(e, headers, outer, p), AfterPrefix(fields, e.body), e.body);
  }

  lemma PrefixCut(fields: seq<Field>, body: Bytes)
    requires AllProtected(fields)
    ensures Lossy(AfterPrefix(fields, body)) == Lossy(body) <==> Displayed(fields) != []
  {
    DisplayedWritable(fields);
    if Displayed(fields) == [] {
      TextWithoutLines(body);
      assert "" + "\r\n" + body == "\r\n" + body;
    } else {
      CutAfterLines(Displayed(fields), body);
    }
  }

  // -- a first part of a multipart ---------------------------------------------

  lemma DisplayedNames(f: Field)
    requires IsDisplayed(f)
    ensures f.0 != "" && f.0[0] != '-'
  {
    assert f.0 != "" ==> Lower(f.0)[0] == LowerChar(f.0[0]);
  }

  lemma {:induction false} DisplayedSimple(fields: seq<Field>)
    requires AllProtected(fields)
    ensures CP.AllSimple(Displayed(fields))
    decreases |fields|
  {
    if fields != [] {
      DisplayedSimple(fields[1..]);
      ProtectedWritable(fields[0]);
      if IsDisplayed(fields[0]) {
        DisplayedNames(fields[0]);
      }
    }
  }

  /** No delimiter can start a display line. */
  lemma DisplayIsFresh(fields: seq<Field>, boundary: string)
    requires AllProtected(fields)
    ensures MP.Fresh(Encode(HeaderText(Displayed(fields))), boundary)
  {
    var lines, d := Encode(HeaderText(Displayed(fields))), MP.Delimiter(boundary);
    DisplayedSimple(fields);
    SR.HeaderTextHasNoDashLine(Displayed(fields));
    MP.DelimiterNotEmpty(boundary);
    SR.DashlessIsFresh("", d);
    SR.FreshAfterHead(lines, "", d);
    assert lines + "" == lines;
  }

  lemma MarkingIsPlain()
    ensures '\n' !in "; hp-legacy-display=\"1\""
  {
  }

  lemma DefaultIsPlain()
    ensures DEFAULT_TYPE != "" && DEFAULT_TYPE[0] == 't' && '\n' !in DEFAULT_TYPE
  {
  }

  lemma SimpleSum(a: string, b: string)
    requires a != "" && a[0] == 't' && '\n' !in a && '\n' !in b && b != "" && b[|b| - 1] == '"'
    ensures CP.Simple(("Content-Type", a + b))
  {
    var v := a + b;
    assert v[0] == 't' && v[|v| - 1] == '"' && '\n' !in v;
    CP.ContentTypeName();
  }

  lemma DisplayTypeSimple()
    ensures CP.Simple(("Content-Type", Marked(DEFAULT_TYPE)))
  {
    MarkingIsPlain();
    DefaultIsPlain();
    assert Marked(DEFAULT_TYPE) == DEFAULT_TYPE + "; hp-legacy-display=\"1\"";
    hide DEFAULT_TYPE, Marked;
    SimpleSum(DEFAULT_TYPE, "; hp-legacy-display=\"1\"");
  }

  lemma OneField(f: Field, name: string)
    requires SameIgnoringCase(f.0, name)
    ensures FirstField([f], name) == Some(f.1)
  {
  }

  /** The display part is recognised. */
  lemma DisplayPartMarked(lines: Bytes)
    ensures CT.Parse(ParseEntity(DisplayPart(lines)).Header("content-type").GetOr("")).Param(DISPLAY) == Some("1")
  {
    DisplayTypeSimple();
    var f := ("Content-Type", Marked(DEFAULT_TYPE));
    OuterName(f);
    hide CP.Simple, SameIgnoringCase, CT.Parse, Marked, ParseEntity;
    assert CP.AllSimple([f]);
    SR.SimpleEntityParses([f], lines);
    OneField(f, "content-type");
    DefaultTypeUnmarked();
    MarkedParses(DEFAULT_TYPE);
  }

  lemma WrappedIsJoin(d: Bytes, p: Bytes, s: Bytes)
    ensures
      d + "\r\n" + p + "\r\n" + d + "\r\n" + s + "\r\n" + d + "--\r\n"
      == "" + (d + ("\r\n" + (p + ("\r\n" + (d + ("\r\n" + (s + ("\r\n" + (d + ("--" + "\r\n"))))))))))
  {
    assert "--\r\n" == "--" + "\r\n";
  }

  lemma WrappedBodySplits(e: Entity, lines: Bytes, boundary: string)
    requires '\r' !in boundary && '\n' !in boundary
    requires MP.Fresh(lines, boundary) && MP.Fresh(e.ToBytes(), boundary)
    ensures MP.Split(Wrapped(e, lines, boundary).body, boundary) == Some([DisplayPart(lines), e.ToBytes()])
  {
    var d, p, s := MP.Delimiter(boundary), DisplayPart(lines), e.ToBytes();
    WrappedIsJoin(d, p, s);
    SR.AfterTwo(d, p, s, "\r\n");
    assert Wrapped(e, lines, boundary).body == MP.Join("", boundary, [p, s], "\r\n");
    DisplayPartIsFresh(lines, boundary);
    hide *;
    EmptyIsFresh(boundary);
    SR.BothFresh(p, s, boundary);
    MP.SplitOfJoin("", boundary, [p, s], "\r\n");
  }

  lemma EmptyIsFresh(boundary: string)
    ensures MP.Fresh("", boundary)
  {
    MP.DelimiterNotEmpty(boundary);
  }

  lemma DisplayPartIsFresh(lines: Bytes, boundary: string)
    requires MP.Fresh(lines, boundary)
    ensures MP.Fresh(DisplayPart(lines), boundary)
  {
    DisplayTypeSimple();
    var f := ("Content-Type", Marked(DEFAULT_TYPE));
    hide CP.Simple, MP.Fresh, Marked, Entity.ToBytes;
    SR.EntityIsFresh([f], lines, boundary);
  }

  const MIXED: string := "multipart/mixed"

  lemma MixedWord()
    ensures CT.Plain(MIXED) && Trimmed(MIXED) && Lower(MIXED) == MIXED && MIXED != "text/plain"
  {
    assert MIXED[0] == 'm' && "text/plain"[0] == 't';
  }

  function MixedType(boundary: string): string {
    CT.AddParam(MIXED, "boundary", CT.Quote(boundary))
  }

  lemma MixedTypeParses(boundary: string)
    ensures CT.Closed(MixedType(boundary))
         && CT.Parse(MixedType(boundary)) == CT.MediaType(MIXED, [("boundary", boundary)])
  {
    MixedWord();
    CP.BoundaryName();
    hide CT.Parse, CT.Closed, CT.AddParam, CT.Quote, CT.Unquote, CT.ValuePart, CT.NamePart, CT.Plain, Trimmed, Lower,
         MIXED;
    CT.PlainTypeParses(MIXED);
    CT.QuoteIsValuePart(boundary);
    CT.UnquoteOfQuote(boundary);
    CT.ParseAppend(MIXED, "boundary", CT.Quote(boundary));
    assert [] + [("boundary", boundary)] == [("boundary", boundary)];
  }

  lemma OneParam(boundary: string, name: string)
    ensures CT.FirstParam([("boundary", boundary)], name)
         == if SameIgnoringCase("boundary", name) then Some(boundary) else None
  {
  }

  lemma MixedTypeWritable(boundary: string)
    requires '\r' !in boundary && '\n' !in boundary
    ensures Writable(("Content-Type", MixedType(boundary)))
  {
    CP.NoBreakInQuote(boundary);
    CP.QuotedLast("multipart/mixed; boundary=", boundary);
    assert MixedType(boundary) == "multipart/mixed; boundary=" + CT.Quote(boundary);
  }

  lemma WrappedType(e: Entity, lines: Bytes, boundary: string)
    ensures Wrapped(e, lines, boundary).headers == [("Content-Type", MixedType(boundary))]
    ensures TypeValue(Wrapped(e, lines, boundary)) == MixedType(boundary)
  {
    OuterName(("Content-Type", ""));
  }

  lemma NotOuter(value: string)
    ensures NoOuter([("Content-Type", value)])
  {
    OuterName(("Content-Type", value));
  }

  /** What the reader sees of the wrapping multipart. */
  lemma WrappedIsMixed(e: Entity, lines: Bytes, boundary: string, p: Protection)
    requires '\r' !in boundary && '\n' !in boundary
    ensures
      var e1 := Wrapped(e, lines, boundary);
      && Protectable(e1) && TypeRead(e1, p).mime == "multipart/mixed"
      && TypeRead(e1, p).Param("boundary") == Some(boundary) && TypeRead(e1, p).Param(DISPLAY) != Some("1")
  {
    var e1 := Wrapped(e, lines, boundary);
    WrappedType(e, lines, boundary);
    MixedTypeWritable(boundary);
    MixedTypeParses(boundary);
    NotOuter(MixedType(boundary));
    ParamNamesDiffer();
    OneParam(boundary, "hp");
    OneParam(boundary, "boundary");
    OneParam(boundary, DISPLAY);
    hide Writable, CT.Parse, CT.Closed, SameIgnoringCase, CT.FirstParam, Wrapped, MixedType;
    ReadParams(e1, p, "boundary");
    ReadParams(e1, p, DISPLAY);
  }

  lemma StripPart(e: Entity, ct: CT.MediaType, parts: seq<Bytes>, inner: Bytes, boundary: string)
    requires ct.mime == "multipart/mixed" && DisplayedParts(e, ct) == Some(parts) && |parts| == 2 && parts[1] == inner
    requires ct.Param(DISPLAY) != Some("1")
    ensures StripLegacyDisplay(e, ct, boundary) == inner
  {
    hide DisplayedParts;
    assert parts[1..] == [inner];
  }

  lemma PartsDisplayed(e: Entity, ct: CT.MediaType, boundary: string, lines: Bytes, inner: Bytes)
    requires ct.mime == "multipart/mixed" && ct.Param("boundary") == Some(boundary)
    requires MP.Split(e.body, boundary) == Some([DisplayPart(lines), inner])
    ensures DisplayedParts(e, ct) == Some([DisplayPart(lines), inner])
  {
    DisplayPartMarked(lines);
  }

  lemma WrappingRemoved(e: Entity, headers: seq<Field>, outer: seq<Field>, p: Protection, boundary: string,
                        boundary': string, lines: Bytes)
    requires GoodLists(headers, outer) && '\r' !in boundary && '\n' !in boundary
    requires lines == Encode(HeaderText(Displayed(Protected(headers)))) && MP.Fresh(e.ToBytes(), boundary)
    ensures
      var fields := Protected(headers);
      Unprotect(WithProtection(Wrapped(e, lines, boundary), fields, outer, p).ToBytes(), boundary')
      == Some(Restored(headers, outer, p, TextOf(e.headers, e.body)))
  {
    var fields := Protected(headers);
    var e1, inner := Wrapped(e, lines, boundary), e.ToBytes();
    ProtectedSubset(headers);
    DisplayIsFresh(fields, boundary);
    WrappedIsMixed(e, lines, boundary, p);
    WrappedBodySplits(e, lines, boundary);
    var r := Read(e1, fields, outer, p);
    assert r.body == e1.body;
    hide Unprotect, WithProtection, Read, TypeRead, Protectable, Wrapped, StripLegacyDisplay, DisplayedParts,
         DisplayPart, MP.Split, TextOf, Encode, HeaderText, AllProtected, AllOuter;
    UnprotectProtected(e1, fields, outer, p, boundary');
    PartsDisplayed(r, TypeRead(e1, p), boundary, lines, inner);
    StripPart(r, TypeRead(e1, p), [DisplayPart(lines), inner], inner, boundary');
    LossyOfEntity(e);
  }

  /** With the display part, removal returns everything, and the payload as it was
      parsed: its headers and its body. */
  lemma UndoneWithDisplayPart(payload: Bytes, headers: seq<Field>, outer: seq<Field>, p: Protection,
                              boundary: string, boundary': string)
    requires GoodLists(headers, outer) && '\r' !in boundary && '\n' !in boundary
    requires !PlainIdentity(ParseEntity(payload)) && MP.Fresh(ParseEntity(payload).ToBytes(), boundary)
    ensures
      var e := ParseEntity(payload);
      Unprotect(Protect(payload, headers, outer, p, true, boundary), boundary')
      == Some(Restored(headers, outer, p, TextOf(e.headers, e.body)))
  {
    var e, fields := ParseEntity(payload), Protected(headers);
    hide Unprotect, WithProtection, ParseEntity, PlainIdentity, Wrapped, TextOf;
    WrappingRemoved(e, headers, outer, p, boundary, boundary', Encode(HeaderText(Displayed(fields))));
  }

  // -- payloads in UTF-8 -------------------------------------------------------

  /** The body starts at the end, at the front, or behind a line feed. */
  lemma BodyStart(raw: Bytes)
    ensures var start := HeaderEnd(raw).1; start == |raw| || (start > 0 && raw[start - 1] == '\n')
  {
    var crlf, lf := Find(raw, "\r\n\r\n"), Find(raw, "\n\n");
    if crlf.Some? {
      assert "\r\n\r\n"[3] == raw[crlf.value + 3];
    }
    if lf.Some? {
      assert "\n\n"[1] == raw[lf.value + 1];
    }
  }

  lemma CharIsHigh(c: char, j: nat)
    requires j < |EncodeChar(c)| && |EncodeChar(c)| > 1
    ensures EncodeChar(c)[j] as int >= 0x80
  {
  }

  /** What follows an ASCII byte of UTF-8 is UTF-8. */
  lemma {:induction false} SuffixIsUtf8(s: string, k: nat)
    requires k <= |Encode(s)| && (k > 0 ==> Encode(s)[k - 1] as int < 0x80)
    ensures exists t :: Encode(s)[k..] == Encode(t)
    decreases |s|
  {
    if k == 0 {
      assert Encode(s)[0..] == Encode(s);
    } else {
      var head := EncodeChar(s[0]);
      if k < |head| {
        CharIsHigh(s[0], k - 1);
      } else {
        SuffixIsUtf8(s[1..], k - |head|);
        assert Encode(s)[k..] == Encode(s[1..])[k - |head|..];
      }
    }
  }

  lemma BodyIsUtf8(text: string)
    ensures var body := ParseEntity(Encode(text)).body; Encode(Lossy(body)) == body
  {
    var raw := Encode(text);
    var start := HeaderEnd(raw).1;
    BodyStart(raw);
    if start == |raw| {
      assert raw[start..] == "" && Lossy("") == "";
    } else {
      SuffixIsUtf8(text, start);
      var t :| raw[start..] == Encode(t);
      LossyOfEncode(t);
    }
  }

  lemma {:induction false} TrimValuesWritable(fields: seq<Field>)
    requires AllWritable(fields)
    ensures AllWritable(TrimValues(fields))
  {
    forall i | 0 <= i < |fields| ensures Writable(TrimValues(fields)[i]) {
      TrimResult(fields[i].1);
    }
  }

  /** For a UTF-8 payload, parsing the restored text gives back the payload's body, byte
      for byte, whatever writable headers stand in front of it. */
  lemma RestoredTextHasBody(text: string, headers: seq<Field>)
    requires AllWritable(headers)
    ensures
      var body := ParseEntity(Encode(text)).body;
      ParseEntity(Encode(TextOf(headers, body))).body == body
  {
    var body := ParseEntity(Encode(text)).body;
    BodyIsUtf8(text);
    var h := HeaderText(headers);
    EncodeConcat(h + "\r\n", Lossy(body));
    EncodeConcat(h, "\r\n");
    EncodeAscii("\r\n");
    assert Encode(TextOf(headers, body)) == Entity(headers, body).ToBytes();
    ParseSerialized(Entity(headers, body));
  }

  /** The headers of a protected entity, as read, can be written. */
  lemma ReadHeadersWritable(e: Entity, fields: seq<Field>, outer: seq<Field>, p: Protection)
    requires Protectable(e) && AllProtected(fields) && AllOuter(outer)
    ensures AllWritable(Read(e, fields, outer, p).headers)
  {
    AllProtectedWritable(fields);
    OuterFieldsWritable(outer);
    RestFieldsFacts(e, p);
    assert WithProtection(e, fields, outer, p).headers == fields + OuterFields(outer) + RestFields(e, p);
    hide *;
    WritableConcat(fields, OuterFields(outer), RestFields(e, p));
    ReadIsTrimmed(e, fields, outer, p);
    TrimValuesWritable(WithProtection(e, fields, outer, p).headers);
  }

  lemma ReadIsTrimmed(e: Entity, fields: seq<Field>, outer: seq<Field>, p: Protection)
    ensures Read(e, fields, outer, p).headers == TrimValues(WithProtection(e, fields, outer, p).headers)
  {
  }

  /** Body to body, without a display element. */
  lemma BodyComesBack(text: string, headers: seq<Field>, outer: seq<Field>, p: Protection, boundary: string,
                      boundary': string)
    requires GoodLists(headers, outer)
    requires
      var e := ParseEntity(Encode(text));
      && Bare(e) && CT.Parse(TypeValue(e)).Param(DISPLAY) != Some("1")
      && DisplayedParts(e, CT.Parse(TypeValue(e))) == None
    ensures
      var r := Unprotect(Protect(Encode(text), headers, outer, p, false, boundary), boundary');
      r.Some? && ParseEntity(Encode(r.value.entity)).body == ParseEntity(Encode(text)).body
  {
    var e := ParseEntity(Encode(text));
    ParsedIsProtectable(Encode(text));
    ProtectedSubset(headers);
    hide Bare, CT.Parse, ParseEntity, Unprotect, Protect, Protectable, TextOf, Read, DisplayedParts;
    UndoneWithoutDisplay(Encode(text), headers, outer, p, boundary, boundary');
    ReadHeadersWritable(e, Protected(headers), outer, p);
    RestoredTextHasBody(text, Read(e, Protected(headers), outer, p).headers);
  }

  /** Body to body, through the prefix of a plain text body that shows a field. */
  lemma BodyComesBackFromPrefix(text: string, headers: seq<Field>, outer: seq<Field>, p: Protection, boundary: string,
                                boundary': string)
    requires GoodLists(headers, outer) && Displayed(Protected(headers)) != []
    requires var e := ParseEntity(Encode(text)); Bare(e) && NoDisplay(e) && PlainIdentity(e)
    ensures
      var r := Unprotect(Protect(Encode(text), headers, outer, p, true, boundary), boundary');
      r.Some? && ParseEntity(Encode(r.value.entity)).body == ParseEntity(Encode(text)).body
  {
    var e := ParseEntity(Encode(text));
    var e1 := WithPrefix(e, Encode(HeaderText(Displayed(Protected(headers)))));
    ParsedIsProtectable(Encode(text));
    ProtectedSubset(headers);
    PrefixedIsMarked(e, Encode(HeaderText(Displayed(Protected(headers)))), p);
    hide Bare, NoDisplay, PlainIdentity, CT.Parse, ParseEntity, Unprotect, Protect, Protectable, TextOf, Read,
         WithPrefix;
    UndoneWithPrefix(Encode(text), headers, outer, p, boundary, boundary');
    ReadHeadersWritable(e1, Protected(headers), outer, p);
    RestoredTextHasBody(text, PrefixedHeaders(e, headers, outer, p));
  }

  /** Body to body, through the display part. */
  lemma BodyComesBackFromPart(text: string, headers: seq<Field>, outer: seq<Field>, p: Protection, boundary: string,
                              boundary': string)
    requires GoodLists(headers, outer) && '\r' !in boundary && '\n' !in boundary
    requires
      var e := ParseEntity(Encode(text));
      !PlainIdentity(e) && MP.Fresh(e.ToBytes(), boundary)
    ensures
      var r := Unprotect(Protect(Encode(text), headers, outer, p, true, boundary), boundary');
      r.Some? && ParseEntity(Encode(r.value.entity)).body == ParseEntity(Encode(text)).body
  {
    var e := ParseEntity(Encode(text));
    HeaderBlockWritable(Lossy(Encode(text)[..HeaderEnd(Encode(text)).0]));
    assert AllWritable(e.headers);
    hide PlainIdentity, CT.Parse, ParseEntity, Unprotect, Protect, TextOf, MP.Fresh, AllWritable, HeaderEnd;
    UndoneWithDisplayPart(Encode(text), headers, outer, p, boundary, boundary');
    RestoredTextHasBody(text, e.headers);
  }
}
