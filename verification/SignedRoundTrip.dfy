/** What the builders of signed mail write, the reader finds again: the same signed
    bytes and the same signature (crates/mw-crypto/src/mime.rs; section 5 of RFC 3156,
    section 3.5.3 of RFC 8551). */
module SignedRoundTrip {
  import opened Wrappers
  import opened Text
  import opened Utf8
  import opened MimeEntity
  import opened CryptoParts
  import CT = ContentType
  import MP = Multipart
  import QP = QuotedPrintable
  import B64 = Base64

  // -- the outer entity --------------------------------------------------------

  lemma VersionSimple()
    ensures Simple(("MIME-Version", "1.0"))
    ensures !SameIgnoringCase("MIME-Version", "content-type") && SameIgnoringCase("Content-Type", "content-type")
  {
    assert Lower("MIME-Version")[0] == 'm' && Lower("content-type")[0] == 'c';
    assert Lower("Content-Type") == Lower("content-type");
  }

  /** An entity headed by `MIME-Version` and a content type parses back unchanged. */
  lemma TypedEntityParses(value: string, body: Bytes)
    requires Simple(("Content-Type", value))
    ensures
      var e := Entity([("MIME-Version", "1.0"), ("Content-Type", value)], body);
      ParseEntity(e.ToBytes()) == e && e.Header("content-type") == Some(value)
  {
    var headers := [("MIME-Version", "1.0"), ("Content-Type", value)];
    VersionSimple();
    hide Simple, SameIgnoringCase;
    SecondField(headers[0], headers[1], "content-type");
    assert AllSimple(headers);
    SimpleFields(headers);
    ParseSerialized(Entity(headers, body));
  }

  lemma SecondField(a: Field, b: Field, name: string)
    requires !SameIgnoringCase(a.0, name) && SameIgnoringCase(b.0, name)
    ensures FirstField([a, b], name) == Some(b.1)
  {
    assert [a, b][1..] == [b];
  }

  // -- the body ----------------------------------------------------------------

  lemma JoinOfTwo(pre: Bytes, d: Bytes, p: Bytes, s: Bytes)
    ensures
      pre + d + "\r\n" + p + "\r\n" + d + "\r\n" + (s + "\r\n") + d + "--\r\n"
      == pre + (d + ("\r\n" + (p + ("\r\n" + (d + ("\r\n" + (s + ("\r\n" + (d + ("--" + "\r\n"))))))))))
  {
    assert "--\r\n" == "--" + "\r\n";
  }

  lemma AfterTwo(d: Bytes, p: Bytes, s: Bytes, epilogue: Bytes)
    ensures MP.AfterDelimiter(d, [p, s], epilogue)
         == "\r\n" + (p + ("\r\n" + (d + ("\r\n" + (s + ("\r\n" + (d + ("--" + epilogue))))))))
  {
    assert [p, s][1..] == [s] && [s][1..] == [];
    assert MP.AfterDelimiter(d, [s], epilogue) == "\r\n" + (s + ("\r\n" + (d + MP.AfterDelimiter(d, [], epilogue))));
  }

  lemma PreambleIsFresh(boundary: string)
    ensures MP.Fresh(SIGNED_PREAMBLE, boundary)
    ensures SIGNED_PREAMBLE != "" && SIGNED_PREAMBLE[|SIGNED_PREAMBLE| - 1] == '\n'
  {
    MP.DelimiterNotEmpty(boundary);
    NoDashInPreamble();
    DashlessIsFresh(SIGNED_PREAMBLE, MP.Delimiter(boundary));
  }

  lemma NoDashInPreamble()
    ensures '-' !in SIGNED_PREAMBLE
  {
    Dashless("This is a cryptographically ", "signed message in MIME format.\r\n");
  }

  lemma Dashless(a: string, b: string)
    requires '-' !in a && '-' !in b
    ensures '-' !in a + b
  {
  }

  lemma DashlessIsFresh(text: Bytes, d: Bytes)
    requires '-' !in text && d != "" && d[0] == '-'
    ensures MP.NoDelimiterLine(text, d)
  {
    forall j: nat | j <= |text| && MP.AtLineStart(text, j) ensures !MatchesAt(text, d, j) {
      NoMatch(text, d, j, 0);
    }
  }

  /** The signed body splits into exactly the signed part and the signature part. */
  lemma SignedBodySplits(part: Bytes, sigBody: Bytes, protocol: string, micalg: string, boundary: string)
    requires '\r' !in boundary && '\n' !in boundary
    requires MP.Fresh(part, boundary) && MP.Fresh(sigBody, boundary)
    ensures MP.Split(SignedMultipart(part, sigBody + "\r\n", protocol, micalg, boundary).body, boundary)
         == Some([part, sigBody])
  {
    var d := MP.Delimiter(boundary);
    JoinOfTwo(SIGNED_PREAMBLE, d, part, sigBody);
    AfterTwo(d, part, sigBody, "\r\n");
    assert SignedMultipart(part, sigBody + "\r\n", protocol, micalg, boundary).body
        == MP.Join(SIGNED_PREAMBLE, boundary, [part, sigBody], "\r\n");
    PreambleIsFresh(boundary);
    hide *;
    BothFresh(part, sigBody, boundary);
    MP.SplitOfJoin(SIGNED_PREAMBLE, boundary, [part, sigBody], "\r\n");
  }

  lemma BothFresh(p: Bytes, s: Bytes, boundary: string)
    requires MP.Fresh(p, boundary) && MP.Fresh(s, boundary)
    ensures MP.AllFresh([p, s], MP.Delimiter(boundary))
  {
  }

  // -- from the raw message to the two parts -----------------------------------

  lemma ParamsFound(protocol: string, micalg: string, boundary: string)
    ensures
      var ct := CT.MediaType("multipart/signed", [("protocol", protocol), ("micalg", micalg), ("boundary", boundary)]);
      && ct.Param("protocol") == Some(protocol) && ct.Param("micalg") == Some(micalg)
      && ct.Param("boundary") == Some(boundary) && ShapeOf(ct.mime) == Signed
  {
    var a, b, c := ("protocol", protocol), ("micalg", micalg), ("boundary", boundary);
    ParamNames();
    SignedShape();
    hide SameIgnoringCase, ShapeOf;
    ParamHere(a, [b, c], "protocol");
    ParamNext(a, [b, c], "micalg");
    ParamHere(b, [c], "micalg");
    ParamNext(a, [b, c], "boundary");
    ParamNext(b, [c], "boundary");
    ParamHere(c, [], "boundary");
    assert [c] + [] == [c];
    Regroup(a, b, c);
  }

  lemma Regroup<T>(a: T, b: T, c: T)
    ensures [a] + [b, c] == [a, b, c] && [b] + [c] == [b, c]
  {
  }

  lemma ParamNames()
    ensures SameIgnoringCase("protocol", "protocol") && SameIgnoringCase("micalg", "micalg")
    ensures SameIgnoringCase("boundary", "boundary")
    ensures !SameIgnoringCase("protocol", "micalg") && !SameIgnoringCase("protocol", "boundary")
    ensures !SameIgnoringCase("micalg", "boundary")
  {
    assert Lower("protocol")[0] == 'p' && Lower("boundary")[0] == 'b';
    assert |Lower("micalg")| == 6 && |Lower("protocol")| == 8 == |Lower("boundary")|;
  }

  lemma ParamHere(p: (string, string), rest: seq<(string, string)>, name: string)
    requires SameIgnoringCase(p.0, name)
    ensures CT.FirstParam([p] + rest, name) == Some(p.1)
  {
  }

  lemma ParamNext(p: (string, string), rest: seq<(string, string)>, name: string)
    requires !SameIgnoringCase(p.0, name)
    ensures CT.FirstParam([p] + rest, name) == CT.FirstParam(rest, name)
  {
    assert ([p] + rest)[1..] == rest;
  }

  lemma SignedShape()
    ensures ShapeOf("multipart/signed") == Signed
  {
    assert "multipart/signed"[10] == 's' && "multipart/encrypted"[10] == 'e';
  }

  /** The search reaches the two parts of a signed entity. */
  lemma FindSigned(part: Bytes, sigBody: Bytes, protocol: string, micalg: string, boundary: string)
    requires Token(micalg) && '\r' !in boundary && '\n' !in boundary && '\r' !in protocol && '\n' !in protocol
    requires MP.Fresh(part, boundary) && MP.Fresh(sigBody, boundary)
    ensures FindCrypto(SignedMultipart(part, sigBody + "\r\n", protocol, micalg, boundary).ToBytes(), 0)
         == ReadSigned(Lower(protocol), Some(Lower(micalg)), [part, sigBody])
  {
    var e := SignedMultipart(part, sigBody + "\r\n", protocol, micalg, boundary);
    SignedTypeField(protocol, micalg, boundary);
    TypedEntityParses(SignedType(protocol, micalg, boundary), e.body);
    SignedTypeParses(protocol, micalg, boundary);
    ParamsFound(protocol, micalg, boundary);
    SignedBodySplits(part, sigBody, protocol, micalg, boundary);
  }

  // -- the signature part ------------------------------------------------------

  /** Text none of whose lines starts with a dash, ended by a line break, does not make
      what follows it any less fresh. */
  predicate NoDashLine(text: Bytes) {
    (forall j | 0 <= j < |text| && MP.AtLineStart(text, j) :: text[j] != '-')
    && (text != "" ==> text[|text| - 1] == '\n')
  }

  lemma FreshAfterHead(head: Bytes, text: Bytes, d: Bytes)
    requires NoDashLine(head) && MP.NoDelimiterLine(text, d) && d != "" && d[0] == '-'
    ensures MP.NoDelimiterLine(head + text, d)
  {
    var all := head + text;
    forall j: nat | j <= |all| && MP.AtLineStart(all, j) ensures !MatchesAt(all, d, j) {
      if j < |head| {
        assert MP.AtLineStart(head, j);
        NoMatch(all, d, j, 0);
      } else {
        MatchesAtSuffix(head, text, d, j);
        assert j > |head| ==> all[j - 1] == text[j - |head| - 1];
        assert MP.AtLineStart(text, j - |head|);
      }
    }
  }

  lemma NoDashLineConcat(line: Bytes, rest: Bytes)
    requires line != "" && line[0] != '-' && '\n' !in line && NoDashLine(rest)
    ensures NoDashLine(line + "\r\n" + rest)
  {
    var all := line + "\r\n" + rest;
    forall j | 0 <= j < |all| && MP.AtLineStart(all, j) ensures all[j] != '-' {
      assert forall k | 0 <= k < |line| :: all[k] in line;
      if j >= |line| + 2 {
        assert all[j] == rest[j - |line| - 2];
        assert j > |line| + 2 ==> all[j - 1] == rest[j - |line| - 3];
        assert MP.AtLineStart(rest, j - |line| - 2);
      }
    }
  }

  lemma {:induction false} HeaderTextHasNoDashLine(headers: seq<Field>)
    requires AllSimple(headers)
    ensures NoDashLine(Encode(HeaderText(headers)))
    decreases |headers|
  {
    if headers != [] {
      HeaderTextHasNoDashLine(headers[1..]);
      EncodedLine(headers[0]);
      EncodedFirst(headers[0]);
      EncodedHeaderText(headers);
      NoDashLineConcat(Encode(Line(headers[0])), Encode(HeaderText(headers[1..])));
    }
  }

  lemma EncodedFirst(f: Field)
    requires f.0 != "" && f.0[0] != '-'
    ensures Encode(Line(f)) != "" && Encode(Line(f))[0] != '-'
  {
    assert Line(f)[0] == f.0[0];
  }

  /** An entity with simple headers is as fresh as its body. */
  lemma EntityIsFresh(headers: seq<Field>, body: Bytes, boundary: string)
    requires AllSimple(headers) && MP.Fresh(body, boundary)
    ensures MP.Fresh(Entity(headers, body).ToBytes(), boundary)
  {
    MP.DelimiterNotEmpty(boundary);
    var d, h := MP.Delimiter(boundary), Encode(HeaderText(headers));
    HeaderTextHasNoDashLine(headers);
    BlankLineHasNoDash();
    FreshAfterHead("\r\n", body, d);
    FreshAfterHead(h, "\r\n" + body, d);
    assert h + ("\r\n" + body) == Entity(headers, body).ToBytes();
  }

  lemma BlankLineHasNoDash()
    ensures NoDashLine("\r\n")
  {
  }

  lemma SimpleEntityParses(headers: seq<Field>, body: Bytes)
    requires AllSimple(headers)
    ensures ParseEntity(Entity(headers, body).ToBytes()) == Entity(headers, body)
  {
    SimpleFields(headers);
    ParseSerialized(Entity(headers, body));
  }

  lemma SignatureHeadersHaveNoEncoding()
    ensures FirstField(SignatureHeaders(), "content-transfer-encoding") == None
  {
    var h := SignatureHeaders();
    assert |Lower("Content-Type")| == 12 && |Lower("Content-Description")| == 19 == |Lower("Content-Disposition")|;
    assert |Lower("content-transfer-encoding")| == 25;
    assert h[1..][1..][1..] == [];
  }

  lemma CmsHeadersHaveBase64()
    ensures FirstField(CmsHeaders(), "content-transfer-encoding") == Some("base64")
    ensures Lower(Trim("base64")) == "base64"
  {
    assert |Lower("Content-Type")| == 12 && |Lower("content-transfer-encoding")| == 25;
    assert Lower("Content-Transfer-Encoding") == Lower("content-transfer-encoding");
    TrimOfTrimmed("base64");
  }

  lemma ArmorIsCanonical(armored: string)
    ensures ArmorBytes(armored) == QP.Canon(Encode(TrimEnd(armored)))
  {
    QP.CanonOfEncode(TrimEnd(armored));
    LossyOfEncode(QP.Canon(TrimEnd(armored)));
  }

  lemma PgpWord()
    ensures Lower("application/pgp-signature") == "application/pgp-signature"
    ensures '\r' !in "application/pgp-signature" && '\n' !in "application/pgp-signature"
  {
  }

  lemma CmsWord()
    ensures Lower("application/pkcs7-signature") == "application/pkcs7-signature"
    ensures '\r' !in "application/pkcs7-signature" && '\n' !in "application/pkcs7-signature"
  {
  }

  lemma ProtocolWords()
    ensures Lower("application/pgp-signature") == "application/pgp-signature"
    ensures Lower("application/pkcs7-signature") == "application/pkcs7-signature"
    ensures "application/pgp-signature" != "application/pkcs7-signature"
    ensures '\r' !in "application/pgp-signature" && '\n' !in "application/pgp-signature"
    ensures '\r' !in "application/pkcs7-signature" && '\n' !in "application/pkcs7-signature"
  {
    PgpWord();
    CmsWord();
    hide *;
    assert "application/pgp-signature"[13] == 'g' && "application/pkcs7-signature"[13] == 'k';
  }

  /** PGP/MIME reads back: for every canonical part and every armored signature, with a
      boundary that starts no line of either, the analysis returns the part's exact bytes
      and the signature's bytes (canonical line breaks, trailing white space dropped). */
  lemma PgpSignedReadsBack(part: Bytes, signature: string, micalg: string, boundary: string)
    requires QP.NoBareBreak(part) && Token(micalg) && '\r' !in boundary && '\n' !in boundary
    requires MP.Fresh(part, boundary) && MP.Fresh(QP.Canon(Encode(TrimEnd(signature))), boundary)
    ensures Analyze(PgpSignedEntity(part, signature, micalg, boundary).ToBytes())
         == Analysis(Some(PgpSigned(part, QP.Canon(Encode(TrimEnd(signature))), Some(Lower(micalg)))), false, [])
  {
    var armor := ArmorBytes(signature);
    ArmorIsCanonical(signature);
    SignatureHeadersSimple();
    EntityIsFresh(SignatureHeaders(), armor, boundary);
    var sigBody := Entity(SignatureHeaders(), armor).ToBytes();
    ProtocolWords();
    FindSigned(part, sigBody, "application/pgp-signature", micalg, boundary);
    SimpleEntityParses(SignatureHeaders(), armor);
    SignatureHeadersHaveNoEncoding();
    QP.CanonOfCanonical(part);
    hide FindCrypto, ReadSigned, SignatureHeaders, QP.Canon, MP.Fresh, ArmorBytes;
    ReadPgp(part, sigBody, armor, Some(Lower(micalg)));
  }

  lemma ReadPgp(part: Bytes, sigBody: Bytes, armor: Bytes, micalg: Option<string>)
    requires QP.Canon(part) == part
    requires ParseEntity(sigBody) == Entity(SignatureHeaders(), armor)
    requires FirstField(SignatureHeaders(), "content-transfer-encoding") == None
    ensures ReadSigned("application/pgp-signature", micalg, [part, sigBody])
         == Some(Found(PgpSigned(part, armor, micalg), false, []))
  {
  }

  // -- S/MIME ------------------------------------------------------------------

  /** The base64 lines without the line break that ends the last one. */
  function LinesBody(s: string): Bytes {
    var l := B64.Lines(s);
    if |l| < 2 then "" else l[..|l| - 2]
  }

  lemma LinesCons(s: string)
    requires s != ""
    ensures
      var k := if |s| < 76 then |s| else 76;
      B64.Lines(s) == s[..k] + "\r\n" + B64.Lines(s[k..]) && (|s| <= 76 ==> B64.Lines(s) == s[..k] + "\r\n")
  {
    var k := if |s| < 76 then |s| else 76;
    assert |s| <= 76 ==> s[k..] == "";
  }

  lemma EndsWithBreak(t: string)
    ensures (t + "\r\n")[..|t|] == t
  {
  }

  lemma LinesBodyOf(s: string, t: string)
    requires B64.Lines(s) == t + "\r\n"
    ensures LinesBody(s) == t
  {
    EndsWithBreak(t);
    hide B64.Lines;
  }

  lemma {:induction false} LinesEnd(s: string)
    requires s != ""
    ensures B64.Lines(s) == LinesBody(s) + "\r\n"
    decreases |s|
  {
    hide *;
    var k := if |s| < 76 then |s| else 76;
    LinesCons(s);
    if |s| <= 76 {
      LinesBodyOf(s, s[..k]);
    } else {
      LinesEnd(s[k..]);
      Assoc(s[..k] + "\r\n", LinesBody(s[k..]), "\r\n");
      LinesBodyOf(s, s[..k] + "\r\n" + LinesBody(s[k..]));
    }
  }

  lemma {:induction false} LinesHaveNoDash(s: string)
    requires '-' !in s
    ensures '-' !in B64.Lines(s)
    decreases |s|
  {
    if s != "" {
      var k := if |s| < 76 then |s| else 76;
      LinesHaveNoDash(s[k..]);
    }
  }

  lemma EncodedHasNoDash(der: Bytes)
    requires IsBytes(der)
    ensures '-' !in B64.Encode(der)
  {
    B64.EncodeIsWritten(der);
    var s := B64.Encode(der);
    forall i | 0 <= i < |s| ensures s[i] != '-' {
      B64.WrittenIsDense(s[i]);
    }
  }

  /** The signature part as the split returns it: without its last line break. For an
      empty signature the blank line after the headers is the one that is dropped. */
  function CmsPart(der: Bytes): Bytes
    requires IsBytes(der)
  {
    if der == "" then Encode(HeaderText(CmsHeaders()))
    else Entity(CmsHeaders(), LinesBody(B64.Encode(der))).ToBytes()
  }

  lemma CmsPartThenBreak(der: Bytes)
    requires IsBytes(der)
    ensures Entity(CmsHeaders(), B64.Lines(B64.Encode(der))).ToBytes() == CmsPart(der) + "\r\n"
  {
    var h := Encode(HeaderText(CmsHeaders()));
    if der == "" {
      assert h + "\r\n" + "" == h + "\r\n";
    } else {
      B64.EncodeLength(der);
      LinesEnd(B64.Encode(der));
      var b := LinesBody(B64.Encode(der));
      assert h + "\r\n" + (b + "\r\n") == h + "\r\n" + b + "\r\n";
    }
  }

  lemma NoDashInHead(der: Bytes)
    requires IsBytes(der)
    ensures '-' !in LinesBody(B64.Encode(der))
  {
    EncodedHasNoDash(der);
    LinesHaveNoDash(B64.Encode(der));
  }

  /** No line of an S/MIME signature part starts with a dash, so every boundary is fresh
      for it. */
  lemma CmsPartIsFresh(der: Bytes, boundary: string)
    requires IsBytes(der)
    ensures MP.Fresh(CmsPart(der), boundary)
  {
    MP.DelimiterNotEmpty(boundary);
    var d := MP.Delimiter(boundary);
    CmsHeadersSimple();
    if der == "" {
      HeaderTextHasNoDashLine(CmsHeaders());
      DashlessIsFresh("", d);
      FreshAfterHead(CmsPart(der), "", d);
      assert CmsPart(der) + "" == CmsPart(der);
    } else {
      NoDashInHead(der);
      DashlessIsFresh(LinesBody(B64.Encode(der)), d);
      EntityIsFresh(CmsHeaders(), LinesBody(B64.Encode(der)), boundary);
    }
  }

  lemma CmsPartParses(der: Bytes)
    requires IsBytes(der)
    ensures ParseEntity(CmsPart(der)) == Entity(CmsHeaders(), if der == "" then "" else LinesBody(B64.Encode(der)))
  {
    CmsHeadersSimple();
    if der == "" {
      SimpleFields(CmsHeaders());
      ParseHeadersOnly(CmsHeaders());
    } else {
      SimpleEntityParses(CmsHeaders(), LinesBody(B64.Encode(der)));
    }
  }

  lemma CmsBodyDecodes(der: Bytes)
    requires IsBytes(der)
    ensures B64.DecodeBody(if der == "" then "" else LinesBody(B64.Encode(der))) == der
  {
    if der != "" {
      B64.DecodeBodyOfLines(der);
      B64.EncodeLength(der);
      LinesEnd(B64.Encode(der));
      var b := LinesBody(B64.Encode(der));
      B64.StripConcat(b, "\r\n");
      StripOfBreak();
      assert B64.Strip(b) + "" == B64.Strip(b);
    }
  }

  lemma StripOfBreak()
    ensures B64.Strip("\r\n") == ""
  {
    assert "\r\n"[1..] == "\n" && "\n"[1..] == "";
  }

  lemma ReadCms(part: Bytes, sigBody: Bytes, body: Bytes, der: Bytes, micalg: Option<string>)
    requires QP.Canon(part) == part && B64.DecodeBody(body) == der
    requires ParseEntity(sigBody) == Entity(CmsHeaders(), body)
    ensures ReadSigned("application/pkcs7-signature", micalg, [part, sigBody])
         == Some(Found(SmimeSigned(part, der, micalg), false, []))
  {
    CmsHeadersHaveBase64();
    ProtocolWords();
  }

  lemma ReadSmime(part: Bytes, signature: Bytes, micalg: Option<string>)
    requires QP.NoBareBreak(part) && IsBytes(signature)
    ensures ReadSigned("application/pkcs7-signature", micalg, [part, CmsPart(signature)])
         == Some(Found(SmimeSigned(part, signature, micalg), false, []))
  {
    QP.CanonOfCanonical(part);
    CmsPartParses(signature);
    CmsBodyDecodes(signature);
    hide *;
    ReadCms(part, CmsPart(signature), if signature == "" then "" else LinesBody(B64.Encode(signature)), signature,
            micalg);
  }

  lemma AnalyzeFound(raw: Bytes, part: CryptoPart)
    requires FindCrypto(raw, 0) == Some(Found(part, false, [])) && !part.InlinePgp?
    ensures Analyze(raw) == Analysis(Some(part), false, [])
  {
    hide FindCrypto;
  }

  /** S/MIME reads back: for every canonical part and every signature, with a boundary
      that starts no line of the part, the analysis returns both exactly. */
  lemma SmimeSignedReadsBack(part: Bytes, signature: Bytes, micalg: string, boundary: string)
    requires QP.NoBareBreak(part) && IsBytes(signature) && Token(micalg) && '\r' !in boundary && '\n' !in boundary
    requires MP.Fresh(part, boundary)
    ensures Analyze(SmimeSignedEntity(part, signature, micalg, boundary).ToBytes())
         == Analysis(Some(SmimeSigned(part, signature, Some(Lower(micalg)))), false, [])
  {
    hide *;
    SmimeFound(part, signature, micalg, boundary);
    ReadSmime(part, signature, Some(Lower(micalg)));
    AnalyzeFound(SmimeSignedEntity(part, signature, micalg, boundary).ToBytes(),
                 SmimeSigned(part, signature, Some(Lower(micalg))));
  }

  lemma SmimeFound(part: Bytes, signature: Bytes, micalg: string, boundary: string)
    requires IsBytes(signature) && Token(micalg) && '\r' !in boundary && '\n' !in boundary
    requires MP.Fresh(part, boundary)
    ensures FindCrypto(SmimeSignedEntity(part, signature, micalg, boundary).ToBytes(), 0)
         == ReadSigned("application/pkcs7-signature", Some(Lower(micalg)), [part, CmsPart(signature)])
  {
    CmsPartThenBreak(signature);
    CmsPartIsFresh(signature, boundary);
    ProtocolWords();
    FindSigned(part, CmsPart(signature), "application/pkcs7-signature", micalg, boundary);
  }
}
