/** Encrypted mail reads back: PGP/MIME and opaque S/MIME entities
    (crates/mw-crypto/src/mime.rs; section 4 of RFC 3156, section 3.2 of RFC 8551). */
module EncryptedRoundTrip {
  import opened Wrappers
  import opened Text
  import opened Utf8
  import opened MimeEntity
  import opened CryptoParts
  import CT = ContentType
  import MP = Multipart
  import QP = QuotedPrintable
  import B64 = Base64
  import SR = SignedRoundTrip

  // -- the builders ------------------------------------------------------------

  const ENCRYPTED_PREAMBLE: Bytes := "This is an OpenPGP/MIME encrypted " + "message (RFC 4880 and 3156)\r\n"
  const PROTOCOL: string := "application/pgp-encrypted"

  function VersionHeaders(): seq<Field> {
    [("Content-Type", "application/pgp-encrypted"), ("Content-Description", "PGP/MIME version identification")]
  }

  function DataHeaders(): seq<Field> {
    [("Content-Type", "application/octet-stream; " + "name=\"encrypted.asc\""),
     ("Content-Description", "OpenPGP encrypted message"),
     ("Content-Disposition", "inline; filename=\"encrypted.asc\"")]
  }

  function VersionPart(): Bytes {
    Entity(VersionHeaders(), "Version: 1\r\n").ToBytes()
  }

  function DataPart(armored: string): Bytes {
    Entity(DataHeaders(), ArmorBytes(armored)).ToBytes()
  }

  function EncryptedType(boundary: string): string {
    CT.AddParam(CT.AddParam("multipart/encrypted", "protocol", CT.Quote(PROTOCOL)), "boundary", CT.Quote(boundary))
  }

  function PgpEncryptedEntity(armored: string, boundary: string): Entity {
    var d := MP.Delimiter(boundary);
    Entity([("MIME-Version", "1.0"), ("Content-Type", EncryptedType(boundary))],
           ENCRYPTED_PREAMBLE + d + "\r\n" + VersionPart() + "\r\n" + d + "\r\n" + (DataPart(armored) + "\r\n") + d
           + "--\r\n")
  }

  const FILE_NAME: string := "smime.p7m"

  function OpaqueType(smimeType: string): string {
    CT.AddParam(CT.AddParam("application/pkcs7-mime", "smime-type", smimeType), "name", CT.Quote(FILE_NAME))
  }

  function OpaqueHeaders(smimeType: string): seq<Field> {
    [("MIME-Version", "1.0"), ("Content-Type", OpaqueType(smimeType)),
     ("Content-Transfer-Encoding", "base64"), ("Content-Disposition", "attachment; filename=\"smime.p7m\"")]
  }

  function SmimeOpaqueEntity(der: Bytes, smimeType: string): Entity
    requires IsBytes(der)
  {
    Entity(OpaqueHeaders(smimeType), B64.Lines(B64.Encode(der)))
  }

  // -- their headers ----------------------------------------------------------

  lemma VersionTypeSimple()
    ensures Simple(("Content-Type", "application/pgp-encrypted"))
  {
  }

  lemma VersionDescriptionSimple()
    ensures Simple(("Content-Description", "PGP/MIME version identification"))
  {
  }

  lemma VersionHeadersSimple()
    ensures AllSimple(VersionHeaders())
  {
    VersionTypeSimple();
    VersionDescriptionSimple();
    hide Simple;
    assert |VersionHeaders()| == 2;
  }

  lemma DataTypeSimple()
    ensures Simple(("Content-Type", "application/octet-stream; " + "name=\"encrypted.asc\""))
  {
  }

  lemma DataDescriptionSimple()
    ensures Simple(("Content-Description", "OpenPGP encrypted message"))
  {
  }

  lemma DataDispositionSimple()
    ensures Simple(("Content-Disposition", "inline; filename=\"encrypted.asc\""))
  {
  }

  lemma DataHeadersSimple()
    ensures AllSimple(DataHeaders())
  {
    DataTypeSimple();
    DataDescriptionSimple();
    DataDispositionSimple();
    hide Simple;
    assert |DataHeaders()| == 3;
  }

  lemma DataHeadersHaveNoEncoding()
    ensures FirstField(DataHeaders(), "content-transfer-encoding") == None
  {
    var h := DataHeaders();
    assert |Lower("Content-Type")| == 12 && |Lower("Content-Description")| == 19 == |Lower("Content-Disposition")|;
    assert |Lower("content-transfer-encoding")| == 25;
    assert h[1..][1..][1..] == [];
  }

  /** A content type value that a header line carries unchanged. */
  predicate GoodValue(v: string) {
    v != "" && !IsWhitespace(v[0]) && !IsWhitespace(v[|v| - 1]) && '\r' !in v && '\n' !in v
  }

  lemma GoodValueIsSimple(v: string)
    requires GoodValue(v)
    ensures Simple(("Content-Type", v))
  {
    ContentTypeName();
    assert IsWhitespace('\r');
  }

  lemma AddedIsGood(value: string, name: string, raw: string)
    requires GoodValue(value) && GoodValue(name) && GoodValue(raw)
    ensures GoodValue(CT.AddParam(value, name, raw))
  {
    GoodSum(value, "; ", name);
    GoodSum(value + "; " + name, "=", raw);
  }

  lemma GoodSum(a: string, mid: string, b: string)
    requires GoodValue(a) && GoodValue(b) && '\r' !in mid && '\n' !in mid
    ensures GoodValue(a + mid + b)
  {
    var v := a + mid + b;
    assert v[0] == a[0] && v[|v| - 1] == b[|b| - 1];
  }

  lemma QuotedIsGood(v: string)
    requires '\r' !in v && '\n' !in v
    ensures GoodValue(CT.Quote(v))
  {
    NoBreakInQuote(v);
    QuotedLast("", v);
    assert "" + CT.Quote(v) == CT.Quote(v);
  }

  lemma EncryptedWords()
    ensures GoodValue("multipart/encrypted") && GoodValue("protocol") && GoodValue("boundary")
  {
  }

  lemma OpaqueWords()
    ensures GoodValue("application/pkcs7-mime") && GoodValue("smime-type") && GoodValue("name")
  {
  }

  lemma EncryptedTypeField(boundary: string)
    requires '\r' !in boundary && '\n' !in boundary
    ensures Simple(("Content-Type", EncryptedType(boundary)))
  {
    ProtocolWord();
    EncryptedWords();
    hide GoodValue, Simple, CT.AddParam, CT.Quote, PROTOCOL;
    QuotedIsGood(PROTOCOL);
    QuotedIsGood(boundary);
    AddedIsGood("multipart/encrypted", "protocol", CT.Quote(PROTOCOL));
    AddedIsGood(CT.AddParam("multipart/encrypted", "protocol", CT.Quote(PROTOCOL)), "boundary", CT.Quote(boundary));
    GoodValueIsSimple(EncryptedType(boundary));
  }

  /** A media type with two parameters added. */
  lemma TwoParamsParse(mime: string, n1: string, r1: string, n2: string, r2: string)
    requires CT.Plain(mime) && Trimmed(mime) && CT.NamePart(n1) && CT.NamePart(n2) && CT.ValuePart(r1)
          && CT.ValuePart(r2)
    ensures CT.Parse(CT.AddParam(CT.AddParam(mime, n1, r1), n2, r2))
         == CT.MediaType(Lower(mime), [(Lower(n1), CT.Unquote(r1)), (Lower(n2), CT.Unquote(r2))])
  {
    hide *;
    CT.PlainTypeParses(mime);
    CT.ParseAppend(mime, n1, r1);
    CT.ParseAppend(CT.AddParam(mime, n1, r1), n2, r2);
    TwoInOrder((Lower(n1), CT.Unquote(r1)), (Lower(n2), CT.Unquote(r2)));
  }

  lemma TwoInOrder<T>(a: T, b: T)
    ensures [] + [a] + [b] == [a, b]
  {
  }

  lemma ProtocolWord()
    ensures Lower(PROTOCOL) == PROTOCOL && '\r' !in PROTOCOL && '\n' !in PROTOCOL
  {
  }

  lemma EncryptedWord()
    ensures CT.Plain("multipart/encrypted") && Trimmed("multipart/encrypted")
         && Lower("multipart/encrypted") == "multipart/encrypted"
  {
  }

  lemma EncryptedTypeParses(boundary: string)
    ensures CT.Parse(EncryptedType(boundary))
         == CT.MediaType("multipart/encrypted", [("protocol", PROTOCOL), ("boundary", boundary)])
  {
    ProtocolName();
    BoundaryName();
    EncryptedWord();
    hide CT.Parse, CT.Quote, CT.Unquote, CT.NamePart, CT.ValuePart, CT.AddParam, CT.Plain, Trimmed, Lower, PROTOCOL;
    CT.QuoteIsValuePart(PROTOCOL);
    CT.QuoteIsValuePart(boundary);
    CT.UnquoteOfQuote(PROTOCOL);
    CT.UnquoteOfQuote(boundary);
    TwoParamsParse("multipart/encrypted", "protocol", CT.Quote(PROTOCOL), "boundary", CT.Quote(boundary));
  }

  // -- PGP/MIME ----------------------------------------------------------------

  lemma PreambleIsFresh(boundary: string)
    ensures MP.Fresh(ENCRYPTED_PREAMBLE, boundary)
    ensures ENCRYPTED_PREAMBLE != "" && ENCRYPTED_PREAMBLE[|ENCRYPTED_PREAMBLE| - 1] == '\n'
  {
    MP.DelimiterNotEmpty(boundary);
    SR.Dashless("This is an OpenPGP/MIME encrypted ", "message (RFC 4880 and 3156)\r\n");
    SR.DashlessIsFresh(ENCRYPTED_PREAMBLE, MP.Delimiter(boundary));
  }

  lemma VersionPartIsFresh(boundary: string)
    ensures MP.Fresh(VersionPart(), boundary)
  {
    MP.DelimiterNotEmpty(boundary);
    SR.DashlessIsFresh("Version: 1\r\n", MP.Delimiter(boundary));
    VersionHeadersSimple();
    SR.EntityIsFresh(VersionHeaders(), "Version: 1\r\n", boundary);
  }

  lemma EncryptedBodySplits(armored: string, boundary: string)
    requires '\r' !in boundary && '\n' !in boundary && MP.Fresh(ArmorBytes(armored), boundary)
    ensures MP.Split(PgpEncryptedEntity(armored, boundary).body, boundary) == Some([VersionPart(), DataPart(armored)])
  {
    var d, p, s := MP.Delimiter(boundary), VersionPart(), DataPart(armored);
    SR.JoinOfTwo(ENCRYPTED_PREAMBLE, d, p, s);
    SR.AfterTwo(d, p, s, "\r\n");
    assert PgpEncryptedEntity(armored, boundary).body == MP.Join(ENCRYPTED_PREAMBLE, boundary, [p, s], "\r\n");
    DataHeadersSimple();
    hide *;
    PreambleIsFresh(boundary);
    VersionPartIsFresh(boundary);
    DataPartIsFresh(armored, boundary);
    SR.BothFresh(p, s, boundary);
    MP.SplitOfJoin(ENCRYPTED_PREAMBLE, boundary, [p, s], "\r\n");
  }

  lemma DataPartIsFresh(armored: string, boundary: string)
    requires MP.Fresh(ArmorBytes(armored), boundary)
    ensures MP.Fresh(DataPart(armored), boundary)
  {
    DataHeadersSimple();
    hide DataHeaders, ArmorBytes, MP.Fresh, AllSimple;
    SR.EntityIsFresh(DataHeaders(), ArmorBytes(armored), boundary);
  }

  lemma TwoParams(boundary: string)
    ensures
      var ct := CT.MediaType("multipart/encrypted", [("protocol", PROTOCOL), ("boundary", boundary)]);
      && ct.Param("protocol") == Some(PROTOCOL) && ct.Param("boundary") == Some(boundary)
      && ShapeOf(ct.mime) == Encrypted
  {
    SR.ParamNames();
    hide SameIgnoringCase, PROTOCOL;
    SR.ParamHere(("protocol", PROTOCOL), [("boundary", boundary)], "protocol");
    SR.ParamNext(("protocol", PROTOCOL), [("boundary", boundary)], "boundary");
    SR.ParamHere(("boundary", boundary), [], "boundary");
    assert [("boundary", boundary)] + [] == [("boundary", boundary)];
    assert [("protocol", PROTOCOL)] + [("boundary", boundary)] == [("protocol", PROTOCOL), ("boundary", boundary)];
  }

  lemma ReadData(armored: string)
    ensures ReadEncrypted(PROTOCOL, [VersionPart(), DataPart(armored)])
         == Some(Found(PgpEncrypted(ArmorBytes(armored)), false, []))
  {
    DataHeadersSimple();
    SR.SimpleEntityParses(DataHeaders(), ArmorBytes(armored));
    DataHeadersHaveNoEncoding();
    hide DataHeaders, ArmorBytes, ParseEntity, VersionPart;
  }

  /** What the search makes of an encrypted multipart. */
  lemma EncryptedFound(raw: Bytes, e: Entity, value: string, ct: CT.MediaType, parts: seq<Bytes>)
    requires ParseEntity(raw) == e && e.Header("content-type") == Some(value) && CT.Parse(value) == ct
    requires ShapeOf(ct.mime) == Encrypted && PartsOf(ct, e.body) == Some(parts)
    ensures FindCrypto(raw, 0) == ReadEncrypted(Lower(ct.Param("protocol").GetOr("")), parts)
  {
    hide ParseEntity, CT.Parse, CT.FirstParam, FirstField, ReadEncrypted, PartsOf, ShapeOf, Lower, FindInParts,
         NonEmpty, ReadSigned, ReadInline, DecodeBody;
  }

  lemma FindEncrypted(armored: string, boundary: string)
    requires '\r' !in boundary && '\n' !in boundary && MP.Fresh(ArmorBytes(armored), boundary)
    ensures FindCrypto(PgpEncryptedEntity(armored, boundary).ToBytes(), 0)
         == ReadEncrypted(PROTOCOL, [VersionPart(), DataPart(armored)])
  {
    var e, ct := PgpEncryptedEntity(armored, boundary), CT.Parse(EncryptedType(boundary));
    var parts := [VersionPart(), DataPart(armored)];
    EncryptedTypeField(boundary);
    SR.TypedEntityParses(EncryptedType(boundary), e.body);
    EncryptedTypeParses(boundary);
    TwoParams(boundary);
    ProtocolWord();
    EncryptedBodySplits(armored, boundary);
    hide ParseEntity, CT.Parse, EncryptedType, CT.FirstParam, ReadEncrypted, MP.Split, ShapeOf, VersionPart, DataPart,
         Lower, PROTOCOL, FindCrypto;
    EncryptedFound(e.ToBytes(), e, EncryptedType(boundary), ct, parts);
  }

  /** PGP/MIME encrypted mail reads back: for every armored message and a boundary that
      starts none of its lines, the analysis returns the message (canonical line breaks,
      trailing white space dropped). */
  lemma PgpEncryptedReadsBack(armored: string, boundary: string)
    requires '\r' !in boundary && '\n' !in boundary && MP.Fresh(QP.Canon(Encode(TrimEnd(armored))), boundary)
    ensures Analyze(PgpEncryptedEntity(armored, boundary).ToBytes())
         == Analysis(Some(PgpEncrypted(QP.Canon(Encode(TrimEnd(armored))))), false, [])
  {
    hide *;
    SR.ArmorIsCanonical(armored);
    FindEncrypted(armored, boundary);
    ReadData(armored);
    SR.AnalyzeFound(PgpEncryptedEntity(armored, boundary).ToBytes(), PgpEncrypted(ArmorBytes(armored)));
  }

  // -- S/MIME ------------------------------------------------------------------

  lemma OpaqueWord()
    ensures CT.Plain("application/pkcs7-mime") && Trimmed("application/pkcs7-mime")
    ensures Lower("application/pkcs7-mime") == "application/pkcs7-mime" && ShapeOf("application/pkcs7-mime") == Opaque
  {
    assert "application/pkcs7-mime"[0] == 'a';
  }

  lemma SmimeTypeName()
    ensures CT.NamePart("smime-type") && Lower("smime-type") == "smime-type"
  {
  }

  lemma NameName()
    ensures CT.NamePart("name") && Lower("name") == "name"
  {
  }

  lemma OpaqueTypeParses(smimeType: string)
    requires Token(smimeType)
    ensures CT.Parse(OpaqueType(smimeType))
         == CT.MediaType("application/pkcs7-mime", [("smime-type", smimeType), ("name", FILE_NAME)])
  {
    OpaqueWord();
    SmimeTypeName();
    NameName();
    PlainIsUnquoted(smimeType);
    hide CT.Parse, CT.Quote, CT.Unquote, CT.NamePart, CT.ValuePart, CT.AddParam, CT.Plain, Trimmed, Lower, ShapeOf,
         Token, FILE_NAME;
    CT.QuoteIsValuePart(FILE_NAME);
    CT.UnquoteOfQuote(FILE_NAME);
    TwoParamsParse("application/pkcs7-mime", "smime-type", smimeType, "name", CT.Quote(FILE_NAME));
  }

  lemma FileNameWord()
    ensures '\r' !in FILE_NAME && '\n' !in FILE_NAME
  {
  }

  lemma TokenIsGood(s: string)
    requires Token(s)
    ensures GoodValue(s)
  {
  }

  lemma OpaqueTypeField(smimeType: string)
    requires Token(smimeType)
    ensures Simple(("Content-Type", OpaqueType(smimeType)))
  {
    FileNameWord();
    OpaqueWords();
    TokenIsGood(smimeType);
    hide GoodValue, Simple, CT.AddParam, CT.Quote, FILE_NAME, Token;
    QuotedIsGood(FILE_NAME);
    AddedIsGood("application/pkcs7-mime", "smime-type", smimeType);
    AddedIsGood(CT.AddParam("application/pkcs7-mime", "smime-type", smimeType), "name", CT.Quote(FILE_NAME));
    GoodValueIsSimple(OpaqueType(smimeType));
  }

  lemma OpaqueDispositionSimple()
    ensures Simple(("Content-Disposition", "attachment; filename=\"smime.p7m\""))
  {
  }

  lemma FourSimple(a: Field, b: Field, c: Field, d: Field)
    requires Simple(a) && Simple(b) && Simple(c) && Simple(d)
    ensures AllSimple([a, b, c, d])
  {
    hide Simple;
  }

  lemma OpaqueHeadersSimple(smimeType: string)
    requires Token(smimeType)
    ensures AllSimple(OpaqueHeaders(smimeType))
  {
    SR.VersionSimple();
    OpaqueTypeField(smimeType);
    CmsEncodingSimple();
    OpaqueDispositionSimple();
    hide Simple, AllSimple, OpaqueType, Token, SameIgnoringCase;
    var h := OpaqueHeaders(smimeType);
    FourSimple(h[0], h[1], h[2], h[3]);
  }

  lemma FieldHere(f: Field, rest: seq<Field>, name: string)
    requires SameIgnoringCase(f.0, name)
    ensures FirstField([f] + rest, name) == Some(f.1)
  {
    hide SameIgnoringCase;
  }

  lemma FieldNext(f: Field, rest: seq<Field>, name: string)
    requires !SameIgnoringCase(f.0, name)
    ensures FirstField([f] + rest, name) == FirstField(rest, name)
  {
    assert ([f] + rest)[1..] == rest;
    hide SameIgnoringCase;
  }

  lemma EncodingNames()
    ensures !SameIgnoringCase("MIME-Version", "content-transfer-encoding")
    ensures !SameIgnoringCase("Content-Type", "content-transfer-encoding")
    ensures SameIgnoringCase("Content-Transfer-Encoding", "content-transfer-encoding")
  {
    assert |Lower("MIME-Version")| == 12 == |Lower("Content-Type")| && |Lower("content-transfer-encoding")| == 25;
    assert Lower("Content-Transfer-Encoding") == Lower("content-transfer-encoding");
  }

  lemma OpaqueFields(smimeType: string)
    ensures FirstField(OpaqueHeaders(smimeType), "content-type") == Some(OpaqueType(smimeType))
    ensures FirstField(OpaqueHeaders(smimeType), "content-transfer-encoding") == Some("base64")
  {
    SR.VersionSimple();
    EncodingNames();
    hide OpaqueType, SameIgnoringCase, Simple, FirstField;
    var h := OpaqueHeaders(smimeType);
    assert h == [h[0]] + ([h[1]] + ([h[2]] + [h[3]]));
    FieldNext(h[0], [h[1]] + ([h[2]] + [h[3]]), "content-type");
    FieldHere(h[1], [h[2]] + [h[3]], "content-type");
    FieldNext(h[0], [h[1]] + ([h[2]] + [h[3]]), "content-transfer-encoding");
    FieldNext(h[1], [h[2]] + [h[3]], "content-transfer-encoding");
    FieldHere(h[2], [h[3]], "content-transfer-encoding");
  }

  lemma SmimeTypeParam(smimeType: string)
    ensures CT.MediaType("application/pkcs7-mime", [("smime-type", smimeType), ("name", FILE_NAME)]).Param("smime-type")
         == Some(smimeType)
  {
  }

  /** Opaque S/MIME reads back: for every message and type, exactly the bytes and the
      type, in lower case. */
  lemma SmimeOpaqueReadsBack(der: Bytes, smimeType: string)
    requires IsBytes(der) && Token(smimeType)
    ensures Analyze(SmimeOpaqueEntity(der, smimeType).ToBytes())
         == Analysis(Some(SmimeOpaque(der, Lower(smimeType))), false, [])
  {
    hide *;
    FindOpaque(der, smimeType);
    SR.AnalyzeFound(SmimeOpaqueEntity(der, smimeType).ToBytes(), SmimeOpaque(der, Lower(smimeType)));
  }

  lemma OpaqueParses(der: Bytes, smimeType: string)
    requires IsBytes(der) && Token(smimeType)
    ensures ParseEntity(SmimeOpaqueEntity(der, smimeType).ToBytes()) == SmimeOpaqueEntity(der, smimeType)
  {
    OpaqueHeadersSimple(smimeType);
    hide ParseEntity, OpaqueHeaders, AllSimple, B64.Lines, B64.Encode, Token;
    SR.SimpleEntityParses(OpaqueHeaders(smimeType), B64.Lines(B64.Encode(der)));
  }

  lemma OpaqueBody(der: Bytes)
    requires IsBytes(der)
    ensures DecodeBody(Some("base64"), B64.Lines(B64.Encode(der))) == der
  {
    B64.DecodeBodyOfLines(der);
    SR.CmsHeadersHaveBase64();
    hide B64.Lines, B64.Encode, B64.DecodeBody, CmsHeaders, FirstField;
  }

  lemma FindOpaque(der: Bytes, smimeType: string)
    requires IsBytes(der) && Token(smimeType)
    ensures FindCrypto(SmimeOpaqueEntity(der, smimeType).ToBytes(), 0)
         == Some(Found(SmimeOpaque(der, Lower(smimeType)), false, []))
  {
    var e := SmimeOpaqueEntity(der, smimeType);
    assert e.headers == OpaqueHeaders(smimeType) && e.body == B64.Lines(B64.Encode(der));
    hide *;
    OpaqueParses(der, smimeType);
    OpaqueFields(smimeType);
    OpaqueTypeParses(smimeType);
    OpaqueWord();
    SmimeTypeParam(smimeType);
    OpaqueBody(der);
    FindOpaqueIn(e.ToBytes(), e, OpaqueType(smimeType),
                 CT.MediaType("application/pkcs7-mime", [("smime-type", smimeType), ("name", FILE_NAME)]), smimeType);
  }

  /** What the search makes of an entity of an opaque type. */
  lemma FindOpaqueIn(raw: Bytes, e: Entity, value: string, ct: CT.MediaType, smimeType: string)
    requires ParseEntity(raw) == e && FirstField(e.headers, "content-type") == Some(value) && CT.Parse(value) == ct
    requires ShapeOf(ct.mime) == Opaque && ct.Param("smime-type") == Some(smimeType)
    ensures FindCrypto(raw, 0)
         == Some(Found(SmimeOpaque(DecodeBody(FirstField(e.headers, "content-transfer-encoding"), e.body),
                                   Lower(smimeType)), false, []))
  {
    hide ParseEntity, CT.Parse, CT.FirstParam, FirstField, ShapeOf, DecodeBody, Lower;
  }
}
