/** Building signed and encrypted entities, and finding them again in a raw message
    (crates/mw-crypto/src/mime.rs; section 5 of RFC 3156, section 3.5.3 of RFC 8551).
    The random boundary is a parameter of every builder. */
module CryptoParts {
  import opened Wrappers
  import opened Text
  import opened Utf8
  import opened MimeEntity
  import CT = ContentType
  import MP = Multipart
  import QP = QuotedPrintable
  import B64 = Base64
  import IA = InlineArmor

  const MAX_DEPTH: nat := 16

  // -- building ----------------------------------------------------------------

  function SignatureHeaders(): seq<Field> {
    [("Content-Type", "application/pgp-signature" + "; name=\"signature.asc\""),
     ("Content-Description", "OpenPGP digital signature"),
     ("Content-Disposition", "attachment; filename=\"signature.asc\"")]
  }

  function CmsHeaders(): seq<Field> {
    [("Content-Type", "application/pkcs7-signature" + "; name=\"smime.p7s\""),
     ("Content-Transfer-Encoding", "base64"),
     ("Content-Disposition", "attachment; filename=\"smime.p7s\""),
     ("Content-Description", "S/MIME Cryptographic Signature")]
  }

  const SIGNED_PREAMBLE: Bytes := "This is a cryptographically " + "signed message in MIME format.\r\n"

  function SignedType(protocol: string, micalg: string, boundary: string): string {
    var typed := CT.AddParam("multipart/signed", "protocol", CT.Quote(protocol));
    CT.AddParam(CT.AddParam(typed, "micalg", micalg), "boundary", CT.Quote(boundary))
  }

  /** `multipart/signed` around a part and a signature part that ends with CRLF. */
  function SignedMultipart(part: Bytes, sigPart: Bytes, protocol: string, micalg: string, boundary: string): Entity {
    var d := MP.Delimiter(boundary);
    Entity([("MIME-Version", "1.0"), ("Content-Type", SignedType(protocol, micalg, boundary))],
           SIGNED_PREAMBLE + d + "\r\n" + part + "\r\n" + d + "\r\n" + sigPart + d + "--\r\n")
  }

  /** An armored text as it is written: without trailing white space, with canonical
      line breaks. */
  function ArmorBytes(armored: string): Bytes {
    Encode(Lossy(QP.Canon(Encode(TrimEnd(armored)))))
  }

  function PgpSignedEntity(part: Bytes, signature: string, micalg: string, boundary: string): Entity {
    var sigPart := Entity(SignatureHeaders(), ArmorBytes(signature)).ToBytes() + "\r\n";
    SignedMultipart(part, sigPart, "application/pgp-signature", micalg, boundary)
  }

  function SmimeSignedEntity(part: Bytes, signature: Bytes, micalg: string, boundary: string): Entity
    requires IsBytes(signature)
  {
    var sigPart := Entity(CmsHeaders(), B64.Lines(B64.Encode(signature))).ToBytes();
    SignedMultipart(part, sigPart, "application/pkcs7-signature", micalg, boundary)
  }

  // -- reading -----------------------------------------------------------------

  datatype CryptoPart =
    | PgpEncrypted(ciphertext: Bytes)
    | PgpSigned(signed: Bytes, signature: Bytes, micalg: Option<string>)
    | SmimeSigned(signed: Bytes, signature: Bytes, micalg: Option<string>)
    | SmimeOpaque(der: Bytes, smimeType: string)
    | InlinePgp(segments: seq<IA.Segment>)

  /** A structure, whether anything with content stands beside it, and where it is. */
  datatype Found = Found(part: CryptoPart, siblings: bool, path: seq<nat>)

  datatype Analysis = Analysis(part: Option<CryptoPart>, partial: bool, path: seq<nat>)

  function DecodeBody(cte: Option<string>, body: Bytes): Bytes {
    if cte.Some? && Lower(Trim(cte.value)) == "base64" then B64.DecodeBody(body)
    else if cte.Some? && Lower(Trim(cte.value)) == "quoted-printable" then QP.Decode(body)
    else body
  }

  function LowerOption(s: Option<string>): Option<string> {
    match s case None => None case Some(v) => Some(Lower(v))
  }

  function ReadSigned(protocol: string, micalg: Option<string>, parts: seq<Bytes>): Option<Found> {
    if |parts| < 2 then None else
      var sig := ParseEntity(parts[1]);
      var signature := DecodeBody(sig.Header("content-transfer-encoding"), sig.body);
      var signed := QP.Canon(parts[0]);
      if protocol == "application/pgp-signature" then Some(Found(PgpSigned(signed, signature, micalg), false, []))
      else if protocol == "application/pkcs7-signature" || protocol == "application/x-pkcs7-signature" then
        Some(Found(SmimeSigned(signed, signature, micalg), false, []))
      else None
  }

  function ReadEncrypted(protocol: string, parts: seq<Bytes>): Option<Found> {
    if protocol == "application/pgp-encrypted" && |parts| >= 2 then
      var data := ParseEntity(parts[1]);
      Some(Found(PgpEncrypted(DecodeBody(data.Header("content-transfer-encoding"), data.body)), false, []))
    else None
  }

  function ReadInline(cte: Option<string>, body: Bytes): Option<Found> {
    var segments := IA.Segments(Lossy(DecodeBody(cte, body)));
    if exists s | s in segments :: s.Armor? then Some(Found(InlinePgp(segments), false, [])) else None
  }

  predicate AllSpace(b: Bytes) {
    forall i | 0 <= i < |b| :: IsAsciiSpace(b[i])
  }

  /** How many parts have a body with content. */
  function NonEmpty(parts: seq<Bytes>): nat {
    if parts == [] then 0 else
      (if AllSpace(ParseEntity(parts[0]).body) then 0 else 1) + NonEmpty(parts[1..])
  }

  function Levels(depth: nat): nat {
    if depth > MAX_DEPTH then 0 else MAX_DEPTH + 1 - depth
  }

  /** What a media type means to the search. */
  datatype Shape = Encrypted | Signed | Opaque | Detached | Container | TextBody | Other

  function ShapeOf(mime: string): Shape {
    if mime == "multipart/encrypted" then Encrypted
    else if mime == "multipart/signed" then Signed
    else if mime == "application/pkcs7-mime" || mime == "application/x-pkcs7-mime" then Opaque
    else if mime == "application/pkcs7-signature" || mime == "application/x-pkcs7-signature" then Detached
    else if "multipart/" <= mime then Container
    else if "text/" <= mime || mime == "" then TextBody
    else Other
  }

  function PartsOf(ct: CT.MediaType, body: Bytes): Option<seq<Bytes>> {
    var boundary :- ct.Param("boundary");
    MP.Split(body, boundary)
  }

  /** Depth-first search for the first structure. */
  function FindCrypto(raw: Bytes, depth: nat): Option<Found>
    decreases Levels(depth), 0
  {
    if depth > MAX_DEPTH then None else
      var entity := ParseEntity(raw);
      var ct := CT.Parse(entity.Header("content-type").GetOr("text/plain"));
      var cte := entity.Header("content-transfer-encoding");
      var protocol := Lower(ct.Param("protocol").GetOr(""));
      match ShapeOf(ct.mime)
      case Encrypted =>
        var parts :- PartsOf(ct, entity.body);
        ReadEncrypted(protocol, parts)
      case Signed =>
        var parts :- PartsOf(ct, entity.body);
        ReadSigned(protocol, LowerOption(ct.Param("micalg")), parts)
      case Opaque =>
        Some(Found(SmimeOpaque(DecodeBody(cte, entity.body), Lower(ct.Param("smime-type").GetOr(""))), false, []))
      case Container =>
        var parts :- PartsOf(ct, entity.body);
        var found :- FindInParts(parts, 0, depth + 1);
        Some(found.(siblings := found.siblings || NonEmpty(parts) > 1))
      case TextBody => ReadInline(cte, entity.body)
      case Detached => None
      case Other => None
  }

  function FindInParts(parts: seq<Bytes>, i: nat, depth: nat): Option<Found>
    requires i <= |parts|
    decreases Levels(depth), 1 + |parts| - i
  {
    if i == |parts| then None else
      match FindCrypto(parts[i], depth)
      case Some(f) => Some(f.(path := [i] + f.path))
      case None => FindInParts(parts, i + 1, depth)
  }

  predicate HasPlainText(part: CryptoPart) {
    part.InlinePgp? && exists s | s in part.segments :: s.Plain? && Trim(s.text) != ""
  }

  function Analyze(raw: Bytes): Analysis {
    match FindCrypto(raw, 0)
    case None => Analysis(None, false, [])
    case Some(f) => Analysis(Some(f.part), f.siblings || HasPlainText(f.part), f.path)
  }

  // -- the builders' headers read back ----------------------------------------

  predicate Simple(f: Field) {
    Writable(f) && Trimmed(f.1) && f.0 != "" && f.0[0] != '-'
  }

  predicate AllSimple(fields: seq<Field>) {
    forall i | 0 <= i < |fields| :: Simple(fields[i])
  }

  lemma SimpleFields(fields: seq<Field>)
    requires AllSimple(fields)
    ensures AllWritable(fields) && TrimValues(fields) == fields
  {
    forall i | 0 <= i < |fields| ensures Writable(fields[i]) && Trim(fields[i].1) == fields[i].1 {
      TrimOfTrimmed(fields[i].1);
    }
  }

  lemma PgpTypeSimple()
    ensures Simple(("Content-Type", "application/pgp-signature" + "; name=\"signature.asc\""))
  {
  }

  lemma PgpDescriptionSimple()
    ensures Simple(("Content-Description", "OpenPGP digital signature"))
  {
  }

  lemma PgpDispositionSimple()
    ensures Simple(("Content-Disposition", "attachment; filename=\"signature.asc\""))
  {
  }

  lemma CmsTypeSimple()
    ensures Simple(("Content-Type", "application/pkcs7-signature" + "; name=\"smime.p7s\""))
  {
  }

  lemma CmsEncodingSimple()
    ensures Simple(("Content-Transfer-Encoding", "base64"))
  {
  }

  lemma CmsDispositionSimple()
    ensures Simple(("Content-Disposition", "attachment; filename=\"smime.p7s\""))
  {
  }

  lemma CmsDescriptionSimple()
    ensures Simple(("Content-Description", "S/MIME Cryptographic Signature"))
  {
  }

  lemma SignatureHeadersSimple()
    ensures AllSimple(SignatureHeaders())
  {
    PgpTypeSimple();
    PgpDescriptionSimple();
    PgpDispositionSimple();
    hide Simple;
    assert |SignatureHeaders()| == 3;
  }

  lemma CmsHeadersSimple()
    ensures AllSimple(CmsHeaders())
  {
    CmsTypeSimple();
    CmsEncodingSimple();
    CmsDispositionSimple();
    CmsDescriptionSimple();
    hide Simple;
    assert |CmsHeaders()| == 4;
  }

  lemma QuotedLast(prefix: string, v: string)
    ensures (prefix + CT.Quote(v))[|prefix + CT.Quote(v)| - 1] == '"'
  {
  }

  lemma NoBreakInQuote(v: string)
    requires '\r' !in v && '\n' !in v
    ensures '\r' !in CT.Quote(v) && '\n' !in CT.Quote(v)
  {
    CT.TwoReplacementsEscape(v);
    NoBreakInEscape(v);
  }

  lemma {:induction false} NoBreakInEscape(v: string)
    requires '\r' !in v && '\n' !in v
    ensures '\r' !in CT.Escape(v) && '\n' !in CT.Escape(v)
    decreases |v|
  {
    if v != "" {
      assert v[0] in v;
      NoBreakInEscape(v[1..]);
    }
  }

  /** A message digest name as the builders get it: one plain token. */
  predicate Token(s: string) {
    s != "" && Trimmed(s) && CT.Plain(s) && '\r' !in s && '\n' !in s
  }

  lemma SignedTypeField(protocol: string, micalg: string, boundary: string)
    requires Token(micalg) && '\r' !in boundary && '\n' !in boundary && '\r' !in protocol && '\n' !in protocol
    ensures Simple(("Content-Type", SignedType(protocol, micalg, boundary)))
  {
    NoBreakInQuote(protocol);
    NoBreakInQuote(boundary);
    var head := "multipart/signed" + "; " + "protocol" + "=" + CT.Quote(protocol) + "; " + "micalg" + "=" + micalg
                + "; " + "boundary" + "=";
    var v := head + CT.Quote(boundary);
    assert v == SignedType(protocol, micalg, boundary);
    QuotedLast(head, boundary);
    assert v[0] == 'm';
  }

  lemma ContentTypeName()
    ensures Trimmed("Content-Type") && ':' !in "Content-Type" && '\n' !in "Content-Type"
  {
  }

  lemma ProtocolName()
    ensures CT.NamePart("protocol") && Lower("protocol") == "protocol"
  {
  }

  lemma MicalgName()
    ensures CT.NamePart("micalg") && Lower("micalg") == "micalg"
  {
  }

  lemma BoundaryName()
    ensures CT.NamePart("boundary") && Lower("boundary") == "boundary"
  {
  }

  lemma SignedWord()
    ensures CT.Plain("multipart/signed") && Trimmed("multipart/signed")
         && Lower("multipart/signed") == "multipart/signed"
  {
  }

  /** The parameters survive quoting, splitting and unquoting, whatever the boundary. */
  lemma SignedTypeParses(protocol: string, micalg: string, boundary: string)
    requires Token(micalg)
    ensures CT.Parse(SignedType(protocol, micalg, boundary))
         == CT.MediaType("multipart/signed", [("protocol", protocol), ("micalg", micalg), ("boundary", boundary)])
  {
    ProtocolName();
    MicalgName();
    BoundaryName();
    SignedWord();
    CT.PlainTypeParses("multipart/signed");
    CT.QuoteIsValuePart(protocol);
    CT.QuoteIsValuePart(boundary);
    CT.UnquoteOfQuote(protocol);
    CT.UnquoteOfQuote(boundary);
    PlainIsUnquoted(micalg);
    hide CT.Parse, CT.Quote, CT.Unquote, CT.NamePart, CT.ValuePart, CT.Closed, CT.AddParam, Lower;
    var v1 := CT.AddParam("multipart/signed", "protocol", CT.Quote(protocol));
    CT.ParseAppend("multipart/signed", "protocol", CT.Quote(protocol));
    CT.ParseAppend(v1, "micalg", micalg);
    CT.ParseAppend(CT.AddParam(v1, "micalg", micalg), "boundary", CT.Quote(boundary));
    ThreeInOrder(("protocol", protocol), ("micalg", micalg), ("boundary", boundary));
  }

  lemma ThreeInOrder<T>(a: T, b: T, c: T)
    ensures [] + [a] + [b] + [c] == [a, b, c]
  {
  }

  lemma PlainIsUnquoted(s: string)
    requires Token(s)
    ensures CT.ValuePart(s) && CT.Unquote(s) == s
  {
    assert s[0] in s;
  }
}
