/** Analysis of whole messages: signed, encrypted and opaque parts, texts and files, nested
    in multiparts in any way (crates/mw-crypto/src/mime.rs). */
module MailTree {
  import opened Wrappers
  import opened Text
  import opened Utf8
  import opened MimeEntity
  import opened CryptoParts
  import CT = ContentType
  import MP = Multipart
  import QP = QuotedPrintable
  import B64 = Base64
  import IA = InlineArmor
  import SR = SignedRoundTrip
  import ER = EncryptedRoundTrip

  // -- messages ----------------------------------------------------------------

  type Octets = b: Bytes | IsBytes(b)

  datatype Encoding = AsIs | Quoted | Base64Lines

  datatype Mail =
    | PgpSignedMail(part: Bytes, signature: string, micalg: string, boundary: string)
    | SmimeSignedMail(part: Bytes, der: Octets, micalg: string, boundary: string)
    | EncryptedMail(armored: string, boundary: string)
    | OpaqueMail(der: Octets, smimeType: string)
    | TextMail(fields: seq<Field>, text: string, encoding: Encoding)
    | FileMail(fields: seq<Field>, content: Bytes)
    | Multi(fields: seq<Field>, boundary: string, preamble: Bytes, parts: seq<Mail>, epilogue: Bytes)

  function TextBytes(text: string, encoding: Encoding): Bytes {
    match encoding
    case AsIs => Encode(text)
    case Quoted => QP.QuotedText(text)
    case Base64Lines =>
      EncodeIsBytes(text);
      B64.Lines(B64.Encode(Encode(text)))
  }

  function EntityOf(m: Mail): Entity
    decreases m, 1
  {
    match m
    case PgpSignedMail(part, signature, micalg, boundary) => PgpSignedEntity(part, signature, micalg, boundary)
    case SmimeSignedMail(part, der, micalg, boundary) => SmimeSignedEntity(part, der, micalg, boundary)
    case EncryptedMail(armored, boundary) => ER.PgpEncryptedEntity(armored, boundary)
    case OpaqueMail(der, smimeType) => ER.SmimeOpaqueEntity(der, smimeType)
    case TextMail(fields, text, encoding) => Entity(fields, TextBytes(text, encoding))
    case FileMail(fields, content) => Entity(fields, content)
    case Multi(fields, boundary, preamble, parts, epilogue) =>
      Entity(fields, MP.Join(preamble, boundary, RawParts(m, 0), epilogue))
  }

  function Raw(m: Mail): Bytes
    decreases m, 2
  {
    EntityOf(m).ToBytes()
  }

  /** The serialized parts from `i` on. */
  function RawParts(m: Mail, i: nat): seq<Bytes>
    requires m.Multi? && i <= |m.parts|
    decreases m, 0, |m.parts| - i
  {
    if i == |m.parts| then [] else [Raw(m.parts[i])] + RawParts(m, i + 1)
  }

  function TypeOf(fields: seq<Field>): CT.MediaType {
    CT.Parse(FirstField(fields, "content-type").GetOr("text/plain"))
  }

  predicate EncodedAs(fields: seq<Field>, encoding: Encoding) {
    var cte := FirstField(fields, "content-transfer-encoding");
    match encoding
    case AsIs => cte.Some? ==> Lower(cte.value) != "base64" && Lower(cte.value) != "quoted-printable"
    case Quoted => cte.Some? && Lower(cte.value) == "quoted-printable"
    case Base64Lines => cte.Some? && Lower(cte.value) == "base64"
  }

  predicate TextMime(mime: string) {
    mime == "" || "text/" <= mime
  }

  predicate ListMime(mime: string) {
    "multipart/" <= mime && mime != "multipart/encrypted" && mime != "multipart/signed"
  }

  predicate FileMime(mime: string) {
    && mime != "" && !("text/" <= mime) && !("multipart/" <= mime)
    && mime != "application/pkcs7-mime" && mime != "application/x-pkcs7-mime"
  }

  predicate OneLine(s: string) {
    '\r' !in s && '\n' !in s
  }

  /** What may be composed: fields that can be written, and boundaries that start no line of
      the parts they separate. */
  predicate Good(m: Mail)
    decreases m
  {
    match m
    case PgpSignedMail(part, signature, micalg, boundary) =>
      && QP.NoBareBreak(part) && Token(micalg) && OneLine(boundary) && MP.Fresh(part, boundary)
      && MP.Fresh(QP.Canon(Encode(TrimEnd(signature))), boundary)
    case SmimeSignedMail(part, der, micalg, boundary) =>
      QP.NoBareBreak(part) && Token(micalg) && OneLine(boundary) && MP.Fresh(part, boundary)
    case EncryptedMail(armored, boundary) => OneLine(boundary) && MP.Fresh(QP.Canon(Encode(TrimEnd(armored))), boundary)
    case OpaqueMail(der, smimeType) => Token(smimeType)
    case TextMail(fields, _, encoding) =>
      AllSimple(fields) && TextMime(TypeOf(fields).mime) && EncodedAs(fields, encoding)
    case FileMail(fields, _) => AllSimple(fields) && FileMime(TypeOf(fields).mime)
    case Multi(fields, boundary, preamble, parts, _) =>
      && AllSimple(fields) && ListMime(TypeOf(fields).mime) && TypeOf(fields).Param("boundary") == Some(boundary)
      && OneLine(boundary) && MP.Fresh(preamble, boundary) && (preamble != "" ==> preamble[|preamble| - 1] == '\n')
      && forall i | 0 <= i < |parts| :: Good(parts[i]) && MP.Fresh(Raw(parts[i]), boundary)
  }

  // -- what a message holds ----------------------------------------------------

  /** The text as the reader gets it: quoted-printable gives every line break its CR. */
  function TextAs(text: string, encoding: Encoding): string {
    if encoding == Quoted then QP.Canon(text) else text
  }

  predicate HasArmor(segments: seq<IA.Segment>) {
    exists i | 0 <= i < |segments| :: segments[i].Armor?
  }

  /** The structure that a message is itself, if it is one. */
  function PartOf(m: Mail): Option<CryptoPart> {
    match m
    case PgpSignedMail(part, signature, micalg, _) =>
      Some(PgpSigned(part, QP.Canon(Encode(TrimEnd(signature))), Some(Lower(micalg))))
    case SmimeSignedMail(part, der, micalg, _) => Some(SmimeSigned(part, der, Some(Lower(micalg))))
    case EncryptedMail(armored, _) => Some(PgpEncrypted(QP.Canon(Encode(TrimEnd(armored)))))
    case OpaqueMail(der, smimeType) => Some(SmimeOpaque(der, Lower(smimeType)))
    case TextMail(_, text, encoding) =>
      var segments := IA.Segments(TextAs(text, encoding));
      if HasArmor(segments) then Some(InlinePgp(segments)) else None
    case FileMail(_, _) => None
    case Multi(_, _, _, _, _) => None
  }

  /** A structure at most `levels` levels deep. */
  predicate Holds(m: Mail, levels: nat)
    decreases m
  {
    levels > 0 &&
    if m.Multi? then exists i | 0 <= i < |m.parts| :: Holds(m.parts[i], levels - 1) else PartOf(m).Some?
  }

  /** The path leads to a structure, past parts that hold none. */
  predicate Leads(m: Mail, path: seq<nat>, levels: nat)
    decreases |path|
  {
    levels > 0 &&
    if path == [] then PartOf(m).Some?
    else
      && m.Multi? && path[0] < |m.parts| && Leads(m.parts[path[0]], path[1..], levels - 1)
      && forall j | 0 <= j < path[0] :: !Holds(m.parts[j], levels - 1)
  }

  /** Where a path leads to. */
  function NodeAt(m: Mail, path: seq<nat>): Mail
    decreases |path|
  {
    if path == [] || !m.Multi? || path[0] >= |m.parts| then m else NodeAt(m.parts[path[0]], path[1..])
  }

  predicate HasContent(m: Mail) {
    exists k | 0 <= k < |EntityOf(m).body| :: !IsAsciiSpace(EntityOf(m).body[k])
  }

  /** Two parts have content. */
  predicate Crowded(m: Mail) {
    m.Multi? && exists i, j | 0 <= i < j < |m.parts| :: HasContent(m.parts[i]) && HasContent(m.parts[j])
  }

  /** Some multipart on the path is crowded. */
  predicate CrowdedOn(m: Mail, path: seq<nat>) {
    exists k | 0 <= k < |path| :: Crowded(NodeAt(m, path[..k]))
  }

  /** Text other than white space stands beside the armor. */
  predicate TextBeside(part: CryptoPart) {
    part.InlinePgp? &&
    exists i, k | 0 <= i < |part.segments| && part.segments[i].Plain? && 0 <= k < |part.segments[i].text| ::
      !IsWhitespace(part.segments[i].text[k])
  }

  // -- serialized entities read back -------------------------------------------

  lemma RawParses(m: Mail)
    requires Good(m)
    ensures ParseEntity(Raw(m)) == EntityOf(m)
  {
    hide AllSimple, ParseEntity, MP.Fresh, TypeOf, Token, Simple, QP.NoBareBreak;
    match m {
      case PgpSignedMail(part, signature, micalg, boundary) =>
        SR.ProtocolWords();
        SignedParses(m, "application/pgp-signature");
      case SmimeSignedMail(part, der, micalg, boundary) =>
        SR.ProtocolWords();
        SignedParses(m, "application/pkcs7-signature");
      case EncryptedMail(armored, boundary) =>
        ER.EncryptedTypeField(boundary);
        SR.TypedEntityParses(ER.EncryptedType(boundary), EntityOf(m).body);
      case OpaqueMail(der, smimeType) => ER.OpaqueParses(der, smimeType);
      case TextMail(fields, text, encoding) => SR.SimpleEntityParses(fields, TextBytes(text, encoding));
      case FileMail(fields, content) => SR.SimpleEntityParses(fields, content);
      case Multi(fields, _, _, _, _) => SR.SimpleEntityParses(fields, EntityOf(m).body);
    }
  }

  lemma SignedParses(m: Mail, protocol: string)
    requires m.PgpSignedMail? || m.SmimeSignedMail?
    requires Token(m.micalg) && OneLine(m.boundary) && OneLine(protocol)
    requires protocol == if m.PgpSignedMail? then "application/pgp-signature" else "application/pkcs7-signature"
    ensures ParseEntity(Raw(m)) == EntityOf(m)
  {
    SignedTypeField(protocol, m.micalg, m.boundary);
    hide ParseEntity, Simple, SignedType;
    SR.TypedEntityParses(SignedType(protocol, m.micalg, m.boundary), EntityOf(m).body);
  }

  // -- leaves ------------------------------------------------------------------

  /** What the analysis says at the top, the search finds at any depth. */
  lemma FoundAnywhere(raw: Bytes, part: CryptoPart, depth: nat)
    requires depth <= MAX_DEPTH && Analyze(raw) == Analysis(Some(part), false, [])
    ensures FindCrypto(raw, depth) == Some(Found(part, false, []))
  {
    hide ParseEntity, CT.Parse, ReadEncrypted, ReadSigned, ReadInline, DecodeBody, NonEmpty, PartsOf, ShapeOf;
    var entity := ParseEntity(raw);
    var ct := CT.Parse(entity.Header("content-type").GetOr("text/plain"));
    if ShapeOf(ct.mime) == Container && PartsOf(ct, entity.body).Some? {
      PathsNotEmpty(PartsOf(ct, entity.body).value, 0, 1);
    }
  }

  lemma {:induction false} PathsNotEmpty(parts: seq<Bytes>, i: nat, depth: nat)
    requires i <= |parts|
    ensures FindInParts(parts, i, depth).Some? ==> FindInParts(parts, i, depth).value.path != []
    decreases |parts| - i
  {
    hide FindCrypto;
    if i < |parts| {
      PathsNotEmpty(parts, i + 1, depth);
    }
  }

  predicate Built(m: Mail) {
    m.PgpSignedMail? || m.SmimeSignedMail? || m.EncryptedMail? || m.OpaqueMail?
  }

  lemma BuiltReadsBack(m: Mail)
    requires Good(m) && Built(m)
    ensures PartOf(m).Some? && Analyze(Raw(m)) == Analysis(PartOf(m), false, [])
  {
    hide Analyze, MP.Fresh, Token, QP.NoBareBreak, QP.Canon, PgpSignedEntity, SmimeSignedEntity, Encode, TrimEnd,
         ER.PgpEncryptedEntity, ER.SmimeOpaqueEntity, AllSimple, TypeOf, Lower;
    match m {
      case PgpSignedMail(part, signature, micalg, boundary) =>
        SR.PgpSignedReadsBack(part, signature, micalg, boundary);
      case SmimeSignedMail(part, der, micalg, boundary) => SR.SmimeSignedReadsBack(part, der, micalg, boundary);
      case EncryptedMail(armored, boundary) => ER.PgpEncryptedReadsBack(armored, boundary);
      case OpaqueMail(der, smimeType) => ER.SmimeOpaqueReadsBack(der, smimeType);
    }
  }

  lemma FindBuilt(m: Mail, depth: nat)
    requires Good(m) && Built(m) && depth <= MAX_DEPTH
    ensures PartOf(m).Some? && FindCrypto(Raw(m), depth) == Some(Found(PartOf(m).value, false, []))
  {
    hide *;
    BuiltReadsBack(m);
    FoundAnywhere(Raw(m), PartOf(m).value, depth);
  }

  lemma {:induction false} FirstIsTrimmed(fields: seq<Field>, name: string)
    requires AllSimple(fields) && FirstField(fields, name).Some?
    ensures Trimmed(FirstField(fields, name).value)
    decreases |fields|
  {
    assert Simple(fields[0]);
    if !SameIgnoringCase(fields[0].0, name) {
      assert AllSimple(fields[1..]);
      FirstIsTrimmed(fields[1..], name);
    }
  }

  lemma TextDecodes(fields: seq<Field>, text: string, encoding: Encoding)
    requires AllSimple(fields) && EncodedAs(fields, encoding)
    ensures Lossy(DecodeBody(FirstField(fields, "content-transfer-encoding"), TextBytes(text, encoding)))
         == TextAs(text, encoding)
  {
    var cte := FirstField(fields, "content-transfer-encoding");
    if cte.Some? {
      FirstIsTrimmed(fields, "content-transfer-encoding");
      TrimOfTrimmed(cte.value);
    }
    hide Encode, Lossy, QP.QuotedText, QP.Decode, QP.Canon, B64.Lines, B64.Encode, B64.DecodeBody, AllSimple, Trim,
         Lower;
    LossyOfEncode(TextAs(text, encoding));
    match encoding {
      case AsIs =>
      case Quoted =>
        EncodingWords();
        QP.DecodeUndoesEncode(text);
        QP.CanonOfEncode(text);
      case Base64Lines =>
        EncodeIsBytes(text);
        B64.DecodeBodyOfLines(Encode(text));
    }
  }

  lemma EncodingWords()
    ensures "quoted-printable" != "base64"
  {
    assert "quoted-printable"[0] == 'q';
  }

  lemma TextShape(mime: string)
    requires TextMime(mime)
    ensures ShapeOf(mime) == TextBody
  {
    assert mime != "" ==> mime[0] == "text/"[0];
  }

  lemma FileShape(mime: string)
    requires FileMime(mime)
    ensures ShapeOf(mime) == Other || ShapeOf(mime) == Detached
  {
    assert "multipart/" <= "multipart/encrypted" && "multipart/" <= "multipart/signed";
  }

  lemma ListShape(mime: string)
    requires ListMime(mime)
    ensures ShapeOf(mime) == Container
  {
    assert mime[0] == "multipart/"[0];
  }

  /** What the search does with an entity, by its type. */
  lemma FindIn(raw: Bytes, fields: seq<Field>, body: Bytes, depth: nat)
    requires ParseEntity(raw) == Entity(fields, body) && depth <= MAX_DEPTH
    ensures
      var found := FindCrypto(raw, depth);
      match ShapeOf(TypeOf(fields).mime)
      case TextBody => found == ReadInline(FirstField(fields, "content-transfer-encoding"), body)
      case Other => found == None
      case Detached => found == None
      case Container => PartsOf(TypeOf(fields), body).Some? ==>
        var parts := PartsOf(TypeOf(fields), body).value;
        found == (match FindInParts(parts, 0, depth + 1)
                  case None => None
                  case Some(f) => Some(f.(siblings := f.siblings || NonEmpty(parts) > 1)))
      case _ => true
  {
    hide ParseEntity, CT.Parse, ShapeOf, ReadInline, ReadSigned, ReadEncrypted, DecodeBody, NonEmpty, FindInParts,
         PartsOf, FirstField, CT.FirstParam;
  }

  lemma ArmorIff(cte: Option<string>, body: Bytes)
    ensures
      var segments := IA.Segments(Lossy(DecodeBody(cte, body)));
      ReadInline(cte, body) == if HasArmor(segments) then Some(Found(InlinePgp(segments), false, [])) else None
  {
    hide DecodeBody, Lossy, IA.Segments;
    var segments := IA.Segments(Lossy(DecodeBody(cte, body)));
    assert (exists s | s in segments :: s.Armor?) <==> HasArmor(segments);
  }

  lemma TextIs(m: Mail)
    requires Good(m) && m.TextMail?
    ensures EntityOf(m) == Entity(m.fields, TextBytes(m.text, m.encoding))
    ensures AllSimple(m.fields) && EncodedAs(m.fields, m.encoding) && TextMime(TypeOf(m.fields).mime)
    ensures
      var segments := IA.Segments(TextAs(m.text, m.encoding));
      PartOf(m) == if HasArmor(segments) then Some(InlinePgp(segments)) else None
  {
    hide TypeOf, AllSimple, EncodedAs, IA.Segments, TextAs, TextBytes;
  }

  lemma FindText(m: Mail, depth: nat)
    requires Good(m) && m.TextMail? && depth <= MAX_DEPTH
    ensures FindCrypto(Raw(m), depth)
         == match PartOf(m) case None => None case Some(part) => Some(Found(part, false, []))
  {
    hide *;
    TextIs(m);
    RawParses(m);
    TextShape(TypeOf(m.fields).mime);
    TextDecodes(m.fields, m.text, m.encoding);
    FindIn(Raw(m), m.fields, TextBytes(m.text, m.encoding), depth);
    ArmorIff(FirstField(m.fields, "content-transfer-encoding"), TextBytes(m.text, m.encoding));
  }

  lemma FileIs(m: Mail)
    requires Good(m) && m.FileMail?
    ensures EntityOf(m) == Entity(m.fields, m.content) && FileMime(TypeOf(m.fields).mime) && PartOf(m) == None
  {
    hide TypeOf, AllSimple, FileMime;
  }

  lemma FindFile(m: Mail, depth: nat)
    requires Good(m) && m.FileMail? && depth <= MAX_DEPTH
    ensures FindCrypto(Raw(m), depth) == None && PartOf(m) == None
  {
    hide *;
    FileIs(m);
    RawParses(m);
    FileShape(TypeOf(m.fields).mime);
    FindIn(Raw(m), m.fields, m.content, depth);
  }

  // -- multiparts --------------------------------------------------------------

  lemma {:induction false} RawPartsAre(m: Mail, i: nat)
    requires m.Multi? && i <= |m.parts|
    ensures |RawParts(m, i)| == |m.parts| - i
    ensures forall k | 0 <= k < |m.parts| - i :: RawParts(m, i)[k] == Raw(m.parts[i + k])
    decreases |m.parts| - i
  {
    hide Raw;
    if i < |m.parts| {
      RawPartsAre(m, i + 1);
    }
  }

  lemma PartIsGood(m: Mail, i: nat)
    requires Good(m) && m.Multi? && i < |m.parts|
    ensures Good(m.parts[i]) && MP.Fresh(Raw(m.parts[i]), m.boundary)
  {
    hide Raw, TypeOf, AllSimple, MP.Fresh, Token, QP.NoBareBreak, EncodedAs, FileMime;
  }

  lemma PartsFresh(m: Mail)
    requires Good(m) && m.Multi?
    ensures MP.AllFresh(RawParts(m, 0), MP.Delimiter(m.boundary))
  {
    RawPartsAre(m, 0);
    forall k | 0 <= k < |m.parts| ensures MP.Fresh(Raw(m.parts[k]), m.boundary) {
      PartIsGood(m, k);
    }
    hide Raw, RawParts, Good, MP.NoDelimiterLine, MP.Delimiter;
  }

  lemma MultiIs(m: Mail)
    requires Good(m) && m.Multi?
    ensures EntityOf(m) == Entity(m.fields, MP.Join(m.preamble, m.boundary, RawParts(m, 0), m.epilogue))
    ensures ListMime(TypeOf(m.fields).mime) && TypeOf(m.fields).Param("boundary") == Some(m.boundary)
    ensures OneLine(m.boundary) && MP.Fresh(m.preamble, m.boundary)
    ensures m.preamble != "" ==> m.preamble[|m.preamble| - 1] == '\n'
  {
    hide TypeOf, AllSimple, Raw, RawParts, MP.Fresh, MP.Join, CT.FirstParam;
  }

  lemma MultiSplits(m: Mail)
    requires Good(m) && m.Multi?
    ensures PartsOf(TypeOf(m.fields), EntityOf(m).body) == Some(RawParts(m, 0))
  {
    MultiIs(m);
    PartsFresh(m);
    hide TypeOf, RawParts, MP.Fresh, MP.AllFresh, MP.Join, MP.Split, MP.Delimiter, Good, EntityOf, CT.FirstParam;
    MP.SplitOfJoin(m.preamble, m.boundary, RawParts(m, 0), m.epilogue);
  }

  lemma FindMulti(m: Mail, depth: nat)
    requires Good(m) && m.Multi? && depth <= MAX_DEPTH
    ensures FindCrypto(Raw(m), depth)
         == match FindInParts(RawParts(m, 0), 0, depth + 1)
            case None => None
            case Some(f) => Some(f.(siblings := f.siblings || NonEmpty(RawParts(m, 0)) > 1))
  {
    hide *;
    MultiIs(m);
    RawParses(m);
    ListShape(TypeOf(m.fields).mime);
    MultiSplits(m);
    FindIn(Raw(m), m.fields, EntityOf(m).body, depth);
  }

  lemma ContentIff(m: Mail)
    requires Good(m)
    ensures AllSpace(ParseEntity(Raw(m)).body) <==> !HasContent(m)
  {
    RawParses(m);
    hide ParseEntity, Raw, EntityOf, Good;
  }

  /** How many of the parts from `i` on have content. */
  function CountFrom(m: Mail, i: nat): nat
    requires m.Multi? && i <= |m.parts|
    decreases |m.parts| - i
  {
    if i == |m.parts| then 0 else (if HasContent(m.parts[i]) then 1 else 0) + CountFrom(m, i + 1)
  }

  lemma NonEmptyCons(m: Mail, i: nat)
    requires m.Multi? && i < |m.parts|
    ensures NonEmpty(RawParts(m, i))
         == (if AllSpace(ParseEntity(Raw(m.parts[i])).body) then 0 else 1) + NonEmpty(RawParts(m, i + 1))
  {
    hide Raw, ParseEntity, AllSpace;
    assert RawParts(m, i)[0] == Raw(m.parts[i]) && RawParts(m, i)[1..] == RawParts(m, i + 1);
  }

  lemma CountCons(m: Mail, i: nat)
    requires m.Multi? && i < |m.parts|
    ensures CountFrom(m, i) == (if HasContent(m.parts[i]) then 1 else 0) + CountFrom(m, i + 1)
  {
    hide HasContent;
  }

  lemma NothingCounts(m: Mail)
    requires m.Multi?
    ensures NonEmpty(RawParts(m, |m.parts|)) == 0 == CountFrom(m, |m.parts|)
  {
  }

  lemma {:induction false} NonEmptyIs(m: Mail, i: nat)
    requires Good(m) && m.Multi? && i <= |m.parts|
    ensures NonEmpty(RawParts(m, i)) == CountFrom(m, i)
    decreases |m.parts| - i
  {
    hide *;
    if i == |m.parts| {
      NothingCounts(m);
    } else {
      PartIsGood(m, i);
      NonEmptyIs(m, i + 1);
      ContentIff(m.parts[i]);
      NonEmptyCons(m, i);
      CountCons(m, i);
    }
  }

  lemma {:induction false} CountIff(m: Mail, i: nat)
    requires m.Multi? && i <= |m.parts|
    ensures CountFrom(m, i) > 0 <==> exists j | i <= j < |m.parts| :: HasContent(m.parts[j])
    ensures CountFrom(m, i) > 1 <==>
              exists j, k | i <= j < k < |m.parts| :: HasContent(m.parts[j]) && HasContent(m.parts[k])
    decreases |m.parts| - i
  {
    hide HasContent;
    if i < |m.parts| {
      CountIff(m, i + 1);
    }
  }

  lemma CrowdedIff(m: Mail)
    requires Good(m) && m.Multi?
    ensures NonEmpty(RawParts(m, 0)) > 1 <==> Crowded(m)
  {
    hide NonEmpty, RawParts, CountFrom, HasContent, Good;
    NonEmptyIs(m, 0);
    CountIff(m, 0);
  }

  // -- what is no structure ----------------------------------------------------

  /** A multipart that is encrypted or signed by another protocol is nothing to the search,
      nor is one with fewer than two parts. */
  lemma ForeignIsNothing(raw: Bytes, fields: seq<Field>, body: Bytes, depth: nat)
    requires ParseEntity(raw) == Entity(fields, body) && depth <= MAX_DEPTH
    requires
      var ct := TypeOf(fields);
      var protocol := Lower(ct.Param("protocol").GetOr(""));
      var few := ct.Param("boundary").None? || MP.Split(body, ct.Param("boundary").value).None?
                 || |MP.Split(body, ct.Param("boundary").value).value| < 2;
      || (ct.mime == "multipart/encrypted" && (few || protocol != "application/pgp-encrypted"))
      || (ct.mime == "multipart/signed"
          && (few || protocol !in {"application/pgp-signature", "application/pkcs7-signature",
                                   "application/x-pkcs7-signature"}))
    ensures FindCrypto(raw, depth) == None
  {
    SR.SignedShape();
    hide ParseEntity, CT.Parse, Lower, MP.Split, DecodeBody, FirstField, CT.FirstParam, QP.Canon;
  }

  /** What the search makes of a signed multipart with two parts or more, by its protocol; the
      older name of S/MIME signatures is one of them. */
  lemma SignedIs(raw: Bytes, fields: seq<Field>, body: Bytes, boundary: string, parts: seq<Bytes>, depth: nat)
    requires ParseEntity(raw) == Entity(fields, body) && depth <= MAX_DEPTH && TypeOf(fields).mime == "multipart/signed"
    requires TypeOf(fields).Param("boundary") == Some(boundary) && MP.Split(body, boundary) == Some(parts)
          && |parts| >= 2
    ensures
      var ct, sig := TypeOf(fields), ParseEntity(parts[1]);
      var protocol := Lower(ct.Param("protocol").GetOr(""));
      var signature := DecodeBody(FirstField(sig.headers, "content-transfer-encoding"), sig.body);
      var micalg := LowerOption(ct.Param("micalg"));
      FindCrypto(raw, depth)
      == if protocol == "application/pgp-signature"
         then Some(Found(PgpSigned(QP.Canon(parts[0]), signature, micalg), false, []))
         else if protocol in {"application/pkcs7-signature", "application/x-pkcs7-signature"}
         then Some(Found(SmimeSigned(QP.Canon(parts[0]), signature, micalg), false, []))
         else None
  {
    SR.SignedShape();
    hide ParseEntity, CT.Parse, Lower, MP.Split, DecodeBody, FirstField, CT.FirstParam, QP.Canon, LowerOption;
  }

  lemma OpaqueFound(raw: Bytes, fields: seq<Field>, body: Bytes, depth: nat)
    requires ParseEntity(raw) == Entity(fields, body) && depth <= MAX_DEPTH && ShapeOf(TypeOf(fields).mime) == Opaque
    ensures FindCrypto(raw, depth)
         == Some(Found(SmimeOpaque(DecodeBody(FirstField(fields, "content-transfer-encoding"), body),
                                   Lower(TypeOf(fields).Param("smime-type").GetOr(""))), false, []))
  {
    hide ParseEntity, CT.Parse, Lower, DecodeBody, FirstField, CT.FirstParam, ShapeOf, FindInParts, NonEmpty, PartsOf,
         ReadEncrypted, ReadSigned, ReadInline;
  }

  /** And of opaque S/MIME under either of its names. */
  lemma OpaqueIs(raw: Bytes, fields: seq<Field>, body: Bytes, depth: nat)
    requires ParseEntity(raw) == Entity(fields, body) && depth <= MAX_DEPTH
    requires TypeOf(fields).mime in {"application/pkcs7-mime", "application/x-pkcs7-mime"}
    ensures FindCrypto(raw, depth)
         == Some(Found(SmimeOpaque(DecodeBody(FirstField(fields, "content-transfer-encoding"), body),
                                   Lower(TypeOf(fields).Param("smime-type").GetOr(""))), false, []))
  {
    hide *;
    OpaqueShape(TypeOf(fields).mime);
    OpaqueFound(raw, fields, body, depth);
  }

  lemma OpaqueShape(mime: string)
    requires mime in {"application/pkcs7-mime", "application/x-pkcs7-mime"}
    ensures ShapeOf(mime) == Opaque
  {
    assert mime[0] == 'a' && "multipart/encrypted"[0] == 'm' && "multipart/signed"[0] == 'm';
  }
}
