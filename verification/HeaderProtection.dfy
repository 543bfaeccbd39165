/** Header protection of a payload and its removal (crates/mw-crypto/src/mime.rs;
    RFC 9788). The random boundaries are parameters. */
module HeaderProtection {
  import opened Wrappers
  import opened Text
  import opened Utf8
  import opened MimeEntity
  import CT = ContentType
  import MP = Multipart

  datatype Protection = Cipher | Clear

  const PROTECTED_FIELDS: seq<string> :=
    ["subject", "from", "to", "cc", "reply-to", "date", "message-id", "in-reply-to", "references"]

  predicate IsProtected(f: Field) {
    Lower(f.0) in PROTECTED_FIELDS
  }

  predicate IsDisplayed(f: Field) {
    Lower(f.0) in ["subject", "from", "to", "cc"]
  }

  predicate IsOuter(f: Field) {
    SameIgnoringCase(f.0, "hp-outer")
  }

  predicate IsContentType(f: Field) {
    SameIgnoringCase(f.0, "content-type")
  }

  function Protected(fields: seq<Field>): seq<Field> {
    if fields == [] then [] else (if IsProtected(fields[0]) then [fields[0]] else []) + Protected(fields[1..])
  }

  function Unprotected(fields: seq<Field>): seq<Field> {
    if fields == [] then [] else (if IsProtected(fields[0]) then [] else [fields[0]]) + Unprotected(fields[1..])
  }

  function Displayed(fields: seq<Field>): seq<Field> {
    if fields == [] then [] else (if IsDisplayed(fields[0]) then [fields[0]] else []) + Displayed(fields[1..])
  }

  /** Replaces the first field of that name, or adds one at the end. */
  function SetField(fields: seq<Field>, name: string, value: string): seq<Field> {
    if fields == [] then [(name, value)]
    else if SameIgnoringCase(fields[0].0, name) then [(fields[0].0, value)] + fields[1..]
    else [fields[0]] + SetField(fields[1..], name, value)
  }

  function OuterFields(outer: seq<Field>): seq<Field> {
    if outer == [] then [] else [("HP-Outer", Line(outer[0]))] + OuterFields(outer[1..])
  }

  function OuterPair(f: Field): seq<Field> {
    if !IsOuter(f) then [] else
      match SplitOnce(f.1, ':')
      case None => []
      case Some((a, b)) => [(Trim(a), Trim(b))]
  }

  function OuterPairs(fields: seq<Field>): seq<Field> {
    if fields == [] then [] else OuterPair(fields[0]) + OuterPairs(fields[1..])
  }

  const DEFAULT_TYPE: string := "text/plain; charset=utf-8"

  /** The content type a marking is added to. */
  function TypeValue(e: Entity): string {
    e.Header("content-type").GetOr(DEFAULT_TYPE)
  }

  function Marked(value: string): string {
    CT.AddParam(value, "hp-legacy-display", "\"1\"")
  }

  function Scheme(p: Protection): string {
    match p case Cipher => "cipher" case Clear => "clear"
  }

  /** A text body that is written as it is. */
  predicate PlainIdentity(e: Entity) {
    var cte := e.Header("content-transfer-encoding");
    && CT.Parse(e.Header("content-type").GetOr("text/plain")).mime == "text/plain"
    && (cte.None? || Lower(cte.value) == "7bit" || Lower(cte.value) == "8bit")
  }

  /** The displayed fields put in front of a plain text body. */
  function WithPrefix(e: Entity, lines: Bytes): Entity {
    Entity(SetField(e.headers, "Content-Type", Marked(TypeValue(e))), lines + "\r\n" + e.body)
  }

  function DisplayPart(lines: Bytes): Bytes {
    Entity([("Content-Type", Marked(DEFAULT_TYPE))], lines).ToBytes()
  }

  /** The payload wrapped, with the displayed fields as a first part. */
  function Wrapped(e: Entity, lines: Bytes, boundary: string): Entity {
    var d := MP.Delimiter(boundary);
    Entity([("Content-Type", CT.AddParam("multipart/mixed", "boundary", CT.Quote(boundary)))],
           d + "\r\n" + DisplayPart(lines) + "\r\n" + d + "\r\n" + e.ToBytes() + "\r\n" + d + "--\r\n")
  }

  function WithLegacyDisplay(e: Entity, shown: seq<Field>, legacy: bool, boundary: string): Entity {
    var lines := Encode(HeaderText(shown));
    if !legacy then e else if PlainIdentity(e) then WithPrefix(e, lines) else Wrapped(e, lines, boundary)
  }

  function SchemeValue(e: Entity, p: Protection): string {
    CT.AddParam(TypeValue(e), "hp", "\"" + Scheme(p) + "\"")
  }

  function WithProtection(e: Entity, fields: seq<Field>, outer: seq<Field>, p: Protection): Entity {
    Entity(fields + OuterFields(outer) + Unprotected(SetField(e.headers, "Content-Type", SchemeValue(e, p))), e.body)
  }

  /** `protect_headers`. */
  function Protect(payload: Bytes, headers: seq<Field>, outer: seq<Field>, p: Protection, legacy: bool,
                   boundary: string): Bytes
  {
    var fields := Protected(headers);
    var e := WithLegacyDisplay(ParseEntity(payload), Displayed(fields), legacy, boundary);
    WithProtection(e, fields, outer, p).ToBytes()
  }

  // -- removal -----------------------------------------------------------------

  datatype ProtectedHeaders = ProtectedHeaders(headers: seq<Field>, scheme: string, outer: seq<Field>, entity: string)

  /** Where the text after the display lines of a plain body starts. */
  function AfterDisplay(body: Bytes): (r: nat)
    ensures r <= |body|
  {
    var crlf, lf := Find(body, "\r\n\r\n"), Find(body, "\n\n");
    if crlf.Some? then crlf.value + 4 else if lf.Some? then lf.value + 2 else 0
  }

  /** The parts of a `multipart/mixed` whose first part is a display element. */
  function DisplayedParts(e: Entity, ct: CT.MediaType): Option<seq<Bytes>> {
    if ct.mime != "multipart/mixed" then None else
      var boundary :- ct.Param("boundary");
      var parts :- MP.Split(e.body, boundary);
      if parts != []
         && CT.Parse(ParseEntity(parts[0]).Header("content-type").GetOr("")).Param("hp-legacy-display") == Some("1")
      then Some(parts) else None
  }

  function Rejoined(parts: seq<Bytes>, boundary: string): Bytes {
    if parts == [] then MP.Delimiter(boundary) + "--\r\n"
    else MP.Delimiter(boundary) + "\r\n" + parts[0] + "\r\n" + Rejoined(parts[1..], boundary)
  }

  function StripLegacyDisplay(e: Entity, ct: CT.MediaType, boundary: string): Bytes {
    if ct.mime == "text/plain" && ct.Param("hp-legacy-display") == Some("1") then
      Entity(e.headers, e.body[AfterDisplay(e.body)..]).ToBytes()
    else
      match DisplayedParts(e, ct)
      case None => e.ToBytes()
      case Some(parts) =>
        var rest := parts[1..];
        if |rest| == 1 then rest[0] else
          Entity(SetField(e.headers, "Content-Type", CT.AddParam("multipart/mixed", "boundary", CT.Quote(boundary))),
                 Rejoined(rest, boundary)).ToBytes()
  }

  function SchemeOf(ct: CT.MediaType): Option<string> {
    var hp, v1 := ct.Param("hp"), ct.Param("protected-headers");
    if hp.Some? then Some(Lower(hp.value)) else if v1.Some? then Some(Lower(v1.value)) else None
  }

  /** `unprotect_headers`. */
  function Unprotect(payload: Bytes, boundary: string): Option<ProtectedHeaders> {
    var e := ParseEntity(payload);
    var value :- e.Header("content-type");
    var ct := CT.Parse(value);
    var scheme :- SchemeOf(ct);
    Some(ProtectedHeaders(Protected(e.headers), scheme, OuterPairs(e.headers),
                          Lossy(StripLegacyDisplay(e, ct, boundary))))
  }
}
