/** Protected entities that the builder here does not write: the older marking, and several
    parts behind a display part (crates/mw-crypto/src/mime.rs). */
module OtherProtection {
  import opened Wrappers
  import opened Text
  import opened Utf8
  import opened MimeEntity
  import opened HeaderProtection
  import opened HeaderProtectionRoundTrip
  import CT = ContentType
  import MP = Multipart
  import CP = CryptoParts
  import SR = SignedRoundTrip
  import DR = DisplayRoundTrip

  // -- the older marking -------------------------------------------------------

  function OlderMarked(value: string, v: string): string {
    CT.AddParam(value, "protected-headers", CT.Quote(v))
  }

  lemma OlderName()
    ensures CT.NamePart("protected-headers") && Lower("protected-headers") == "protected-headers"
    ensures SameIgnoringCase("protected-headers", "protected-headers")
    ensures !SameIgnoringCase("protected-headers", "hp") && !SameIgnoringCase("hp", "protected-headers")
  {
    assert |Lower("protected-headers")| == 17 && |Lower("hp")| == 2;
  }

  /** The older marking is read when there is no other. */
  lemma OlderScheme(value: string, v: string)
    requires CT.Closed(value) && CT.Parse(value).Param("hp") == None
          && CT.Parse(value).Param("protected-headers") == None
    ensures SchemeOf(CT.Parse(OlderMarked(value, v))) == Some(Lower(v))
  {
    OlderName();
    hide CT.Parse, CT.Closed, CT.Quote, CT.Unquote, CT.NamePart, CT.ValuePart, CT.AddParam, SameIgnoringCase;
    CT.QuoteIsValuePart(v);
    CT.UnquoteOfQuote(v);
    CT.ParseAppend(value, "protected-headers", CT.Quote(v));
    FirstParamAppend(CT.Parse(value).params, ("protected-headers", v), "hp");
    FirstParamAppend(CT.Parse(value).params, ("protected-headers", v), "protected-headers");
  }

  /** The newer marking is read whatever the older one says. */
  lemma NewerSchemeWins(value: string, v: string, w: string)
    requires CT.Closed(value) && CT.Parse(value).Param("hp") == None
    ensures SchemeOf(CT.Parse(CT.AddParam(OlderMarked(value, v), "hp", CT.Quote(w)))) == Some(Lower(w))
  {
    OlderName();
    HpName();
    ParamNamesDiffer();
    hide CT.Parse, CT.Closed, CT.Quote, CT.Unquote, CT.NamePart, CT.ValuePart, CT.AddParam, SameIgnoringCase;
    CT.QuoteIsValuePart(v);
    CT.QuoteIsValuePart(w);
    CT.UnquoteOfQuote(v);
    CT.UnquoteOfQuote(w);
    CT.ParseAppend(value, "protected-headers", CT.Quote(v));
    FirstParamAppend(CT.Parse(value).params, ("protected-headers", v), "hp");
    CT.ParseAppend(OlderMarked(value, v), "hp", CT.Quote(w));
    FirstParamAppend(CT.Parse(OlderMarked(value, v)).params, ("hp", w), "hp");
  }

  lemma UnprotectIs(fields: seq<Field>, body: Bytes, value: string, boundary: string)
    requires CP.AllSimple(fields) && FirstField(fields, "content-type") == Some(value)
    ensures
      var e, ct := Entity(fields, body), CT.Parse(value);
      Unprotect(e.ToBytes(), boundary)
      == match SchemeOf(ct)
         case None => None
         case Some(scheme) =>
           Some(ProtectedHeaders(Protected(fields), scheme, OuterPairs(fields),
                                 Lossy(StripLegacyDisplay(e, ct, boundary))))
  {
    hide CP.AllSimple, ParseEntity, CT.Parse, SchemeOf, StripLegacyDisplay, Lossy, FirstField, Protected, OuterPairs;
    SR.SimpleEntityParses(fields, body);
  }

  /** An entity with the older marking: its protected fields, its scheme and its outer list
      are read. */
  lemma OlderMarkingIsRead(fields: seq<Field>, body: Bytes, value: string, v: string, boundary: string)
    requires CP.AllSimple(fields) && FirstField(fields, "content-type") == Some(OlderMarked(value, v))
    requires CT.Closed(value) && CT.Parse(value).Param("hp") == None
          && CT.Parse(value).Param("protected-headers") == None
    ensures
      var r := Unprotect(Entity(fields, body).ToBytes(), boundary);
      r.Some? && r.value.headers == Protected(fields) && r.value.scheme == Lower(v)
      && r.value.outer == OuterPairs(fields)
  {
    hide *;
    OlderScheme(value, v);
    UnprotectIs(fields, body, OlderMarked(value, v), boundary);
  }

  // -- several parts behind a display part -------------------------------------

  lemma {:induction false} RejoinedIs(parts: seq<Bytes>, boundary: string)
    ensures Rejoined(parts, boundary)
         == MP.Delimiter(boundary) + MP.AfterDelimiter(MP.Delimiter(boundary), parts, "\r\n")
    decreases |parts|
  {
    var d := MP.Delimiter(boundary);
    if parts == [] {
      assert "--" + "\r\n" == "--\r\n";
    } else {
      RejoinedIs(parts[1..], boundary);
      hide MP.Delimiter;
      Pieces(d, parts[0], d + MP.AfterDelimiter(d, parts[1..], "\r\n"));
    }
  }

  lemma Pieces(d: Bytes, p: Bytes, rest: Bytes)
    ensures d + "\r\n" + p + "\r\n" + rest == d + ("\r\n" + (p + ("\r\n" + rest)))
  {
  }

  lemma RejoinedIsJoin(parts: seq<Bytes>, boundary: string)
    ensures Rejoined(parts, boundary) == MP.Join("", boundary, parts, "\r\n")
  {
    RejoinedIs(parts, boundary);
    hide MP.Delimiter, MP.AfterDelimiter, Rejoined;
    var s := MP.Delimiter(boundary) + MP.AfterDelimiter(MP.Delimiter(boundary), parts, "\r\n");
    assert "" + s == s;
  }

  /** A multipart with a display part first and other parts behind it. */
  function Displaying(fields: seq<Field>, b: string, preamble: Bytes, lines: Bytes, rest: seq<Bytes>, epilogue: Bytes)
    : Entity
  {
    Entity(fields, MP.Join(preamble, b, [DisplayPart(lines)] + rest, epilogue))
  }

  predicate GoodParts(b: string, preamble: Bytes, lines: Bytes, rest: seq<Bytes>) {
    && '\r' !in b && '\n' !in b && MP.Fresh(preamble, b) && (preamble != "" ==> preamble[|preamble| - 1] == '\n')
    && MP.Fresh(lines, b) && MP.AllFresh(rest, MP.Delimiter(b))
  }

  lemma PartsAreSeen(fields: seq<Field>, b: string, preamble: Bytes, lines: Bytes, rest: seq<Bytes>, epilogue: Bytes,
                     ct: CT.MediaType)
    requires GoodParts(b, preamble, lines, rest) && ct.mime == "multipart/mixed" && ct.Param("boundary") == Some(b)
    ensures DisplayedParts(Displaying(fields, b, preamble, lines, rest, epilogue), ct)
         == Some([DisplayPart(lines)] + rest)
  {
    var parts := [DisplayPart(lines)] + rest;
    DR.DisplayPartIsFresh(lines, b);
    DR.DisplayPartMarked(lines);
    hide MP.NoDelimiterLine, MP.Delimiter, MP.Split, MP.Join, DisplayPart, ParseEntity, CT.Parse, CT.FirstParam;
    assert MP.AllFresh(parts, MP.Delimiter(b));
    MP.SplitOfJoin(preamble, b, parts, epilogue);
  }

  lemma StripMany(e: Entity, ct: CT.MediaType, first: Bytes, rest: seq<Bytes>, boundary: string)
    requires ct.mime == "multipart/mixed" && DisplayedParts(e, ct) == Some([first] + rest) && |rest| != 1
    ensures StripLegacyDisplay(e, ct, boundary)
         == Entity(SetField(e.headers, "Content-Type", DR.MixedType(boundary)),
                   MP.Join("", boundary, rest, "\r\n")).ToBytes()
  {
    RejoinedIsJoin(rest, boundary);
    hide DisplayedParts, Rejoined, MP.Join, CT.Quote, SetField;
    assert ([first] + rest)[1..] == rest;
  }

  /** Only the display part goes: with several parts behind it, or none, the other parts
      stay as they were, in order, in a multipart with a new boundary. */
  lemma ManyPartsStay(fields: seq<Field>, value: string, b: string, preamble: Bytes, lines: Bytes, rest: seq<Bytes>,
                      epilogue: Bytes, boundary: string)
    requires CP.AllSimple(fields) && FirstField(fields, "content-type") == Some(value) && |rest| != 1
    requires CT.Parse(value).mime == "multipart/mixed" && CT.Parse(value).Param("boundary") == Some(b)
    requires SchemeOf(CT.Parse(value)).Some? && GoodParts(b, preamble, lines, rest)
    requires '\r' !in boundary && '\n' !in boundary && MP.AllFresh(rest, MP.Delimiter(boundary))
    ensures
      var left := Entity(SetField(fields, "Content-Type", DR.MixedType(boundary)),
                         MP.Join("", boundary, rest, "\r\n"));
      && Unprotect(Displaying(fields, b, preamble, lines, rest, epilogue).ToBytes(), boundary)
         == Some(ProtectedHeaders(Protected(fields), SchemeOf(CT.Parse(value)).value, OuterPairs(fields),
                                  Lossy(left.ToBytes())))
      && MP.Split(left.body, boundary) == Some(rest)
  {
    hide *;
    var e, ct := Displaying(fields, b, preamble, lines, rest, epilogue), CT.Parse(value);
    DisplayingIs(fields, b, preamble, lines, rest, epilogue);
    PartsAreSeen(fields, b, preamble, lines, rest, epilogue, ct);
    UnprotectIs(fields, e.body, value, boundary);
    StripMany(e, ct, DisplayPart(lines), rest, boundary);
    DR.EmptyIsFresh(boundary);
    MP.SplitOfJoin("", boundary, rest, "\r\n");
  }

  lemma DisplayingIs(fields: seq<Field>, b: string, preamble: Bytes, lines: Bytes, rest: seq<Bytes>, epilogue: Bytes)
    ensures
      var e := Displaying(fields, b, preamble, lines, rest, epilogue);
      e.headers == fields && e == Entity(fields, e.body)
  {
  }

  // -- display lines in a text body --------------------------------------------

  /** The text's first empty line, with this line break, comes right behind `head`. */
  ghost predicate FirstEmptyLine(head: Bytes, eol: string, rest: Bytes) {
    var gap := eol + eol;
    && (forall j: nat | j < |head| :: !MatchesAt(head + (gap + rest), gap, j))
    && (eol == "\n" ==> forall j: nat :: !MatchesAt(head + (gap + rest), "\r\n\r\n", j))
  }

  lemma DisplayEnds(head: Bytes, eol: string, rest: Bytes)
    requires eol in {"\r\n", "\n"} && FirstEmptyLine(head, eol, rest)
    ensures
      var body := head + ((eol + eol) + rest);
      AfterDisplay(body) <= |body| && body[AfterDisplay(body)..] == rest
  {
    var gap := eol + eol;
    var body := head + (gap + rest);
    assert body[|head| + |gap|..] == rest;
    MatchesAtSuffix(head, gap + rest, gap, |head|);
    MatchIsSlice(gap + rest, gap, 0);
    assert (gap + rest)[..|gap|] == gap;
    hide MatchesAt;
    FindIs(body, gap, |head|);
    assert eol == "\r\n" ==> gap == "\r\n\r\n";
    assert eol == "\n" ==> gap == "\n\n" && Find(body, "\r\n\r\n") == None;
  }

  /** Of a marked text body the lines up to the first empty one go, with either line
      break. */
  lemma DisplayLinesGo(fields: seq<Field>, value: string, head: Bytes, eol: string, rest: Bytes, boundary: string)
    requires CP.AllSimple(fields) && FirstField(fields, "content-type") == Some(value)
    requires CT.Parse(value).mime == "text/plain" && CT.Parse(value).Param("hp-legacy-display") == Some("1")
    requires SchemeOf(CT.Parse(value)).Some? && eol in {"\r\n", "\n"} && FirstEmptyLine(head, eol, rest)
    ensures Unprotect(Entity(fields, head + ((eol + eol) + rest)).ToBytes(), boundary)
         == Some(ProtectedHeaders(Protected(fields), SchemeOf(CT.Parse(value)).value, OuterPairs(fields),
                                  Lossy(Entity(fields, rest).ToBytes())))
  {
    var body := head + ((eol + eol) + rest);
    UnprotectIs(fields, body, value, boundary);
    DisplayEnds(head, eol, rest);
    hide CP.AllSimple, CT.Parse, SchemeOf, FirstField, Protected, OuterPairs, Unprotect, AfterDisplay, DisplayedParts,
         FirstEmptyLine, CT.FirstParam;
  }

  // -- which fields, and which entities ----------------------------------------

  /** The fields with one of these names, in order. */
  function Only(fields: seq<Field>, names: set<string>): seq<Field> {
    if fields == [] then [] else (if Lower(fields[0].0) in names then [fields[0]] else []) + Only(fields[1..], names)
  }

  /** What is shown are the subject, sender and recipients; what is protected are these and
      five more. */
  lemma {:induction false} FieldsAre(fields: seq<Field>)
    ensures Displayed(fields) == Only(fields, {"subject", "from", "to", "cc"})
    ensures Protected(fields)
         == Only(fields, {"subject", "from", "to", "cc", "reply-to", "date", "message-id", "in-reply-to", "references"})
    decreases |fields|
  {
    if fields != [] {
      FieldsAre(fields[1..]);
      hide Lower;
    }
  }

  /** A text body with the display prefix shows the lines of exactly those fields, and then
      itself. */
  lemma ShownLines(e: Entity, fields: seq<Field>, boundary: string)
    requires PlainIdentity(e)
    ensures WithLegacyDisplay(e, Displayed(fields), true, boundary).body
         == Encode(HeaderText(Only(fields, {"subject", "from", "to", "cc"}))) + "\r\n" + e.body
  {
    FieldsAre(fields);
    hide PlainIdentity, Only, Displayed, Encode, HeaderText, Marked, SetField;
  }

  /** What is neither a marked text nor a mixed multipart with a marked first part stays as
      it is. */
  lemma UnmarkedStays(e: Entity, ct: CT.MediaType, boundary: string)
    requires !(ct.mime == "text/plain" && ct.Param("hp-legacy-display") == Some("1"))
    requires
      ct.mime == "multipart/mixed" && ct.Param("boundary").Some? ==>
        var parts := MP.Split(e.body, ct.Param("boundary").value);
        parts.Some? && parts.value != [] ==>
          var value := ParseEntity(parts.value[0]).Header("content-type");
          value.None? || CT.Parse(value.value).Param("hp-legacy-display") != Some("1")
    ensures StripLegacyDisplay(e, ct, boundary) == e.ToBytes()
  {
    NoTypeNoParam();
    hide MP.Split, ParseEntity, CT.Parse, CT.FirstParam, FirstField, Encode;
  }

  lemma NoTypeNoParam()
    ensures CT.Parse("").Param("hp-legacy-display") == None
  {
    CT.PlainTypeParses("");
  }

  /** A display prefix for plain text that is written as it is; a display part for everything
      else, an encoded text included. */
  lemma PrefixOrPart(e: Entity, shown: seq<Field>, boundary: string)
    ensures
      var value, cte := e.Header("content-type"), e.Header("content-transfer-encoding");
      var plain := value.None? || CT.Parse(value.value).mime == "text/plain";
      WithLegacyDisplay(e, shown, true, boundary)
      == if plain && (cte.None? || Lower(cte.value) == "7bit" || Lower(cte.value) == "8bit")
         then WithPrefix(e, Encode(HeaderText(shown))) else Wrapped(e, Encode(HeaderText(shown)), boundary)
  {
    TextPlainWord();
    hide CT.Parse, Lower, FirstField, WithPrefix, Wrapped, Encode, HeaderText, CT.Plain;
    CT.PlainTypeParses("text/plain");
  }

  /** The place of the first field of that name, or the end. */
  function PlaceOf(fields: seq<Field>, name: string): (i: nat)
    ensures i <= |fields|
  {
    if fields == [] || SameIgnoringCase(fields[0].0, name) then 0 else 1 + PlaceOf(fields[1..], name)
  }

  /** The fields with the one at `i` replaced, or with one more. */
  function ReplacedAt(fields: seq<Field>, i: nat, f: Field): seq<Field>
    requires i <= |fields|
  {
    fields[..i] + [f] + (if i < |fields| then fields[i + 1..] else [])
  }

  lemma ReplacedBehind(fields: seq<Field>, i: nat, f: Field)
    requires i < |fields|
    ensures ReplacedAt(fields, i + 1, f) == [fields[0]] + ReplacedAt(fields[1..], i, f)
  {
    assert fields[..i + 1] == [fields[0]] + fields[1..][..i];
    assert i + 1 < |fields| ==> fields[1..][i + 1..] == fields[i + 2..];
  }

  /** Setting a field changes the value of the first one of that name, or adds one at the end;
      all others stay as they are, where they are. */
  lemma {:induction false} SetFieldIs(fields: seq<Field>, name: string, value: string)
    ensures
      var i := PlaceOf(fields, name);
      SetField(fields, name, value)
      == ReplacedAt(fields, i, (if i < |fields| then fields[i].0 else name, value))
    decreases |fields|
  {
    hide SameIgnoringCase;
    if |fields| > 0 && !SameIgnoringCase(fields[0].0, name) {
      hide ReplacedAt;
      SetFieldIs(fields[1..], name, value);
      var i := PlaceOf(fields[1..], name);
      ReplacedBehind(fields, i, (if i + 1 < |fields| then fields[i + 1].0 else name, value));
    }
  }

  lemma {:induction false} OtherFieldStays(fields: seq<Field>, name: string, value: string, other: string)
    requires Lower(name) != Lower(other)
    ensures FirstField(SetField(fields, name, value), other) == FirstField(fields, other)
    decreases |fields|
  {
    if fields == [] {
      assert [(name, value)][1..] == [];
    } else if SameIgnoringCase(fields[0].0, name) {
      assert ([(fields[0].0, value)] + fields[1..])[1..] == fields[1..];
    } else {
      OtherFieldStays(fields[1..], name, value, other);
      assert ([fields[0]] + SetField(fields[1..], name, value))[1..] == SetField(fields[1..], name, value);
    }
  }

  lemma {:induction false} UnprotectedKeeps(fields: seq<Field>, other: string)
    requires Lower(other) !in PROTECTED_FIELDS
    ensures FirstField(Unprotected(fields), other) == FirstField(fields, other)
    decreases |fields|
  {
    if fields != [] {
      UnprotectedKeeps(fields[1..], other);
      var rest := Unprotected(fields[1..]);
      assert ([fields[0]] + rest)[1..] == rest && [] + rest == rest;
    }
  }

  lemma {:induction false} NoneProtected(fields: seq<Field>, other: string)
    requires AllProtected(fields) && Lower(other) !in PROTECTED_FIELDS
    ensures forall i | 0 <= i < |fields| :: !SameIgnoringCase(fields[i].0, other)
    decreases |fields|
  {
    if fields != [] {
      assert AllProtected(fields[1..]) && IsProtected(fields[0]);
      NoneProtected(fields[1..], other);
    }
  }

  lemma {:induction false} NoneOuter(outer: seq<Field>, other: string)
    requires Lower(other) != "hp-outer"
    ensures forall i | 0 <= i < |OuterFields(outer)| :: !SameIgnoringCase(OuterFields(outer)[i].0, other)
    decreases |outer|
  {
    if outer != [] {
      NoneOuter(outer[1..], other);
      assert Lower("HP-Outer") == "hp-outer" == Lower("hp-outer");
      assert ([("HP-Outer", Line(outer[0]))] + OuterFields(outer[1..]))[1..] == OuterFields(outer[1..]);
    }
  }

  /** Protection leaves every other field of the payload as it was: its transfer encoding
      above all. */
  lemma PayloadFieldsStay(e: Entity, fields: seq<Field>, outer: seq<Field>, p: Protection, other: string)
    requires AllProtected(fields) && Lower(other) !in PROTECTED_FIELDS
    requires Lower(other) != "hp-outer" && Lower(other) != "content-type"
    ensures WithProtection(e, fields, outer, p).Header(other) == e.Header(other)
  {
    var marked := SetField(e.headers, "Content-Type", SchemeValue(e, p));
    ContentTypeLower();
    NoneProtected(fields, other);
    NoneOuter(outer, other);
    UnprotectedKeeps(marked, other);
    OtherFieldStays(e.headers, "Content-Type", SchemeValue(e, p), other);
    hide SetField, SchemeValue, OuterFields, Unprotected, FirstField, Lower, SameIgnoringCase;
    FirstFieldConcat(fields + OuterFields(outer), Unprotected(marked), other);
    FirstFieldConcat(fields, OuterFields(outer), other);
  }

  lemma ContentTypeLower()
    ensures Lower("Content-Type") == "content-type"
  {
  }
}
