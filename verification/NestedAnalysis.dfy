/** The analysis of a whole message finds its first structure, says where it is, and whether
    anything unprotected stands beside it (crates/mw-crypto/src/mime.rs). */
module NestedAnalysis {
  import opened Wrappers
  import opened Text
  import opened Utf8
  import opened CryptoParts
  import opened MailTree
  import opened MimeEntity
  import CT = ContentType
  import MP = Multipart
  import B64 = Base64
  import IA = InlineArmor
  import SR = SignedRoundTrip
  import ER = EncryptedRoundTrip
  import DR = DisplayRoundTrip

  // -- paths -------------------------------------------------------------------

  lemma {:induction false} LeadsHolds(m: Mail, path: seq<nat>, levels: nat)
    requires Leads(m, path, levels)
    ensures Holds(m, levels) && |path| < levels
    decreases |path|
  {
    if path != [] {
      LeadsHolds(m.parts[path[0]], path[1..], levels - 1);
    }
    hide PartOf;
  }

  /** A message has one first structure. */
  lemma {:induction false} OnePath(m: Mail, p: seq<nat>, q: seq<nat>, levels: nat)
    requires Leads(m, p, levels) && Leads(m, q, levels)
    ensures p == q
    decreases |p|
  {
    hide PartOf;
    if p != [] && q != [] {
      LeadsHolds(m.parts[p[0]], p[1..], levels - 1);
      LeadsHolds(m.parts[q[0]], q[1..], levels - 1);
      assert p[0] == q[0];
      OnePath(m.parts[p[0]], p[1..], q[1..], levels - 1);
      assert p == [p[0]] + p[1..] && q == [q[0]] + q[1..];
    } else if m.Multi? {
      MultiIsNone(m);
    }
  }

  lemma MultiIsNone(m: Mail)
    requires m.Multi?
    ensures PartOf(m) == None
  {
  }

  lemma CrowdedCons(m: Mail, path: seq<nat>)
    requires path != [] && m.Multi? && path[0] < |m.parts|
    ensures CrowdedOn(m, path) <==> Crowded(m) || CrowdedOn(m.parts[path[0]], path[1..])
  {
    var c, rest := m.parts[path[0]], path[1..];
    hide Crowded;
    assert NodeAt(m, path[..0]) == m;
    forall k | 0 < k <= |path| ensures NodeAt(m, path[..k]) == NodeAt(c, rest[..k - 1]) {
      assert path[..k][0] == path[0] && path[..k][1..] == rest[..k - 1];
    }
    if CrowdedOn(c, rest) {
      var k :| 0 <= k < |rest| && Crowded(NodeAt(c, rest[..k]));
      assert NodeAt(m, path[..k + 1]) == NodeAt(c, rest[..k]);
    }
    if CrowdedOn(m, path) {
      var k :| 0 <= k < |path| && Crowded(NodeAt(m, path[..k]));
      if k > 0 {
        assert NodeAt(m, path[..k]) == NodeAt(c, rest[..k - 1]);
      }
    }
    if Crowded(m) {
      assert Crowded(NodeAt(m, path[..0]));
    }
  }

  // -- the search --------------------------------------------------------------

  /** What the search answers for a message that leaves so many levels. */
  predicate Answers(found: Option<Found>, m: Mail, levels: nat) {
    if !Holds(m, levels) then found == None
    else
      && found.Some? && Leads(m, found.value.path, levels)
      && PartOf(NodeAt(m, found.value.path)) == Some(found.value.part)
      && (found.value.siblings <==> CrowdedOn(m, found.value.path))
  }

  /** The same for the parts from `i` on. */
  predicate AnswersFrom(found: Option<Found>, m: Mail, i: nat, levels: nat)
    requires m.Multi?
  {
    if forall j | i <= j < |m.parts| :: !Holds(m.parts[j], levels) then found == None
    else
      && found.Some? && found.value.path != []
      && var k := found.value.path[0];
         && i <= k < |m.parts| && (forall j | i <= j < k :: !Holds(m.parts[j], levels))
         && Holds(m.parts[k], levels)
         && Answers(Some(found.value.(path := found.value.path[1..])), m.parts[k], levels)
  }

  lemma LeafPaths(m: Mail, levels: nat)
    requires !m.Multi? && levels > 0
    ensures Holds(m, levels) <==> PartOf(m).Some?
    ensures PartOf(m).Some? ==> Leads(m, [], levels)
    ensures NodeAt(m, []) == m && !CrowdedOn(m, [])
  {
    hide PartOf;
  }

  lemma LeafAnswers(m: Mail, depth: nat)
    requires Good(m) && !m.Multi? && depth <= MAX_DEPTH
    ensures Answers(FindCrypto(Raw(m), depth), m, MAX_DEPTH + 1 - depth)
  {
    hide *;
    LeafPaths(m, MAX_DEPTH + 1 - depth);
    if m.TextMail? {
      FindText(m, depth);
    } else if m.FileMail? {
      FindFile(m, depth);
    } else {
      BuiltOrNot(m);
      FindBuilt(m, depth);
    }
    AnswersIf(m, FindCrypto(Raw(m), depth), MAX_DEPTH + 1 - depth);
  }

  lemma AnswersIf(m: Mail, found: Option<Found>, levels: nat)
    requires Holds(m, levels) <==> PartOf(m).Some?
    requires PartOf(m).Some? ==> Leads(m, [], levels)
    requires NodeAt(m, []) == m && !CrowdedOn(m, [])
    requires found == match PartOf(m) case None => None case Some(part) => Some(Found(part, false, []))
    ensures Answers(found, m, levels)
  {
    hide PartOf, Holds, Leads, NodeAt, CrowdedOn;
  }

  lemma BuiltOrNot(m: Mail)
    requires !m.Multi? && !m.TextMail? && !m.FileMail?
    ensures Built(m)
  {
  }

  lemma MultiAnswers(m: Mail, found: Option<Found>, levels: nat)
    requires m.Multi? && levels > 0 && AnswersFrom(found, m, 0, levels - 1)
    ensures
      Answers(match found case None => None case Some(f) => Some(f.(siblings := f.siblings || Crowded(m))), m, levels)
  {
    hide PartOf, Crowded, CrowdedOn;
    if found.Some? {
      CrowdedCons(m, found.value.path);
    }
  }

  lemma NextAnswers(m: Mail, i: nat, here: Option<Found>, rest: Option<Found>, levels: nat)
    requires m.Multi? && i < |m.parts| && Answers(here, m.parts[i], levels) && AnswersFrom(rest, m, i + 1, levels)
    ensures AnswersFrom(match here case Some(f) => Some(f.(path := [i] + f.path)) case None => rest, m, i, levels)
  {
    hide PartOf, CrowdedOn, NodeAt;
    if here.Some? {
      assert ([i] + here.value.path)[1..] == here.value.path;
    }
  }

  /** The search answers as the tree says. */
  lemma {:induction false} FindMail(m: Mail, depth: nat)
    requires Good(m) && depth <= MAX_DEPTH + 1
    ensures Answers(FindCrypto(Raw(m), depth), m, MAX_DEPTH + 1 - depth)
    decreases m, 1
  {
    RawPartsOf(m);
    hide *;
    if depth > MAX_DEPTH {
      TooDeep(m, depth);
    } else if m.Multi? {
      FindParts(m, 0, depth);
      FindMulti(m, depth);
      CrowdedIff(m);
      MultiAnswers(m, FindInParts(RawParts(m, 0), 0, depth + 1), MAX_DEPTH + 1 - depth);
    } else {
      LeafAnswers(m, depth);
    }
  }

  lemma RawPartsOf(m: Mail)
    ensures m.Multi? ==> |RawParts(m, 0)| == |m.parts|
  {
    if m.Multi? {
      RawPartsAre(m, 0);
    }
  }

  lemma TooDeep(m: Mail, depth: nat)
    requires depth == MAX_DEPTH + 1
    ensures Answers(FindCrypto(Raw(m), depth), m, 0)
  {
    hide Raw;
  }

  lemma FindNext(parts: seq<Bytes>, i: nat, depth: nat)
    requires i < |parts|
    ensures FindInParts(parts, i, depth)
         == match FindCrypto(parts[i], depth)
            case Some(f) => Some(f.(path := [i] + f.path))
            case None => FindInParts(parts, i + 1, depth)
  {
    hide FindCrypto;
  }

  lemma FindLast(m: Mail, parts: seq<Bytes>, depth: nat, levels: nat)
    requires m.Multi? && |parts| == |m.parts|
    ensures AnswersFrom(FindInParts(parts, |parts|, depth), m, |parts|, levels)
  {
    hide FindCrypto, Holds;
  }

  lemma {:induction false} FindParts(m: Mail, i: nat, depth: nat)
    requires Good(m) && m.Multi? && i <= |m.parts| && depth <= MAX_DEPTH && |RawParts(m, 0)| == |m.parts|
    ensures AnswersFrom(FindInParts(RawParts(m, 0), i, depth + 1), m, i, MAX_DEPTH - depth)
    decreases m, 0, |m.parts| - i
  {
    hide *;
    if i == |m.parts| {
      FindLast(m, RawParts(m, 0), depth + 1, MAX_DEPTH - depth);
    } else {
      PartIsGood(m, i);
      RawPartsAre(m, 0);
      FindMail(m.parts[i], depth + 1);
      FindParts(m, i + 1, depth);
      FindNext(RawParts(m, 0), i, depth + 1);
      NextAnswers(m, i, FindCrypto(Raw(m.parts[i]), depth + 1), FindInParts(RawParts(m, 0), i + 1, depth + 1),
                  MAX_DEPTH - depth);
    }
  }

  // -- the analysis ------------------------------------------------------------

  lemma {:induction false} TrimStartIff(s: string)
    ensures TrimStart(s) == "" <==> forall k | 0 <= k < |s| :: IsWhitespace(s[k])
    decreases |s|
  {
    if s != "" && IsWhitespace(s[0]) {
      TrimStartIff(s[1..]);
      assert s == [s[0]] + s[1..];
    }
  }

  /** Something other than white space is left by trimming. */
  lemma TrimIff(s: string)
    ensures Trim(s) != "" <==> exists k | 0 <= k < |s| :: !IsWhitespace(s[k])
  {
    TrimStartIff(s);
    TrimStartResult(s);
    var t := TrimStart(s);
    if t != "" {
      FirstStays(t);
    }
  }

  lemma {:induction false} FirstStays(t: string)
    requires t != "" && !IsWhitespace(t[0])
    ensures TrimEnd(t) != ""
    decreases |t|
  {
    if |t| > 1 && IsWhitespace(t[|t| - 1]) {
      FirstStays(t[..|t| - 1]);
    }
  }

  lemma BesideIff(part: CryptoPart)
    ensures HasPlainText(part) <==> TextBeside(part)
  {
    if part.InlinePgp? {
      forall s: IA.Segment | s.Plain?
        ensures Trim(s.text) != "" <==> exists k | 0 <= k < |s.text| :: !IsWhitespace(s.text[k])
      {
        TrimIff(s.text);
      }
      hide Trim, IsWhitespace;
    }
  }

  /** A message without a structure in reach. */
  lemma NothingFound(m: Mail)
    requires Good(m) && !Holds(m, MAX_DEPTH + 1)
    ensures Analyze(Raw(m)) == Analysis(None, false, [])
  {
    FindMail(m, 0);
    hide FindCrypto, Raw, Good, Holds;
  }

  /** The analysis of every composed message: the first structure in reach, as the builders
      were given it, with its path. It is partial exactly when some multipart on the path
      has two parts with content, or text stands beside inline armor. */
  lemma AnalysisOfMail(m: Mail, path: seq<nat>)
    requires Good(m) && Leads(m, path, MAX_DEPTH + 1)
    ensures
      var part := PartOf(NodeAt(m, path));
      part.Some? && Analyze(Raw(m)) == Analysis(part, CrowdedOn(m, path) || TextBeside(part.value), path)
  {
    hide *;
    FindMail(m, 0);
    LeadsHolds(m, path, MAX_DEPTH + 1);
    AnswersPath(m, FindCrypto(Raw(m), 0), path);
    BesideIff(FindCrypto(Raw(m), 0).value.part);
    AnalyzeIs(Raw(m), FindCrypto(Raw(m), 0).value);
  }

  lemma AnswersPath(m: Mail, found: Option<Found>, path: seq<nat>)
    requires Leads(m, path, MAX_DEPTH + 1) && Answers(found, m, MAX_DEPTH + 1)
    ensures found.Some? && found.value == Found(found.value.part, CrowdedOn(m, path), path)
    ensures PartOf(NodeAt(m, path)) == Some(found.value.part)
  {
    LeadsHolds(m, path, MAX_DEPTH + 1);
    hide Holds, Leads, NodeAt, PartOf, CrowdedOn;
    OnePath(m, path, found.value.path, MAX_DEPTH + 1);
  }

  lemma AnalyzeIs(raw: Bytes, f: Found)
    requires FindCrypto(raw, 0) == Some(f)
    ensures Analyze(raw) == Analysis(Some(f.part), f.siblings || HasPlainText(f.part), f.path)
  {
    hide FindCrypto, HasPlainText;
  }

  /** Such a path exists exactly when there is a structure in reach. */
  lemma {:induction false} HoldsIff(m: Mail, levels: nat)
    ensures Holds(m, levels) <==> exists path :: Leads(m, path, levels)
    decreases m
  {
    if path :| Leads(m, path, levels) {
      LeadsHolds(m, path, levels);
    }
    if Holds(m, levels) {
      FirstPath(m, levels);
    }
  }

  lemma {:induction false} FirstPath(m: Mail, levels: nat)
    requires Holds(m, levels)
    ensures exists path :: Leads(m, path, levels)
    decreases m, 1
  {
    hide PartOf;
    if m.Multi? {
      var i :| 0 <= i < |m.parts| && Holds(m.parts[i], levels - 1);
      FirstPart(m, i, levels);
    } else {
      assert Leads(m, [], levels);
    }
  }

  lemma {:induction false} FirstPart(m: Mail, i: nat, levels: nat)
    requires m.Multi? && levels > 0 && i < |m.parts| && Holds(m.parts[i], levels - 1)
    ensures exists path :: Leads(m, path, levels)
    decreases m, 0, i
  {
    hide PartOf;
    if j: nat :| j < i && Holds(m.parts[j], levels - 1) {
      FirstPart(m, j, levels);
    } else {
      FirstPath(m.parts[i], levels - 1);
      var path :| Leads(m.parts[i], path, levels - 1);
      assert ([i] + path)[1..] == path;
      assert Leads(m, [i] + path, levels);
    }
  }

  /** For one: a signed or encrypted part behind parts that hold nothing, as a mailing list
      sends it. The analysis is partial exactly when two of the parts have content. */
  lemma AnalysisOfPart(m: Mail, i: nat)
    requires Good(m) && m.Multi? && i < |m.parts| && Built(m.parts[i])
    requires forall j | 0 <= j < i :: !Holds(m.parts[j], MAX_DEPTH)
    ensures Analyze(Raw(m)) == Analysis(PartOf(m.parts[i]), Crowded(m), [i])
  {
    PartPath(m, i);
    hide *;
    CrowdedCons(m, [i]);
    AnalysisOfMail(m, [i]);
  }

  lemma PartPath(m: Mail, i: nat)
    requires m.Multi? && i < |m.parts| && Built(m.parts[i])
    requires forall j | 0 <= j < i :: !Holds(m.parts[j], MAX_DEPTH)
    ensures Leads(m, [i], MAX_DEPTH + 1) && NodeAt(m, [i]) == m.parts[i] && [i] != [] && [i][0] == i
    ensures !CrowdedOn(m.parts[i], [i][1..]) && PartOf(m.parts[i]).Some? && !TextBeside(PartOf(m.parts[i]).value)
  {
    assert [i][1..] == [];
    assert Leads(m.parts[i], [], MAX_DEPTH);
    hide Holds;
  }

  // -- a list's footer ---------------------------------------------------------

  /** A signed message and a text below it, as a mailing list puts them together. */
  function WithFooter(signed: Mail, footer: string, boundary: string): Mail {
    Multi([("Content-Type", DR.MixedType(boundary))], boundary, "", [signed, TextMail([], footer, AsIs)], "\r\n")
  }

  lemma MixedFields(boundary: string)
    requires OneLine(boundary)
    ensures
      var fields := [("Content-Type", DR.MixedType(boundary))];
      AllSimple(fields) && ListMime(TypeOf(fields).mime) && TypeOf(fields).Param("boundary") == Some(boundary)
  {
    var v := DR.MixedType(boundary);
    DR.MixedTypeParses(boundary);
    MixedSimple(boundary);
    SR.VersionSimple();
    SR.ParamNames();
    hide CT.Parse, DR.MixedType, SameIgnoringCase, Simple;
    assert [("Content-Type", v)][1..] == [];
    SR.ParamHere(("boundary", boundary), [], "boundary");
    assert [("boundary", boundary)] + [] == [("boundary", boundary)];
    assert DR.MIXED[10] == 'm';
  }

  lemma MixedSimple(boundary: string)
    requires OneLine(boundary)
    ensures Simple(("Content-Type", DR.MixedType(boundary)))
  {
    MixedWord();
    ER.EncryptedWords();
    hide ER.GoodValue, Simple, CT.AddParam, CT.Quote;
    ER.QuotedIsGood(boundary);
    ER.AddedIsGood(DR.MIXED, "boundary", CT.Quote(boundary));
    ER.GoodValueIsSimple(DR.MixedType(boundary));
  }

  lemma MixedWord()
    ensures ER.GoodValue(DR.MIXED)
  {
  }

  lemma PlainWord()
    ensures CT.Plain("text/plain") && Trimmed("text/plain") && Lower("text/plain") == "text/plain"
    ensures TextMime("text/plain")
  {
  }

  lemma PlainText()
    ensures TextMime(TypeOf([]).mime)
  {
    PlainWord();
    hide CT.Parse, CT.Plain, Lower, TextMime;
    CT.PlainTypeParses("text/plain");
  }

  lemma FooterTextIsGood(footer: string)
    ensures Good(TextMail([], footer, AsIs))
  {
    PlainText();
    hide TypeOf, TextMime;
  }

  lemma PreambleStarts(rest: Bytes)
    ensures (SIGNED_PREAMBLE + rest) != "" && (SIGNED_PREAMBLE + rest)[0] == 'T'
  {
    assert SIGNED_PREAMBLE[0] == 'T';
  }

  lemma SignedStarts(part: Bytes, sigPart: Bytes, protocol: string, micalg: string, boundary: string)
    ensures
      var body := SignedMultipart(part, sigPart, protocol, micalg, boundary).body;
      body != "" && body[0] == 'T'
  {
    var d := MP.Delimiter(boundary);
    hide SIGNED_PREAMBLE, MP.Delimiter, SignedType;
    PreambleStarts(d + "\r\n" + part + "\r\n" + d + "\r\n" + sigPart + d + "--\r\n");
    assert SIGNED_PREAMBLE + (d + "\r\n" + part + "\r\n" + d + "\r\n" + sigPart + d + "--\r\n")
        == SIGNED_PREAMBLE + d + "\r\n" + part + "\r\n" + d + "\r\n" + sigPart + d + "--\r\n";
  }

  lemma SignedHasContent(m: Mail)
    requires m.PgpSignedMail? || m.SmimeSignedMail?
    ensures HasContent(m)
  {
    hide SignedMultipart;
    if m.PgpSignedMail? {
      SignedStarts(m.part, Entity(SignatureHeaders(), ArmorBytes(m.signature)).ToBytes() + "\r\n",
                   "application/pgp-signature", m.micalg, m.boundary);
    } else {
      SignedStarts(m.part, Entity(CmsHeaders(), B64.Lines(B64.Encode(m.der))).ToBytes(),
                   "application/pkcs7-signature", m.micalg, m.boundary);
    }
    assert EntityOf(m).body[0] == 'T';
  }

  lemma FooterIsGood(signed: Mail, footer: string, boundary: string)
    requires Good(signed) && OneLine(boundary)
    requires MP.Fresh(Raw(signed), boundary) && MP.Fresh(Raw(TextMail([], footer, AsIs)), boundary)
    ensures Good(WithFooter(signed, footer, boundary))
  {
    FooterTextIsGood(footer);
    MixedFields(boundary);
    EmptyIsFresh(boundary);
    hide *;
    FooterParts(signed, footer, boundary);
    GoodIf(WithFooter(signed, footer, boundary));
  }

  lemma EmptyIsFresh(boundary: string)
    ensures MP.Fresh("", boundary)
  {
    MP.DelimiterNotEmpty(boundary);
    SR.DashlessIsFresh("", MP.Delimiter(boundary));
  }

  lemma GoodIf(m: Mail)
    requires m.Multi? && AllSimple(m.fields) && ListMime(TypeOf(m.fields).mime)
    requires TypeOf(m.fields).Param("boundary") == Some(m.boundary) && OneLine(m.boundary)
    requires m.preamble == "" && MP.Fresh("", m.boundary) && |m.parts| == 2
    requires Good(m.parts[0]) && MP.Fresh(Raw(m.parts[0]), m.boundary)
    requires Good(m.parts[1]) && MP.Fresh(Raw(m.parts[1]), m.boundary)
    ensures Good(m)
  {
    hide AllSimple, ListMime, TypeOf, MP.Fresh, Raw, OneLine, CT.FirstParam;
    forall i | 0 <= i < |m.parts| ensures Good(m.parts[i]) && MP.Fresh(Raw(m.parts[i]), m.boundary) {
      assert i == 0 || i == 1;
    }
  }

  /** The signature covers the list's mail only in part exactly when the footer is not
      blank. */
  lemma FooterIsPartial(signed: Mail, footer: string, boundary: string)
    requires Good(signed) && (signed.PgpSignedMail? || signed.SmimeSignedMail?) && OneLine(boundary)
    requires MP.Fresh(Raw(signed), boundary) && MP.Fresh(Raw(TextMail([], footer, AsIs)), boundary)
    ensures Analyze(Raw(WithFooter(signed, footer, boundary)))
         == Analysis(PartOf(signed), exists k | 0 <= k < |Encode(footer)| :: !IsAsciiSpace(Encode(footer)[k]), [0])
  {
    hide *;
    FooterIsGood(signed, footer, boundary);
    SignedHasContent(signed);
    FooterParts(signed, footer, boundary);
    AnalysisOfPart(WithFooter(signed, footer, boundary), 0);
    FooterCrowds(signed, footer, boundary);
  }

  lemma FooterParts(signed: Mail, footer: string, boundary: string)
    ensures
      var m := WithFooter(signed, footer, boundary);
      && m.Multi? && m.fields == [("Content-Type", DR.MixedType(boundary))] && m.boundary == boundary
      && m.preamble == "" && |m.parts| == 2 && m.parts[0] == signed && m.parts[1] == TextMail([], footer, AsIs)
    ensures signed.PgpSignedMail? || signed.SmimeSignedMail? ==> Built(signed)
    ensures EntityOf(TextMail([], footer, AsIs)).body == Encode(footer)
  {
  }

  lemma FooterCrowds(signed: Mail, footer: string, boundary: string)
    requires HasContent(signed)
    ensures Crowded(WithFooter(signed, footer, boundary))
       <==> exists k | 0 <= k < |Encode(footer)| :: !IsAsciiSpace(Encode(footer)[k])
  {
    var m, text := WithFooter(signed, footer, boundary), TextMail([], footer, AsIs);
    FooterParts(signed, footer, boundary);
    hide WithFooter, EntityOf, Encode;
    assert HasContent(text) <==> exists k | 0 <= k < |Encode(footer)| :: !IsAsciiSpace(Encode(footer)[k]);
    hide HasContent;
    assert HasContent(m.parts[0]) && (HasContent(m.parts[1]) <==> HasContent(text));
  }
}
