/** Removing header protection gives back what was protected
    (crates/mw-crypto/src/mime.rs; RFC 9788). */
module HeaderProtectionRoundTrip {
  import opened Wrappers
  import opened Text
  import opened Utf8
  import opened MimeEntity
  import opened HeaderProtection
  import CT = ContentType
  import MP = Multipart

  // -- field names -------------------------------------------------------------

  /** Lower-case letters and dashes only. */
  predicate CleanName(p: string) {
    p != "" && forall i | 0 <= i < |p| :: p[i] == '-' || 'a' <= p[i] <= 'z'
  }

  lemma ProtectedNamesClean(name: string)
    requires name in PROTECTED_FIELDS
    ensures CleanName(name) && 2 <= |name| <= 11 && (|name| == 8 ==> name[0] == 'r')
  {
  }

  lemma CleanNameWritable(n: string)
    requires CleanName(Lower(n))
    ensures n != "" && Trimmed(n) && ':' !in n && '\n' !in n
  {
    forall i | 0 <= i < |n| ensures !IsWhitespace(n[i]) && n[i] != ':' && n[i] != '\n' {
      assert Lower(n)[i] == LowerChar(n[i]);
    }
  }

  lemma OuterName(f: Field)
    ensures IsOuter(f) ==> |f.0| == 8 && Lower(f.0)[0] == 'h'
    ensures IsContentType(f) ==> |f.0| == 12
    ensures SameIgnoringCase("HP-Outer", "hp-outer") && SameIgnoringCase("Content-Type", "content-type")
  {
    assert Lower("hp-outer")[0] == 'h' && |Lower("hp-outer")| == 8 && |Lower("content-type")| == 12;
    assert Lower("HP-Outer") == Lower("hp-outer") && Lower("Content-Type") == Lower("content-type");
  }

  /** The three kinds of field the protection tells apart do not overlap. */
  lemma KindsDisjoint(f: Field)
    ensures IsProtected(f) ==> !IsOuter(f) && !IsContentType(f)
    ensures IsOuter(f) ==> !IsContentType(f)
  {
    OuterName(f);
    if IsProtected(f) {
      ProtectedNamesClean(Lower(f.0));
    }
  }

  /** A field value a caller may pass: no line break, no blanks around it. */
  predicate GoodValue(v: string) {
    Trimmed(v) && '\n' !in v
  }

  lemma ProtectedWritable(f: Field)
    requires IsProtected(f) && GoodValue(f.1)
    ensures Writable(f)
  {
    ProtectedNamesClean(Lower(f.0));
    CleanNameWritable(f.0);
    assert IsWhitespace('\r');
  }

  // -- filters over concatenations ---------------------------------------------

  lemma {:induction false} ProtectedConcat(a: seq<Field>, b: seq<Field>)
    ensures Protected(a + b) == Protected(a) + Protected(b)
    decreases |a|
  {
    if a == [] {
      assert a + b == b;
    } else {
      assert (a + b)[1..] == a[1..] + b;
      ProtectedConcat(a[1..], b);
    }
  }

  lemma {:induction false} OuterPairsConcat(a: seq<Field>, b: seq<Field>)
    ensures OuterPairs(a + b) == OuterPairs(a) + OuterPairs(b)
    decreases |a|
  {
    if a == [] {
      assert a + b == b;
    } else {
      assert (a + b)[1..] == a[1..] + b;
      OuterPairsConcat(a[1..], b);
    }
  }

  lemma {:induction false} FirstFieldConcat(a: seq<Field>, b: seq<Field>, name: string)
    requires forall i | 0 <= i < |a| :: !SameIgnoringCase(a[i].0, name)
    ensures FirstField(a + b, name) == FirstField(b, name)
    decreases |a|
  {
    if a == [] {
      assert a + b == b;
    } else {
      assert (a + b)[1..] == a[1..] + b;
      FirstFieldConcat(a[1..], b, name);
    }
  }

  lemma TrimValuesConcat(a: seq<Field>, b: seq<Field>)
    ensures TrimValues(a + b) == TrimValues(a) + TrimValues(b)
  {
  }

  /** No field is protected or an `HP-Outer`. */
  predicate Ordinary(fields: seq<Field>) {
    forall i | 0 <= i < |fields| :: !IsProtected(fields[i]) && !IsOuter(fields[i])
  }

  lemma {:induction false} OrdinaryFilters(fields: seq<Field>)
    requires Ordinary(fields)
    ensures Protected(TrimValues(fields)) == [] && OuterPairs(TrimValues(fields)) == []
    decreases |fields|
  {
    if fields != [] {
      var t := TrimValues(fields);
      assert t[1..] == TrimValues(fields[1..]);
      assert t[0].0 == fields[0].0;
      OrdinaryFilters(fields[1..]);
    }
  }

  predicate AllProtected(fields: seq<Field>) {
    forall i | 0 <= i < |fields| :: IsProtected(fields[i]) && GoodValue(fields[i].1)
  }

  lemma {:induction false} ProtectedFilters(fields: seq<Field>)
    requires AllProtected(fields)
    ensures TrimValues(fields) == fields
    ensures Protected(fields) == fields && OuterPairs(fields) == []
    decreases |fields|
  {
    if fields != [] {
      ProtectedFilters(fields[1..]);
      KindsDisjoint(fields[0]);
      TrimOfTrimmed(fields[0].1);
      TrimValuesCons([], fields);
      assert [fields[0]] + fields[1..] == fields;
    }
  }

  /** An outer field a caller may pass. */
  predicate GoodOuter(f: Field) {
    Trimmed(f.0) && ':' !in f.0 && '\n' !in f.0 && GoodValue(f.1)
  }

  predicate AllOuter(outer: seq<Field>) {
    forall i | 0 <= i < |outer| :: GoodOuter(outer[i])
  }

  lemma TrimOfLine(f: Field)
    requires GoodOuter(f)
    ensures Trim(Line(f)) == if f.1 == "" then f.0 + ":" else Line(f)
  {
    var l := Line(f);
    assert l[0] == if f.0 == "" then ':' else f.0[0];
    assert TrimStart(l) == l;
    if f.1 == "" {
      assert l == f.0 + ": " && l[..|l| - 1] == f.0 + ":";
      TrimEndStops(f.0 + ":");
    } else {
      assert l[|l| - 1] == f.1[|f.1| - 1];
      TrimEndStops(l);
    }
  }

  lemma TrimEndStops(s: string)
    requires s != "" && !IsWhitespace(s[|s| - 1])
    ensures TrimEnd(s) == s
  {
  }

  /** An outer field reads back from the `HP-Outer` field it was written to. */
  lemma OuterPairReadsBack(f: Field)
    requires GoodOuter(f)
    ensures OuterPair(("HP-Outer", Trim(Line(f)))) == [f]
  {
    OuterName(("HP-Outer", ""));
    TrimOfLine(f);
    TrimOfTrimmed(f.0);
    TrimOfTrimmed(f.1);
    TrimSpace(f.1);
    if f.1 == "" {
      assert f.0 + ":" == f.0 + [':'] + "";
      SplitOnceAfter(f.0, ':', "");
    } else {
      assert Line(f) == f.0 + [':'] + (" " + f.1);
      SplitOnceAfter(f.0, ':', " " + f.1);
    }
  }

  lemma OuterFilterStep(f: Field, t: seq<Field>)
    requires GoodOuter(f)
    ensures Protected([("HP-Outer", Trim(Line(f)))] + t) == Protected(t)
    ensures OuterPairs([("HP-Outer", Trim(Line(f)))] + t) == [f] + OuterPairs(t)
  {
    var g := ("HP-Outer", Trim(Line(f)));
    OuterPairReadsBack(f);
    OuterName(g);
    KindsDisjoint(g);
    assert ([g] + t)[1..] == t;
    assert [] + Protected(t) == Protected(t);
  }

  lemma TrimOuterFields(outer: seq<Field>)
    requires outer != []
    ensures TrimValues(OuterFields(outer)) == [("HP-Outer", Trim(Line(outer[0])))] + TrimValues(OuterFields(outer[1..]))
  {
  }

  lemma {:induction false} OuterFilters(outer: seq<Field>)
    requires AllOuter(outer)
    ensures Protected(TrimValues(OuterFields(outer))) == [] && OuterPairs(TrimValues(OuterFields(outer))) == outer
    decreases |outer|
  {
    if outer != [] {
      OuterFilters(outer[1..]);
      TrimOuterFields(outer);
      OuterFilterStep(outer[0], TrimValues(OuterFields(outer[1..])));
      assert [outer[0]] + outer[1..] == outer;
    }
  }

  lemma OuterLineWritable(f: Field)
    requires GoodOuter(f)
    ensures Writable(("HP-Outer", Line(f)))
  {
    var l := Line(f);
    assert l[|l| - 1] == if f.1 == "" then ' ' else f.1[|f.1| - 1];
    assert IsWhitespace('\r');
  }

  lemma {:induction false} OuterFieldsWritable(outer: seq<Field>)
    requires AllOuter(outer)
    ensures AllWritable(OuterFields(outer))
         && forall i | 0 <= i < |OuterFields(outer)| :: OuterFields(outer)[i].0 == "HP-Outer"
    decreases |outer|
  {
    if outer != [] {
      OuterLineWritable(outer[0]);
      OuterFieldsWritable(outer[1..]);
    }
  }

  // -- setting the content type ------------------------------------------------

  /** A value that can be written in a header line. */
  predicate WritableValue(v: string) {
    '\n' !in v && (v == "" || v[|v| - 1] != '\r')
  }

  predicate NoOuter(fields: seq<Field>) {
    forall i | 0 <= i < |fields| :: !IsOuter(fields[i])
  }

  lemma {:induction false} SetFieldResult(fields: seq<Field>, value: string)
    requires AllWritable(fields) && NoOuter(fields) && WritableValue(value)
    ensures
      var r := SetField(fields, "Content-Type", value);
      AllWritable(r) && NoOuter(r) && FirstField(r, "content-type") == Some(value)
    decreases |fields|
  {
    OuterName(("Content-Type", value));
    KindsDisjoint(("Content-Type", value));
    if fields != [] {
      assert SameIgnoringCase(fields[0].0, "Content-Type") <==> SameIgnoringCase(fields[0].0, "content-type");
      if !SameIgnoringCase(fields[0].0, "Content-Type") {
        var tail := SetField(fields[1..], "Content-Type", value);
        SetFieldResult(fields[1..], value);
        assert ([fields[0]] + tail)[1..] == tail;
      }
    }
  }

  lemma {:induction false} UnprotectedResult(fields: seq<Field>)
    requires AllWritable(fields) && NoOuter(fields)
    ensures AllWritable(Unprotected(fields)) && Ordinary(Unprotected(fields))
    ensures FirstField(Unprotected(fields), "content-type") == FirstField(fields, "content-type")
    decreases |fields|
  {
    if fields != [] {
      KindsDisjoint(fields[0]);
      UnprotectedResult(fields[1..]);
      var tail := Unprotected(fields[1..]);
      assert ([fields[0]] + tail)[1..] == tail && [] + tail == tail;
    }
  }

  lemma {:induction false} ProtectedSubset(fields: seq<Field>)
    requires forall i | 0 <= i < |fields| && IsProtected(fields[i]) :: GoodValue(fields[i].1)
    ensures AllProtected(Protected(fields))
    decreases |fields|
  {
    if fields != [] {
      ProtectedSubset(fields[1..]);
    }
  }

  // -- content type values -----------------------------------------------------

  lemma {:induction false} EscapePlain(v: string)
    requires '\\' !in v && '"' !in v
    ensures CT.Escape(v) == v
    decreases |v|
  {
    if v != "" {
      assert v[0] in v;
      EscapePlain(v[1..]);
    }
  }

  lemma QuotePlain(v: string)
    requires '\\' !in v && '"' !in v
    ensures CT.Quote(v) == "\"" + v + "\""
  {
    CT.TwoReplacementsEscape(v);
    EscapePlain(v);
  }

  lemma QuotedPlainValue(v: string, quoted: string)
    requires '\\' !in v && '"' !in v && quoted == "\"" + v + "\""
    ensures CT.ValuePart(quoted) && CT.Unquote(quoted) == v
  {
    QuotePlain(v);
    CT.QuoteIsValuePart(v);
    CT.UnquoteOfQuote(v);
  }

  lemma SchemeIsPlain(p: Protection)
    ensures '\\' !in Scheme(p) && '"' !in Scheme(p) && Lower(Scheme(p)) == Scheme(p)
  {
  }

  lemma SchemeQuoted(p: Protection)
    ensures CT.ValuePart("\"" + Scheme(p) + "\"") && CT.Unquote("\"" + Scheme(p) + "\"") == Scheme(p)
  {
    SchemeIsPlain(p);
    hide *;
    QuotedPlainValue(Scheme(p), "\"" + Scheme(p) + "\"");
  }

  lemma OneQuoted()
    ensures CT.ValuePart("\"1\"") && CT.Unquote("\"1\"") == "1"
  {
    hide *;
    assert "\"1\"" == "\"" + "1" + "\"";
    QuotedPlainValue("1", "\"1\"");
  }

  lemma HpName()
    ensures CT.NamePart("hp") && Lower("hp") == "hp"
  {
  }

  lemma DisplayName()
    ensures CT.NamePart("hp-legacy-display") && Lower("hp-legacy-display") == "hp-legacy-display"
  {
  }

  lemma {:induction false} FirstParamAppend(params: seq<(string, string)>, x: (string, string), name: string)
    ensures CT.FirstParam(params + [x], name)
         == if CT.FirstParam(params, name).Some? then CT.FirstParam(params, name)
            else if SameIgnoringCase(x.0, name) then Some(x.1) else None
    decreases |params|
  {
    if params == [] {
      assert params + [x] == [x] && [x][1..] == [];
    } else {
      assert (params + [x])[1..] == params[1..] + [x];
      FirstParamAppend(params[1..], x, name);
    }
  }

  lemma ParamNamesDiffer()
    ensures SameIgnoringCase("hp", "hp") && SameIgnoringCase("hp-legacy-display", "hp-legacy-display")
    ensures SameIgnoringCase("boundary", "boundary")
    ensures !SameIgnoringCase("hp", "hp-legacy-display") && !SameIgnoringCase("hp-legacy-display", "hp")
    ensures !SameIgnoringCase("hp", "boundary") && !SameIgnoringCase("boundary", "hp")
    ensures !SameIgnoringCase("hp-legacy-display", "boundary")
    ensures !SameIgnoringCase("charset", "hp") && !SameIgnoringCase("charset", "hp-legacy-display")
  {
    assert |Lower("hp")| == 2 && |Lower("hp-legacy-display")| == 17 && |Lower("boundary")| == 8
        && |Lower("charset")| == 7;
  }

  /** A content type the protection can be added to: it does not end inside a quoted
      string and carries no protection marking of its own. */
  predicate Markable(value: string) {
    CT.Closed(value) && CT.Parse(value).Param("hp") == None
  }

  lemma CharsetName()
    ensures CT.NamePart("charset") && Lower("charset") == "charset"
  {
  }

  lemma CharsetValue()
    ensures CT.ValuePart("utf-8") && CT.Unquote("utf-8") == "utf-8"
  {
  }

  lemma TextPlainWord()
    ensures CT.Plain("text/plain") && Trimmed("text/plain") && Lower("text/plain") == "text/plain"
  {
  }

  lemma DefaultTypeIsSum()
    ensures DEFAULT_TYPE == CT.AddParam("text/plain", "charset", "utf-8")
  {
  }

  lemma DefaultTypeParses()
    ensures CT.Closed(DEFAULT_TYPE) && CT.Parse(DEFAULT_TYPE) == CT.MediaType("text/plain", [("charset", "utf-8")])
  {
    TextPlainWord();
    CharsetName();
    CharsetValue();
    DefaultTypeIsSum();
    hide *;
    CT.PlainTypeParses("text/plain");
    CT.ParseAppend("text/plain", "charset", "utf-8");
    assert [] + [("charset", "utf-8")] == [("charset", "utf-8")];
  }

  lemma DefaultTypeUnmarked()
    ensures Markable(DEFAULT_TYPE) && CT.Parse(DEFAULT_TYPE).Param("hp-legacy-display") == None
  {
    DefaultTypeParses();
    ParamNamesDiffer();
    hide CT.Parse, CT.Closed, SameIgnoringCase, DEFAULT_TYPE, CT.FirstParam;
    NoOtherParam("hp");
    NoOtherParam("hp-legacy-display");
  }

  lemma NoOtherParam(name: string)
    requires !SameIgnoringCase("charset", name)
    ensures CT.FirstParam([("charset", "utf-8")], name) == None
  {
    assert [("charset", "utf-8")][1..] == [];
  }

  /** Marking a value adds exactly the display parameter. */
  lemma MarkedParses(value: string)
    requires Markable(value)
    ensures CT.Closed(Marked(value))
    ensures CT.Parse(Marked(value))
         == CT.MediaType(CT.Parse(value).mime, CT.Parse(value).params + [("hp-legacy-display", "1")])
    ensures Markable(Marked(value))
    ensures CT.Parse(value).Param("hp-legacy-display") == None ==>
              CT.Parse(Marked(value)).Param("hp-legacy-display") == Some("1")
  {
    OneQuoted();
    DisplayName();
    CT.ParseAppend(value, "hp-legacy-display", "\"1\"");
    ParamNamesDiffer();
    FirstParamAppend(CT.Parse(value).params, ("hp-legacy-display", "1"), "hp");
    FirstParamAppend(CT.Parse(value).params, ("hp-legacy-display", "1"), "hp-legacy-display");
  }

  // -- the protected entity read back -----------------------------------------

  /** An entity whose fields can be written and read back. */
  predicate Carriable(e: Entity) {
    AllWritable(e.headers) && NoOuter(e.headers)
  }

  /** An entity the protection can be added to. */
  predicate Protectable(e: Entity) {
    Carriable(e) && Markable(TypeValue(e))
  }

  /** The content type the reader sees. */
  function TypeRead(e: Entity, p: Protection): CT.MediaType {
    var ct := CT.Parse(TypeValue(e));
    CT.MediaType(ct.mime, ct.params + [("hp", Scheme(p))])
  }

  lemma {:induction false} TrimStartKeepsLast(v: string)
    requires v != "" && !IsWhitespace(v[|v| - 1])
    ensures TrimStart(v) != "" && TrimStart(v)[|TrimStart(v)| - 1] == v[|v| - 1]
    decreases |v|
  {
    if IsWhitespace(v[0]) {
      TrimStartKeepsLast(v[1..]);
    }
  }

  lemma TrimOfClosedEnd(v: string)
    requires v != "" && !IsWhitespace(v[|v| - 1])
    ensures Trim(v) == TrimStart(v)
  {
    TrimStartKeepsLast(v);
    TrimEndStops(TrimStart(v));
  }

  lemma {:induction false} FirstFieldWritable(fields: seq<Field>, name: string)
    requires AllWritable(fields)
    ensures FirstField(fields, name).Some? ==> '\n' !in FirstField(fields, name).value
    decreases |fields|
  {
    if fields != [] {
      FirstFieldWritable(fields[1..], name);
    }
  }

  lemma TypeValueHasNoBreak(e: Entity)
    requires AllWritable(e.headers)
    ensures '\n' !in TypeValue(e)
  {
    FirstFieldWritable(e.headers, "content-type");
  }

  lemma SchemeValueWritable(e: Entity, p: Protection)
    requires AllWritable(e.headers)
    ensures WritableValue(SchemeValue(e, p)) && SchemeValue(e, p) != ""
    ensures SchemeValue(e, p)[|SchemeValue(e, p)| - 1] == '"'
  {
    TypeValueHasNoBreak(e);
  }

  lemma SchemeValueParses(e: Entity, p: Protection)
    requires Protectable(e)
    ensures CT.Parse(Trim(SchemeValue(e, p))) == TypeRead(e, p)
    ensures SchemeOf(TypeRead(e, p)) == Some(Scheme(p))
  {
    SchemeQuoted(p);
    SchemeIsPlain(p);
    HpName();
    CT.ParseAppend(TypeValue(e), "hp", "\"" + Scheme(p) + "\"");
    SchemeValueWritable(e, p);
    TrimOfClosedEnd(SchemeValue(e, p));
    CT.ParseIgnoresLeadingBlanks(SchemeValue(e, p));
    ParamNamesDiffer();
    FirstParamAppend(CT.Parse(TypeValue(e)).params, ("hp", Scheme(p)), "hp");
  }

  /** The fields that are neither protected nor outer, as written. */
  function RestFields(e: Entity, p: Protection): seq<Field> {
    Unprotected(SetField(e.headers, "Content-Type", SchemeValue(e, p)))
  }

  lemma RestFieldsFacts(e: Entity, p: Protection)
    requires Carriable(e)
    ensures AllWritable(RestFields(e, p)) && Ordinary(RestFields(e, p))
    ensures FirstField(RestFields(e, p), "content-type") == Some(SchemeValue(e, p))
  {
    SchemeValueWritable(e, p);
    SetFieldResult(e.headers, SchemeValue(e, p));
    UnprotectedResult(SetField(e.headers, "Content-Type", SchemeValue(e, p)));
  }

  /** The protected entity as the reader parses it. */
  function Read(e: Entity, fields: seq<Field>, outer: seq<Field>, p: Protection): Entity {
    Entity(TrimValues(WithProtection(e, fields, outer, p).headers), e.body)
  }

  lemma AllProtectedWritable(fields: seq<Field>)
    requires AllProtected(fields)
    ensures AllWritable(fields)
  {
    forall i | 0 <= i < |fields| ensures Writable(fields[i]) {
      ProtectedWritable(fields[i]);
    }
  }

  lemma ProtectionParses(e: Entity, fields: seq<Field>, outer: seq<Field>, p: Protection)
    requires Carriable(e) && AllProtected(fields) && AllOuter(outer)
    ensures ParseEntity(WithProtection(e, fields, outer, p).ToBytes()) == Read(e, fields, outer, p)
  {
    AllProtectedWritable(fields);
    OuterFieldsWritable(outer);
    RestFieldsFacts(e, p);
    var n := WithProtection(e, fields, outer, p);
    assert n.headers == fields + OuterFields(outer) + RestFields(e, p);
    hide *;
    WritableConcat(fields, OuterFields(outer), RestFields(e, p));
    ParseProtected(e, fields, outer, p);
  }

  lemma ParseProtected(e: Entity, fields: seq<Field>, outer: seq<Field>, p: Protection)
    requires AllWritable(WithProtection(e, fields, outer, p).headers)
    ensures ParseEntity(WithProtection(e, fields, outer, p).ToBytes()) == Read(e, fields, outer, p)
  {
    ParseSerialized(WithProtection(e, fields, outer, p));
  }

  lemma WritableConcat(a: seq<Field>, b: seq<Field>, c: seq<Field>)
    requires AllWritable(a) && AllWritable(b) && AllWritable(c)
    ensures AllWritable(a + b + c)
  {
  }

  /** What the reader filters out of the protected entity's headers. */
  lemma ProtectionFilters(e: Entity, fields: seq<Field>, outer: seq<Field>, p: Protection)
    requires Carriable(e) && AllProtected(fields) && AllOuter(outer)
    ensures Protected(Read(e, fields, outer, p).headers) == fields
    ensures OuterPairs(Read(e, fields, outer, p).headers) == outer
  {
    ProtectedFilters(fields);
    OuterFilters(outer);
    RestFieldsFacts(e, p);
    OrdinaryFilters(RestFields(e, p));
    var a, b, c := TrimValues(fields), TrimValues(OuterFields(outer)), TrimValues(RestFields(e, p));
    TrimValuesConcat(fields + OuterFields(outer), RestFields(e, p));
    TrimValuesConcat(fields, OuterFields(outer));
    assert Read(e, fields, outer, p).headers == a + b + c;
    hide *;
    ProtectedConcat(a + b, c);
    ProtectedConcat(a, b);
    OuterPairsConcat(a + b, c);
    OuterPairsConcat(a, b);
    EmptySides(fields);
    EmptySides(outer);
  }

  lemma EmptySides(s: seq<Field>)
    ensures s + [] == s && [] + s == s
  {
  }

  lemma ProtectionType(e: Entity, fields: seq<Field>, outer: seq<Field>, p: Protection)
    requires Carriable(e) && AllProtected(fields) && AllOuter(outer)
    ensures Read(e, fields, outer, p).Header("content-type") == Some(Trim(SchemeValue(e, p)))
  {
    RestFieldsFacts(e, p);
    OuterFieldsWritable(outer);
    var head := fields + OuterFields(outer);
    forall i | 0 <= i < |head| ensures !SameIgnoringCase(head[i].0, "content-type") {
      KindsDisjoint(head[i]);
      OuterName(head[i]);
    }
    FirstFieldConcat(head, RestFields(e, p), "content-type");
    FirstFieldOfTrimmed(head + RestFields(e, p), "content-type");
  }

  /** Reading a protected entity returns the protected fields in order, the chosen scheme
      and the outer list; what is left is to remove the display element. */
  lemma UnprotectProtected(e: Entity, fields: seq<Field>, outer: seq<Field>, p: Protection, boundary: string)
    requires Protectable(e) && AllProtected(fields) && AllOuter(outer)
    ensures Unprotect(WithProtection(e, fields, outer, p).ToBytes(), boundary)
         == Some(ProtectedHeaders(fields, Scheme(p), outer,
                                  Lossy(StripLegacyDisplay(Read(e, fields, outer, p), TypeRead(e, p), boundary))))
  {
    ProtectionParses(e, fields, outer, p);
    ProtectionFilters(e, fields, outer, p);
    ProtectionType(e, fields, outer, p);
    SchemeValueParses(e, p);
    hide StripLegacyDisplay, Read, TypeRead, WithProtection, ParseEntity, Protected, OuterPairs, SchemeOf;
  }
}
