/** When the marking that header protection adds to a content type can be read
    (crates/mw-crypto/src/mime.rs). */
module OpenContentType {
  import opened Wrappers
  import opened Text
  import opened Utf8
  import opened MimeEntity
  import opened HeaderProtection
  import opened HeaderProtectionRoundTrip
  import CT = ContentType

  lemma {:induction false} EscapedOnlyInQuotes(s: CT.Scan, text: string)
    requires s.escaped ==> s.quoted
    ensures CT.Run(s, text).escaped ==> CT.Run(s, text).quoted
    decreases |text|
  {
    if text != "" {
      EscapedOnlyInQuotes(CT.Step(s, text[0]), text[1..]);
    }
  }

  lemma {:induction false} RunInQuotes(s: CT.Scan, text: string)
    requires s.quoted && !s.escaped && '"' !in text && '\\' !in text
    ensures CT.Run(s, text) == s.(cur := s.cur + text)
    decreases |text|
  {
    if text == "" {
      assert s.cur + "" == s.cur;
    } else {
      assert text[0] in text;
      RunInQuotes(s.(cur := s.cur + [text[0]]), text[1..]);
      assert s.cur + [text[0]] + text[1..] == s.cur + text;
    }
  }

  /** Everything appended to an open value lands in its last piece. */
  lemma RunAppendOpen(s: CT.Scan, word: string)
    requires s.quoted && CT.Plain(word)
    ensures
      var added := "; hp=" + "\"" + word + "\"";
      CT.Run(s, added).out == s.out && CT.Run(s, added).cur == s.cur + added
  {
    var s1 := s.(cur := s.cur + ";", escaped := false);
    var s2 := s1.(cur := s1.cur + " hp=");
    var s3 := s2.(cur := s2.cur + "\"", quoted := false);
    var s4 := s3.(cur := s3.cur + word);
    CT.RunOne(s, ';', " hp=" + ("\"" + (word + "\"")));
    CT.RunOne(s2, '"', word + "\"");
    CT.RunOne(s4, '"', "");
    RunInQuotes(s1, " hp=");
    CT.RunPlain(s3, word);
    CT.RunConcat(s1, " hp=", "\"" + (word + "\""));
    CT.RunConcat(s3, word, "\"");
    AppendedAtOnce(s.cur, word);
  }

  lemma AppendedAtOnce(cur: string, word: string)
    ensures "; hp=" + "\"" + word + "\"" == ";" + (" hp=" + ("\"" + (word + "\"")))
    ensures cur + ";" + " hp=" + "\"" + word + "\"" == cur + ("; hp=" + "\"" + word + "\"")
  {
    assert "; hp=" == ";" + " hp=";
  }

  lemma {:induction false} TrimStartKeeps(s: string, c: char)
    requires c in s && !IsWhitespace(c)
    ensures c in TrimStart(s)
    decreases |s|
  {
    if IsWhitespace(s[0]) {
      assert s == [s[0]] + s[1..];
      TrimStartKeeps(s[1..], c);
    }
  }

  lemma {:induction false} TrimEndKeeps(s: string, c: char)
    requires c in s && !IsWhitespace(c)
    ensures c in TrimEnd(s)
    decreases |s|
  {
    if IsWhitespace(s[|s| - 1]) {
      assert s == s[..|s| - 1] + [s[|s| - 1]];
      TrimEndKeeps(s[..|s| - 1], c);
    }
  }

  lemma NameWithSemicolon(s: string, name: string)
    requires ';' in s && ';' !in name
    ensures !SameIgnoringCase(Lower(Trim(s)), name)
  {
    TrimStartKeeps(s, ';');
    TrimEndKeeps(TrimStart(s), ';');
    var i :| 0 <= i < |Trim(s)| && Trim(s)[i] == ';';
    assert Lower(Lower(Trim(s)))[i] == ';';
    if i < |name| {
      assert name[i] in name;
    }
  }

  /** The piece that swallowed the marking names nothing that it did not name before. */
  lemma SwallowedPart(cur: string, word: string, name: string)
    requires ';' !in name && CT.FirstParam(CT.Params([cur]), name) == None
    ensures CT.FirstParam(CT.Params([cur + ("; hp=" + "\"" + word + "\"")]), name) == None
  {
    var part := cur + ("; hp=" + "\"" + word + "\"");
    if '=' in cur {
      SplitOnceParts(cur, '=');
      var n, v := SplitOnce(cur, '=').value.0, SplitOnce(cur, '=').value.1;
      assert part == n + ['='] + (v + ("; hp=" + "\"" + word + "\""));
      SplitOnceAfter(n, '=', v + ("; hp=" + "\"" + word + "\""));
      OneParamOf(cur);
    } else {
      assert part == (cur + "; hp") + ['='] + ("\"" + word + "\"");
      SplitOnceAfter(cur + "; hp", '=', "\"" + word + "\"");
      NameWithSemicolon(cur + "; hp", name);
    }
    OneParamOf(part);
  }

  lemma OneParamOf(part: string)
    requires '=' in part
    ensures CT.Params([part])
         == [(Lower(Trim(SplitOnce(part, '=').value.0)), CT.Unquote(Trim(SplitOnce(part, '=').value.1)))]
  {
    assert [part][1..] == [];
  }

  lemma {:induction false} FirstParamConcat(a: seq<(string, string)>, b: seq<(string, string)>, name: string)
    ensures CT.FirstParam(a + b, name)
         == if CT.FirstParam(a, name).Some? then CT.FirstParam(a, name) else CT.FirstParam(b, name)
    decreases |a|
  {
    if a == [] {
      assert a + b == b;
    } else {
      assert (a + b)[1..] == a[1..] + b;
      FirstParamConcat(a[1..], b, name);
    }
  }

  /** An open value swallows the marking: no parameter is added under any name. */
  lemma SchemeSwallowed(value: string, word: string, name: string)
    requires !CT.Closed(value) && CT.Plain(word) && ';' !in name && CT.Parse(value).Param(name) == None
    ensures CT.Parse(CT.AddParam(value, "hp", "\"" + word + "\"")).Param(name) == None
  {
    var s, added := CT.Run(CT.START, value), "; hp=" + "\"" + word + "\"";
    EscapedOnlyInQuotes(CT.START, value);
    RunAppendOpen(s, word);
    CT.RunConcat(CT.START, value, added);
    assert CT.AddParam(value, "hp", "\"" + word + "\"") == value + added;
    var s' := CT.Run(s, added);
    CT.ParseOfRun(value, s);
    CT.ParseOfRun(value + added, s');
    if s.out != [] {
      hide CT.Parse, CT.Run, SameIgnoringCase, CT.Params, CT.FirstParam;
      CT.ParamsConcat(s.out[1..], [s.cur]);
      CT.ParamsConcat(s.out[1..], [s.cur + added]);
      FirstParamConcat(CT.Params(s.out[1..]), CT.Params([s.cur]), name);
      FirstParamConcat(CT.Params(s.out[1..]), CT.Params([s.cur + added]), name);
      SwallowedPart(s.cur, word, name);
    }
  }

  /** For a payload without a marking, the marking that is added can be read exactly when
      the content type does not end inside a quoted string. */
  lemma SchemeReadIffClosed(e: Entity, p: Protection)
    requires CT.Parse(TypeValue(e)).Param("hp") == None
    ensures CT.Parse(SchemeValue(e, p)).Param("hp") == Some(Scheme(p)) <==> CT.Closed(TypeValue(e))
  {
    SchemeIsPlainWord(p);
    if CT.Closed(TypeValue(e)) {
      SchemeQuoted(p);
      HpName();
      CT.ParseAppend(TypeValue(e), "hp", "\"" + Scheme(p) + "\"");
      FirstParamAppend(CT.Parse(TypeValue(e)).params, ("hp", Scheme(p)), "hp");
    } else {
      SchemeSwallowed(TypeValue(e), Scheme(p), "hp");
    }
  }

  /** A content type without a protection marking of either generation. */
  predicate Unmarked(value: string) {
    CT.Parse(value).Param("hp") == None && CT.Parse(value).Param("protected-headers") == None
  }

  /** Reading the protected entity returns the chosen scheme if and only if the payload's
      content type does not end inside a quoted string; otherwise no protection is found
      at all. */
  lemma UnprotectsIffClosed(e: Entity, fields: seq<Field>, outer: seq<Field>, p: Protection, boundary: string)
    requires Carriable(e) && Unmarked(TypeValue(e)) && AllProtected(fields) && AllOuter(outer)
    ensures
      var r := Unprotect(WithProtection(e, fields, outer, p).ToBytes(), boundary);
      && (r.Some? <==> CT.Closed(TypeValue(e)))
      && (r.Some? ==> r.value.scheme == Scheme(p) && r.value.headers == fields && r.value.outer == outer)
  {
    hide *;
    if CT.Closed(TypeValue(e)) {
      ClosedIsProtectable(e);
      UnprotectProtected(e, fields, outer, p, boundary);
    } else {
      OpenSchemeNone(e, p);
      ProtectionParses(e, fields, outer, p);
      ProtectionType(e, fields, outer, p);
      NothingToUnprotect(WithProtection(e, fields, outer, p).ToBytes(), boundary, Read(e, fields, outer, p),
                         Trim(SchemeValue(e, p)));
    }
  }

  lemma ClosedIsProtectable(e: Entity)
    requires Carriable(e) && Unmarked(TypeValue(e)) && CT.Closed(TypeValue(e))
    ensures Protectable(e)
  {
  }

  lemma OpenSchemeNone(e: Entity, p: Protection)
    requires Carriable(e) && Unmarked(TypeValue(e)) && !CT.Closed(TypeValue(e))
    ensures SchemeOf(CT.Parse(Trim(SchemeValue(e, p)))) == None
  {
    SchemeIsPlainWord(p);
    NoSchemeAdded(TypeValue(e), Scheme(p));
    CarriableType(e);
    hide *;
    SchemeTrim(e, p);
    SchemeIsAdded(e, p);
  }

  lemma CarriableType(e: Entity)
    requires Carriable(e)
    ensures AllWritable(e.headers)
  {
  }

  lemma SchemeIsAdded(e: Entity, p: Protection)
    ensures SchemeValue(e, p) == CT.AddParam(TypeValue(e), "hp", "\"" + Scheme(p) + "\"")
  {
  }

  lemma NoSchemeAdded(value: string, word: string)
    requires CT.Plain(word) && Unmarked(value) && !CT.Closed(value)
    ensures SchemeOf(CT.Parse(CT.AddParam(value, "hp", "\"" + word + "\""))) == None
  {
    SchemeSwallowed(value, word, "hp");
    SchemeSwallowed(value, word, "protected-headers");
    hide CT.Parse, CT.Closed, CT.FirstParam, CT.AddParam, CT.Plain;
  }

  lemma SchemeTrim(e: Entity, p: Protection)
    requires AllWritable(e.headers)
    ensures CT.Parse(Trim(SchemeValue(e, p))) == CT.Parse(SchemeValue(e, p))
  {
    SchemeValueWritable(e, p);
    assert !IsWhitespace('"');
    hide SchemeValue, CT.Parse, Trim, TrimStart;
    TrimOfClosedEnd(SchemeValue(e, p));
    CT.ParseIgnoresLeadingBlanks(SchemeValue(e, p));
  }

  lemma NothingToUnprotect(payload: Bytes, boundary: string, r: Entity, value: string)
    requires ParseEntity(payload) == r && r.Header("content-type") == Some(value) && SchemeOf(CT.Parse(value)) == None
    ensures Unprotect(payload, boundary) == None
  {
    hide ParseEntity, SchemeOf, CT.Parse;
  }

  /** Such a value: the quote is never closed. */
  const OPEN_TYPE: string := "text/plain; name=\"x"

  lemma RunWord(s: CT.Scan, word: string, c: char, rest: string)
    requires CT.Plain(word) && !s.quoted && !s.escaped
    ensures CT.Run(s, word + ([c] + rest)) == CT.Run(CT.Step(s.(cur := s.cur + word), c), rest)
  {
    CT.RunConcat(s, word, [c] + rest);
    CT.RunPlain(s, word);
    CT.RunOne(s.(cur := s.cur + word), c, rest);
  }

  lemma OpenTypeRuns(mime: string, name: string, value: string)
    requires CT.Plain(mime) && CT.Plain(name) && '"' !in value && '\\' !in value
    ensures CT.Run(CT.START, mime + ([';'] + (name + (['"'] + value))))
         == CT.Scan([mime], name + ['"'] + value, true, false)
  {
    var s1, s2 := CT.Scan([mime], "", false, false), CT.Scan([mime], name + ['"'], true, false);
    assert CT.START.(cur := CT.START.cur + mime) == CT.Scan([], mime, false, false) && [] + [mime] == [mime];
    assert CT.Step(CT.Scan([], mime, false, false), ';') == s1;
    assert s1.(cur := s1.cur + name) == CT.Scan([mime], name, false, false);
    assert CT.Step(CT.Scan([mime], name, false, false), '"') == s2;
    hide *;
    RunWord(CT.START, mime, ';', name + (['"'] + value));
    RunWord(s1, name, '"', value);
    RunInQuotes(s2, value);
  }

  /** An open value without a marking, to which nothing can be added that is read. */
  lemma OpenTypeIsOpen()
    ensures !CT.Closed(OPEN_TYPE) && Unmarked(OPEN_TYPE)
  {
    OpenTypeWords();
    OpenTypePieces();
    hide *;
    OpenTypeRuns("text/plain", " name=", "x");
    OpenScan(OPEN_TYPE, "text/plain", " name" + ['='] + "\"x");
    OpenTypeParams();
    UnmarkedIs(OPEN_TYPE);
  }

  lemma OpenTypePieces()
    ensures OPEN_TYPE == "text/plain" + ([';'] + (" name=" + (['"'] + "x")))
    ensures " name=" + ['"'] + "x" == " name" + ['='] + "\"x"
    ensures '"' !in "x" && '\\' !in "x"
  {
  }

  lemma OpenScan(value: string, mime: string, part: string)
    requires CT.Run(CT.START, value) == CT.Scan([mime], part, true, false)
    ensures !CT.Closed(value) && CT.Parse(value).params == CT.Params([] + [part])
  {
    CT.ParseOfRun(value, CT.Scan([mime], part, true, false));
    assert [mime][1..] == [];
    hide CT.Run, CT.Params, CT.Parse;
  }

  lemma UnmarkedIs(value: string)
    ensures Unmarked(value)
       <==> && CT.FirstParam(CT.Parse(value).params, "hp") == None
            && CT.FirstParam(CT.Parse(value).params, "protected-headers") == None
  {
    hide CT.Parse, CT.FirstParam;
  }

  lemma OpenTypeWords()
    ensures CT.Plain("text/plain") && CT.Plain(" name=")
  {
  }

  lemma OpenTypeParams()
    ensures CT.FirstParam(CT.Params([] + [" name" + ['='] + "\"x"]), "hp") == None
    ensures CT.FirstParam(CT.Params([] + [" name" + ['='] + "\"x"]), "protected-headers") == None
  {
    var part := " name" + ['='] + "\"x";
    SplitOnceAfter(" name", '=', "\"x");
    OneParamOf(part);
    assert [] + [part] == [part];
    TrimOfName();
    assert |Lower(Lower("name"))| == 4 && |Lower("hp")| == 2 && |Lower("protected-headers")| == 17;
    hide SplitOnce, CT.Params, Trim, CT.Unquote;
    OnlyParam(CT.Params([part])[0], "hp");
    OnlyParam(CT.Params([part])[0], "protected-headers");
  }

  lemma OnlyParam(x: (string, string), name: string)
    ensures CT.FirstParam([x], name) == if SameIgnoringCase(x.0, name) then Some(x.1) else None
  {
    assert [x][1..] == [];
  }

  lemma TrimOfName()
    ensures Trim(" name") == "name"
  {
    assert " name"[1..] == "name";
    assert TrimStart(" name") == TrimStart("name") == "name";
  }

  lemma SchemeIsPlainWord(p: Protection)
    ensures CT.Plain(Scheme(p))
  {
  }
}
