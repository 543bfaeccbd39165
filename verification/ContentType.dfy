/** `Content-Type` values: quoting, splitting at `;` outside quotes, unquoting
    (crates/mw-crypto/src/mime.rs). */
module ContentType {
  import opened Wrappers
  import opened Text

  datatype MediaType = MediaType(mime: string, params: seq<(string, string)>) {
    function Param(name: string): Option<string> {
      FirstParam(params, name)
    }
  }

  function FirstParam(params: seq<(string, string)>, name: string): Option<string> {
    if params == [] then None
    else if SameIgnoringCase(params[0].0, name) then Some(params[0].1)
    else FirstParam(params[1..], name)
  }

  // -- quoting -----------------------------------------------------------------

  /** `str::replace` of one character. */
  function ReplaceChar(s: string, c: char, with: string): string {
    if s == "" then "" else (if s[0] == c then with else [s[0]]) + ReplaceChar(s[1..], c, with)
  }

  function Quote(v: string): string {
    "\"" + ReplaceChar(ReplaceChar(v, '\\', "\\\\"), '"', "\\\"") + "\""
  }

  /** Drops each escaping backslash. */
  function Unescape(s: string, escaped: bool): string {
    if s == "" then ""
    else if escaped then [s[0]] + Unescape(s[1..], false)
    else if s[0] == '\\' then Unescape(s[1..], true)
    else [s[0]] + Unescape(s[1..], false)
  }

  function Unquote(v: string): string {
    if |v| >= 2 && v[0] == '"' && v[|v| - 1] == '"' then Unescape(v[1..|v| - 1], false) else v
  }

  // -- splitting: one character at a time --------------------------------------

  datatype Scan = Scan(out: seq<string>, cur: string, quoted: bool, escaped: bool)

  function Step(s: Scan, c: char): Scan {
    if s.escaped then s.(cur := s.cur + [c], escaped := false)
    else if c == '\\' && s.quoted then s.(cur := s.cur + [c], escaped := true)
    else if c == '"' then s.(cur := s.cur + [c], quoted := !s.quoted)
    else if c == ';' && !s.quoted then s.(out := s.out + [s.cur], cur := "")
    else s.(cur := s.cur + [c])
  }

  function Run(s: Scan, text: string): Scan
    decreases |text|
  {
    if text == "" then s else Run(Step(s, text[0]), text[1..])
  }

  const START := Scan([], "", false, false)

  function Parts(s: Scan): seq<string> {
    if Trim(s.cur) != "" || s.out == [] then s.out + [s.cur] else s.out
  }

  /** The value cut at every `;` outside quotes. */
  function Split(value: string): seq<string> {
    Parts(Run(START, value))
  }

  method SplitParams(value: string) returns (out: seq<string>)
    ensures out == Split(value)
  {
    out := [];
    var cur, quoted, escaped := "", false, false;
    for i := 0 to |value|
      invariant Run(Scan(out, cur, quoted, escaped), value[i..]) == Run(START, value)
    {
      var c := value[i];
      assert value[i..][1..] == value[i + 1..];
      if escaped {
        cur, escaped := cur + [c], false;
        continue;
      }
      if c == '\\' && quoted {
        cur, escaped := cur + [c], true;
      } else if c == '"' {
        quoted, cur := !quoted, cur + [c];
      } else if c == ';' && !quoted {
        out, cur := out + [cur], "";
      } else {
        cur := cur + [c];
      }
    }
    if Trim(cur) != "" || out == [] {
      out := out + [cur];
    }
  }

  // -- parsing -----------------------------------------------------------------

  function ParamOf(part: string): Option<(string, string)> {
    match SplitOnce(part, '=')
    case None => None
    case Some((n, v)) => Some((Lower(Trim(n)), Unquote(Trim(v))))
  }

  function Params(parts: seq<string>): seq<(string, string)> {
    if parts == [] then [] else
      (match ParamOf(parts[0]) case None => [] case Some(p) => [p]) + Params(parts[1..])
  }

  function Parse(value: string): MediaType {
    var parts := Split(value);
    if parts == [] then MediaType("", []) else MediaType(Lower(Trim(parts[0])), Params(parts[1..]))
  }

  // -- laws of quoting ---------------------------------------------------------

  function EscapeChar(c: char): string {
    if c == '\\' || c == '"' then ['\\', c] else [c]
  }

  function Escape(v: string): string {
    if v == "" then "" else EscapeChar(v[0]) + Escape(v[1..])
  }

  lemma ReplaceCharConcat(s: string, t: string, c: char, with: string)
    ensures ReplaceChar(s + t, c, with) == ReplaceChar(s, c, with) + ReplaceChar(t, c, with)
    decreases |s|
  {
    if s == "" {
      assert s + t == t;
    } else {
      assert (s + t)[1..] == s[1..] + t;
      ReplaceCharConcat(s[1..], t, c, with);
    }
  }

  /** The two replacements in order are one-pass escaping. */
  lemma {:induction false} TwoReplacementsEscape(v: string)
    ensures ReplaceChar(ReplaceChar(v, '\\', "\\\\"), '"', "\\\"") == Escape(v)
    decreases |v|
  {
    if v != "" {
      TwoReplacementsEscape(v[1..]);
      var first := if v[0] == '\\' then "\\\\" else [v[0]];
      ReplaceCharConcat(first, ReplaceChar(v[1..], '\\', "\\\\"), '"', "\\\"");
      assert ReplaceChar(first[1..], '"', "\\\"") == first[1..];
    }
  }

  lemma {:induction false} UnescapeOfEscape(v: string)
    ensures Unescape(Escape(v), false) == v
    decreases |v|
  {
    if v != "" {
      UnescapeOfEscape(v[1..]);
      var e := Escape(v);
      if v[0] == '\\' || v[0] == '"' {
        assert e[1..] == [v[0]] + Escape(v[1..]) && e[1..][1..] == Escape(v[1..]);
      } else {
        assert e[1..] == Escape(v[1..]);
      }
    }
  }

  /** Unquoting undoes quoting, for every string. */
  lemma UnquoteOfQuote(v: string)
    ensures Unquote(Quote(v)) == v
  {
    TwoReplacementsEscape(v);
    UnescapeOfEscape(v);
    var q := Quote(v);
    assert q[1..|q| - 1] == Escape(v);
  }

  /** A quoted string's content as others may write it: each character plain or escaped
      (section 3.2.4 of RFC 5322). */
  datatype Quoted = Quoted(c: char, escaped: bool)

  predicate Writable(cs: seq<Quoted>) {
    forall i | 0 <= i < |cs| :: cs[i].c == '\\' ==> cs[i].escaped
  }

  function AsWritten(cs: seq<Quoted>): string {
    if cs == [] then "" else (if cs[0].escaped then ['\\', cs[0].c] else [cs[0].c]) + AsWritten(cs[1..])
  }

  function AsMeant(cs: seq<Quoted>): string {
    if cs == [] then "" else [cs[0].c] + AsMeant(cs[1..])
  }

  lemma {:induction false} UnescapeOfWritten(cs: seq<Quoted>)
    requires Writable(cs)
    ensures Unescape(AsWritten(cs), false) == AsMeant(cs)
    decreases |cs|
  {
    if cs != [] {
      UnescapeOfWritten(cs[1..]);
      var rest := AsWritten(cs[1..]);
      assert ([cs[0].c] + rest)[1..] == rest && (['\\', cs[0].c] + rest)[1..] == [cs[0].c] + rest;
    }
  }

  /** A quoted string gives its characters, whichever of them are escaped; a value that is not
      in quotes stays as it is. */
  lemma UnquoteIs(cs: seq<Quoted>, v: string)
    requires Writable(cs) && !("\"" <= v && |v| >= 2 && v[|v| - 1] == '"')
    ensures Unquote("\"" + AsWritten(cs) + "\"") == AsMeant(cs) && Unquote(v) == v
  {
    UnescapeOfWritten(cs);
    var q := "\"" + AsWritten(cs) + "\"";
    assert q[1..|q| - 1] == AsWritten(cs);
  }

  // -- laws of splitting -------------------------------------------------------

  lemma {:induction false} RunConcat(s: Scan, a: string, b: string)
    ensures Run(s, a + b) == Run(Run(s, a), b)
    decreases |a|
  {
    if a == "" {
      assert a + b == b;
    } else {
      assert (a + b)[0] == a[0] && (a + b)[1..] == a[1..] + b;
      RunConcat(Step(s, a[0]), a[1..], b);
    }
  }

  /** Text without quotes and semicolons. */
  predicate Plain(s: string) {
    '"' !in s && ';' !in s
  }

  lemma {:induction false} RunPlain(s: Scan, a: string)
    requires Plain(a) && !s.quoted && !s.escaped
    ensures Run(s, a) == s.(cur := s.cur + a)
    decreases |a|
  {
    if a == "" {
      assert s.cur + "" == s.cur;
    } else {
      RunPlain(s.(cur := s.cur + [a[0]]), a[1..]);
      assert s.cur + [a[0]] + a[1..] == s.cur + a;
    }
  }

  lemma RunEscapedChar(s: Scan, c: char)
    requires s.quoted && !s.escaped
    ensures Run(s, EscapeChar(c)) == s.(cur := s.cur + EscapeChar(c))
  {
    if c == '\\' || c == '"' {
      assert ['\\', c][1..] == [c];
      RunOne(s, '\\', [c]);
      RunOne(Step(s, '\\'), c, "");
      assert s.cur + ['\\'] + [c] == s.cur + ['\\', c];
    } else {
      RunOne(s, c, "");
    }
  }

  lemma RunOne(s: Scan, c: char, rest: string)
    ensures Run(s, [c] + rest) == Run(Step(s, c), rest)
  {
    assert ([c] + rest)[1..] == rest;
  }

  lemma {:induction false} RunEscaped(s: Scan, v: string)
    requires s.quoted && !s.escaped
    ensures Run(s, Escape(v)) == s.(cur := s.cur + Escape(v))
    decreases |v|
  {
    if v == "" {
      assert s.cur + "" == s.cur;
    } else {
      var head, tail := EscapeChar(v[0]), Escape(v[1..]);
      assert Escape(v) == head + tail;
      RunEscapedChar(s, v[0]);
      hide *;
      RunConcat(s, head, tail);
      RunEscaped(s.(cur := s.cur + head), v[1..]);
      assert (s.cur + head) + tail == s.cur + (head + tail);
    }
  }

  /** A quoted string passes through the splitter whole, whatever it holds. */
  lemma RunQuoted(s: Scan, v: string)
    requires !s.quoted && !s.escaped
    ensures Run(s, Quote(v)) == s.(cur := s.cur + Quote(v))
  {
    TwoReplacementsEscape(v);
    var e := Escape(v);
    assert Quote(v) == "\"" + (e + "\"");
    var open := s.(cur := s.cur + "\"", quoted := true);
    RunOne(s, '"', e + "\"");
    assert Step(s, '"') == open;
    var inner := open.(cur := open.cur + e);
    RunOne(inner, '"', "");
    hide *;
    RunEscaped(open, v);
    RunConcat(open, e, "\"");
    assert ((s.cur + "\"") + e) + "\"" == s.cur + ("\"" + (e + "\""));
  }

  lemma RunSemicolon(s: Scan)
    requires !s.quoted && !s.escaped
    ensures Run(s, ";") == s.(out := s.out + [s.cur], cur := "")
  {
    assert ";"[1..] == "";
  }

  // -- composing and parsing values --------------------------------------------

  /** A value with one more parameter. */
  function AddParam(value: string, name: string, raw: string): string {
    value + "; " + name + "=" + raw
  }

  /** A value that does not end inside a quoted string. */
  predicate Closed(value: string) {
    !Run(START, value).quoted && !Run(START, value).escaped
  }

  lemma ParamsConcat(a: seq<string>, b: seq<string>)
    ensures Params(a + b) == Params(a) + Params(b)
    decreases |a|
  {
    if a == [] {
      assert a + b == b;
    } else {
      assert (a + b)[1..] == a[1..] + b;
      ParamsConcat(a[1..], b);
    }
  }

  /** What a `name=value` part reads as. */
  lemma ParamOfPart(name: string, raw: string)
    requires name != "" && Trimmed(name) && '=' !in name && Trimmed(raw)
    ensures ParamOf(" " + name + "=" + raw) == Some((Lower(name), Unquote(raw)))
  {
    var part := " " + name + "=" + raw;
    assert part == (" " + name) + ['='] + raw;
    SplitOnceAfter(" " + name, '=', raw);
    assert (" " + name)[1..] == name;
    TrimOfTrimmed(raw);
    TrimOfTrimmed(name);
  }

  lemma ParamsOne(part: string, p: (string, string))
    requires ParamOf(part) == Some(p)
    ensures Params([part]) == [p]
  {
    assert [part][1..] == [];
  }

  lemma PartsOfSplit(s: Scan)
    requires s.out != []
    ensures Parts(s) != [] && Parts(s)[0] == s.out[0]
    ensures Params(Parts(s)[1..]) == Params(s.out[1..] + [s.cur])
  {
    if Trim(s.cur) == "" {
      BlankPart(s.cur);
      ParamsConcat(s.out[1..], [s.cur]);
      assert [s.cur][1..] == [];
    } else {
      assert Parts(s)[1..] == s.out[1..] + [s.cur];
    }
  }

  lemma {:induction false} BlankStart(s: string)
    requires TrimStart(s) == ""
    ensures '=' !in s
    decreases |s|
  {
    if s != "" {
      BlankStart(s[1..]);
      assert s == [s[0]] + s[1..];
    }
  }

  lemma BlankPart(s: string)
    requires Trim(s) == ""
    ensures ParamOf(s) == None
  {
    TrimStartResult(s);
    if TrimStart(s) == "" {
      BlankStart(s);
    } else {
      TrimEndKeepsFirst(TrimStart(s));
    }
  }

  lemma {:induction false} TrimEndKeepsFirst(s: string)
    requires s != "" && !IsWhitespace(s[0])
    ensures TrimEnd(s) != "" && TrimEnd(s)[0] == s[0]
    decreases |s|
  {
    if IsWhitespace(s[|s| - 1]) {
      TrimEndKeepsFirst(s[..|s| - 1]);
    }
  }

  ghost predicate ValuePart(raw: string) {
    raw != "" && Trimmed(raw) && (Plain(raw) || exists v :: raw == Quote(v))
  }

  predicate NamePart(name: string) {
    name != "" && Trimmed(name) && Plain(name) && '=' !in name
  }

  lemma RunValue(s: Scan, raw: string)
    requires ValuePart(raw) && !s.quoted && !s.escaped
    ensures Run(s, raw) == s.(cur := s.cur + raw)
  {
    if Plain(raw) {
      RunPlain(s, raw);
    } else {
      var v :| raw == Quote(v);
      RunQuoted(s, v);
    }
  }

  lemma RunAppend(value: string, name: string, raw: string)
    requires Closed(value) && NamePart(name) && ValuePart(raw)
    ensures
      var s := Run(START, value);
      Run(START, AddParam(value, name, raw)) == Scan(s.out + [s.cur], " " + name + "=" + raw, false, false)
  {
    hide *;
    var head := " " + name + "=";
    var s0 := Run(START, value);
    var s1 := s0.(out := s0.out + [s0.cur], cur := "");
    ClosedRun(value);
    AddParamParts(value, name, raw);
    RunConcat(START, value, ";" + (head + raw));
    RunConcat(s0, ";", head + raw);
    RunSemicolon(s0);
    RunConcat(s1, head, raw);
    HeadIsPlain(name);
    RunPlain(s1, head);
    assert "" + head == head;
    RunValue(s1.(cur := head), raw);
  }

  lemma ClosedRun(value: string)
    requires Closed(value)
    ensures !Run(START, value).quoted && !Run(START, value).escaped
  {
  }

  lemma AddParamParts(value: string, name: string, raw: string)
    ensures AddParam(value, name, raw) == value + (";" + ((" " + name + "=") + raw))
  {
    assert "; " == ";" + " ";
  }

  lemma HeadIsPlain(name: string)
    requires NamePart(name)
    ensures Plain(" " + name + "=")
  {
  }

  /** Appending `; name=value` to a closed value adds one parameter at the end and
      changes nothing else, when the added value is plain or quoted. */
  lemma ParseAppend(value: string, name: string, raw: string)
    requires Closed(value) && NamePart(name) && ValuePart(raw)
    ensures Closed(AddParam(value, name, raw))
    ensures Parse(AddParam(value, name, raw))
         == MediaType(Parse(value).mime, Parse(value).params + [(Lower(name), Unquote(raw))])
  {
    RunAppend(value, name, raw);
    ParamOfPart(name, raw);
    var s, part, p := Run(START, value), " " + name + "=" + raw, (Lower(name), Unquote(raw));
    var full := AddParam(value, name, raw);
    hide Run, AddParam, ParamOf, Parse, Params, Trim, Plain, Quote;
    ParseOfRun(value, s);
    ParseOfRun(full, Scan(s.out + [s.cur], part, false, false));
    NextParams(s.out, s.cur, part, p);
  }

  /** The parameters when one more part follows. */
  lemma NextParams(out: seq<string>, cur: string, part: string, p: (string, string))
    requires ParamOf(part) == Some(p)
    ensures
      var parts := (out + [cur])[1..] + [part];
      Params(parts) == (if out == [] then [] else Params(out[1..] + [cur])) + [p]
  {
    hide ParamOf;
    ParamsOne(part, p);
    if out == [] {
      assert (out + [cur])[1..] + [part] == [part];
    } else {
      assert (out + [cur])[1..] == out[1..] + [cur];
      ParamsConcat(out[1..] + [cur], [part]);
    }
  }

  /** A quoted string is a value part. */
  lemma QuoteIsValuePart(v: string)
    ensures ValuePart(Quote(v))
  {
  }

  /** Parsing in terms of the scan's final state. */
  lemma ParseOfRun(value: string, s: Scan)
    requires Run(START, value) == s
    ensures s.out == [] ==> Parse(value) == MediaType(Lower(Trim(s.cur)), [])
    ensures s.out != [] ==> Parse(value) == MediaType(Lower(Trim(s.out[0])), Params(s.out[1..] + [s.cur]))
  {
    if s.out == [] {
      assert Parts(s) == [s.cur] && [s.cur][1..] == [];
    } else {
      PartsOfSplit(s);
    }
  }

  /** A value without quotes and semicolons is a media type without parameters. */
  lemma PlainTypeParses(mime: string)
    requires Plain(mime) && Trimmed(mime)
    ensures Closed(mime) && Parse(mime) == MediaType(Lower(mime), [])
  {
    RunPlain(START, mime);
    assert "" + mime == mime;
    ParseOfRun(mime, Scan([], mime, false, false));
    TrimOfTrimmed(mime);
  }

  // -- blanks in front of a value ----------------------------------------------

  /** The scan with `pre` in front of its first piece. */
  function WithPrefix(pre: string, s: Scan): Scan {
    if s.out == [] then s.(cur := pre + s.cur) else s.(out := [pre + s.out[0]] + s.out[1..])
  }

  lemma StepWithPrefix(pre: string, s: Scan, c: char)
    ensures Step(WithPrefix(pre, s), c) == WithPrefix(pre, Step(s, c))
  {
    assert pre + (s.cur + [c]) == (pre + s.cur) + [c];
    if s.out != [] {
      assert ([pre + s.out[0]] + s.out[1..]) + [s.cur] == [pre + (s.out + [s.cur])[0]] + (s.out + [s.cur])[1..];
    }
  }

  lemma {:induction false} RunWithPrefix(pre: string, s: Scan, text: string)
    ensures Run(WithPrefix(pre, s), text) == WithPrefix(pre, Run(s, text))
    decreases |text|
  {
    if text != "" {
      StepWithPrefix(pre, s, text[0]);
      RunWithPrefix(pre, Step(s, text[0]), text[1..]);
    }
  }

  lemma {:induction false} TrimOfBlanksThen(pre: string, s: string)
    requires TrimStart(pre) == ""
    ensures Trim(pre + s) == Trim(s)
    decreases |pre|
  {
    if pre == "" {
      assert pre + s == s;
    } else {
      assert (pre + s)[1..] == pre[1..] + s;
      TrimOfBlanksThen(pre[1..], s);
    }
  }

  lemma {:induction false} BlanksArePlain(pre: string)
    requires TrimStart(pre) == ""
    ensures Plain(pre)
    decreases |pre|
  {
    if pre != "" {
      BlanksArePlain(pre[1..]);
      assert pre == [pre[0]] + pre[1..];
    }
  }

  lemma {:induction false} TrimStartCuts(v: string) returns (pre: string)
    ensures TrimStart(pre) == "" && v == pre + TrimStart(v)
    decreases |v|
  {
    if v != "" && IsWhitespace(v[0]) {
      var tail := TrimStartCuts(v[1..]);
      pre := [v[0]] + tail;
      assert pre[1..] == tail;
    } else {
      pre := "";
    }
  }

  /** Blanks in front of a value change nothing in what it means. */
  lemma ParseIgnoresLeadingBlanks(v: string)
    ensures Parse(TrimStart(v)) == Parse(v)
  {
    var pre := TrimStartCuts(v);
    var w := TrimStart(v);
    BlanksArePlain(pre);
    RunConcat(START, pre, w);
    RunPlain(START, pre);
    assert "" + pre == pre && pre + "" == pre;
    RunWithPrefix(pre, START, w);
    var s := Run(START, w);
    ParseOfRun(w, s);
    ParseOfRun(v, WithPrefix(pre, s));
    hide Parse, Run, Trim;
    TrimOfBlanksThen(pre, if s.out == [] then s.cur else s.out[0]);
    if s.out != [] {
      assert ([pre + s.out[0]] + s.out[1..])[1..] == s.out[1..];
    }
  }
}
