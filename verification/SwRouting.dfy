/** Which requests the service worker handles, and what it accepts from its cache
    (apps/web/public/sw.js). Parsing and printing JSON and the digest are parameters. */
module SwRouting {
  import opened Wrappers
  import opened Text
  import opened Utf8

  datatype Url = Url(origin: string, path: string, search: string)

  datatype Request = Request(verb: string, url: Url, mode: string)

  /** `stamp` is the time header as a number, 0 when it is absent. */
  datatype Response = Response(status: nat, stamp: real, contentType: string, tagged: bool, gated: bool, body: Bytes)

  datatype Json =
    | Null
    | Bool(b: bool)
    | Num(text: string)
    | Str(s: string)
    | Arr(items: seq<Json>)
    | Obj(fields: map<string, Json>)

  datatype Env = Env(origin: string, base: string, manifest: Option<map<string, string>>,
                     sha: Bytes -> string, parse: Bytes -> Option<Json>, render: Json -> Bytes)

  // -- routing -----------------------------------------------------------------

  /** Drops the deploy prefix. */
  function StripBase(env: Env, path: string): string {
    if env.base == "" || !(env.base <= path) then path else
      var rest := path[|env.base|..];
      if rest == "" then "/" else if rest[0] == '/' then rest else path
  }

  function ShellUrl(env: Env): string {
    env.base + "/"
  }

  predicate IsApiPath(p: string) {
    "/jmap/" <= p || "/api/" <= p
  }

  predicate IsShellNavigation(p: string) {
    p == "/" || p == "/index.html"
  }

  predicate IsCacheableApi(p: string, search: string) {
    search == "" && (p == "/api/sso/providers" || p == "/api/push/vapid")
  }

  predicate IsFont(p: string) {
    var l := Lower(p);
    EndsWith(l, ".woff") || EndsWith(l, ".woff2") || EndsWith(l, ".ttf") || EndsWith(l, ".otf")
  }

  predicate IsAnalyticsAsset(p: string) {
    "/assets/analytics/" <= p
  }

  predicate IsHashed(p: string) {
    "/assets/" <= p
  }

  predicate IsStaticAsset(p: string) {
    IsHashed(p) || ("/fonts/" <= p && IsFont(p))
  }

  datatype Strategy = Passthrough | NetworkFirst | CacheFirst | ShellFallback

  function ChooseStrategy(env: Env, r: Request): Strategy {
    if r.verb != "GET" || r.url.origin != env.origin then Passthrough else
      var p := StripBase(env, r.url.path);
      if IsApiPath(p) then (if IsCacheableApi(p, r.url.search) then NetworkFirst else Passthrough)
      else if r.mode == "navigate" then (if IsShellNavigation(p) then ShellFallback else Passthrough)
      else if IsAnalyticsAsset(p) then Passthrough
      else if IsStaticAsset(p) then CacheFirst
      else Passthrough
  }

  predicate IsLogout(env: Env, r: Request) {
    r.verb == "POST" && r.url.origin == env.origin
    && (StripBase(env, r.url.path) == "/api/logout" || StripBase(env, r.url.path) == "/api/sso/logout")
  }

  // -- limits ------------------------------------------------------------------

  const DAY: real := 86400000.0

  function MaxEntries(env: Env, s: Strategy): nat {
    match s
    case NetworkFirst => 8
    case CacheFirst =>
      var n := if env.manifest.None? then 0 else 2 * |env.manifest.value|;
      if n > 512 then n else 512
    case _ => 0
  }

  function MaxAge(s: Strategy): real {
    if s == NetworkFirst then DAY else 30.0 * DAY
  }

  predicate Limited(s: Strategy) {
    s == NetworkFirst || s == CacheFirst
  }

  predicate IsShellKey(env: Env, u: Url) {
    u.origin == env.origin && u.path == ShellUrl(env) && u.search == ""
  }

  /** The strategy a stored key belongs to. */
  function KeyStrategy(env: Env, u: Url): Strategy {
    ChooseStrategy(env, Request("GET", u, ""))
  }

  /** A stamp from the future is no stamp. */
  function StoredAt(res: Response, now: real): real {
    if res.stamp > now then 0.0 else res.stamp
  }

  predicate IsFresh(res: Response, s: Strategy, now: real) {
    now - StoredAt(res, now) <= MaxAge(s)
  }

  predicate ContainsHtml(contentType: string) {
    Find(Lower(contentType), "text/html").Some?
  }

  predicate IsStorable(r: Request, res: Response) {
    res.status == 200 && !(r.mode != "navigate" && ContainsHtml(res.contentType))
  }

  predicate IsShellDocument(env: Env, r: Request, res: Response) {
    res.status == 200 && !res.tagged && IsShellKey(env, r.url) && ContainsHtml(res.contentType)
  }

  // -- integrity ---------------------------------------------------------------

  /** `String.replace` with a text: the first occurrence only. */
  function ReplaceFirst(s: string, pattern: string, with: string): string {
    match Find(s, pattern) case None => s case Some(i) => s[..i] + with + s[i + |pattern|..]
  }

  /** `split(pattern).join(with)`: every occurrence. */
  function ReplaceAll(s: string, pattern: string, with: string): string
    requires pattern != ""
    decreases |s|
  {
    match Find(s, pattern) case None => s case Some(i) => s[..i] + with + ReplaceAll(s[i + |pattern|..], pattern, with)
  }

  function ShimTag(env: Env): string {
    "<script src=\"" + env.base + "/__mw_base.js\"></script>"
  }

  function UnprefixFonts(env: Env, text: string, quote: string): string {
    ReplaceAll(text, "url(" + quote + env.base + "/fonts/", "url(" + quote + "/fonts/")
  }

  const MARK: char := '\U{FEFF}'

  predicate Marked(text: string) {
    text != "" && text[0] == MARK
  }

  function Unmarked(text: string): string {
    if Marked(text) then text[1..] else text
  }

  /** `new TextDecoder().decode`: replacement characters for what is not UTF-8, and without
      a byte order mark at the start. */
  function Decoded(body: Bytes): string {
    Unmarked(Lossy(body))
  }

  /** The bytes the build wrote, from a response adapted to the deploy prefix. */
  function CanonicalBytes(env: Env, path: string, body: Bytes): Bytes {
    if env.base == "" || !(EndsWith(path, ".css") || path == "/index.html") then body
    else if path == "/index.html" then Encode(ReplaceFirst(Decoded(body), ShimTag(env), ""))
    else Encode(UnprefixFonts(env, UnprefixFonts(env, UnprefixFonts(env, Decoded(body), ""), "'"), "\""))
  }

  predicate MatchesManifest(env: Env, path: string, body: Bytes) {
    env.manifest.Some? && path in env.manifest.value
    && env.sha(CanonicalBytes(env, path, body)) == env.manifest.value[path]
  }

  /** The type a stored body is served with: by the path's extension. */
  function TypeByExtension(path: string): string {
    var e := Lower(Extension(path));
    if e == "js" || e == "mjs" then "text/javascript; charset=utf-8"
    else if e == "css" then "text/css; charset=utf-8"
    else if e == "wasm" then "application/wasm"
    else if e == "json" then "application/json"
    else if e == "html" then "text/html; charset=utf-8"
    else if e == "woff2" then "font/woff2"
    else if e == "woff" then "font/woff"
    else if e == "ttf" then "font/ttf"
    else if e == "otf" then "font/otf"
    else if e == "svg" then "image/svg+xml"
    else if e == "png" then "image/png"
    else if e == "jpg" || e == "jpeg" then "image/jpeg"
    else if e == "gif" then "image/gif"
    else if e == "webp" then "image/webp"
    else if e == "ico" then "image/x-icon"
    else "application/octet-stream"
  }

  /** The letters and digits behind the last dot, if nothing else follows it. */
  function Extension(path: string): string {
    if path == "" then "" else
      var last := path[|path| - 1];
      if !IsAlnum(last) then "" else
        var n := TailRun(path);
        if n < |path| && path[|path| - n - 1] == '.' then path[|path| - n..] else ""
  }

  /** How many letters and digits end the text. */
  function TailRun(s: string): (n: nat)
    ensures n <= |s|
  {
    if s == "" || !IsAlnum(s[|s| - 1]) then 0 else 1 + TailRun(s[..|s| - 1])
  }

  /** Older browsers give no type. */
  datatype Client = Client(kind: Option<string>, url: Url)

  predicate IsWorkerScript(p: string) {
    "/assets/" <= p && '/' !in p[8..] && ((EndsWith(p, ".js") && |p| > 11) || (EndsWith(p, ".mjs") && |p| > 12))
  }

  /** Whether a request may be answered from the cache: a navigation, or one made by a
      window showing the shell, or by a worker running a script of this build. */
  predicate FromShellClient(env: Env, r: Request, client: Option<Client>) {
    r.mode == "navigate"
    || (client.Some? && client.value.url.origin == env.origin
        && var p := StripBase(env, client.value.url.path);
           if client.value.kind == Some("worker") || client.value.kind == Some("sharedworker") then
             env.manifest.Some? && IsWorkerScript(p) && p in env.manifest.value
           else (client.value.kind == None || client.value.kind == Some("window")) && IsShellNavigation(p))
  }

  // -- the public API answers --------------------------------------------------

  predicate AllIn(s: string, ok: char -> bool) {
    forall i | 0 <= i < |s| :: ok(s[i])
  }

  /** How a value reads where a text is expected. */
  function TextOf(j: Json): string {
    match j
    case Null => "null"
    case Bool(b) => if b then "true" else "false"
    case Num(t) => t
    case Str(s) => s
    case Arr(items) => JoinTexts(items)
    case Obj(_) => "[object Object]"
  }

  function JoinTexts(items: seq<Json>): string {
    if items == [] then ""
    else (if items[0].Null? then "" else TextOf(items[0])) + if |items| == 1 then "" else "," + JoinTexts(items[1..])
  }

  /** A field's text; missing and null fields read as empty. */
  function FieldText(j: Json, name: string): string {
    if j.Obj? && name in j.fields && !j.fields[name].Null? then TextOf(j.fields[name]) else ""
  }

  predicate KeyText(s: string) {
    40 <= |s| <= 200 && AllIn(s, c => IsAlnum(c) || c == '_' || c == '-')
  }

  predicate IdText(s: string) {
    1 <= |s| <= 128 && AllIn(s, c => IsAlnum(c) || c == '_' || c == '.' || c == ':' || c == '-')
  }

  predicate KindText(s: string) {
    1 <= |s| <= 32 && AllIn(s, c => 'a' <= c <= 'z' || '0' <= c <= '9' || c == '_' || c == '-')
  }

  /** A string's length as JavaScript counts it: in UTF-16 units. */
  function Units(s: string): nat {
    if s == "" then 0 else (if s[0] as int > 0xFFFF then 2 else 1) + Units(s[1..])
  }

  predicate IsDisplayName(j: Json) {
    j.Str? && 1 <= Units(j.s) <= 128
  }

  predicate GoodProvider(p: Json) {
    && p.Obj? && IdText(FieldText(p, "id")) && KindText(FieldText(p, "kind"))
    && "displayName" in p.fields && IsDisplayName(p.fields["displayName"])
  }

  function ProviderShape(p: Json): Json
    requires GoodProvider(p)
  {
    FieldPresent(p, "id");
    FieldPresent(p, "kind");
    Obj(map["id" := p.fields["id"], "kind" := p.fields["kind"], "displayName" := p.fields["displayName"]])
  }

  lemma FieldPresent(p: Json, name: string)
    requires FieldText(p, name) != ""
    ensures p.Obj? && name in p.fields
  {
  }

  function ProviderShapes(items: seq<Json>): Option<seq<Json>> {
    if items == [] then Some([])
    else if !GoodProvider(items[0]) then None
    else match ProviderShapes(items[1..]) case None => None case Some(rest) => Some([ProviderShape(items[0])] + rest)
  }

  function PublicApiShape(path: string, body: Json): Option<Json> {
    if path == "/api/push/vapid" then
      if KeyText(FieldText(body, "publicKey")) then
        FieldPresent(body, "publicKey");
        Some(Obj(map["publicKey" := body.fields["publicKey"]]))
      else None
    else if path == "/api/sso/providers" then
      if body.Obj? && "providers" in body.fields && body.fields["providers"].Arr?
         && |body.fields["providers"].items| <= 64 then
        match ProviderShapes(body.fields["providers"].items)
        case None => None
        case Some(l) => Some(Obj(map["providers" := Arr(l)]))
      else None
    else None
  }

  /** The method that reads the providers one by one. */
  method ReadProviders(items: seq<Json>) returns (r: Option<seq<Json>>)
    ensures r == ProviderShapes(items)
  {
    var out: seq<Json> := [];
    WholeList(items);
    for i := 0 to |items|
      invariant Prepended(out, ProviderShapes(items[i..])) == ProviderShapes(items)
    {
      NextProvider(out, items, i);
      if !GoodProvider(items[i]) {
        return None;
      }
      out := out + [ProviderShape(items[i])];
    }
    assert items[|items|..] == [] && out + [] == out;
    return Some(out);
  }

  function Prepended(out: seq<Json>, rest: Option<seq<Json>>): Option<seq<Json>> {
    match rest case None => None case Some(l) => Some(out + l)
  }

  lemma WholeList(items: seq<Json>)
    ensures Prepended([], ProviderShapes(items[0..])) == ProviderShapes(items)
  {
    assert items[0..] == items;
    assert ProviderShapes(items).Some? ==> [] + ProviderShapes(items).value == ProviderShapes(items).value;
  }

  lemma NextProvider(out: seq<Json>, items: seq<Json>, i: nat)
    requires i < |items|
    ensures Prepended(out, ProviderShapes(items[i..]))
         == if GoodProvider(items[i]) then Prepended(out + [ProviderShape(items[i])], ProviderShapes(items[i + 1..]))
            else None
  {
    assert items[i..][0] == items[i] && items[i..][1..] == items[i + 1..];
    if GoodProvider(items[i]) && ProviderShapes(items[i + 1..]).Some? {
      var rest := ProviderShapes(items[i + 1..]).value;
      assert out + ([ProviderShape(items[i])] + rest) == out + [ProviderShape(items[i])] + rest;
    }
  }

  // -- what a rebuilt answer looks like ---------------------------------------

  /** An object with exactly the fields the app reads, each of the right kind of text. */
  predicate PublicProvider(j: Json) {
    && j.Obj? && j.fields.Keys == {"id", "kind", "displayName"}
    && IdText(FieldText(j, "id")) && KindText(FieldText(j, "kind")) && IsDisplayName(j.fields["displayName"])
  }

  predicate PublicAnswer(path: string, j: Json) {
    if path == "/api/push/vapid" then j.Obj? && j.fields.Keys == {"publicKey"} && KeyText(FieldText(j, "publicKey"))
    else
      && path == "/api/sso/providers" && j.Obj? && j.fields.Keys == {"providers"}
      && j.fields["providers"].Arr? && |j.fields["providers"].items| <= 64
      && forall i | 0 <= i < |j.fields["providers"].items| :: PublicProvider(j.fields["providers"].items[i])
  }

  lemma {:induction false} ShapesArePublic(items: seq<Json>)
    requires ProviderShapes(items).Some?
    ensures |ProviderShapes(items).value| == |items|
    ensures forall i | 0 <= i < |items| :: PublicProvider(ProviderShapes(items).value[i])
    decreases |items|
  {
    if items != [] {
      ShapesArePublic(items[1..]);
    }
  }

  /** Whatever was stored, what is rebuilt from it has the public shape. */
  lemma RebuiltIsPublic(path: string, body: Json)
    requires PublicApiShape(path, body).Some?
    ensures PublicAnswer(path, PublicApiShape(path, body).value)
  {
    if path == "/api/sso/providers" {
      ShapesArePublic(body.fields["providers"].items);
    }
  }

  /** The stored object's fields of these names, unchanged. */
  function Picked(j: Json, names: set<string>): Json
    requires j.Obj?
  {
    Obj(map name | name in names && name in j.fields :: j.fields[name])
  }

  lemma {:induction false} ShapesPick(items: seq<Json>)
    ensures ProviderShapes(items).Some? <==> forall i | 0 <= i < |items| :: GoodProvider(items[i])
    ensures
      var l := ProviderShapes(items);
      l.Some? ==>
        && |l.value| == |items|
        && forall i | 0 <= i < |items| :: l.value[i] == Picked(items[i], {"id", "kind", "displayName"})
    decreases |items|
  {
    if items != [] {
      ShapesPick(items[1..]);
      assert items == [items[0]] + items[1..];
      hide IdText, KindText, TextOf, IsDisplayName;
      if GoodProvider(items[0]) {
        FieldPresent(items[0], "id");
        FieldPresent(items[0], "kind");
        assert ProviderShape(items[0]) == Picked(items[0], {"id", "kind", "displayName"});
      }
    }
  }

  /** What is rebuilt: of the key answer the key, of the provider list every provider, in
      order, with its three fields as they were stored; and of which stored answers. */
  lemma RebuiltIs(path: string, body: Json)
    ensures path == "/api/push/vapid" ==>
      PublicApiShape(path, body)
      == if KeyText(FieldText(body, "publicKey")) then Some(Picked(body, {"publicKey"})) else None
    ensures path == "/api/sso/providers" ==>
      (PublicApiShape(path, body).Some? <==>
         && body.Obj? && "providers" in body.fields && body.fields["providers"].Arr?
         && |body.fields["providers"].items| <= 64
         && forall i | 0 <= i < |body.fields["providers"].items| :: GoodProvider(body.fields["providers"].items[i]))
    ensures path == "/api/sso/providers" && PublicApiShape(path, body).Some? ==>
      var items, r := body.fields["providers"].items, PublicApiShape(path, body).value;
      && r.Obj? && r.fields.Keys == {"providers"} && r.fields["providers"].Arr?
      && |r.fields["providers"].items| == |items|
      && forall i | 0 <= i < |items| ::
           items[i].Obj? && r.fields["providers"].items[i] == Picked(items[i], {"id", "kind", "displayName"})
  {
    if path == "/api/push/vapid" && KeyText(FieldText(body, "publicKey")) {
      FieldPresent(body, "publicKey");
      assert Picked(body, {"publicKey"}).fields == map["publicKey" := body.fields["publicKey"]];
    }
    if path == "/api/sso/providers" && body.Obj? && "providers" in body.fields && body.fields["providers"].Arr? {
      var items := body.fields["providers"].items;
      ShapesPick(items);
      hide IdText, KindText, TextOf, IsDisplayName;
    }
  }

  // -- when a rebuilt answer holds texts --------------------------------------

  predicate TextField(j: Json, name: string) {
    j.Obj? && name in j.fields && j.fields[name].Str?
  }

  /** Every field of the answer that the app reads is a text. */
  predicate AllTexts(path: string, j: Json) {
    if path == "/api/push/vapid" then TextField(j, "publicKey")
    else
      && j.Obj? && "providers" in j.fields && j.fields["providers"].Arr?
      && forall i | 0 <= i < |j.fields["providers"].items| ::
           TextField(j.fields["providers"].items[i], "id") && TextField(j.fields["providers"].items[i], "kind")
  }

  lemma {:induction false} ShapesKeepTexts(items: seq<Json>)
    requires ProviderShapes(items).Some?
    ensures |ProviderShapes(items).value| == |items|
    ensures forall i | 0 <= i < |items| ::
      && (TextField(ProviderShapes(items).value[i], "id") <==> TextField(items[i], "id"))
      && (TextField(ProviderShapes(items).value[i], "kind") <==> TextField(items[i], "kind"))
      && TextField(ProviderShapes(items).value[i], "displayName")
    decreases |items|
  {
    if items != [] {
      ShapesKeepTexts(items[1..]);
      hide IdText, KindText, TextOf;
      assert items == [items[0]] + items[1..];
    }
  }

  /** The answer that is rebuilt holds texts exactly when the stored fields are texts: the
      shape check turns each value into text and passes the value on. */
  lemma RebuiltHoldsTextsIff(path: string, body: Json)
    requires PublicApiShape(path, body).Some?
    ensures AllTexts(path, PublicApiShape(path, body).value) <==> AllTexts(path, body)
  {
    if path == "/api/sso/providers" {
      ShapesKeepTexts(body.fields["providers"].items);
    }
  }

  /** What lists of one element hold inside. */
  function Unwrapped(j: Json): Json {
    if j.Arr? && |j.items| == 1 then Unwrapped(j.items[0]) else j
  }

  /** No character that a converted list of several elements or an object would have. */
  predicate Simple(s: string) {
    s != "" && ',' !in s && ' ' !in s
  }

  /** A value converts to such a text exactly when it is a text, number or truth value
      that does, alone or inside lists of one element. */
  lemma {:induction false} SimpleTextIff(j: Json)
    requires !j.Null?
    ensures
      var u := Unwrapped(j);
      Simple(TextOf(j)) <==> (u.Str? || u.Num? || u.Bool?) && Simple(TextOf(u))
    ensures Simple(TextOf(j)) ==> TextOf(j) == TextOf(Unwrapped(j))
    decreases j
  {
    if j.Arr? {
      if |j.items| == 1 {
        var x := j.items[0];
        assert JoinTexts(j.items) == (if x.Null? then "" else TextOf(x)) + "";
        if !x.Null? {
          SimpleTextIff(x);
        }
      } else if |j.items| > 1 {
        assert ',' in JoinTexts(j.items);
      }
    } else if j.Obj? {
      assert "[object Object]"[7] == ' ';
    }
  }

  lemma PatternsAreSimple(s: string)
    ensures KeyText(s) || IdText(s) || KindText(s) ==> Simple(s)
  {
  }

  function FieldValue(j: Json, name: string): Json {
    if j.Obj? && name in j.fields then Unwrapped(j.fields[name]) else Null
  }

  /** Exactly what passes the check of a field: a text, number or truth value that reads
      as the pattern asks, alone or inside lists of one element. */
  lemma FieldPassesIff(j: Json, name: string)
    ensures
      var u := FieldValue(j, name);
      var scalar := u.Str? || u.Num? || u.Bool?;
      && (KeyText(FieldText(j, name)) <==> scalar && KeyText(TextOf(u)))
      && (IdText(FieldText(j, name)) <==> scalar && IdText(TextOf(u)))
      && (KindText(FieldText(j, name)) <==> scalar && KindText(TextOf(u)))
  {
    PatternsAreSimple(FieldText(j, name));
    PatternsAreSimple(TextOf(FieldValue(j, name)));
    if j.Obj? && name in j.fields && !j.fields[name].Null? {
      SimpleTextIff(j.fields[name]);
    }
    hide KeyText, IdText, KindText, TextOf, Unwrapped;
  }

  /** For one: a list that holds the key. */
  lemma ListPassesForText(key: string)
    requires KeyText(key)
    ensures PublicApiShape("/api/push/vapid", Obj(map["publicKey" := Arr([Str(key)])]))
         == Some(Obj(map["publicKey" := Arr([Str(key)])]))
  {
    assert JoinTexts([Str(key)]) == key + "";
  }

  // -- the patterns, spelled out -----------------------------------------------

  predicate Plainly(s: string, low: nat, high: nat, extra: set<char>) {
    low <= |s| <= high && forall c | c in s :: 'a' <= c <= 'z' || 'A' <= c <= 'Z' || '0' <= c <= '9' || c in extra
  }

  lemma PatternsAre(s: string)
    ensures KeyText(s) <==> Plainly(s, 40, 200, {'_', '-'})
    ensures IdText(s) <==> Plainly(s, 1, 128, {'_', '.', ':', '-'})
    ensures KindText(s) <==> Plainly(s, 1, 32, {'_', '-'}) && forall c | c in s :: !('A' <= c <= 'Z')
  {
    assert forall i | 0 <= i < |s| :: s[i] in s;
  }

  lemma {:induction false} UnitsAre(s: string)
    ensures Units(s) == |s| + |set i | 0 <= i < |s| && s[i] as int > 0xFFFF|
    decreases |s|
  {
    if s != "" {
      var n := |s| - 1;
      UnitsAre(s[..n]);
      UnitsLast(s);
      var front := set i | 0 <= i < n && s[..n][i] as int > 0xFFFF;
      assert (set i | 0 <= i < |s| && s[i] as int > 0xFFFF) == front + if s[n] as int > 0xFFFF then {n} else {};
    }
  }

  lemma {:induction false} UnitsLast(s: string)
    requires s != ""
    ensures Units(s) == Units(s[..|s| - 1]) + if s[|s| - 1] as int > 0xFFFF then 2 else 1
    decreases |s|
  {
    if |s| > 1 {
      UnitsLast(s[1..]);
      assert s[1..][..|s| - 2] == s[..|s| - 1][1..];
    }
  }

  /** Which providers are accepted: with an id and a kind of the right form and a name of at
      most 128 UTF-16 units, characters beyond the first 65536 counting twice. */
  lemma GoodProviderIff(p: Json)
    ensures GoodProvider(p) <==>
      && p.Obj? && IdText(FieldText(p, "id")) && KindText(FieldText(p, "kind")) && TextField(p, "displayName")
      && var s := p.fields["displayName"].s;
         1 <= |s| + |set i | 0 <= i < |s| && s[i] as int > 0xFFFF| <= 128
  {
    if TextField(p, "displayName") {
      UnitsAre(p.fields["displayName"].s);
    }
    hide IdText, KindText, Units;
  }
}
