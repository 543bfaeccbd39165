/** Which requests go where, by their full paths: the deploy prefix, the logout, the cached
    routes and the clients that may be answered from the cache (apps/web/public/sw.js). */
module SwRoutes {
  import opened Wrappers
  import opened Text
  import opened SwRouting

  /** A path outside the deploy prefix. */
  predicate Outside(env: Env, path: string) {
    env.base == "" || !(path == env.base || env.base + "/" <= path)
  }

  /** The full path of `p`: below the deploy prefix, or as it is where the prefix does not
      cover it. The prefix itself is the root. */
  predicate At(env: Env, path: string, p: string) {
    || path == env.base + p || (Outside(env, path) && path == p)
    || (p == "/" && env.base != "" && path == env.base)
  }

  lemma StripIs(env: Env, path: string)
    ensures StripBase(env, path)
         == if Outside(env, path) then path else if path == env.base then "/" else path[|env.base|..]
  {
    if env.base != "" && env.base <= path {
      var rest := path[|env.base|..];
      assert path == env.base + rest;
      if rest != "" {
        assert rest == [rest[0]] + rest[1..];
        assert rest[0] == '/' ==> path == env.base + "/" + rest[1..];
        assert env.base + "/" <= path ==> path[|env.base|] == '/';
      }
    }
  }

  lemma StripsTo(env: Env, path: string, p: string)
    requires p != "" && p[0] == '/'
    ensures StripBase(env, path) == p <==> At(env, path, p)
  {
    StripIs(env, path);
    if path == env.base + p {
      assert env.base + p == env.base + "/" + p[1..];
      assert path[|env.base|..] == p;
    }
    hide StripBase;
  }

  /** What logs out: a POST of the origin to one of two paths. */
  lemma LogoutIff(env: Env, r: Request)
    ensures IsLogout(env, r) <==>
      && r.verb == "POST" && r.url.origin == env.origin
      && (At(env, r.url.path, "/api/logout") || At(env, r.url.path, "/api/sso/logout"))
  {
    StripsTo(env, r.url.path, "/api/logout");
    StripsTo(env, r.url.path, "/api/sso/logout");
    hide StripBase, At;
  }

  predicate HasSuffix(p: string, suffixes: set<string>) {
    exists f | f in suffixes :: EndsWith(Lower(p), f)
  }

  predicate AssetPath(p: string) {
    || ("/assets/" <= p && !("/assets/analytics/" <= p))
    || ("/fonts/" <= p && HasSuffix(p, {".woff", ".woff2", ".ttf", ".otf"}))
  }

  lemma FontIff(p: string)
    ensures IsFont(p) <==> HasSuffix(p, {".woff", ".woff2", ".ttf", ".otf"})
  {
    hide EndsWith, Lower;
  }

  lemma ApiLetters(p: string)
    requires IsApiPath(p)
    ensures |p| > 2 && (p[1] == 'j' || p[2] == 'p')
  {
    assert p[1] == if "/jmap/" <= p then "/jmap/"[1] else "/api/"[1];
    assert p[2] == if "/jmap/" <= p then "/jmap/"[2] else "/api/"[2];
  }

  lemma AssetLetters(p: string)
    requires AssetPath(p)
    ensures |p| > 2 && p[0] == '/' && ((p[1] == 'a' && p[2] == 's') || p[1] == 'f')
  {
    assert p[0] == if "/assets/" <= p then "/assets/"[0] else "/fonts/"[0];
    assert p[1] == if "/assets/" <= p then "/assets/"[1] else "/fonts/"[1];
    assert p[2] == if "/assets/" <= p then "/assets/"[2] else "/fonts/"[2];
  }

  lemma AssetIsNoApi(p: string)
    requires AssetPath(p)
    ensures p != "" && p[0] == '/' && !IsApiPath(p)
  {
    AssetLetters(p);
    hide AssetPath;
    if IsApiPath(p) {
      ApiLetters(p);
    }
  }

  lemma AssetAtIff(env: Env, path: string)
    ensures AssetPath(StripBase(env, path)) <==> exists p :: AssetPath(p) && At(env, path, p)
  {
    var p := StripBase(env, path);
    hide StripBase, At, AssetPath, IsApiPath;
    if AssetPath(p) {
      AssetIsNoApi(p);
      StripsTo(env, path, p);
    }
    if q :| AssetPath(q) && At(env, path, q) {
      AssetIsNoApi(q);
      StripsTo(env, path, q);
    }
  }

  /** The two public answers go to the network first; the shell's navigations fall back to
      it; assets and fonts are answered from the cache first; all else is left alone. */
  lemma RouteIff(env: Env, r: Request)
    ensures ChooseStrategy(env, r) == NetworkFirst <==>
      && r.verb == "GET" && r.url.origin == env.origin && r.url.search == ""
      && (At(env, r.url.path, "/api/sso/providers") || At(env, r.url.path, "/api/push/vapid"))
    ensures ChooseStrategy(env, r) == ShellFallback <==>
      && r.verb == "GET" && r.url.origin == env.origin && r.mode == "navigate"
      && (At(env, r.url.path, "/") || At(env, r.url.path, "/index.html"))
    ensures ChooseStrategy(env, r) == CacheFirst <==>
      && r.verb == "GET" && r.url.origin == env.origin && r.mode != "navigate"
      && exists p :: AssetPath(p) && At(env, r.url.path, p)
  {
    var path := r.url.path;
    var p := StripBase(env, path);
    AssetAtIff(env, path);
    FontIff(p);
    RoutedPaths();
    assert AssetPath(p) <==> IsStaticAsset(p) && !IsAnalyticsAsset(p) by { FontNotAnalytics(p); }
    if AssetPath(p) {
      AssetIsNoApi(p);
    }
    hide StripBase, At, AssetPath, IsStaticAsset, IsAnalyticsAsset, IsApiPath;
    StripsTo(env, path, "/api/sso/providers");
    StripsTo(env, path, "/api/push/vapid");
    StripsTo(env, path, "/");
    StripsTo(env, path, "/index.html");
  }

  lemma FontNotAnalytics(p: string)
    ensures "/fonts/" <= p ==> !("/assets/" <= p) && !IsAnalyticsAsset(p)
  {
    if "/fonts/" <= p {
      assert p[1] == "/fonts/"[1];
    }
  }

  lemma RoutedPaths()
    ensures IsApiPath("/api/sso/providers") && IsApiPath("/api/push/vapid")
    ensures !IsApiPath("/") && !IsApiPath("/index.html")
  {
    assert "/index.html"[1] == 'i';
  }

  /** A script directly below `/assets/`. */
  ghost predicate ScriptPath(p: string) {
    exists name, ext | ext in {".js", ".mjs"} :: name != "" && '/' !in name && p == "/assets/" + name + ext
  }

  lemma ScriptAt(p: string, ext: string)
    requires ext in {".js", ".mjs"} && "/assets/" <= p && '/' !in p[8..] && EndsWith(p, ext) && |p| > 8 + |ext|
    ensures ScriptPath(p)
  {
    var name := p[8..|p| - |ext|];
    assert p == "/assets/" + name + p[|p| - |ext|..];
    assert forall i | 0 <= i < |name| :: name[i] == p[8..][i];
    assert '/' !in name;
  }

  lemma ScriptIff(p: string)
    ensures IsWorkerScript(p) <==> ScriptPath(p)
  {
    if IsWorkerScript(p) {
      ScriptAt(p, if EndsWith(p, ".js") then ".js" else ".mjs");
    }
    if ScriptPath(p) {
      var name, ext :| ext in {".js", ".mjs"} && name != "" && '/' !in name && p == "/assets/" + name + ext;
      hide *;
      ScriptIs(name, ext);
    }
  }

  lemma ScriptIs(name: string, ext: string)
    requires ext in {".js", ".mjs"} && name != "" && '/' !in name
    ensures IsWorkerScript("/assets/" + name + ext)
  {
    var p := "/assets/" + name + ext;
    assert p[8..] == name + ext && p[|p| - |ext|..] == ext;
    assert '/' !in ext;
  }

  /** Who may be answered from the cache: a navigation, a window (or a client without a
      type) of the origin that shows the shell, and a worker that runs a script of the
      build. */
  lemma ShellClientIff(env: Env, r: Request, client: Option<Client>)
    ensures FromShellClient(env, r, client) <==>
      || r.mode == "navigate"
      || (&& client.Some? && client.value.url.origin == env.origin
          && var path, kind := client.value.url.path, client.value.kind;
             || (kind in {None, Some("window")} && (At(env, path, "/") || At(env, path, "/index.html")))
             || (kind in {Some("worker"), Some("sharedworker")} && env.manifest.Some?
                 && exists p :: ScriptPath(p) && At(env, path, p) && p in env.manifest.value))
  {
    if client.Some? {
      var path := client.value.url.path;
      var p := StripBase(env, path);
      StripsTo(env, path, "/");
      StripsTo(env, path, "/index.html");
      ScriptIff(p);
      forall q | ScriptPath(q) ensures At(env, path, q) <==> p == q {
        assert q != "" && q[0] == '/';
        StripsTo(env, path, q);
      }
      hide StripBase, At, IsWorkerScript, ScriptPath;
    }
  }

  // -- types by extension ------------------------------------------------------

  predicate Word(s: string) {
    s != "" && forall i | 0 <= i < |s| :: IsAlnum(s[i])
  }

  lemma {:induction false} TailIs(s: string, n: nat)
    requires n < |s| && !IsAlnum(s[|s| - n - 1]) && forall k | |s| - n <= k < |s| :: IsAlnum(s[k])
    ensures TailRun(s) == n
    decreases n
  {
    if n > 0 {
      TailIs(s[..|s| - 1], n - 1);
    }
  }

  lemma {:induction false} TailLetters(s: string)
    ensures forall k | |s| - TailRun(s) <= k < |s| :: IsAlnum(s[k])
    decreases |s|
  {
    if s != "" && IsAlnum(s[|s| - 1]) {
      TailLetters(s[..|s| - 1]);
    }
  }

  /** A path's extension is the word behind a dot that ends it; a path without one has
      none. */
  lemma ExtensionIff(p: string, ext: string)
    ensures ext != "" ==> (Extension(p) == ext <==> Word(ext) && EndsWith(p, "." + ext))
    ensures Extension(p) == "" <==> forall e :: Word(e) ==> !EndsWith(p, "." + e)
  {
    ExtensionEnds(p);
    if Word(ext) && EndsWith(p, "." + ext) {
      ExtensionOfWord(p, ext);
    }
    forall e | Word(e) && EndsWith(p, "." + e) ensures Extension(p) == e {
      ExtensionOfWord(p, e);
    }
    hide Extension, EndsWith;
  }

  lemma ExtensionEnds(p: string)
    ensures Extension(p) != "" ==> Word(Extension(p)) && EndsWith(p, "." + Extension(p))
  {
    if Extension(p) != "" {
      TailLetters(p);
      var n := TailRun(p);
      assert p[|p| - n - 1..] == "." + p[|p| - n..];
    }
  }

  lemma ExtensionOfWord(p: string, ext: string)
    requires Word(ext) && EndsWith(p, "." + ext)
    ensures Extension(p) == ext
  {
    var n := |ext|;
    var tail := p[|p| - n - 1..];
    assert tail == "." + ext && tail[0] == p[|p| - n - 1];
    forall k | |p| - n <= k < |p| ensures IsAlnum(p[k]) {
      assert tail[k - (|p| - n) + 1] == p[k] == ext[k - (|p| - n)];
    }
    TailIs(p, n);
    assert p[|p| - n..] == ext;
  }

  const TYPES: map<string, string> := map[
    "js" := "text/javascript; charset=utf-8", "mjs" := "text/javascript; charset=utf-8",
    "css" := "text/css; charset=utf-8", "wasm" := "application/wasm", "json" := "application/json",
    "html" := "text/html; charset=utf-8", "woff2" := "font/woff2", "woff" := "font/woff", "ttf" := "font/ttf",
    "otf" := "font/otf", "svg" := "image/svg+xml", "png" := "image/png", "jpg" := "image/jpeg",
    "jpeg" := "image/jpeg", "gif" := "image/gif", "webp" := "image/webp", "ico" := "image/x-icon"]

  lemma KnownType(p: string)
    requires Lower(Extension(p)) in TYPES
    ensures TypeByExtension(p) == TYPES[Lower(Extension(p))]
  {
    hide *;
    if |Lower(Extension(p))| == 3 {
      if Lower(Extension(p))[0] in "mcto" {
        KnownCode(p);
      } else {
        KnownImage(p);
      }
    } else {
      KnownOther(p);
    }
  }

  lemma KnownCode(p: string)
    requires Lower(Extension(p)) in TYPES && |Lower(Extension(p))| == 3 && Lower(Extension(p))[0] in "mcto"
    ensures TypeByExtension(p) == TYPES[Lower(Extension(p))]
  {
    hide Extension, Lower;
  }

  lemma KnownImage(p: string)
    requires Lower(Extension(p)) in TYPES && |Lower(Extension(p))| == 3 && Lower(Extension(p))[0] !in "mcto"
    ensures TypeByExtension(p) == TYPES[Lower(Extension(p))]
  {
    hide Extension, Lower;
  }

  lemma KnownOther(p: string)
    requires Lower(Extension(p)) in TYPES && |Lower(Extension(p))| != 3
    ensures TypeByExtension(p) == TYPES[Lower(Extension(p))]
  {
    hide Extension, Lower;
  }

  lemma UnknownType(p: string)
    requires Lower(Extension(p)) !in TYPES
    ensures TypeByExtension(p) == "application/octet-stream"
  {
    hide Extension, Lower;
  }

  /** The type of every path. */
  lemma TypeIs(p: string)
    ensures TypeByExtension(p)
         == if Lower(Extension(p)) in TYPES then TYPES[Lower(Extension(p))] else "application/octet-stream"
  {
    hide *;
    if Lower(Extension(p)) in TYPES {
      KnownType(p);
    } else {
      UnknownType(p);
    }
  }

  // -- limits, spelled out -----------------------------------------------------

  /** Public answers are kept for a day, at most eight of them; assets for thirty days, at
      most 512 or twice as many as the build has. A stamp from the future counts as none. */
  lemma LimitsAre(env: Env, res: Response, now: real)
    ensures MaxEntries(env, NetworkFirst) == 8
    ensures MaxEntries(env, CacheFirst)
         == if env.manifest.Some? && 2 * |env.manifest.value| > 512 then 2 * |env.manifest.value| else 512
    ensures IsFresh(res, NetworkFirst, now) <==> now - (if res.stamp > now then 0.0 else res.stamp) <= 86400000.0
    ensures IsFresh(res, CacheFirst, now) <==> now - (if res.stamp > now then 0.0 else res.stamp) <= 2592000000.0
  {
  }
}
