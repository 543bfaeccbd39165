/** The service worker's handlers over its cache, and what holds in every run
    (apps/web/public/sw.js). The network's answer and whether storage works are
    parameters of each event. */
module SwWorker {
  import opened Wrappers
  import opened Text
  import opened Utf8
  import opened SwRouting
  import opened SwSweep

  /** Whether the cache can be opened, written, deleted from and deleted as a whole during
      an event, and how many deletions a sweep gets done before a storage call throws. */
  datatype Io = Io(open: bool, write: bool, del: bool, purge: bool, sweep: nat)

  datatype State = State(cache: Cache, lastSweep: real)

  datatype Answer =
    | Unhandled
    | FromNetwork(res: Response)
    /** A stored body under headers the worker decides. */
    | FromCache(path: string, body: Bytes, contentType: string, shellPolicy: bool)
    /** A public API answer rebuilt from a stored one. */
    | Rebuilt(path: string, answer: Json)
    | Failed

  function ShellKey(env: Env): Url {
    Url(env.origin, ShellUrl(env), "")
  }

  function Keep(env: Env, s: State, url: Url, res: Response, now: real, io: Io): State {
    var r := Stored(env, s.cache, s.lastSweep, url, res, now, io.write, io.sweep);
    State(r.0, r.1)
  }

  function Discard(s: State, url: Url, io: Io): State {
    if io.open && io.del then s.(cache := Without(s.cache, {url})) else s
  }

  function NetworkAnswer(net: Option<Response>): Answer {
    match net case None => Failed case Some(res) => FromNetwork(res)
  }

  function RespondNetworkFirst(env: Env, s: State, r: Request, net: Option<Response>, now: real,
                               io: Io): (Answer, State) {
    match net
    case Some(res) => (FromNetwork(res), if io.open && IsStorable(r, res) then Keep(env, s, r.url, res, now, io) else s)
    case None =>
      var path := StripBase(env, r.url.path);
      var cached := if io.open then Lookup(s.cache, r.url) else None;
      if cached.Some? && IsFresh(cached.value, NetworkFirst, now) then
        match env.parse(cached.value.body)
        case None => (Failed, s)
        case Some(j) => (match PublicApiShape(path, j) case None => (Failed, s) case Some(a) => (Rebuilt(path, a), s))
      else (Failed, s)
  }

  function RespondCacheFirst(env: Env, s: State, r: Request, net: Option<Response>, now: real,
                             io: Io): (Answer, State) {
    var path := StripBase(env, r.url.path);
    var cached := if io.open then Lookup(s.cache, r.url) else None;
    var usable := cached.Some? && IsStorable(r, cached.value);
    if usable && (!IsHashed(path) || MatchesManifest(env, path, cached.value.body)) then
      (FromCache(path, cached.value.body, TypeByExtension(path), false), s)
    else
      var t := if usable then Discard(s, r.url, io) else s;
      match net
      case None => (Failed, t)
      case Some(res) =>
        (FromNetwork(res),
         if io.open && IsStorable(r, res) && (!IsHashed(path) || MatchesManifest(env, path, res.body))
         then Keep(env, t, r.url, res, now, io) else t)
  }

  function RespondShell(env: Env, s: State, r: Request, net: Option<Response>, now: real, io: Io): (Answer, State) {
    match net
    case Some(res) =>
      (FromNetwork(res),
       if res.gated then Discard(s, ShellKey(env), io)
       else if io.open && IsShellDocument(env, r, res) && MatchesManifest(env, "/index.html", res.body)
       then Keep(env, s, ShellKey(env), res, now, io) else s)
    case None =>
      var shell := if io.open then Lookup(s.cache, ShellKey(env)) else None;
      if shell.Some? && MatchesManifest(env, "/index.html", shell.value.body)
      then (FromCache("/index.html", shell.value.body, TypeByExtension("/index.html"), true), s)
      else (Failed, s)
  }

  function HandleFetch(env: Env, s: State, r: Request, client: Option<Client>, net: Option<Response>, now: real, io: Io)
    : (Answer, State)
  {
    var t := if IsLogout(env, r) && io.purge then s.(cache := []) else s;
    var strategy := ChooseStrategy(env, r);
    if strategy == Passthrough then (Unhandled, t)
    else if !FromShellClient(env, r, client) then (NetworkAnswer(net), t)
    else if strategy == NetworkFirst then RespondNetworkFirst(env, t, r, net, now, io)
    else if strategy == CacheFirst then RespondCacheFirst(env, t, r, net, now, io)
    else RespondShell(env, t, r, net, now, io)
  }

  function HandleInstall(env: Env, s: State, net: Option<Response>, now: real, io: Io): State {
    match net
    case None => s
    case Some(res) =>
      if res.gated then Discard(s, ShellKey(env), io)
      else if io.open && res.status == 200 && !res.tagged && MatchesManifest(env, "/index.html", res.body)
      then Keep(env, s, ShellKey(env), res, now, io) else s
  }

  function HandleActivate(env: Env, s: State, now: real, io: Io): State {
    if io.open then State(SweptUpTo(env, s.cache, now, io.sweep), now) else s
  }

  // -- the worker object -------------------------------------------------------

  class Worker {
    const env: Env
    const storage: Storage

    constructor (env: Env, storage: Storage)
      requires storage.env == env
      ensures this.env == env && this.storage == storage
    {
      this.env := env;
      this.storage := storage;
    }

    function Now(): State
      reads storage
    {
      State(storage.entries, storage.lastSweep)
    }

    ghost predicate Valid()
      reads storage
    {
      storage.env == env && DistinctKeys(storage.entries)
    }

    method Save(url: Url, res: Response, now: real, io: Io)
      requires Valid()
      modifies storage
      ensures Valid() && Now() == Keep(env, old(Now()), url, res, now, io)
    {
      storage.Store(url, res, now, io.write, io.sweep);
      StoredDistinct(env, old(storage.entries), old(storage.lastSweep), url, res, now, io);
    }

    method Remove(url: Url, io: Io)
      requires Valid()
      modifies storage
      ensures Valid() && Now() == Discard(old(Now()), url, io)
    {
      WithoutDistinct(storage.entries, {url});
      if io.open && io.del {
        storage.DeleteKey(url);
      }
    }

    method AnswerNetworkFirst(r: Request, net: Option<Response>, now: real, io: Io) returns (a: Answer)
      requires Valid()
      modifies storage
      ensures Valid() && (a, Now()) == RespondNetworkFirst(env, old(Now()), r, net, now, io)
    {
      if net.Some? {
        if io.open && IsStorable(r, net.value) {
          Save(r.url, net.value, now, io);
        }
        return FromNetwork(net.value);
      }
      var cached := if io.open then Lookup(storage.entries, r.url) else None;
      if cached.Some? && IsFresh(cached.value, NetworkFirst, now) {
        var body := env.parse(cached.value.body);
        if body.Some? {
          var path := StripBase(env, r.url.path);
          var answer := PublicApiShape(path, body.value);
          if answer.Some? {
            return Rebuilt(path, answer.value);
          }
        }
      }
      return Failed;
    }

    method AnswerCacheFirst(r: Request, net: Option<Response>, now: real, io: Io) returns (a: Answer)
      requires Valid()
      modifies storage
      ensures Valid() && (a, Now()) == RespondCacheFirst(env, old(Now()), r, net, now, io)
    {
      var path := StripBase(env, r.url.path);
      var hashed := IsHashed(path);
      var cached := if io.open then Lookup(storage.entries, r.url) else None;
      if cached.Some? && IsStorable(r, cached.value) {
        if !hashed || MatchesManifest(env, path, cached.value.body) {
          return FromCache(path, cached.value.body, TypeByExtension(path), false);
        }
        Remove(r.url, io);
      }
      if net.None? {
        return Failed;
      }
      if io.open && IsStorable(r, net.value) && (!hashed || MatchesManifest(env, path, net.value.body)) {
        Save(r.url, net.value, now, io);
      }
      return FromNetwork(net.value);
    }

    method AnswerShell(r: Request, net: Option<Response>, now: real, io: Io) returns (a: Answer)
      requires Valid()
      modifies storage
      ensures Valid() && (a, Now()) == RespondShell(env, old(Now()), r, net, now, io)
    {
      if net.Some? {
        if net.value.gated {
          Remove(ShellKey(env), io);
        } else if io.open && IsShellDocument(env, r, net.value) && MatchesManifest(env, "/index.html", net.value.body) {
          Save(ShellKey(env), net.value, now, io);
        }
        return FromNetwork(net.value);
      }
      var shell := if io.open then Lookup(storage.entries, ShellKey(env)) else None;
      if shell.Some? && MatchesManifest(env, "/index.html", shell.value.body) {
        return FromCache("/index.html", shell.value.body, TypeByExtension("/index.html"), true);
      }
      return Failed;
    }

    method OnFetch(r: Request, client: Option<Client>, net: Option<Response>, now: real, io: Io) returns (a: Answer)
      requires Valid()
      modifies storage
      ensures Valid() && (a, Now()) == HandleFetch(env, old(Now()), r, client, net, now, io)
    {
      if IsLogout(env, r) && io.purge {
        storage.entries := [];
      }
      var strategy := ChooseStrategy(env, r);
      if strategy == Passthrough {
        return Unhandled;
      }
      if !FromShellClient(env, r, client) {
        return NetworkAnswer(net);
      }
      if strategy == NetworkFirst {
        a := AnswerNetworkFirst(r, net, now, io);
      } else if strategy == CacheFirst {
        a := AnswerCacheFirst(r, net, now, io);
      } else {
        a := AnswerShell(r, net, now, io);
      }
    }

    method OnInstall(net: Option<Response>, now: real, io: Io)
      requires Valid()
      modifies storage
      ensures Valid() && Now() == HandleInstall(env, old(Now()), net, now, io)
    {
      if net.None? {
        return;
      }
      if net.value.gated {
        Remove(ShellKey(env), io);
      } else if io.open && net.value.status == 200 && !net.value.tagged
                && MatchesManifest(env, "/index.html", net.value.body) {
        Save(ShellKey(env), net.value, now, io);
      }
    }

    method OnActivate(now: real, io: Io)
      requires Valid()
      modifies storage
      ensures Valid() && Now() == HandleActivate(env, old(Now()), now, io)
    {
      if io.open {
        SweptUpToDistinct(env, storage.entries, now, io.sweep);
        storage.Sweep(now, io.sweep);
      }
    }
  }

  lemma SweptUpToDistinct(env: Env, c: Cache, now: real, budget: nat)
    requires DistinctKeys(c)
    ensures DistinctKeys(SweptUpTo(env, c, now, budget))
  {
    WithoutDistinct(c, UrlSet(Take(SweepList(env, c, now), budget)));
  }

  lemma StoredDistinct(env: Env, c: Cache, lastSweep: real, url: Url, res: Response, now: real, io: Io)
    requires DistinctKeys(c)
    ensures DistinctKeys(Stored(env, c, lastSweep, url, res, now, io.write, io.sweep).0)
  {
    var put := Put(c, url, res.(stamp := now));
    PutDistinct(c, url, res.(stamp := now));
    SweptUpToDistinct(env, put, now, io.sweep);
  }

  // -- what is served from the cache ------------------------------------------

  lemma LowerEnd(p: string, t: string, k: nat)
    requires EndsWith(Lower(p), t) && k < |t|
    ensures |Lower(p)| == |p| >= |t| && LowerChar(p[|p| - |t| + k]) == t[k]
  {
    assert Lower(p)[|p| - |t|..][k] == t[k];
  }

  lemma ExtensionOf(p: string, ext: string)
    requires |ext| > 0 && EndsWith(Lower(p), "." + ext) && Lower(ext) == ext
          && forall i | 0 <= i < |ext| :: IsAlnum(ext[i])
    ensures Lower(Extension(p)) == ext
  {
    var n := |ext|;
    hide EndsWith;
    LowerEnd(p, "." + ext, 0);
    assert p[|p| - n - 1] == '.';
    forall k | |p| - n <= k < |p| ensures IsAlnum(p[k]) && LowerChar(p[k]) == ext[k - (|p| - n)] {
      LowerEnd(p, "." + ext, k - (|p| - n) + 1);
      assert ("." + ext)[k - (|p| - n) + 1] == ext[k - (|p| - n)];
    }
    TailRunIs(p, n);
    hide IsAlnum, LowerChar, TailRun;
    assert Lower(p[|p| - n..]) == ext;
    assert Extension(p) == p[|p| - n..];
  }

  lemma {:induction false} TailRunIs(s: string, n: nat)
    requires n < |s| && !IsAlnum(s[|s| - n - 1]) && forall k | |s| - n <= k < |s| :: IsAlnum(s[k])
    ensures TailRun(s) == n
    decreases n
  {
    if n > 0 {
      TailRunIs(s[..|s| - 1], n - 1);
    }
  }

  lemma WoffType(p: string)
    requires EndsWith(Lower(p), ".woff")
    ensures TypeByExtension(p) == "font/woff"
  {
    assert Lower("woff") == "woff" && "." + "woff" == ".woff";
    hide EndsWith, Extension;
    ExtensionOf(p, "woff");
  }

  lemma Woff2Type(p: string)
    requires EndsWith(Lower(p), ".woff2")
    ensures TypeByExtension(p) == "font/woff2"
  {
    assert Lower("woff2") == "woff2" && "." + "woff2" == ".woff2";
    hide EndsWith, Extension;
    ExtensionOf(p, "woff2");
  }

  lemma TtfType(p: string)
    requires EndsWith(Lower(p), ".ttf")
    ensures TypeByExtension(p) == "font/ttf"
  {
    assert Lower("ttf") == "ttf" && "." + "ttf" == ".ttf";
    hide EndsWith, Extension;
    ExtensionOf(p, "ttf");
  }

  lemma OtfType(p: string)
    requires EndsWith(Lower(p), ".otf")
    ensures TypeByExtension(p) == "font/otf"
  {
    assert Lower("otf") == "otf" && "." + "otf" == ".otf";
    hide EndsWith, Extension;
    ExtensionOf(p, "otf");
  }

  /** A font path is served with a font type. */
  lemma FontType(p: string)
    requires IsFont(p)
    ensures TypeByExtension(p) in {"font/woff", "font/woff2", "font/ttf", "font/otf"}
  {
    hide TypeByExtension, EndsWith, Lower;
    if EndsWith(Lower(p), ".woff") {
      WoffType(p);
    } else if EndsWith(Lower(p), ".woff2") {
      Woff2Type(p);
    } else if EndsWith(Lower(p), ".ttf") {
      TtfType(p);
    } else {
      OtfType(p);
    }
  }

  /** The build's manifest lists the file, with the digest of what the build wrote. */
  predicate IsBuilt(env: Env, path: string, body: Bytes) {
    && env.manifest.Some? && path in env.manifest.value
    && env.manifest.value[path] == env.sha(CanonicalBytes(env, path, body))
  }

  /** What the worker may answer without the network. */
  predicate Trustworthy(env: Env, a: Answer) {
    match a
    case FromCache(path, body, t, shell) =>
      && t == TypeByExtension(path)
      && (shell ==> path == "/index.html" && IsBuilt(env, path, body))
      && (!shell ==>
            if "/assets/" <= path then IsBuilt(env, path, body)
            else "/fonts/" <= path && t in {"font/woff", "font/woff2", "font/ttf", "font/otf"})
    case Rebuilt(path, answer) => PublicAnswer(path, answer)
    case _ => true
  }

  /** Served-from-cache integrity: whatever the cache holds, an answer that does not come
      from the network goes to a shell client only, and is an asset or shell whose
      canonical bytes match the build's manifest, a font with a font type, or a rebuilt
      public answer. */
  lemma ServedIsTrustworthy(env: Env, s: State, r: Request, client: Option<Client>, net: Option<Response>, now: real,
                            io: Io)
    ensures
      var a := HandleFetch(env, s, r, client, net, now, io).0;
      && Trustworthy(env, a)
      && (a.FromCache? || a.Rebuilt? ==> FromShellClient(env, r, client) && ChooseStrategy(env, r) != Passthrough)
  {
    var t := if IsLogout(env, r) && io.purge then s.(cache := []) else s;
    var path := StripBase(env, r.url.path);
    RebuiltTrusted(env, t, r, net, now, io);
    CacheFirstTrusted(env, t, r, net, now, io);
    ShellTrusted(env, t, r, net, now, io);
    hide RespondNetworkFirst, RespondCacheFirst, RespondShell, Trustworthy, ChooseStrategy, IsLogout, FromShellClient;
    NetworkTrusted(env, net);
  }

  lemma NetworkTrusted(env: Env, net: Option<Response>)
    ensures Trustworthy(env, NetworkAnswer(net)) && !NetworkAnswer(net).FromCache? && !NetworkAnswer(net).Rebuilt?
    ensures Trustworthy(env, Unhandled)
  {
  }

  lemma RebuiltTrusted(env: Env, s: State, r: Request, net: Option<Response>, now: real, io: Io)
    ensures Trustworthy(env, RespondNetworkFirst(env, s, r, net, now, io).0)
  {
    var path := StripBase(env, r.url.path);
    hide StripBase, PublicApiShape, PublicAnswer, Keep;
    forall j | PublicApiShape(path, j).Some? ensures PublicAnswer(path, PublicApiShape(path, j).value) {
      RebuiltIsPublic(path, j);
    }
  }

  lemma CacheFirstTrusted(env: Env, s: State, r: Request, net: Option<Response>, now: real, io: Io)
    ensures ChooseStrategy(env, r) == CacheFirst ==> Trustworthy(env, RespondCacheFirst(env, s, r, net, now, io).0)
  {
    var path := StripBase(env, r.url.path);
    hide StripBase, Keep, TypeByExtension, CanonicalBytes, IsFont, IsStorable;
    if ChooseStrategy(env, r) == CacheFirst && !IsHashed(path) {
      FontType(path);
    }
  }

  lemma ShellTrusted(env: Env, s: State, r: Request, net: Option<Response>, now: real, io: Io)
    ensures Trustworthy(env, RespondShell(env, s, r, net, now, io).0)
  {
    hide Keep, TypeByExtension, CanonicalBytes;
  }

  // -- which keys the worker ever stores --------------------------------------

  /** The shell, an asset, a font, or one of the two public answers. */
  predicate AllowedKey(env: Env, u: Url) {
    IsShellKey(env, u) || Limited(KeyStrategy(env, u))
  }

  /** Every key is allowed or one of these. */
  ghost predicate AllowedOr(env: Env, c: Cache, others: set<Url>) {
    forall e | e in c :: AllowedKey(env, e.url) || e.url in others
  }

  /** What an allowed key looks like. */
  lemma AllowedKeyShape(env: Env, u: Url)
    requires AllowedKey(env, u)
    ensures
      var p := StripBase(env, u.path);
      && u.origin == env.origin
      && (IsShellKey(env, u)
          || ("/assets/" <= p && !("/assets/analytics/" <= p))
          || ("/fonts/" <= p && IsFont(p))
          || (u.search == "" && (p == "/api/sso/providers" || p == "/api/push/vapid")))
  {
  }

  lemma WithoutAllowed(env: Env, c: Cache, gone: set<Url>, others: set<Url>)
    requires AllowedOr(env, c, others)
    ensures AllowedOr(env, Without(c, gone), others)
  {
    forall e | e in Without(c, gone) ensures AllowedKey(env, e.url) || e.url in others {
      WithoutMember(c, gone, e);
    }
  }

  /** A sweep that gets through its deletions leaves allowed keys only. */
  lemma FullSweepAllowed(env: Env, c: Cache, now: real, budget: nat)
    requires budget >= |SweepList(env, c, now)|
    ensures AllowedOr(env, SweptUpTo(env, c, now, budget), {})
  {
    var list := SweepList(env, c, now);
    assert Take(list, budget) == list;
    forall e | e in SweptUpTo(env, c, now, budget) ensures AllowedKey(env, e.url) {
      WithoutMember(c, UrlSet(list), e);
      StaleMember(env, c, now, e.url);
    }
  }

  /** After an activation only allowed keys are stored exactly when its sweep gets as far
      as the last key that is not allowed. */
  lemma ActivationClosesIff(env: Env, s: State, now: real, io: Io)
    requires io.open
    ensures AllowedOr(env, HandleActivate(env, s, now, io).cache, {})
       <==> forall e | e in s.cache && !AllowedKey(env, e.url) :: e.url in Take(SweepList(env, s.cache, now), io.sweep)
  {
    var gone := UrlSet(Take(SweepList(env, s.cache, now), io.sweep));
    forall e ensures e in Without(s.cache, gone) <==> e in s.cache && e.url !in gone {
      WithoutMember(s.cache, gone, e);
    }
    hide AllowedKey, SweepList, Take, Without;
  }

  lemma KeepAllowed(env: Env, s: State, url: Url, res: Response, now: real, io: Io, others: set<Url>)
    requires AllowedOr(env, s.cache, others) && AllowedKey(env, url)
    ensures AllowedOr(env, Keep(env, s, url, res, now, io).cache, others)
  {
    WithoutAllowed(env, s.cache, {url}, others);
    var put := Put(s.cache, url, res.(stamp := now));
    assert AllowedOr(env, put, others);
    WithoutAllowed(env, put, UrlSet(Take(SweepList(env, put, now), io.sweep)), others);
    hide AllowedKey, Without, SweepList, Take;
  }

  lemma DiscardAllowed(env: Env, s: State, url: Url, io: Io, others: set<Url>)
    requires AllowedOr(env, s.cache, others)
    ensures AllowedOr(env, Discard(s, url, io).cache, others)
  {
    WithoutAllowed(env, s.cache, {url}, others);
    hide AllowedOr;
  }

  lemma FirstAnswersAllowed(env: Env, s: State, r: Request, net: Option<Response>, now: real, io: Io, others: set<Url>)
    requires AllowedOr(env, s.cache, others) && AllowedKey(env, r.url)
    ensures AllowedOr(env, RespondNetworkFirst(env, s, r, net, now, io).1.cache, others)
    ensures AllowedOr(env, RespondCacheFirst(env, s, r, net, now, io).1.cache, others)
  {
    hide AllowedOr, Keep, Discard, IsStorable, MatchesManifest, AllowedKey, StripBase, IsFresh, Lookup;
    DiscardAllowed(env, s, r.url, io, others);
    if net.Some? {
      KeepAllowed(env, s, r.url, net.value, now, io, others);
      KeepAllowed(env, Discard(s, r.url, io), r.url, net.value, now, io, others);
    }
  }

  lemma ShellAllowed(env: Env, s: State, r: Request, net: Option<Response>, now: real, io: Io, others: set<Url>)
    requires AllowedOr(env, s.cache, others)
    ensures AllowedOr(env, RespondShell(env, s, r, net, now, io).1.cache, others)
  {
    RequestKey(env, r);
    hide AllowedOr, Keep, Discard, MatchesManifest, AllowedKey, Lookup, ChooseStrategy;
    DiscardAllowed(env, s, ShellKey(env), io, others);
    if net.Some? {
      KeepAllowed(env, s, ShellKey(env), net.value, now, io, others);
    }
  }

  lemma FetchAllowed(env: Env, s: State, r: Request, client: Option<Client>, net: Option<Response>, now: real, io: Io,
                     others: set<Url>)
    requires AllowedOr(env, s.cache, others)
    ensures AllowedOr(env, HandleFetch(env, s, r, client, net, now, io).1.cache, others)
  {
    var t := if IsLogout(env, r) && io.purge then s.(cache := []) else s;
    RequestKey(env, r);
    assert AllowedOr(env, t.cache, others);
    hide AllowedOr, IsLogout, FromShellClient, ChooseStrategy, AllowedKey, RespondNetworkFirst, RespondCacheFirst,
         RespondShell;
    ShellAllowed(env, t, r, net, now, io, others);
    if AllowedKey(env, r.url) {
      FirstAnswersAllowed(env, t, r, net, now, io, others);
    }
  }

  /** A handled request's own key is allowed, and so is the shell's. */
  lemma RequestKey(env: Env, r: Request)
    ensures ChooseStrategy(env, r) == NetworkFirst || ChooseStrategy(env, r) == CacheFirst ==> AllowedKey(env, r.url)
    ensures AllowedKey(env, ShellKey(env))
    ensures ChooseStrategy(env, r) in {Passthrough, NetworkFirst, CacheFirst, ShellFallback}
  {
  }

  // -- runs --------------------------------------------------------------------

  datatype Event =
    | Fetch(request: Request, client: Option<Client>, net: Option<Response>, now: real, io: Io)
    | Install(net: Option<Response>, now: real, io: Io)
    | Activate(now: real, io: Io)
    /** Another script of the origin rewrites the cache. */
    | Tamper(cache: Cache)

  function Step(env: Env, s: State, e: Event): State {
    match e
    case Fetch(r, client, net, now, io) => HandleFetch(env, s, r, client, net, now, io).1
    case Install(net, now, io) => HandleInstall(env, s, net, now, io)
    case Activate(now, io) => HandleActivate(env, s, now, io)
    case Tamper(c) => s.(cache := c)
  }

  function Run(env: Env, s: State, es: seq<Event>): State
    decreases |es|
  {
    if es == [] then s else Step(env, Run(env, s, es[..|es| - 1]), es[|es| - 1])
  }

  /** In every run, with the cache rewritten arbitrarily at any point, every answer not
      from the network is trustworthy and goes to a shell client. */
  lemma RunServesTrustworthy(env: Env, s: State, es: seq<Event>, i: nat)
    requires i < |es| && es[i].Fetch?
    ensures
      var e := es[i];
      var a := HandleFetch(env, Run(env, s, es[..i]), e.request, e.client, e.net, e.now, e.io).0;
      Trustworthy(env, a) && (a.FromCache? || a.Rebuilt? ==> FromShellClient(env, e.request, e.client))
  {
    var e := es[i];
    ServedIsTrustworthy(env, Run(env, s, es[..i]), e.request, e.client, e.net, e.now, e.io);
  }

  lemma StepAllowed(env: Env, s: State, e: Event, others: set<Url>)
    requires AllowedOr(env, s.cache, others) && !e.Tamper?
    ensures AllowedOr(env, Step(env, s, e).cache, others)
  {
    RequestKey(env, Request("GET", ShellKey(env), ""));
    WithoutAllowed(env, s.cache, {ShellKey(env)}, others);
    hide AllowedOr, HandleFetch, Keep, MatchesManifest, AllowedKey, SweepList, Take;
    match e {
      case Fetch(r, client, net, now, io) => FetchAllowed(env, s, r, client, net, now, io, others);
      case Install(net, now, io) =>
        if net.Some? {
          KeepAllowed(env, s, ShellKey(env), net.value, now, io, others);
        }
      case Activate(now, io) =>
        WithoutAllowed(env, s.cache, UrlSet(Take(SweepList(env, s.cache, now), io.sweep)), others);
      case Tamper(_) =>
    }
  }

  lemma {:induction false} RunAllowed(env: Env, s: State, es: seq<Event>, others: set<Url>)
    requires AllowedOr(env, s.cache, others) && forall i | 0 <= i < |es| :: !es[i].Tamper?
    ensures AllowedOr(env, Run(env, s, es).cache, others)
    decreases |es|
  {
    if |es| > 0 {
      RunAllowed(env, s, es[..|es| - 1], others);
      hide AllowedOr, Step;
      StepAllowed(env, Run(env, s, es[..|es| - 1]), es[|es| - 1], others);
    }
  }

  /** Whatever fails, as long as only the worker writes, every key is the shell, an asset,
      a font, one of the two public answers, or was there at the start. */
  lemma OnlyAllowedAdded(env: Env, s: State, es: seq<Event>, e: Entry)
    requires forall i | 0 <= i < |es| :: !es[i].Tamper?
    requires e in Run(env, s, es).cache
    ensures AllowedKey(env, e.url) || e.url in Urls(s.cache)
  {
    RunAllowed(env, s, es, Urls(s.cache));
  }

  /** An event in which a sweep runs, with budget for every entry. */
  predicate SweepsAll(env: Env, s: State, e: Event) {
    && !e.Tamper? && e.io.sweep > |s.cache|
    && (Step(env, s, e).lastSweep != s.lastSweep || (e.Activate? && e.io.open))
  }

  /** Such an event leaves allowed keys only. */
  lemma SweepCloses(env: Env, s: State, e: Event)
    requires SweepsAll(env, s, e)
    ensures AllowedOr(env, Step(env, s, e).cache, {})
  {
    match e {
      case Fetch(r, client, net, now, io) => FetchCloses(env, s, r, client, net, now, io);
      case Install(net, now, io) =>
        if net.Some? {
          KeepCloses(env, s, ShellKey(env), net.value, now, io);
        }
      case Activate(now, io) =>
        ListIsShort(env, s.cache, now);
        FullSweepAllowed(env, s.cache, now, io.sweep);
    }
  }

  lemma FetchCloses(env: Env, s: State, r: Request, client: Option<Client>, net: Option<Response>, now: real, io: Io)
    requires HandleFetch(env, s, r, client, net, now, io).1.lastSweep != s.lastSweep && io.sweep > |s.cache|
    ensures AllowedOr(env, HandleFetch(env, s, r, client, net, now, io).1.cache, {})
  {
    var t := if IsLogout(env, r) && io.purge then s.(cache := []) else s;
    var d := Discard(t, r.url, io);
    WithoutShorter(t.cache, {r.url});
    hide AllowedOr, IsLogout, FromShellClient, Keep, IsStorable, MatchesManifest, ChooseStrategy, StripBase, IsFresh,
         Lookup, Without, IsShellDocument;
    if net.Some? {
      KeepCloses(env, t, ShellKey(env), net.value, now, io);
      KeepCloses(env, t, r.url, net.value, now, io);
      KeepCloses(env, d, r.url, net.value, now, io);
    }
  }

  lemma KeepCloses(env: Env, s: State, url: Url, res: Response, now: real, io: Io)
    requires io.sweep > |s.cache|
    ensures Keep(env, s, url, res, now, io).lastSweep != s.lastSweep
        ==> AllowedOr(env, Keep(env, s, url, res, now, io).cache, {})
  {
    var put := Put(s.cache, url, res.(stamp := now));
    WithoutShorter(s.cache, {url});
    ListIsShort(env, put, now);
    FullSweepAllowed(env, put, now, io.sweep);
    hide AllowedOr, SweptUpTo, Without, SweepList;
  }

  lemma {:induction false} WithoutShorter(c: Cache, gone: set<Url>)
    ensures |Without(c, gone)| <= |c|
    decreases |c|
  {
    if |c| > 0 {
      WithoutShorter(c[1..], gone);
    }
  }

  /** A sweep has at most one deletion for each entry. */
  lemma ListIsShort(env: Env, c: Cache, now: real)
    ensures |SweepList(env, c, now)| <= |c|
  {
    var live := FirstPass(env, c, now);
    PassOrStale(env, c, now);
    TwoStrategies(env, live);
    ExcessIsShort(env, live, NetworkFirst, now);
    ExcessIsShort(env, live, CacheFirst, now);
    hide StaleKeys, ExcessKeys, FirstPass, OfStrategy;
  }

  lemma {:induction false} PassOrStale(env: Env, c: Cache, now: real)
    ensures |FirstPass(env, c, now)| + |StaleKeys(env, c, now)| == |c|
    decreases |c|
  {
    if |c| > 0 {
      PassOrStale(env, c[1..], now);
      hide Stays;
    }
  }

  lemma {:induction false} TwoStrategies(env: Env, c: Cache)
    ensures |OfStrategy(env, c, NetworkFirst)| + |OfStrategy(env, c, CacheFirst)| <= |c|
    decreases |c|
  {
    if |c| > 0 {
      TwoStrategies(env, c[1..]);
      hide IsShell, KeyStrategy;
    }
  }

  lemma ExcessIsShort(env: Env, live: Cache, s: Strategy, now: real)
    ensures |ExcessKeys(env, live, s, now)| <= |OfStrategy(env, live, s)|
  {
    var mine := OfStrategy(env, live, s);
    SortByAgeResult(mine, now);
    KeysAre(OldestEntries(env, mine, s, now));
    hide SortByAge, OfStrategy, Keys;
  }

  /** Storage closure: from the first sweep that has budget for every entry on, as long as
      only the worker writes, no key outside the shell, the assets, the fonts and the two
      public answers is ever there. */
  lemma OnlyAllowedKeys(env: Env, s: State, first: Event, es: seq<Event>, e: Entry)
    requires SweepsAll(env, s, first) && forall i | 0 <= i < |es| :: !es[i].Tamper?
    requires e in Run(env, Step(env, s, first), es).cache
    ensures AllowedKey(env, e.url)
  {
    SweepCloses(env, s, first);
    RunAllowed(env, Step(env, s, first), es, {});
  }
}
