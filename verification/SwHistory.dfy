/** Where what the service worker serves comes from: a logout empties the cache, every
    entry is an answer of the network to an event since then, and what was stored is
    served when the network is gone (apps/web/public/sw.js). */
module SwHistory {
  import opened Wrappers
  import opened Text
  import opened Utf8
  import opened SwRouting
  import opened SwRoutes
  import opened SwSweep
  import opened SwWorker

  // -- logout ------------------------------------------------------------------

  /** A logout request in an event that can delete the cache. */
  predicate Purges(env: Env, e: Event) {
    && e.Fetch? && e.request.verb == "POST" && e.request.url.origin == env.origin
    && (At(env, e.request.url.path, "/api/logout") || At(env, e.request.url.path, "/api/sso/logout")) && e.io.purge
  }

  /** Every POST is left to the browser; a logout empties the cache, and no other POST
      touches it. */
  lemma PostIs(env: Env, s: State, e: Event)
    requires e.Fetch? && e.request.verb == "POST"
    ensures HandleFetch(env, s, e.request, e.client, e.net, e.now, e.io)
         == (Unhandled, if Purges(env, e) then s.(cache := []) else s)
  {
    LogoutIff(env, e.request);
    hide IsLogout, At;
  }

  // -- where entries come from -------------------------------------------------

  /** The event's network answer, stamped, under a key the event stores to: complete, no page
      where something else was asked for, and a file of the build as the build wrote it. */
  predicate Stores(env: Env, e: Event, x: Entry) {
    && !e.Tamper? && !e.Activate? && e.net.Some? && e.net.value.status == 200 && e.io.open && e.io.write
    && x.res == e.net.value.(stamp := e.now)
    && (e.Install? ==> x.url == ShellKey(env) && GoodShell(env, e.net.value))
    && (e.Fetch? ==>
          && e.request.verb == "GET" && e.request.url.origin == env.origin && x.url == e.request.url
          && FromShellClient(env, e.request, e.client)
          && (e.request.mode != "navigate" ==> !ContainsHtml(e.net.value.contentType))
          && (x.url == ShellKey(env) ==> GoodShell(env, e.net.value) && ContainsHtml(e.net.value.contentType))
          && ("/assets/" <= StripBase(env, x.url.path) ==>
                MatchesManifest(env, StripBase(env, x.url.path), e.net.value.body)))
  }

  /** The build's own page, neither with a tag nor behind a gate. */
  predicate GoodShell(env: Env, res: Response) {
    !res.tagged && !res.gated && MatchesManifest(env, "/index.html", res.body)
  }

  lemma KeepMember(env: Env, s: State, url: Url, res: Response, now: real, io: Io, x: Entry)
    requires x in Keep(env, s, url, res, now, io).cache
    ensures x in s.cache || (io.write && x == Entry(url, res.(stamp := now)))
  {
    var put := Put(s.cache, url, res.(stamp := now));
    WithoutMember(s.cache, {url}, x);
    WithoutMember(put, UrlSet(Take(SweepList(env, put, now), io.sweep)), x);
    hide Without, SweepList, Take;
  }

  lemma DiscardMember(s: State, url: Url, io: Io, x: Entry)
    requires x in Discard(s, url, io).cache
    ensures x in s.cache
  {
    WithoutMember(s.cache, {url}, x);
  }

  predicate Kept(net: Option<Response>, now: real, io: Io, url: Url, x: Entry) {
    net.Some? && net.value.status == 200 && io.open && io.write && x == Entry(url, net.value.(stamp := now))
  }

  lemma NetworkFirstSource(env: Env, s: State, r: Request, net: Option<Response>, now: real, io: Io, x: Entry)
    requires x in RespondNetworkFirst(env, s, r, net, now, io).1.cache
    ensures x in s.cache || (Kept(net, now, io, r.url, x) && IsStorable(r, net.value))
  {
    hide Keep, StripBase, PublicApiShape, IsFresh, Lookup, ContainsHtml;
    if net.Some? && x in Keep(env, s, r.url, net.value, now, io).cache {
      KeepMember(env, s, r.url, net.value, now, io, x);
    }
  }

  lemma CacheFirstSource(env: Env, s: State, r: Request, net: Option<Response>, now: real, io: Io, x: Entry)
    requires x in RespondCacheFirst(env, s, r, net, now, io).1.cache
    ensures
      || x in s.cache
      || (&& Kept(net, now, io, r.url, x) && IsStorable(r, net.value)
          && ("/assets/" <= StripBase(env, r.url.path) ==>
                MatchesManifest(env, StripBase(env, r.url.path), net.value.body)))
  {
    var d := Discard(s, r.url, io);
    hide Keep, Discard, StripBase, MatchesManifest, TypeByExtension, Lookup, ContainsHtml;
    if x in d.cache {
      DiscardMember(s, r.url, io, x);
    }
    if net.Some? && x in Keep(env, s, r.url, net.value, now, io).cache {
      KeepMember(env, s, r.url, net.value, now, io, x);
    }
    if net.Some? && x in Keep(env, d, r.url, net.value, now, io).cache {
      KeepMember(env, d, r.url, net.value, now, io, x);
    }
  }

  lemma ShellSource(env: Env, s: State, r: Request, net: Option<Response>, now: real, io: Io, x: Entry)
    requires x in RespondShell(env, s, r, net, now, io).1.cache
    ensures
      || x in s.cache
      || (Kept(net, now, io, r.url, x) && GoodShell(env, net.value) && ContainsHtml(net.value.contentType))
  {
    hide Keep, Discard, MatchesManifest, TypeByExtension, Lookup, ContainsHtml;
    if x in Discard(s, ShellKey(env), io).cache {
      DiscardMember(s, ShellKey(env), io, x);
    }
    if net.Some? && x in Keep(env, s, ShellKey(env), net.value, now, io).cache {
      KeepMember(env, s, ShellKey(env), net.value, now, io, x);
    }
  }

  /** Which keys the strategies store under. */
  lemma KeysApart(env: Env, r: Request)
    ensures
      var p, c := StripBase(env, r.url.path), ChooseStrategy(env, r);
      && (c == NetworkFirst ==> !("/assets/" <= p) && p != "/")
      && (c == CacheFirst ==> p != "/" && r.mode != "navigate")
      && (c == ShellFallback ==> !("/assets/" <= p) && r.mode == "navigate")
    ensures r.url == ShellKey(env) ==> StripBase(env, r.url.path) == "/"
  {
    StripsTo(env, r.url.path, "/");
    var p := StripBase(env, r.url.path);
    assert "/api/sso/providers"[2] == 'p' && "/api/push/vapid"[2] == 'p' && "/index.html"[1] == 'i';
    assert "/assets/" <= p ==> p[1] == 'a' && p[2] == 's';
    hide StripBase, IsFont;
  }

  lemma FetchSource(env: Env, s: State, e: Event, x: Entry)
    requires e.Fetch? && e.request.verb != "POST" && x in Step(env, s, e).cache
    ensures x in s.cache || Stores(env, e, x)
  {
    LogoutIff(env, e.request);
    KeysApart(env, e.request);
    hide RespondNetworkFirst, RespondCacheFirst, RespondShell, StripBase, FromShellClient, IsLogout, MatchesManifest,
         ContainsHtml, At;
    var strategy := ChooseStrategy(env, e.request);
    if strategy == NetworkFirst && FromShellClient(env, e.request, e.client) {
      NetworkFirstSource(env, s, e.request, e.net, e.now, e.io, x);
    } else if strategy == CacheFirst && FromShellClient(env, e.request, e.client) {
      CacheFirstSource(env, s, e.request, e.net, e.now, e.io, x);
    } else if strategy == ShellFallback && FromShellClient(env, e.request, e.client) {
      ShellSource(env, s, e.request, e.net, e.now, e.io, x);
    }
    hide ChooseStrategy;
  }

  lemma StepSource(env: Env, s: State, e: Event, x: Entry)
    requires !e.Tamper? && x in Step(env, s, e).cache
    ensures (x in s.cache || Stores(env, e, x)) && !Purges(env, e)
  {
    hide Keep, Discard, MatchesManifest, HandleFetch, At, SweepList, Take;
    match e {
      case Fetch(r, _, _, _, _) =>
        if r.verb == "POST" {
          PostIs(env, s, e);
        } else {
          FetchSource(env, s, e, x);
        }
      case Install(net, now, io) =>
        if net.Some? && x in Keep(env, s, ShellKey(env), net.value, now, io).cache {
          KeepMember(env, s, ShellKey(env), net.value, now, io, x);
        }
        if x in Discard(s, ShellKey(env), io).cache {
          DiscardMember(s, ShellKey(env), io, x);
        }
      case Activate(now, io) =>
        WithoutMember(s.cache, UrlSet(Take(SweepList(env, s.cache, now), io.sweep)), x);
    }
  }

  /** Entry `x` is what event `i` stored, and no logout since then deleted the cache. */
  predicate StoredSince(env: Env, es: seq<Event>, i: nat, x: Entry) {
    i < |es| && Stores(env, es[i], x) && forall j | i <= j < |es| :: !Purges(env, es[j])
  }

  predicate WorkerOnly(es: seq<Event>) {
    forall i | 0 <= i < |es| :: !es[i].Tamper?
  }

  /** In every run without other writers every entry was there at the start or is an answer
      of the network to one of the events, and came after the last logout. */
  lemma {:induction false} EntriesAreAnswers(env: Env, s: State, es: seq<Event>, x: Entry)
    requires WorkerOnly(es) && x in Run(env, s, es).cache
    ensures (x in s.cache && NoPurge(env, es)) || exists i :: StoredSince(env, es, i, x)
    decreases |es|
  {
    if |es| > 0 {
      var front, e := es[..|es| - 1], es[|es| - 1];
      StepSource(env, Run(env, s, front), e, x);
      hide *;
      RunUnfold(env, s, es);
      if x in Run(env, s, front).cache {
        EntriesAreAnswers(env, s, front, x);
        if i: nat :| StoredSince(env, front, i, x) {
          SinceLasts(env, es, i, x);
        }
        NoneLasts(env, es);
      } else {
        SinceLast(env, es, x);
      }
    }
  }

  lemma RunUnfold(env: Env, s: State, es: seq<Event>)
    requires es != []
    ensures Run(env, s, es) == Step(env, Run(env, s, es[..|es| - 1]), es[|es| - 1])
    ensures WorkerOnly(es) ==> WorkerOnly(es[..|es| - 1]) && !es[|es| - 1].Tamper?
  {
  }

  lemma SinceLasts(env: Env, es: seq<Event>, i: nat, x: Entry)
    requires es != [] && StoredSince(env, es[..|es| - 1], i, x) && !Purges(env, es[|es| - 1])
    ensures StoredSince(env, es, i, x)
  {
    hide Purges, Stores;
  }

  lemma SinceLast(env: Env, es: seq<Event>, x: Entry)
    requires es != [] && Stores(env, es[|es| - 1], x) && !Purges(env, es[|es| - 1])
    ensures StoredSince(env, es, |es| - 1, x)
  {
    hide Purges, Stores;
  }

  predicate NoPurge(env: Env, es: seq<Event>) {
    forall j | 0 <= j < |es| :: !Purges(env, es[j])
  }

  lemma NoneLasts(env: Env, es: seq<Event>)
    requires es != [] && !Purges(env, es[|es| - 1])
    ensures NoPurge(env, es[..|es| - 1]) ==> NoPurge(env, es)
  {
    hide Purges;
  }

  /** The answer holds this entry's body, as it is or rebuilt. */
  predicate Holds(env: Env, a: Answer, x: Entry) {
    match a
    case FromCache(_, body, _, _) => body == x.res.body
    case Rebuilt(path, answer) =>
      env.parse(x.res.body).Some? && PublicApiShape(path, env.parse(x.res.body).value) == Some(answer)
    case _ => false
  }

  lemma {:induction false} LookupMember(c: Cache, url: Url)
    requires Lookup(c, url).Some?
    ensures Entry(url, Lookup(c, url).value) in c
    decreases |c|
  {
    if c[0].url == url {
      assert c[0] == Entry(url, c[0].res);
    } else {
      LookupMember(c[1..], url);
    }
  }

  /** What is served from the cache is an entry of it. */
  predicate FromEntry(env: Env, c: Cache, a: Answer, url: Url) {
    a.FromCache? || a.Rebuilt? ==> Lookup(c, url).Some? && Holds(env, a, Entry(url, Lookup(c, url).value))
  }

  lemma AnswersFromEntries(env: Env, s: State, r: Request, net: Option<Response>, now: real, io: Io)
    ensures FromEntry(env, s.cache, RespondNetworkFirst(env, s, r, net, now, io).0, r.url)
    ensures FromEntry(env, s.cache, RespondCacheFirst(env, s, r, net, now, io).0, r.url)
    ensures FromEntry(env, s.cache, RespondShell(env, s, r, net, now, io).0, ShellKey(env))
  {
    hide PublicApiShape, Lookup, StripBase, Keep, Discard, TypeByExtension, MatchesManifest, IsStorable, IsFresh;
  }

  lemma ServedIsEntry(env: Env, s: State, e: Event)
    requires e.Fetch?
    ensures
      var a := HandleFetch(env, s, e.request, e.client, e.net, e.now, e.io).0;
      a.FromCache? || a.Rebuilt? ==> exists x :: x in s.cache && Holds(env, a, x)
  {
    ServedFromEntry(env, s, e);
    hide *;
    var a := HandleFetch(env, s, e.request, e.client, e.net, e.now, e.io).0;
    if a.FromCache? || a.Rebuilt? {
      if FromEntry(env, s.cache, a, e.request.url) {
        EntryHolds(env, s.cache, a, e.request.url);
      } else {
        EntryHolds(env, s.cache, a, ShellKey(env));
      }
    }
  }

  lemma ServedFromEntry(env: Env, s: State, e: Event)
    requires e.Fetch?
    ensures
      var a := HandleFetch(env, s, e.request, e.client, e.net, e.now, e.io).0;
      a.FromCache? || a.Rebuilt? ==>
        FromEntry(env, s.cache, a, e.request.url) || FromEntry(env, s.cache, a, ShellKey(env))
  {
    var r := e.request;
    AnswersFromEntries(env, s, r, e.net, e.now, e.io);
    LogoutIff(env, r);
    hide RespondNetworkFirst, RespondCacheFirst, RespondShell, FromShellClient, FromEntry, ShellKey, At, StripBase;
  }

  lemma EntryHolds(env: Env, c: Cache, a: Answer, url: Url)
    requires FromEntry(env, c, a, url) && (a.FromCache? || a.Rebuilt?)
    ensures exists x :: x in c && Holds(env, a, x)
  {
    LookupMember(c, url);
    hide Holds, Lookup;
  }

  /** After a logout that deletes the cache, as long as only the worker writes, whatever is
      served from the cache is the network's answer to an event since the last logout. */
  lemma ServedSinceLogout(env: Env, s: State, logout: Event, es: seq<Event>, e: Event)
    requires Purges(env, logout) && WorkerOnly(es) && e.Fetch?
    ensures
      var a := HandleFetch(env, Run(env, Step(env, s, logout), es), e.request, e.client, e.net, e.now, e.io).0;
      a.FromCache? || a.Rebuilt? ==> exists i, x :: StoredSince(env, es, i, x) && Holds(env, a, x)
  {
    PostIs(env, s, logout);
    var t := Step(env, s, logout);
    var u := Run(env, t, es);
    var a := HandleFetch(env, u, e.request, e.client, e.net, e.now, e.io).0;
    ServedIsEntry(env, u, e);
    hide Run, HandleFetch, Holds, StoredSince, Purges;
    if a.FromCache? || a.Rebuilt? {
      var x :| x in u.cache && Holds(env, a, x);
      EntriesAreAnswers(env, t, es, x);
    }
  }

  // -- what was stored is served -----------------------------------------------

  /** An event that leaves the entry under this key alone: no other writer, no logout, no
      sweep, and no answer under the same key. */
  predicate Leaves(env: Env, s: State, e: Event, url: Url) {
    && !e.Tamper? && !Purges(env, e)
    && Step(env, s, e).lastSweep == s.lastSweep && (e.Activate? ==> !e.io.open)
    && (e.Fetch? ==> e.request.url != url)
    && (url == ShellKey(env) ==> !e.Install? && (e.Fetch? ==> ChooseStrategy(env, e.request) != ShellFallback))
  }

  /** Every event of a run does. */
  predicate RunLeaves(env: Env, s: State, es: seq<Event>, url: Url)
    decreases |es|
  {
    es == [] || (var front := es[..|es| - 1];
                 RunLeaves(env, s, front, url) && Leaves(env, Run(env, s, front), es[|es| - 1], url))
  }

  lemma {:induction false} LookupWithout(c: Cache, gone: set<Url>, url: Url)
    ensures Lookup(Without(c, gone), url) == if url in gone then None else Lookup(c, url)
    decreases |c|
  {
    if c != [] {
      LookupWithout(c[1..], gone, url);
      var rest := Without(c[1..], gone);
      assert [] + rest == rest && ([c[0]] + rest)[1..] == rest;
    }
  }

  lemma {:induction false} LookupLast(c: Cache, x: Entry, url: Url)
    ensures Lookup(c + [x], url)
         == if Lookup(c, url).Some? then Lookup(c, url) else if x.url == url then Some(x.res) else None
    decreases |c|
  {
    if c == [] {
      assert c + [x] == [x] && Lookup([x][1..], url) == None;
    } else {
      LookupLast(c[1..], x, url);
      assert (c + [x])[1..] == c[1..] + [x];
    }
  }

  lemma LookupPut(c: Cache, key: Url, res: Response, url: Url)
    ensures Lookup(Put(c, key, res), url) == if url == key then Some(res) else Lookup(c, url)
  {
    LookupWithout(c, {key}, url);
    LookupLast(Without(c, {key}), Entry(key, res), url);
  }

  /** Storing without a sweep: the stamped answer is there, the rest is as it was. */
  lemma KeepLookup(env: Env, s: State, key: Url, res: Response, now: real, io: Io, url: Url)
    requires Keep(env, s, key, res, now, io).lastSweep == s.lastSweep
    ensures Lookup(Keep(env, s, key, res, now, io).cache, url)
         == if io.write && url == key then Some(res.(stamp := now)) else Lookup(s.cache, url)
  {
    LookupPut(s.cache, key, res.(stamp := now), url);
    hide Put, Lookup, SweptUpTo;
  }

  lemma DiscardLookup(s: State, key: Url, io: Io, url: Url)
    ensures url != key ==> Lookup(Discard(s, key, io).cache, url) == Lookup(s.cache, url)
    ensures Discard(s, key, io).lastSweep == s.lastSweep
  {
    LookupWithout(s.cache, {key}, url);
    hide Lookup, Without;
  }

  lemma NetworkFirstLookup(env: Env, s: State, r: Request, net: Option<Response>, now: real, io: Io, url: Url)
    requires RespondNetworkFirst(env, s, r, net, now, io).1.lastSweep == s.lastSweep && r.url != url
    ensures Lookup(RespondNetworkFirst(env, s, r, net, now, io).1.cache, url) == Lookup(s.cache, url)
  {
    hide Keep, StripBase, PublicApiShape, IsFresh, Lookup, ContainsHtml;
    if net.Some? && Keep(env, s, r.url, net.value, now, io).lastSweep == s.lastSweep {
      KeepLookup(env, s, r.url, net.value, now, io, url);
    }
  }

  lemma CacheFirstLookup(env: Env, s: State, r: Request, net: Option<Response>, now: real, io: Io, url: Url)
    requires RespondCacheFirst(env, s, r, net, now, io).1.lastSweep == s.lastSweep && r.url != url
    ensures Lookup(RespondCacheFirst(env, s, r, net, now, io).1.cache, url) == Lookup(s.cache, url)
  {
    var d := Discard(s, r.url, io);
    hide Keep, Discard, StripBase, MatchesManifest, TypeByExtension, Lookup, ContainsHtml;
    DiscardLookup(s, r.url, io, url);
    if net.Some? && Keep(env, s, r.url, net.value, now, io).lastSweep == s.lastSweep {
      KeepLookup(env, s, r.url, net.value, now, io, url);
    }
    if net.Some? && Keep(env, d, r.url, net.value, now, io).lastSweep == s.lastSweep {
      KeepLookup(env, d, r.url, net.value, now, io, url);
    }
  }

  lemma ShellLookup(env: Env, s: State, r: Request, net: Option<Response>, now: real, io: Io, url: Url)
    requires RespondShell(env, s, r, net, now, io).1.lastSweep == s.lastSweep && url != ShellKey(env)
    ensures Lookup(RespondShell(env, s, r, net, now, io).1.cache, url) == Lookup(s.cache, url)
  {
    hide Keep, Discard, MatchesManifest, TypeByExtension, Lookup, ContainsHtml;
    DiscardLookup(s, ShellKey(env), io, url);
    if net.Some? && Keep(env, s, ShellKey(env), net.value, now, io).lastSweep == s.lastSweep {
      KeepLookup(env, s, ShellKey(env), net.value, now, io, url);
    }
  }

  lemma LeavesEntry(env: Env, s: State, e: Event, url: Url)
    requires Leaves(env, s, e, url)
    ensures Lookup(Step(env, s, e).cache, url) == Lookup(s.cache, url)
  {
    hide RespondNetworkFirst, RespondCacheFirst, RespondShell, StripBase, FromShellClient, IsLogout, At, Lookup,
         Keep, Discard, MatchesManifest;
    match e {
      case Fetch(r, _, net, now, io) =>
        LogoutIff(env, r);
        if ChooseStrategy(env, r) == NetworkFirst && FromShellClient(env, r, e.client) {
          NetworkFirstLookup(env, s, r, net, now, io, url);
        } else if ChooseStrategy(env, r) == CacheFirst && FromShellClient(env, r, e.client) {
          CacheFirstLookup(env, s, r, net, now, io, url);
        } else if ChooseStrategy(env, r) == ShellFallback && FromShellClient(env, r, e.client) {
          ShellLookup(env, s, r, net, now, io, url);
        }
      case Install(net, now, io) =>
        DiscardLookup(s, ShellKey(env), io, url);
        if net.Some? && Keep(env, s, ShellKey(env), net.value, now, io).lastSweep == s.lastSweep {
          KeepLookup(env, s, ShellKey(env), net.value, now, io, url);
        }
      case Activate(now, io) =>
    }
  }

  lemma {:induction false} RunLeavesEntry(env: Env, s: State, es: seq<Event>, url: Url)
    requires RunLeaves(env, s, es, url)
    ensures Lookup(Run(env, s, es).cache, url) == Lookup(s.cache, url)
    decreases |es|
  {
    if es != [] {
      RunLeavesEntry(env, s, es[..|es| - 1], url);
      LeavesEntry(env, Run(env, s, es[..|es| - 1]), es[|es| - 1], url);
      hide Leaves, Step, Lookup;
    }
  }

  /** An asset or font that was fetched and stored is served when the network is gone, as it
      came and under the type of its extension, as long as nothing touches the entry. */
  lemma StoredAssetIsServed(env: Env, s: State, first: Event, es: seq<Event>, later: Event)
    requires first.Fetch? && ChooseStrategy(env, first.request) == CacheFirst
          && Lookup(s.cache, first.request.url) == None
    requires FromShellClient(env, first.request, first.client) && first.net.Some? && first.io.open && first.io.write
    requires
      var p, res := StripBase(env, first.request.url.path), first.net.value;
      && res.status == 200 && (first.request.mode == "navigate" || !ContainsHtml(res.contentType))
      && ("/assets/" <= p ==> MatchesManifest(env, p, res.body))
    requires Step(env, s, first).lastSweep == s.lastSweep
    requires RunLeaves(env, Step(env, s, first), es, first.request.url)
    requires later.Fetch? && later.request == first.request && later.net == None && later.io.open
    requires FromShellClient(env, later.request, later.client)
    ensures
      var p, u := StripBase(env, first.request.url.path), Run(env, Step(env, s, first), es);
      HandleFetch(env, u, later.request, later.client, None, later.now, later.io).0
      == FromCache(p, first.net.value.body, TypeByExtension(p), false)
  {
    var r, res := first.request, first.net.value;
    hide Lookup, Keep, StripBase, FromShellClient, MatchesManifest, TypeByExtension, ContainsHtml, RunLeaves;
    assert Step(env, s, first) == Keep(env, s, r.url, res, first.now, first.io);
    KeepLookup(env, s, r.url, res, first.now, first.io, r.url);
    RunLeavesEntry(env, Step(env, s, first), es, r.url);
    assert IsStorable(r, res.(stamp := first.now));
  }

  /** A public answer likewise, for a day, rebuilt from the fields the app reads. */
  lemma StoredAnswerIsServed(env: Env, s: State, first: Event, es: seq<Event>, later: Event)
    requires first.Fetch? && ChooseStrategy(env, first.request) == NetworkFirst
    requires FromShellClient(env, first.request, first.client) && first.net.Some? && first.io.open && first.io.write
    requires first.net.value.status == 200
    requires first.request.mode == "navigate" || !ContainsHtml(first.net.value.contentType)
    requires Step(env, s, first).lastSweep == s.lastSweep
    requires RunLeaves(env, Step(env, s, first), es, first.request.url)
    requires later.Fetch? && later.request == first.request && later.net == None && later.io.open
    requires FromShellClient(env, later.request, later.client) && first.now <= later.now <= first.now + 86400000.0
    ensures
      var p, u := StripBase(env, first.request.url.path), Run(env, Step(env, s, first), es);
      HandleFetch(env, u, later.request, later.client, None, later.now, later.io).0
      == match env.parse(first.net.value.body)
         case None => Failed
         case Some(j) => match PublicApiShape(p, j) case None => Failed case Some(a) => Rebuilt(p, a)
  {
    var r, res := first.request, first.net.value;
    hide Lookup, Keep, StripBase, FromShellClient, PublicApiShape, ContainsHtml, RunLeaves;
    assert Step(env, s, first) == Keep(env, s, r.url, res, first.now, first.io);
    KeepLookup(env, s, r.url, res, first.now, first.io, r.url);
    RunLeavesEntry(env, Step(env, s, first), es, r.url);
  }

  /** The shell likewise, to every later navigation to it. */
  lemma StoredShellIsServed(env: Env, s: State, first: Event, es: seq<Event>, later: Event)
    requires first.Fetch? && ChooseStrategy(env, first.request) == ShellFallback && first.net.Some?
    requires first.io.open && first.io.write && first.request.url == ShellKey(env)
    requires
      var res := first.net.value;
      && res.status == 200 && !res.tagged && !res.gated && ContainsHtml(res.contentType)
      && MatchesManifest(env, "/index.html", res.body)
    requires Step(env, s, first).lastSweep == s.lastSweep
    requires RunLeaves(env, Step(env, s, first), es, ShellKey(env))
    requires later.Fetch? && ChooseStrategy(env, later.request) == ShellFallback && later.net == None && later.io.open
    ensures
      var u := Run(env, Step(env, s, first), es);
      HandleFetch(env, u, later.request, later.client, None, later.now, later.io).0
      == FromCache("/index.html", first.net.value.body, "text/html; charset=utf-8", true)
  {
    var r, res := first.request, first.net.value;
    IndexType();
    hide Lookup, Keep, StripBase, MatchesManifest, TypeByExtension, ContainsHtml, RunLeaves;
    assert Step(env, s, first) == Keep(env, s, ShellKey(env), res, first.now, first.io);
    KeepLookup(env, s, ShellKey(env), res, first.now, first.io, ShellKey(env));
    RunLeavesEntry(env, Step(env, s, first), es, ShellKey(env));
  }

  lemma IndexType()
    ensures TypeByExtension("/index.html") == "text/html; charset=utf-8"
  {
    assert EndsWith(Lower("/index.html"), "." + "html") && Lower("html") == "html";
    ExtensionOf("/index.html", "html");
  }

  // -- exactly what is served and dropped ---------------------------------------

  /** An asset or font: served from the cache exactly when the cache can be opened and holds
      a complete answer that is no page and, for a file of the build, is the one the build
      wrote; otherwise the network answers. A stored file that fails the check goes. */
  lemma AssetAnswerIs(env: Env, s: State, e: Event)
    requires e.Fetch? && ChooseStrategy(env, e.request) == CacheFirst && FromShellClient(env, e.request, e.client)
    ensures
      var p, x := StripBase(env, e.request.url.path), Lookup(s.cache, e.request.url);
      var complete := e.io.open && x.Some? && x.value.status == 200 && !ContainsHtml(x.value.contentType);
      var right := complete && ("/assets/" <= p ==> MatchesManifest(env, p, x.value.body));
      && HandleFetch(env, s, e.request, e.client, e.net, e.now, e.io).0
         == (if right then FromCache(p, x.value.body, TypeByExtension(p), false)
             else match e.net case None => Failed case Some(res) => FromNetwork(res))
      && (complete && !right && e.io.del && e.net.None? ==>
            Lookup(Step(env, s, e).cache, e.request.url) == None)
      && (complete && !right && !e.io.del && e.net.None? ==> Step(env, s, e) == s)
  {
    KeysApart(env, e.request);
    LookupWithout(s.cache, {e.request.url}, e.request.url);
    hide StripBase, MatchesManifest, TypeByExtension, ContainsHtml, Lookup, Keep, FromShellClient, Without;
  }

  /** The shell that a gated answer of the network removes, in a navigation or at an
      installation; nothing else goes with it. */
  lemma GatedShellIsGone(env: Env, s: State, e: Event, url: Url)
    requires (e.Fetch? && ChooseStrategy(env, e.request) == ShellFallback) || e.Install?
    requires e.net.Some? && e.net.value.gated
    ensures Lookup(Step(env, s, e).cache, url)
         == if e.io.open && e.io.del && url == ShellKey(env) then None else Lookup(s.cache, url)
  {
    LookupWithout(s.cache, {ShellKey(env)}, url);
    hide StripBase, MatchesManifest, Lookup, Keep, Without;
  }

  /** What an installation stores: the build's own page, neither tagged nor gated. */
  lemma InstallStores(env: Env, s: State, e: Event)
    requires e.Install? && e.net.Some? && !e.net.value.gated && Step(env, s, e).lastSweep == s.lastSweep
    ensures
      var stored := && e.io.open && e.io.write && e.net.value.status == 200 && !e.net.value.tagged
                    && MatchesManifest(env, "/index.html", e.net.value.body);
      Lookup(Step(env, s, e).cache, ShellKey(env))
      == if stored then Some(e.net.value.(stamp := e.now)) else Lookup(s.cache, ShellKey(env))
  {
    hide MatchesManifest, Lookup, Keep;
    if e.io.open && e.net.value.status == 200 && !e.net.value.tagged
       && MatchesManifest(env, "/index.html", e.net.value.body) {
      KeepLookup(env, s, ShellKey(env), e.net.value, e.now, e.io, ShellKey(env));
    }
  }

  /** Where the cache cannot be opened, nothing is served from it. */
  lemma ClosedCacheServesNothing(env: Env, s: State, e: Event)
    requires e.Fetch? && !e.io.open
    ensures
      var a := HandleFetch(env, s, e.request, e.client, e.net, e.now, e.io).0;
      !a.FromCache? && !a.Rebuilt?
  {
    hide StripBase, MatchesManifest, Lookup, Keep, FromShellClient, ChooseStrategy, IsLogout;
  }

  /** A public answer when the network is gone: the stored one, if it is at most a day old,
      and has the public shape. */
  lemma PublicAnswerIs(env: Env, s: State, e: Event)
    requires e.Fetch? && ChooseStrategy(env, e.request) == NetworkFirst && FromShellClient(env, e.request, e.client)
    ensures
      var p, x := StripBase(env, e.request.url.path), Lookup(s.cache, e.request.url);
      HandleFetch(env, s, e.request, e.client, e.net, e.now, e.io).0
      == match e.net
         case Some(res) => FromNetwork(res)
         case None =>
           if !e.io.open || x.None? || e.now - (if x.value.stamp > e.now then 0.0 else x.value.stamp) > 86400000.0 then
             Failed
           else
             match env.parse(x.value.body)
             case None => Failed
             case Some(j) => match PublicApiShape(p, j) case None => Failed case Some(a) => Rebuilt(p, a)
  {
    hide StripBase, Lookup, Keep, FromShellClient, PublicApiShape;
  }

  /** The shell when the network is gone: the stored one, if it is the build's own page,
      under the shell's own policy. */
  lemma ShellAnswerIs(env: Env, s: State, e: Event)
    requires e.Fetch? && ChooseStrategy(env, e.request) == ShellFallback
    ensures
      var x := Lookup(s.cache, ShellKey(env));
      HandleFetch(env, s, e.request, e.client, e.net, e.now, e.io).0
      == match e.net
         case Some(res) => FromNetwork(res)
         case None =>
           if e.io.open && x.Some? && MatchesManifest(env, "/index.html", x.value.body)
           then FromCache("/index.html", x.value.body, "text/html; charset=utf-8", true) else Failed
  {
    IndexType();
    hide StripBase, MatchesManifest, Lookup, Keep, TypeByExtension, Discard;
  }
}
