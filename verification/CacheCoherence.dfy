/** What the layered cache promises over whole runs (crates/mw-cache/src/lib.rs):
    coherence with the authoritative values, a bound on staleness where nothing is
    written through, and no trace of zero-access values. */
module CacheCoherence {
  import opened Wrappers
  import opened Text
  import opened LayeredCache

  // -- names never collide ----------------------------------------------------

  lemma SlugHasNoColon(c: CacheClass)
    ensures ':' !in Slug(c)
  {
  }

  lemma SlugsDiffer(c: CacheClass, d: CacheClass)
    requires Slug(c) == Slug(d)
    ensures c == d
  {
    assert |Slug(c)| == |Slug(d)| && Slug(c)[0] == Slug(d)[0] && Slug(c)[1] == Slug(d)[1];
  }

  lemma PrefixUpToColon(a: string, b: string, x: string, y: string)
    requires ':' !in a && ':' !in b && a + ":" + x == b + ":" + y
    ensures a == b && x == y
  {
    IndexOfAfter(a, ':', x);
    IndexOfAfter(b, ':', y);
    var s := a + [':'] + x;
    assert s == b + [':'] + y;
    assert a == s[..IndexOf(s, ':')] && x == s[IndexOf(s, ':') + 1..];
  }

  /** Different classes or keys never share a cache key. */
  lemma NamespacedInjective(c: CacheClass, k: string, d: CacheClass, l: string)
    requires Namespaced(c, k) == Namespaced(d, l)
    ensures c == d && k == l
  {
    SlugHasNoColon(c);
    SlugHasNoColon(d);
    PrefixUpToColon(Slug(c), Slug(d), k, l);
    SlugsDiffer(c, d);
  }

  lemma StoreKeyInjective(a: string, b: string)
    requires StoreKey(a) == StoreKey(b)
    ensures a == b
  {
    assert StoreKey(a)[8..] == a && StoreKey(b)[8..] == b;
  }

  // -- events ------------------------------------------------------------------

  /** One step of a run. `Forget` stands for expiry and eviction of any entries. */
  datatype Event<T> =
    | Read(c: CacheClass, key: string, now: real, link: Link, loaded: Option<T>)
    | Write(c: CacheClass, key: string, value: T, now: real, link: Link)
    | Change(c: CacheClass, key: string, value': Option<T>, link: Link)
    | Forget(memoryKeys: set<string>, redisKeys: set<string>)
    | ReadDerived(c: CacheClass, key: string, zeroAccess: bool, now: real, link: Link, loaded: Option<T>)
    | WriteDerived(c: CacheClass, key: string, zeroAccess: bool, value: T, now: real, link: Link)

  function Step<T(!new)>(cfg: Config<T>, t: Tiers, e: Event<T>): Tiers {
    match e
    case Read(c, key, now, link, loaded) => Get(cfg, t, c, key, now, link, loaded).1
    case Write(c, key, v, now, link) => WriteLayers(cfg, t, c, key, cfg.ser(v), now, link)
    case Change(c, key, _, link) => Invalidate(cfg, t, c, key, link)
    case Forget(m, r) => t.(memory := t.memory - m, redis := t.redis - r)
    case ReadDerived(c, key, za, now, link, loaded) => if za then t else Get(cfg, t, c, key, now, link, loaded).1
    case WriteDerived(c, key, za, v, now, link) => if za then t else WriteLayers(cfg, t, c, key, cfg.ser(v), now, link)
  }

  function Run<T(!new)>(cfg: Config<T>, t: Tiers, es: seq<Event<T>>): Tiers
    decreases |es|
  {
    if es == [] then t else Step(cfg, Run(cfg, t, es[..|es| - 1]), es[|es| - 1])
  }

  type Auth<T> = map<(CacheClass, string), T>

  function At<T>(auth: Auth<T>, c: CacheClass, key: string): Option<T> {
    if (c, key) in auth then Some(auth[(c, key)]) else None
  }

  /** The authoritative values after one step: a write sets one, a change sets or
      removes one. */
  function AuthStep<T>(auth: Auth<T>, e: Event<T>): Auth<T> {
    match e
    case Write(c, key, v, _, _) => auth[(c, key) := v]
    case WriteDerived(c, key, za, v, _, _) => if za then auth else auth[(c, key) := v]
    case Change(c, key, v, _) => if v.Some? then auth[(c, key) := v.value] else auth - {(c, key)}
    case _ => auth
  }

  function AuthRun<T>(auth: Auth<T>, es: seq<Event<T>>): Auth<T>
    decreases |es|
  {
    if es == [] then auth else AuthStep(AuthRun(auth, es[..|es| - 1]), es[|es| - 1])
  }

  // -- coherence ---------------------------------------------------------------

  /** A cached text decodes to the authoritative value, or to nothing. */
  ghost predicate Agrees<T(!new)>(cfg: Config<T>, auth: Auth<T>, c: CacheClass, key: string, text: string) {
    cfg.de(text).Some? ==> At(auth, c, key) == cfg.de(text)
  }

  ghost predicate MemoryAgrees<T(!new)>(cfg: Config<T>, t: Tiers, auth: Auth<T>, c: CacheClass, key: string) {
    cfg.UsesMemory(c) && Namespaced(c, key) in t.memory ==> Agrees(cfg, auth, c, key, t.memory[Namespaced(c, key)].text)
  }

  ghost predicate RedisAgrees<T(!new)>(cfg: Config<T>, t: Tiers, auth: Auth<T>, c: CacheClass, key: string) {
    cfg.UsesRedis(c) && Namespaced(c, key) in t.redis ==> Agrees(cfg, auth, c, key, t.redis[Namespaced(c, key)].text)
  }

  ghost predicate StoreAgrees<T(!new)>(cfg: Config<T>, t: Tiers, auth: Auth<T>, c: CacheClass, key: string) {
    var sk := StoreKey(Namespaced(c, key));
    cfg.UsesStore(c) && sk in t.store && t.store[sk] != TOMBSTONE ==> Agrees(cfg, auth, c, key, t.store[sk])
  }

  ghost predicate KeyCoherent<T(!new)>(cfg: Config<T>, t: Tiers, auth: Auth<T>, c: CacheClass, key: string) {
    MemoryAgrees(cfg, t, auth, c, key) && RedisAgrees(cfg, t, auth, c, key) && StoreAgrees(cfg, t, auth, c, key)
  }

  /** Every tier that is consulted for a key holds its authoritative value or nothing. */
  ghost predicate Coherent<T(!new)>(cfg: Config<T>, t: Tiers, auth: Auth<T>) {
    forall c, key :: KeyCoherent(cfg, t, auth, c, key)
  }

  /** The steps on one key leave the entries of every other key alone. */
  predicate SameFor(t: Tiers, t': Tiers, nk: string) {
    && (nk in t.memory <==> nk in t'.memory) && (nk in t.memory ==> t.memory[nk] == t'.memory[nk])
    && (nk in t.redis <==> nk in t'.redis) && (nk in t.redis ==> t.redis[nk] == t'.redis[nk])
    && (StoreKey(nk) in t.store <==> StoreKey(nk) in t'.store)
    && (StoreKey(nk) in t.store ==> t.store[StoreKey(nk)] == t'.store[StoreKey(nk)])
  }

  lemma WriteToMemory<T(!new)>(cfg: Config<T>, t: Tiers, c: CacheClass, key: string, text: string, now: real,
                               link: Link)
    ensures WriteLayers(cfg, t, c, key, text, now, link).memory
         == if !cfg.UsesMemory(c) then t.memory else
              t.memory[Namespaced(c, key) :=
                         Entry(text, MemDeadline(t.memory, Namespaced(c, key), now, cfg.Of(c).ttl))]
  {
    hide Namespaced, StoreKey, MemDeadline;
  }

  lemma WriteToRedis<T(!new)>(cfg: Config<T>, t: Tiers, c: CacheClass, key: string, text: string, now: real, link: Link)
    ensures WriteLayers(cfg, t, c, key, text, now, link).redis
         == if cfg.UsesRedis(c) && link.redisWrite
            then t.redis[Namespaced(c, key) := Entry(text, Deadline(now, cfg.Of(c).ttl))] else t.redis
  {
    hide Namespaced, StoreKey, Deadline;
  }

  lemma WriteToStore<T(!new)>(cfg: Config<T>, t: Tiers, c: CacheClass, key: string, text: string, now: real, link: Link)
    ensures WriteLayers(cfg, t, c, key, text, now, link).store
         == if cfg.UsesStore(c) && link.storeWrite then t.store[StoreKey(Namespaced(c, key)) := text] else t.store
  {
    hide Namespaced, StoreKey, Deadline;
  }

  /** What a write leaves in each tier. */
  lemma WriteTiers<T(!new)>(cfg: Config<T>, t: Tiers, c: CacheClass, key: string, text: string, now: real, link: Link)
    ensures
      var t', nk, e := WriteLayers(cfg, t, c, key, text, now, link), Namespaced(c, key),
                       Entry(text, Deadline(now, cfg.Of(c).ttl));
      && t'.memory
      == (if cfg.UsesMemory(c) then t.memory[nk := Entry(text, MemDeadline(t.memory, nk, now, cfg.Of(c).ttl))]
          else t.memory)
      && t'.redis == (if cfg.UsesRedis(c) && link.redisWrite then t.redis[nk := e] else t.redis)
      && t'.store == (if cfg.UsesStore(c) && link.storeWrite then t.store[StoreKey(nk) := text] else t.store)
  {
    hide *;
    WriteToMemory(cfg, t, c, key, text, now, link);
    WriteToRedis(cfg, t, c, key, text, now, link);
    WriteToStore(cfg, t, c, key, text, now, link);
  }

  lemma DropFromStore<T(!new)>(cfg: Config<T>, t: Tiers, c: CacheClass, key: string, link: Link)
    ensures
      var t', nk := Invalidate(cfg, t, c, key, link), Namespaced(c, key);
      t'.store == (if cfg.UsesStore(c) && link.storeWrite then t.store[StoreKey(nk) := TOMBSTONE] else t.store)
  {
    hide Namespaced, StoreKey;
  }

  lemma DropFromRedis<T(!new)>(cfg: Config<T>, t: Tiers, c: CacheClass, key: string, link: Link)
    ensures
      var t', nk := Invalidate(cfg, t, c, key, link), Namespaced(c, key);
      t'.memory == t.memory - {nk}
      && t'.redis == (if cfg.UsesRedis(c) && link.redisWrite then t.redis - {nk} else t.redis)
  {
    hide Namespaced, StoreKey;
  }

  /** What an invalidation leaves in each tier. */
  lemma DropTiers<T(!new)>(cfg: Config<T>, t: Tiers, c: CacheClass, key: string, link: Link)
    ensures
      var t', nk := Invalidate(cfg, t, c, key, link), Namespaced(c, key);
      && t'.memory == t.memory - {nk}
      && t'.redis == (if cfg.UsesRedis(c) && link.redisWrite then t.redis - {nk} else t.redis)
      && t'.store == (if cfg.UsesStore(c) && link.storeWrite then t.store[StoreKey(nk) := TOMBSTONE] else t.store)
  {
    hide *;
    DropFromRedis(cfg, t, c, key, link);
    DropFromStore(cfg, t, c, key, link);
  }

  lemma OthersKept<T(!new)>(cfg: Config<T>, t: Tiers, c: CacheClass, key: string, text: string, now: real, link: Link,
                            nk: string)
    requires nk != Namespaced(c, key)
    ensures SameFor(t, WriteLayers(cfg, t, c, key, text, now, link), nk)
  {
    WriteTiers(cfg, t, c, key, text, now, link);
    hide WriteLayers, Namespaced;
    if StoreKey(nk) == StoreKey(Namespaced(c, key)) {
      StoreKeyInjective(nk, Namespaced(c, key));
    }
  }

  lemma OthersKeptByDrop<T(!new)>(cfg: Config<T>, t: Tiers, c: CacheClass, key: string, link: Link, nk: string)
    requires nk != Namespaced(c, key)
    ensures SameFor(t, Invalidate(cfg, t, c, key, link), nk)
  {
    DropTiers(cfg, t, c, key, link);
    hide Invalidate, Namespaced;
    if StoreKey(nk) == StoreKey(Namespaced(c, key)) {
      StoreKeyInjective(nk, Namespaced(c, key));
    }
  }

  lemma SameStaysCoherent<T(!new)>(cfg: Config<T>, t: Tiers, t': Tiers, auth: Auth<T>, auth': Auth<T>, d: CacheClass,
                                   l: string)
    requires KeyCoherent(cfg, t, auth, d, l) && SameFor(t, t', Namespaced(d, l)) && At(auth, d, l) == At(auth', d, l)
    ensures KeyCoherent(cfg, t', auth', d, l)
  {
  }

  /** What a walk changes at most: memory may gain the text of a lower tier. */
  lemma WalkEffect<T(!new)>(cfg: Config<T>, t: Tiers, c: CacheClass, key: string, now: real, link: Link)
    ensures
      var nk, t' := Namespaced(c, key), Walk(cfg, t, c, key, now, link).1;
      && t'.redis == t.redis && t'.store == t.store
      && (t'.memory == t.memory
          || (cfg.UsesRedis(c) && nk in t.redis && Live(t.redis[nk], now)
              && t'.memory == t.memory[nk := Entry(t.redis[nk].text, MemDeadline(t.memory, nk, now, cfg.Of(c).ttl))])
          || (cfg.UsesStore(c) && StoreKey(nk) in t.store && t.store[StoreKey(nk)] != TOMBSTONE
              && t'.memory
                 == t.memory[nk := Entry(t.store[StoreKey(nk)], MemDeadline(t.memory, nk, now, cfg.Of(c).ttl))]))
  {
    hide MemDeadline;
  }

  lemma WalkKeepsCoherence<T(!new)>(cfg: Config<T>, t: Tiers, auth: Auth<T>, c: CacheClass, key: string, now: real,
                                    link: Link)
    requires Coherent(cfg, t, auth)
    ensures Coherent(cfg, Walk(cfg, t, c, key, now, link).1, auth)
  {
    var t' := Walk(cfg, t, c, key, now, link).1;
    WalkEffect(cfg, t, c, key, now, link);
    hide Walk;
    forall d, l ensures KeyCoherent(cfg, t', auth, d, l) {
      assert KeyCoherent(cfg, t, auth, d, l);
      if (d, l) != (c, key) && Namespaced(d, l) == Namespaced(c, key) {
        NamespacedInjective(d, l, c, key);
      }
    }
  }

  /** A hit is the authoritative value. */
  lemma HitAgrees<T(!new)>(cfg: Config<T>, t: Tiers, auth: Auth<T>, c: CacheClass, key: string, now: real, link: Link)
    requires KeyCoherent(cfg, t, auth, c, key)
    ensures
      var r := Walk(cfg, t, c, key, now, link).0;
      r.Some? ==> r == At(auth, c, key)
  {
    HitSource(cfg, t, c, key, now, link);
    hide Walk, Namespaced, StoreKey;
  }

  /** A hit is the decoded text of a consulted tier. */
  lemma HitSource<T(!new)>(cfg: Config<T>, t: Tiers, c: CacheClass, key: string, now: real, link: Link)
    ensures
      var r, nk := Walk(cfg, t, c, key, now, link).0, Namespaced(c, key);
      r.None?
      || (cfg.UsesMemory(c) && nk in t.memory && Live(t.memory[nk], now) && r == cfg.de(t.memory[nk].text))
      || (cfg.UsesRedis(c) && nk in t.redis && Live(t.redis[nk], now) && r == cfg.de(t.redis[nk].text))
      || (cfg.UsesStore(c) && StoreKey(nk) in t.store && t.store[StoreKey(nk)] != TOMBSTONE
          && r == cfg.de(t.store[StoreKey(nk)]))
  {
    hide Namespaced, StoreKey;
  }

  /** Writing the authoritative value keeps coherence, even when some tier calls fail, if
      it was there before. */
  lemma WriteKeepsCoherence<T(!new)>(cfg: Config<T>, t: Tiers, auth: Auth<T>, c: CacheClass, key: string, v: T,
                                     now: real, link: Link)
    requires cfg.GoodCodec() && Coherent(cfg, t, auth) && At(auth, c, key) == Some(v)
    ensures Coherent(cfg, WriteLayers(cfg, t, c, key, cfg.ser(v), now, link), auth)
  {
    var t' := WriteLayers(cfg, t, c, key, cfg.ser(v), now, link);
    forall d, l ensures KeyCoherent(cfg, t', auth, d, l) {
      assert KeyCoherent(cfg, t, auth, d, l);
      if Namespaced(d, l) == Namespaced(c, key) {
        NamespacedInjective(d, l, c, key);
        WrittenKey(cfg, t, auth, c, key, v, now, link);
      } else {
        OthersKept(cfg, t, c, key, cfg.ser(v), now, link, Namespaced(d, l));
        SameStaysCoherent(cfg, t, t', auth, auth, d, l);
      }
    }
  }

  lemma WrittenKey<T(!new)>(cfg: Config<T>, t: Tiers, auth: Auth<T>, c: CacheClass, key: string, v: T, now: real,
                            link: Link)
    requires cfg.GoodCodec() && KeyCoherent(cfg, t, auth, c, key) && At(auth, c, key) == Some(v)
    ensures KeyCoherent(cfg, WriteLayers(cfg, t, c, key, cfg.ser(v), now, link), auth, c, key)
  {
    hide WriteLayers, RedisAgrees, StoreAgrees, MemoryAgrees;
    WrittenKeyIff(cfg, t, auth, c, key, v, now, link);
  }

  /** What a failed tier call leaves behind is harmless for `c`/`key`. */
  ghost predicate RedisClean<T(!new)>(cfg: Config<T>, t: Tiers, auth: Auth<T>, c: CacheClass, key: string, link: Link) {
    link.redisWrite || RedisAgrees(cfg, t, auth, c, key)
  }

  ghost predicate StoreClean<T(!new)>(cfg: Config<T>, t: Tiers, auth: Auth<T>, c: CacheClass, key: string, link: Link) {
    link.storeWrite || StoreAgrees(cfg, t, auth, c, key)
  }

  /** Writing a new value through, or invalidating after a change, keeps coherence
      exactly when each tier call succeeds or the old entry happens to be right. */
  lemma WriteThroughIff<T(!new)>(cfg: Config<T>, t: Tiers, auth: Auth<T>, c: CacheClass, key: string, v: T, now: real,
                                 link: Link)
    requires cfg.GoodCodec() && Coherent(cfg, t, auth)
    ensures
      var auth' := auth[(c, key) := v];
      Coherent(cfg, WriteLayers(cfg, t, c, key, cfg.ser(v), now, link), auth')
      <==> RedisClean(cfg, t, auth', c, key, link) && StoreClean(cfg, t, auth', c, key, link)
  {
    var auth' := auth[(c, key) := v];
    var t' := WriteLayers(cfg, t, c, key, cfg.ser(v), now, link);
    WrittenKeyIff(cfg, t, auth', c, key, v, now, link);
    OthersCoherent(cfg, t, t', auth, auth', c, key) by {
      forall nk | nk != Namespaced(c, key) ensures SameFor(t, t', nk) {
        OthersKept(cfg, t, c, key, cfg.ser(v), now, link, nk);
      }
    }
  }

  lemma WrittenRedis<T(!new)>(cfg: Config<T>, t: Tiers, auth: Auth<T>, c: CacheClass, key: string, text: string,
                              now: real, link: Link)
    requires At(auth, c, key).Some? && cfg.de(text) == At(auth, c, key)
    ensures RedisAgrees(cfg, WriteLayers(cfg, t, c, key, text, now, link), auth, c, key)
       <==> RedisClean(cfg, t, auth, c, key, link)
    ensures MemoryAgrees(cfg, WriteLayers(cfg, t, c, key, text, now, link), auth, c, key)
  {
    WriteTiers(cfg, t, c, key, text, now, link);
    hide WriteLayers, Namespaced;
  }

  lemma WrittenStore<T(!new)>(cfg: Config<T>, t: Tiers, auth: Auth<T>, c: CacheClass, key: string, text: string,
                              now: real, link: Link)
    requires At(auth, c, key).Some? && cfg.de(text) == At(auth, c, key) && text != TOMBSTONE
    ensures StoreAgrees(cfg, WriteLayers(cfg, t, c, key, text, now, link), auth, c, key)
       <==> StoreClean(cfg, t, auth, c, key, link)
  {
    WriteTiers(cfg, t, c, key, text, now, link);
    hide WriteLayers, Namespaced, StoreKey;
  }

  lemma WrittenKeyIff<T(!new)>(cfg: Config<T>, t: Tiers, auth: Auth<T>, c: CacheClass, key: string, v: T, now: real,
                               link: Link)
    requires cfg.GoodCodec() && At(auth, c, key) == Some(v)
    ensures KeyCoherent(cfg, WriteLayers(cfg, t, c, key, cfg.ser(v), now, link), auth, c, key)
       <==> RedisClean(cfg, t, auth, c, key, link) && StoreClean(cfg, t, auth, c, key, link)
  {
    assert cfg.de(cfg.ser(v)) == Some(v);
    hide WriteLayers, RedisAgrees, StoreAgrees, MemoryAgrees, RedisClean, StoreClean;
    WrittenRedis(cfg, t, auth, c, key, cfg.ser(v), now, link);
    WrittenStore(cfg, t, auth, c, key, cfg.ser(v), now, link);
  }

  lemma DroppedRedis<T(!new)>(cfg: Config<T>, t: Tiers, auth: Auth<T>, c: CacheClass, key: string, link: Link)
    ensures RedisAgrees(cfg, Invalidate(cfg, t, c, key, link), auth, c, key) <==> RedisClean(cfg, t, auth, c, key, link)
    ensures MemoryAgrees(cfg, Invalidate(cfg, t, c, key, link), auth, c, key)
  {
    DropTiers(cfg, t, c, key, link);
    hide Invalidate, Namespaced;
  }

  lemma DroppedStore<T(!new)>(cfg: Config<T>, t: Tiers, auth: Auth<T>, c: CacheClass, key: string, link: Link)
    ensures StoreAgrees(cfg, Invalidate(cfg, t, c, key, link), auth, c, key) <==> StoreClean(cfg, t, auth, c, key, link)
  {
    DropTiers(cfg, t, c, key, link);
    hide Invalidate, Namespaced, StoreKey;
  }

  lemma DroppedKeyIff<T(!new)>(cfg: Config<T>, t: Tiers, auth: Auth<T>, c: CacheClass, key: string, link: Link)
    ensures KeyCoherent(cfg, Invalidate(cfg, t, c, key, link), auth, c, key)
       <==> RedisClean(cfg, t, auth, c, key, link) && StoreClean(cfg, t, auth, c, key, link)
  {
    hide Invalidate, RedisAgrees, StoreAgrees, MemoryAgrees, RedisClean, StoreClean;
    DroppedRedis(cfg, t, auth, c, key, link);
    DroppedStore(cfg, t, auth, c, key, link);
  }

  /** When a step touches one key only, coherence is coherence at that key. */
  lemma OthersCoherent<T(!new)>(cfg: Config<T>, t: Tiers, t': Tiers, auth: Auth<T>, auth': Auth<T>, c: CacheClass,
                                key: string)
    requires Coherent(cfg, t, auth)
    requires forall nk | nk != Namespaced(c, key) :: SameFor(t, t', nk)
    requires forall d, l | (d, l) != (c, key) :: At(auth, d, l) == At(auth', d, l)
    ensures Coherent(cfg, t', auth') <==> KeyCoherent(cfg, t', auth', c, key)
  {
    forall d, l | (d, l) != (c, key) ensures KeyCoherent(cfg, t', auth', d, l) {
      if Namespaced(d, l) == Namespaced(c, key) {
        NamespacedInjective(d, l, c, key);
      }
      assert KeyCoherent(cfg, t, auth, d, l);
      SameStaysCoherent(cfg, t, t', auth, auth', d, l);
    }
  }

  function Changed<T>(auth: Auth<T>, c: CacheClass, key: string, v: Option<T>): Auth<T> {
    if v.Some? then auth[(c, key) := v.value] else auth - {(c, key)}
  }

  lemma InvalidateIff<T(!new)>(cfg: Config<T>, t: Tiers, auth: Auth<T>, c: CacheClass, key: string, v: Option<T>,
                               link: Link)
    requires Coherent(cfg, t, auth)
    ensures
      var auth' := Changed(auth, c, key, v);
      Coherent(cfg, Invalidate(cfg, t, c, key, link), auth')
      <==> RedisClean(cfg, t, auth', c, key, link) && StoreClean(cfg, t, auth', c, key, link)
  {
    var auth', t' := Changed(auth, c, key, v), Invalidate(cfg, t, c, key, link);
    DroppedKeyIff(cfg, t, auth', c, key, link);
    OthersCoherent(cfg, t, t', auth, auth', c, key) by {
      forall nk | nk != Namespaced(c, key) ensures SameFor(t, t', nk) {
        OthersKeptByDrop(cfg, t, c, key, link, nk);
      }
    }
  }

  // -- coherence over runs ----------------------------------------------------

  /** The loader answers with the authoritative value, and the tier writes of writes and
      invalidations succeed; reads and back-fills may fail in any way. */
  predicate Faithful<T(==)>(auth: Auth<T>, e: Event<T>) {
    match e
    case Read(c, key, _, _, loaded) => loaded == At(auth, c, key)
    case ReadDerived(c, key, _, _, _, loaded) => loaded == At(auth, c, key)
    case Write(_, _, _, _, link) => link.redisWrite && link.storeWrite
    case WriteDerived(_, _, _, _, _, link) => link.redisWrite && link.storeWrite
    case Change(_, _, _, link) => link.redisWrite && link.storeWrite
    case Forget(_, _) => true
  }

  predicate FaithfulRun<T(==)>(auth: Auth<T>, es: seq<Event<T>>) {
    forall i | 0 <= i < |es| :: Faithful(AuthRun(auth, es[..i]), es[i])
  }

  lemma GetKeepsCoherence<T(!new)>(cfg: Config<T>, t: Tiers, auth: Auth<T>, c: CacheClass, key: string, now: real,
                                   link: Link)
    requires cfg.GoodCodec() && Coherent(cfg, t, auth)
    ensures Coherent(cfg, Get(cfg, t, c, key, now, link, At(auth, c, key)).1, auth)
    ensures Get(cfg, t, c, key, now, link, At(auth, c, key)).0 == At(auth, c, key)
  {
    WalkKeepsCoherence(cfg, t, auth, c, key, now, link);
    assert KeyCoherent(cfg, t, auth, c, key);
    HitAgrees(cfg, t, auth, c, key, now, link);
    hide Walk, WriteLayers, KeyCoherent;
    if At(auth, c, key).Some? {
      WriteKeepsCoherence(cfg, Walk(cfg, t, c, key, now, link).1, auth, c, key, At(auth, c, key).value, now, link);
    }
  }

  lemma ForgetKeepsCoherence<T(!new)>(cfg: Config<T>, t: Tiers, auth: Auth<T>, m: set<string>, r: set<string>)
    requires Coherent(cfg, t, auth)
    ensures Coherent(cfg, t.(memory := t.memory - m, redis := t.redis - r), auth)
  {
    forall c, key ensures KeyCoherent(cfg, t.(memory := t.memory - m, redis := t.redis - r), auth, c, key) {
      assert KeyCoherent(cfg, t, auth, c, key);
    }
  }

  lemma StepKeepsCoherence<T(!new)>(cfg: Config<T>, t: Tiers, auth: Auth<T>, e: Event<T>)
    requires cfg.GoodCodec() && Coherent(cfg, t, auth) && Faithful(auth, e)
    ensures Coherent(cfg, Step(cfg, t, e), AuthStep(auth, e))
  {
    hide Get, WriteLayers, Invalidate, Coherent, RedisAgrees, StoreAgrees;
    match e {
      case Read(c, key, now, link, _) => GetKeepsCoherence(cfg, t, auth, c, key, now, link);
      case ReadDerived(c, key, _, now, link, _) => GetKeepsCoherence(cfg, t, auth, c, key, now, link);
      case Write(c, key, v, now, link) => WriteThroughIff(cfg, t, auth, c, key, v, now, link);
      case WriteDerived(c, key, _, v, now, link) => WriteThroughIff(cfg, t, auth, c, key, v, now, link);
      case Change(c, key, v, link) => InvalidateIff(cfg, t, auth, c, key, v, link);
      case Forget(m, r) => ForgetKeepsCoherence(cfg, t, auth, m, r);
    }
  }

  lemma {:induction false} RunKeepsCoherence<T(!new)>(cfg: Config<T>, t: Tiers, auth: Auth<T>, es: seq<Event<T>>)
    requires cfg.GoodCodec() && Coherent(cfg, t, auth) && FaithfulRun(auth, es)
    ensures Coherent(cfg, Run(cfg, t, es), AuthRun(auth, es))
    decreases |es|
  {
    if es != [] {
      var front := es[..|es| - 1];
      assert forall i | 0 <= i < |front| :: front[..i] == es[..i];
      hide Coherent, Step, AuthStep, Faithful;
      RunKeepsCoherence(cfg, t, auth, front);
      StepKeepsCoherence(cfg, Run(cfg, t, front), AuthRun(auth, front), es[|es| - 1]);
    }
  }

  /** What a read in a run returns. */
  function Answer<T(!new)>(cfg: Config<T>, t: Tiers, e: Event<T>): Option<T>
    requires e.Read? || e.ReadDerived?
  {
    if e.ReadDerived? && e.zeroAccess then e.loaded else Get(cfg, t, e.c, e.key, e.now, e.link, e.loaded).0
  }

  /** In every sequential run that writes through, every read returns the authoritative
      value, whatever expires or is evicted and however many reads of the tiers fail. */
  lemma EveryReadIsAuthoritative<T(!new)>(cfg: Config<T>, t: Tiers, auth: Auth<T>, es: seq<Event<T>>, i: nat)
    requires cfg.GoodCodec() && Coherent(cfg, t, auth) && FaithfulRun(auth, es)
    requires i < |es| && (es[i].Read? || es[i].ReadDerived?)
    ensures Answer(cfg, Run(cfg, t, es[..i]), es[i]) == At(AuthRun(auth, es[..i]), es[i].c, es[i].key)
  {
    var front := es[..i];
    assert forall j | 0 <= j < |front| :: front[..j] == es[..j];
    assert Faithful(AuthRun(auth, front), es[i]);
    hide Coherent, Get, Run, AuthRun;
    RunKeepsCoherence(cfg, t, auth, front);
    GetKeepsCoherence(cfg, Run(cfg, t, front), AuthRun(auth, front), es[i].c, es[i].key, es[i].now, es[i].link);
  }

  /** A cache that starts empty is coherent with everything. */
  lemma EmptyIsCoherent<T(!new)>(cfg: Config<T>, auth: Auth<T>, connected: bool)
    ensures Coherent(cfg, Tiers(map[], map[], map[], connected), auth)
  {
  }

  /** Without the condition on writes coherence is lost: after a failed Redis delete the
      old value is served although the authoritative one is gone. */
  lemma FailedDeleteServesStale<T(!new)>(cfg: Config<T>, c: CacheClass, key: string, v: T)
    requires cfg.GoodCodec() && cfg.UsesRedis(c)
    ensures
      var up := Link(true, true, true, true);
      var down := Link(true, false, true, true);
      var t0 := Tiers(map[], map[], map[], true);
      var t := Run(cfg, t0, [Write(c, key, v, 0.0, up), Change(c, key, None, down)]);
      Get(cfg, t, c, key, 0.0, up, None).0 == Some(v)
  {
    var up := Link(true, true, true, true);
    var down := Link(true, false, true, true);
    var es: seq<Event<T>> := [Write(c, key, v, 0.0, up), Change(c, key, None, down)];
    assert es[..1] == [es[0]] && [es[0]][..0] == [] && es[..|es| - 1] == [es[0]];
    var t0 := Tiers(map[], map[], map[], true);
    assert Run(cfg, t0, [es[0]]) == Step(cfg, t0, es[0]);
    assert cfg.de(cfg.ser(v)) == Some(v);
  }
}
