/** What a read brings into the cache is served again, with the loader and the other tiers
    gone (crates/mw-cache/src/lib.rs). */
module CacheRecall {
  import opened Wrappers
  import opened LayeredCache
  import opened CacheCoherence

  /** The tier can be read. Memory always can. */
  predicate Readable(tier: Layer, link: Link) {
    (tier == Redis ==> link.redisRead) && (tier == Store ==> link.storeRead)
  }

  predicate InTime(until: Option<real>, now: real) {
    until.None? || now < until.value
  }

  /** From `from` on these entries serve nothing under the key, or the value. */
  ghost predicate NothingElse<T(!new)>(cfg: Config<T>, entries: map<string, Entry>, nk: string, v: T, from: real) {
    nk in entries && Live(entries[nk], from) ==> cfg.de(entries[nk].text) in {None, Some(v)}
  }

  /** The tier holds the value under the key until then, and no tier that is asked before it
      holds another one. */
  ghost predicate Holds<T(!new)>(cfg: Config<T>, t: Tiers, c: CacheClass, key: string, v: T, tier: Layer,
                                 until: Option<real>, from: real)
  {
    var nk := Namespaced(c, key);
    match tier
    case Memory =>
      cfg.UsesMemory(c) && nk in t.memory && cfg.de(t.memory[nk].text) == Some(v) && t.memory[nk].deadline == until
    case Redis =>
      && cfg.UsesRedis(c) && nk in t.redis && cfg.de(t.redis[nk].text) == Some(v) && t.redis[nk].deadline == until
      && (cfg.UsesMemory(c) ==> NothingElse(cfg, t.memory, nk, v, from))
    case Store =>
      && cfg.UsesStore(c) && StoreKey(nk) in t.store && t.store[StoreKey(nk)] != TOMBSTONE
      && cfg.de(t.store[StoreKey(nk)]) == Some(v)
      && (cfg.UsesMemory(c) ==> NothingElse(cfg, t.memory, nk, v, from))
      && (cfg.UsesRedis(c) ==> NothingElse(cfg, t.redis, nk, v, from))
  }

  /** A read of the key answers the value, whatever the loader does, and keeps it. */
  lemma ReadHits<T(!new)>(cfg: Config<T>, t: Tiers, c: CacheClass, key: string, now: real, link: Link,
                          loaded: Option<T>, v: T, tier: Layer, until: Option<real>, from: real)
    requires Holds(cfg, t, c, key, v, tier, until, from) && from <= now && Readable(tier, link)
    requires tier != Store ==> InTime(until, now)
    ensures
      var r := Get(cfg, t, c, key, now, link, loaded);
      r.0 == Some(v) && Holds(cfg, r.1, c, key, v, tier, until, from)
  {
    hide Namespaced, StoreKey, WriteLayers, Deadline, MemDeadline;
    WalkHits(cfg, t, c, key, now, link, v, tier, until, from);
    WalkHolds(cfg, t, c, key, now, link, v, tier, until, from);
    hide Walk, Holds;
  }

  lemma WalkHits<T(!new)>(cfg: Config<T>, t: Tiers, c: CacheClass, key: string, now: real, link: Link, v: T,
                          tier: Layer, until: Option<real>, from: real)
    requires Holds(cfg, t, c, key, v, tier, until, from) && from <= now && Readable(tier, link)
    requires tier != Store ==> InTime(until, now)
    ensures Walk(cfg, t, c, key, now, link).0 == Some(v)
  {
    hide Namespaced, StoreKey, MemPut;
  }

  lemma WalkHolds<T(!new)>(cfg: Config<T>, t: Tiers, c: CacheClass, key: string, now: real, link: Link, v: T,
                           tier: Layer, until: Option<real>, from: real)
    requires Holds(cfg, t, c, key, v, tier, until, from) && from <= now && Readable(tier, link)
    requires tier != Store ==> InTime(until, now)
    ensures Holds(cfg, Walk(cfg, t, c, key, now, link).1, c, key, v, tier, until, from)
  {
    hide Namespaced, StoreKey, MemDeadline;
  }

  // -- other events ------------------------------------------------------------

  /** An event that neither writes, changes nor forgets the key; a read of it comes in time
      and can read the tier. */
  predicate Spares<T>(e: Event<T>, c: CacheClass, key: string, tier: Layer, until: Option<real>, from: real) {
    match e
    case Read(d, l, now, link, _) =>
      (d, l) == (c, key) ==> from <= now && Readable(tier, link) && (tier != Store ==> InTime(until, now))
    case ReadDerived(d, l, za, now, link, _) =>
      (d, l) == (c, key) && !za ==> from <= now && Readable(tier, link) && (tier != Store ==> InTime(until, now))
    case Write(d, l, _, _, _) => (d, l) != (c, key)
    case WriteDerived(d, l, za, _, _, _) => za || (d, l) != (c, key)
    case Change(d, l, _, _) => (d, l) != (c, key)
    case Forget(m, r) =>
      (tier == Memory ==> Namespaced(c, key) !in m) && (tier == Redis ==> Namespaced(c, key) !in r)
  }

  lemma SameHolds<T(!new)>(cfg: Config<T>, t: Tiers, u: Tiers, c: CacheClass, key: string, v: T, tier: Layer,
                           until: Option<real>, from: real)
    requires Holds(cfg, t, c, key, v, tier, until, from) && SameFor(t, u, Namespaced(c, key))
    ensures Holds(cfg, u, c, key, v, tier, until, from)
  {
  }

  lemma WalkElsewhere<T(!new)>(cfg: Config<T>, t: Tiers, d: CacheClass, l: string, now: real, link: Link, nk: string)
    requires nk != Namespaced(d, l)
    ensures SameFor(t, Walk(cfg, t, d, l, now, link).1, nk)
  {
    WalkEffect(cfg, t, d, l, now, link);
    hide Walk, Namespaced, StoreKey;
  }

  lemma ReadElsewhere<T(!new)>(cfg: Config<T>, t: Tiers, d: CacheClass, l: string, now: real, link: Link,
                               loaded: Option<T>, nk: string)
    requires nk != Namespaced(d, l)
    ensures SameFor(t, Get(cfg, t, d, l, now, link, loaded).1, nk)
  {
    WalkElsewhere(cfg, t, d, l, now, link, nk);
    hide Walk, WriteLayers;
    var w := Walk(cfg, t, d, l, now, link).1;
    if loaded.Some? {
      OthersKept(cfg, w, d, l, cfg.ser(loaded.value), now, link, nk);
    }
  }

  lemma StepHolds<T(!new)>(cfg: Config<T>, t: Tiers, e: Event<T>, c: CacheClass, key: string, v: T, tier: Layer,
                           until: Option<real>, from: real)
    requires Holds(cfg, t, c, key, v, tier, until, from) && Spares(e, c, key, tier, until, from)
    ensures Holds(cfg, Step(cfg, t, e), c, key, v, tier, until, from)
  {
    var nk := Namespaced(c, key);
    if e.Forget? {
    } else {
      hide Holds, Get, WriteLayers, Invalidate, Namespaced, SameFor;
      if (e.c, e.key) == (c, key) {
        if e.Read? || (e.ReadDerived? && !e.zeroAccess) {
          ReadHits(cfg, t, c, key, e.now, e.link, e.loaded, v, tier, until, from);
        }
      } else {
        if Namespaced(e.c, e.key) == nk {
          NamespacedInjective(e.c, e.key, c, key);
        }
        ElsewhereHolds(cfg, t, e, c, key, v, tier, until, from);
      }
    }
  }

  lemma ElsewhereHolds<T(!new)>(cfg: Config<T>, t: Tiers, e: Event<T>, c: CacheClass, key: string, v: T, tier: Layer,
                                until: Option<real>, from: real)
    requires Holds(cfg, t, c, key, v, tier, until, from) && !e.Forget? && Namespaced(e.c, e.key) != Namespaced(c, key)
    ensures Holds(cfg, Step(cfg, t, e), c, key, v, tier, until, from)
  {
    hide Holds, Step, Namespaced, SameFor;
    StepElsewhere(cfg, t, e, Namespaced(c, key));
    SameHolds(cfg, t, Step(cfg, t, e), c, key, v, tier, until, from);
  }

  predicate AllSpare<T>(es: seq<Event<T>>, c: CacheClass, key: string, tier: Layer, until: Option<real>, from: real) {
    forall i | 0 <= i < |es| :: Spares(es[i], c, key, tier, until, from)
  }

  lemma {:induction false} RunHolds<T(!new)>(cfg: Config<T>, t: Tiers, es: seq<Event<T>>, c: CacheClass, key: string,
                                             v: T, tier: Layer, until: Option<real>, from: real)
    requires Holds(cfg, t, c, key, v, tier, until, from) && AllSpare(es, c, key, tier, until, from)
    ensures Holds(cfg, Run(cfg, t, es), c, key, v, tier, until, from)
    decreases |es|
  {
    if es != [] {
      var front := es[..|es| - 1];
      assert AllSpare(front, c, key, tier, until, from) && Spares(es[|es| - 1], c, key, tier, until, from);
      RunHolds(cfg, t, front, c, key, v, tier, until, from);
      hide Holds, Spares, Step;
      StepHolds(cfg, Run(cfg, t, front), es[|es| - 1], c, key, v, tier, until, from);
    }
  }

  // -- what a read leaves ------------------------------------------------------

  /** The read brought the value into the tier: it loaded it with the tier up; or it found
      it anywhere below memory, which it then warms. A live memory entry keeps its own
      deadline, so memory must hold none. */
  predicate Brings<T(!new)>(cfg: Config<T>, t: Tiers, c: CacheClass, key: string, now: real, link: Link,
                            loaded: Option<T>, tier: Layer)
  {
    var nk, missed := Namespaced(c, key), Walk(cfg, t, c, key, now, link).0.None? && loaded.Some?;
    match tier
    case Memory => cfg.UsesMemory(c) && !(nk in t.memory && Live(t.memory[nk], now))
    case Redis => cfg.UsesRedis(c) && missed && link.redisWrite
    case Store =>
      cfg.UsesStore(c) && missed && link.storeWrite && (cfg.UsesRedis(c) ==> link.redisRead || link.redisWrite)
  }

  function Until<T(!new)>(cfg: Config<T>, c: CacheClass, now: real): Option<real> {
    if cfg.Of(c).ttl == 0 then None else Some(now + cfg.Of(c).ttl as real)
  }

  lemma HitWarms<T(!new)>(cfg: Config<T>, t: Tiers, c: CacheClass, key: string, now: real, link: Link, v: T)
    requires Walk(cfg, t, c, key, now, link).0 == Some(v) && cfg.UsesMemory(c)
    requires !(Namespaced(c, key) in t.memory && Live(t.memory[Namespaced(c, key)], now))
    ensures Holds(cfg, Walk(cfg, t, c, key, now, link).1, c, key, v, Memory, Until(cfg, c, now), now)
  {
    hide Namespaced, StoreKey;
  }

  lemma MissLeaves<T(!new)>(cfg: Config<T>, t: Tiers, c: CacheClass, key: string, now: real, link: Link, v: T)
    requires Walk(cfg, t, c, key, now, link).0.None?
    ensures
      var u := Walk(cfg, t, c, key, now, link).1;
      && u.memory == t.memory && u.redis == t.redis && u.store == t.store
      && (cfg.UsesRedis(c) && link.redisRead ==> NothingElse(cfg, u.redis, Namespaced(c, key), v, now))
  {
    WalkEffect(cfg, t, c, key, now, link);
    hide Namespaced, StoreKey;
  }

  lemma LoadHolds<T(!new)>(cfg: Config<T>, t: Tiers, c: CacheClass, key: string, now: real, link: Link, v: T,
                           tier: Layer)
    requires cfg.GoodCodec() && Walk(cfg, t, c, key, now, link).0.None?
    requires Brings(cfg, t, c, key, now, link, Some(v), tier)
    ensures Holds(cfg, Get(cfg, t, c, key, now, link, Some(v)).1, c, key, v, tier, Until(cfg, c, now), now)
  {
    var w, text := Walk(cfg, t, c, key, now, link).1, cfg.ser(v);
    MissLeaves(cfg, t, c, key, now, link, v);
    assert cfg.de(text) == Some(v) && text != TOMBSTONE;
    WriteTiers(cfg, w, c, key, text, now, link);
    hide Walk, WriteLayers, Namespaced, StoreKey;
  }

  lemma ReadHolds<T(!new)>(cfg: Config<T>, t: Tiers, c: CacheClass, key: string, now: real, link: Link,
                           loaded: Option<T>, v: T, tier: Layer)
    requires cfg.GoodCodec() && Brings(cfg, t, c, key, now, link, loaded, tier)
    requires Get(cfg, t, c, key, now, link, loaded).0 == Some(v)
    ensures Holds(cfg, Get(cfg, t, c, key, now, link, loaded).1, c, key, v, tier, Until(cfg, c, now), now)
  {
    if Walk(cfg, t, c, key, now, link).0.None? {
      LoadHolds(cfg, t, c, key, now, link, v, tier);
    } else {
      HitWarms(cfg, t, c, key, now, link, v);
    }
  }

  /** A value that a read brought into a tier is what every later read of the key answers,
      with the loader failing, as long as the tier can be read, the time to live has not
      passed (the store has none), and no event between writes, changes or forgets the
      key. */
  lemma ReadIsRemembered<T(!new)>(cfg: Config<T>, t: Tiers, first: Event<T>, v: T, tier: Layer, es: seq<Event<T>>,
                                  now: real, link: Link)
    requires cfg.GoodCodec() && first.Read?
    requires Get(cfg, t, first.c, first.key, first.now, first.link, first.loaded).0 == Some(v)
    requires Brings(cfg, t, first.c, first.key, first.now, first.link, first.loaded, tier)
    requires AllSpare(es, first.c, first.key, tier, Until(cfg, first.c, first.now), first.now)
    requires first.now <= now && Readable(tier, link)
    requires tier != Store && cfg.Of(first.c).ttl > 0 ==> now < first.now + cfg.Of(first.c).ttl as real
    ensures Get(cfg, Run(cfg, Step(cfg, t, first), es), first.c, first.key, now, link, None).0 == Some(v)
  {
    var c, key, until := first.c, first.key, Until(cfg, first.c, first.now);
    ReadHolds(cfg, t, c, key, first.now, first.link, first.loaded, v, tier);
    assert Step(cfg, t, first) == Get(cfg, t, c, key, first.now, first.link, first.loaded).1;
    hide Holds, Get, Run, AllSpare, Brings;
    RunHolds(cfg, Step(cfg, t, first), es, c, key, v, tier, until, first.now);
    ReadHits(cfg, Run(cfg, Step(cfg, t, first), es), c, key, now, link, None, v, tier, until, first.now);
  }

  /** What a write leaves, where the calls to the tier and to those before it succeed. */
  predicate Places<T(!new)>(cfg: Config<T>, t: Tiers, c: CacheClass, key: string, now: real, link: Link, tier: Layer) {
    match tier
    case Memory => cfg.UsesMemory(c) && !(Namespaced(c, key) in t.memory && Live(t.memory[Namespaced(c, key)], now))
    case Redis => cfg.UsesRedis(c) && link.redisWrite
    case Store => cfg.UsesStore(c) && link.storeWrite && (cfg.UsesRedis(c) ==> link.redisWrite)
  }

  lemma WriteHolds<T(!new)>(cfg: Config<T>, t: Tiers, c: CacheClass, key: string, v: T, now: real, link: Link,
                            tier: Layer)
    requires cfg.GoodCodec() && Places(cfg, t, c, key, now, link, tier)
    ensures Holds(cfg, WriteLayers(cfg, t, c, key, cfg.ser(v), now, link), c, key, v, tier, Until(cfg, c, now), now)
  {
    var text := cfg.ser(v);
    assert cfg.de(text) == Some(v) && text != TOMBSTONE;
    WriteTiers(cfg, t, c, key, text, now, link);
    hide WriteLayers, Namespaced, StoreKey;
  }

  /** A written value likewise. */
  lemma WriteIsRemembered<T(!new)>(cfg: Config<T>, t: Tiers, first: Event<T>, tier: Layer, es: seq<Event<T>>,
                                   now: real, link: Link)
    requires cfg.GoodCodec() && first.Write? && Places(cfg, t, first.c, first.key, first.now, first.link, tier)
    requires AllSpare(es, first.c, first.key, tier, Until(cfg, first.c, first.now), first.now)
    requires first.now <= now && Readable(tier, link)
    requires tier != Store && cfg.Of(first.c).ttl > 0 ==> now < first.now + cfg.Of(first.c).ttl as real
    ensures Get(cfg, Run(cfg, Step(cfg, t, first), es), first.c, first.key, now, link, None).0 == Some(first.value)
  {
    var c, key, v, until := first.c, first.key, first.value, Until(cfg, first.c, first.now);
    WriteHolds(cfg, t, c, key, v, first.now, first.link, tier);
    assert Step(cfg, t, first) == WriteLayers(cfg, t, c, key, cfg.ser(v), first.now, first.link);
    hide Holds, Get, Run, AllSpare, WriteLayers;
    RunHolds(cfg, Step(cfg, t, first), es, c, key, v, tier, until, first.now);
    ReadHits(cfg, Run(cfg, Step(cfg, t, first), es), c, key, now, link, None, v, tier, until, first.now);
  }

  /** Which tiers a class uses: those of its policy, or the store for a class without one;
      of these Redis and the store only where they are configured. */
  lemma TiersOf<T(!new)>(cfg: Config<T>, c: CacheClass)
    ensures cfg.UsesMemory(c) <==> c in cfg.policies && Memory in cfg.policies[c].layers
    ensures cfg.UsesRedis(c) <==> cfg.redis && c in cfg.policies && Redis in cfg.policies[c].layers
    ensures cfg.UsesStore(c) <==> cfg.store && (c in cfg.policies ==> Store in cfg.policies[c].layers)
    ensures cfg.Of(c).ttl == if c in cfg.policies then cfg.policies[c].ttl else 0
  {
  }

  /** Redis that cannot be read answers nothing, and the failed call is noted. */
  lemma UnreadableRedis<T(!new)>(cfg: Config<T>, t: Tiers, c: CacheClass, key: string, now: real, link: Link)
    requires !link.redisRead
    ensures Walk(cfg, t, c, key, now, link).0 == Walk(cfg, t.(redis := map[]), c, key, now, link).0
    ensures cfg.UsesRedis(c) && Namespaced(c, key) !in t.memory ==> !Walk(cfg, t, c, key, now, link).1.connected
  {
    hide Namespaced, StoreKey, MemDeadline;
  }

  /** Nor does a store that cannot be read. */
  lemma UnreadableStore<T(!new)>(cfg: Config<T>, t: Tiers, c: CacheClass, key: string, now: real, link: Link)
    requires !link.storeRead
    ensures Walk(cfg, t, c, key, now, link).0 == Walk(cfg, t.(store := map[]), c, key, now, link).0
  {
    hide Namespaced, StoreKey, MemPut;
  }

  lemma UnwritableRedis<T(!new)>(cfg: Config<T>, t: Tiers, c: CacheClass, key: string, text: string, now: real,
                                 link: Link)
    requires !link.redisWrite && cfg.UsesRedis(c)
    ensures !WriteLayers(cfg, t, c, key, text, now, link).connected && !Invalidate(cfg, t, c, key, link).connected
  {
    hide Namespaced, StoreKey, MemPut;
  }

  // -- no tier holds what its class does not put there --------------------------

  /** No tier holds anything under a key whose class does not use the tier. */
  ghost predicate OwnTiers<T(!new)>(cfg: Config<T>, t: Tiers, c: CacheClass, key: string) {
    var nk := Namespaced(c, key);
    && (!cfg.UsesMemory(c) ==> nk !in t.memory) && (!cfg.UsesRedis(c) ==> nk !in t.redis)
    && (!cfg.UsesStore(c) ==> StoreKey(nk) !in t.store)
  }

  lemma WalkIntoOwn<T(!new)>(cfg: Config<T>, t: Tiers, c: CacheClass, key: string, now: real, link: Link)
    requires OwnTiers(cfg, t, c, key)
    ensures OwnTiers(cfg, Walk(cfg, t, c, key, now, link).1, c, key)
  {
    hide Namespaced, StoreKey, MemDeadline;
  }

  lemma WriteIntoOwn<T(!new)>(cfg: Config<T>, t: Tiers, c: CacheClass, key: string, text: string, now: real,
                              link: Link)
    requires OwnTiers(cfg, t, c, key)
    ensures OwnTiers(cfg, WriteLayers(cfg, t, c, key, text, now, link), c, key)
  {
    WriteTiers(cfg, t, c, key, text, now, link);
    hide WriteLayers, Namespaced, StoreKey;
  }

  lemma ReadIntoOwn<T(!new)>(cfg: Config<T>, t: Tiers, c: CacheClass, key: string, now: real, link: Link,
                             loaded: Option<T>)
    requires OwnTiers(cfg, t, c, key)
    ensures OwnTiers(cfg, Get(cfg, t, c, key, now, link, loaded).1, c, key)
  {
    WalkIntoOwn(cfg, t, c, key, now, link);
    hide OwnTiers, Walk, WriteLayers;
    if loaded.Some? {
      WriteIntoOwn(cfg, Walk(cfg, t, c, key, now, link).1, c, key, cfg.ser(loaded.value), now, link);
    }
  }

  lemma DropIntoOwn<T(!new)>(cfg: Config<T>, t: Tiers, c: CacheClass, key: string, link: Link)
    requires OwnTiers(cfg, t, c, key)
    ensures OwnTiers(cfg, Invalidate(cfg, t, c, key, link), c, key)
  {
    DropTiers(cfg, t, c, key, link);
    hide Invalidate, Namespaced, StoreKey;
  }

  lemma OwnElsewhere<T(!new)>(cfg: Config<T>, t: Tiers, u: Tiers, c: CacheClass, key: string)
    requires OwnTiers(cfg, t, c, key) && SameFor(t, u, Namespaced(c, key))
    ensures OwnTiers(cfg, u, c, key)
  {
  }

  lemma StepIntoOwn<T(!new)>(cfg: Config<T>, t: Tiers, e: Event<T>, c: CacheClass, key: string)
    requires OwnTiers(cfg, t, c, key)
    ensures OwnTiers(cfg, Step(cfg, t, e), c, key)
  {
    var nk := Namespaced(c, key);
    if !e.Forget? {
      hide OwnTiers, Get, WriteLayers, Invalidate, Namespaced, SameFor;
      if Namespaced(e.c, e.key) == nk {
        NamespacedInjective(e.c, e.key, c, key);
        match e {
          case Read(_, _, now, link, loaded) => ReadIntoOwn(cfg, t, c, key, now, link, loaded);
          case ReadDerived(_, _, _, now, link, loaded) => ReadIntoOwn(cfg, t, c, key, now, link, loaded);
          case Write(_, _, w, now, link) => WriteIntoOwn(cfg, t, c, key, cfg.ser(w), now, link);
          case WriteDerived(_, _, _, w, now, link) => WriteIntoOwn(cfg, t, c, key, cfg.ser(w), now, link);
          case Change(_, _, _, link) => DropIntoOwn(cfg, t, c, key, link);
        }
      } else {
        StepElsewhere(cfg, t, e, nk);
        OwnElsewhere(cfg, t, Step(cfg, t, e), c, key);
      }
    }
  }

  lemma StepElsewhere<T(!new)>(cfg: Config<T>, t: Tiers, e: Event<T>, nk: string)
    requires !e.Forget? && Namespaced(e.c, e.key) != nk
    ensures SameFor(t, Step(cfg, t, e), nk)
  {
    hide Get, WriteLayers, Invalidate, Namespaced;
    match e {
      case Read(d, l, now, link, loaded) => ReadElsewhere(cfg, t, d, l, now, link, loaded, nk);
      case ReadDerived(d, l, za, now, link, loaded) => ReadElsewhere(cfg, t, d, l, now, link, loaded, nk);
      case Write(d, l, w, now, link) => OthersKept(cfg, t, d, l, cfg.ser(w), now, link, nk);
      case WriteDerived(d, l, za, w, now, link) => OthersKept(cfg, t, d, l, cfg.ser(w), now, link, nk);
      case Change(d, l, _, link) => OthersKeptByDrop(cfg, t, d, l, link, nk);
    }
  }

  /** In every run that starts with empty tiers nothing is ever in a tier that its class does
      not use. */
  lemma {:induction false} OnlyOwnTiers<T(!new)>(cfg: Config<T>, es: seq<Event<T>>, c: CacheClass, key: string)
    ensures OwnTiers(cfg, Run(cfg, Tiers(map[], map[], map[], cfg.redis), es), c, key)
    decreases |es|
  {
    if es != [] {
      OnlyOwnTiers(cfg, es[..|es| - 1], c, key);
      hide OwnTiers, Step;
      StepIntoOwn(cfg, Run(cfg, Tiers(map[], map[], map[], cfg.redis), es[..|es| - 1]), es[|es| - 1], c, key);
    }
  }
}
