/** How old a value from the cache can be when nothing is written through, and that
    zero-access values leave no trace (crates/mw-cache/src/lib.rs). */
module CacheStaleness {
  import opened Wrappers
  import opened LayeredCache
  import opened CacheCoherence

  // -- where a cached text comes from -----------------------------------------

  function TimeOf<T>(e: Event<T>): real {
    match e
    case Read(_, _, now, _, _) => now
    case Write(_, _, _, now, _) => now
    case ReadDerived(_, _, _, now, _, _) => now
    case WriteDerived(_, _, _, _, now, _) => now
    case _ => 0.0
  }

  /** Steps that look at the clock. */
  predicate Timed<T>(e: Event<T>) {
    e.Read? || e.Write? || e.ReadDerived? || e.WriteDerived?
  }

  predicate InOrder<T>(es: seq<Event<T>>) {
    forall i, j | 0 <= i <= j < |es| && Timed(es[i]) && Timed(es[j]) :: TimeOf(es[i]) <= TimeOf(es[j])
  }

  function Loads<T(!new)>(cfg: Config<T>, t: Tiers, c: CacheClass, key: string, now: real, link: Link,
                          loaded: Option<T>)
    : Option<(string, string)>
  {
    if Walk(cfg, t, c, key, now, link).0.None? && loaded.Some?
    then Some((Namespaced(c, key), cfg.ser(loaded.value))) else None
  }

  /** The key and text a step brings into the cache from outside, if any. */
  function Wrote<T(!new)>(cfg: Config<T>, t: Tiers, e: Event<T>): Option<(string, string)> {
    match e
    case Read(c, key, now, link, loaded) => Loads(cfg, t, c, key, now, link, loaded)
    case ReadDerived(c, key, za, now, link, loaded) => if za then None else Loads(cfg, t, c, key, now, link, loaded)
    case Write(c, key, v, _, _) => Some((Namespaced(c, key), cfg.ser(v)))
    case WriteDerived(c, key, za, v, _, _) => if za then None else Some((Namespaced(c, key), cfg.ser(v)))
    case _ => None
  }

  /** Step `j` of the run brought this text in. */
  predicate Origin<T(!new)>(cfg: Config<T>, t: Tiers, es: seq<Event<T>>, j: nat, nk: string, text: string) {
    j < |es| && Wrote(cfg, Run(cfg, t, es[..j]), es[j]) == Some((nk, text))
  }

  /** What a step can put into memory for one key. */
  ghost predicate MemorySource<T(!new)>(cfg: Config<T>, t: Tiers, t': Tiers, e: Event<T>, c: CacheClass, key: string) {
    var nk := Namespaced(c, key);
    nk in t'.memory ==>
      var m, d := t'.memory[nk], MemDeadline(t.memory, nk, TimeOf(e), cfg.Of(c).ttl);
      || (nk in t.memory && m == t.memory[nk])
      || (Timed(e) && Wrote(cfg, t, e) == Some((nk, m.text)) && m.deadline == d)
      || (Timed(e) && cfg.UsesRedis(c) && nk in t.redis && Live(t.redis[nk], TimeOf(e))
          && m == Entry(t.redis[nk].text, d))
  }

  ghost predicate RedisSource<T(!new)>(cfg: Config<T>, t: Tiers, t': Tiers, e: Event<T>, c: CacheClass, key: string) {
    var nk := Namespaced(c, key);
    nk in t'.redis ==>
      var r, d := t'.redis[nk], Deadline(TimeOf(e), cfg.Of(c).ttl);
      || (nk in t.redis && r == t.redis[nk])
      || (Wrote(cfg, t, e) == Some((nk, r.text)) && r.deadline == d)
  }

  lemma WalkSources<T(!new)>(cfg: Config<T>, t: Tiers, e: Event<T>, d: CacheClass, l: string, link: Link,
                             c: CacheClass, key: string)
    requires Timed(e)
    requires !cfg.UsesStore(c)
    ensures MemorySource(cfg, t, Walk(cfg, t, d, l, TimeOf(e), link).1, e, c, key)
    ensures RedisSource(cfg, t, Walk(cfg, t, d, l, TimeOf(e), link).1, e, c, key)
  {
    WalkEffect(cfg, t, d, l, TimeOf(e), link);
    hide Walk, Wrote, TimeOf, Live;
    if Namespaced(d, l) == Namespaced(c, key) {
      NamespacedInjective(d, l, c, key);
    }
  }

  /** A miss leaves memory and Redis as they were. */
  lemma MissLeavesTiers<T(!new)>(cfg: Config<T>, t: Tiers, c: CacheClass, key: string, now: real, link: Link)
    requires Walk(cfg, t, c, key, now, link).0.None?
    ensures
      var t' := Walk(cfg, t, c, key, now, link).1;
      t'.memory == t.memory && t'.redis == t.redis
  {
    hide Namespaced, StoreKey;
  }

  lemma WriteMemorySource<T(!new)>(cfg: Config<T>, t: Tiers, u: Tiers, e: Event<T>, d: CacheClass, l: string,
                                   text: string, link: Link, c: CacheClass, key: string)
    requires Timed(e)
    requires t.memory == u.memory && Wrote(cfg, t, e) == Some((Namespaced(d, l), text))
    ensures MemorySource(cfg, t, WriteLayers(cfg, u, d, l, text, TimeOf(e), link), e, c, key)
  {
    WriteToMemory(cfg, u, d, l, text, TimeOf(e), link);
    hide WriteLayers, Wrote, TimeOf, Live, Deadline, Namespaced;
    if Namespaced(d, l) == Namespaced(c, key) {
      NamespacedInjective(d, l, c, key);
    }
  }

  lemma WriteRedisSource<T(!new)>(cfg: Config<T>, t: Tiers, u: Tiers, e: Event<T>, d: CacheClass, l: string,
                                  text: string, link: Link, c: CacheClass, key: string)
    requires t.redis == u.redis && Wrote(cfg, t, e) == Some((Namespaced(d, l), text))
    ensures RedisSource(cfg, t, WriteLayers(cfg, u, d, l, text, TimeOf(e), link), e, c, key)
  {
    WriteToRedis(cfg, u, d, l, text, TimeOf(e), link);
    hide WriteLayers, Wrote, TimeOf, Live, Deadline, Namespaced;
    if Namespaced(d, l) == Namespaced(c, key) {
      NamespacedInjective(d, l, c, key);
    }
  }

  lemma GetSources<T(!new)>(cfg: Config<T>, t: Tiers, e: Event<T>, d: CacheClass, l: string, link: Link,
                            loaded: Option<T>, c: CacheClass, key: string)
    requires Timed(e)
    requires !cfg.UsesStore(c) && Wrote(cfg, t, e) == Loads(cfg, t, d, l, TimeOf(e), link, loaded)
    ensures MemorySource(cfg, t, Get(cfg, t, d, l, TimeOf(e), link, loaded).1, e, c, key)
    ensures RedisSource(cfg, t, Get(cfg, t, d, l, TimeOf(e), link, loaded).1, e, c, key)
  {
    var w := Walk(cfg, t, d, l, TimeOf(e), link);
    WalkSources(cfg, t, e, d, l, link, c, key);
    if w.0.None? && loaded.Some? {
      MissLeavesTiers(cfg, t, d, l, TimeOf(e), link);
      hide Walk, WriteLayers, TimeOf, MemorySource, RedisSource, Wrote, Namespaced;
      WriteMemorySource(cfg, t, w.1, e, d, l, cfg.ser(loaded.value), link, c, key);
      WriteRedisSource(cfg, t, w.1, e, d, l, cfg.ser(loaded.value), link, c, key);
    }
  }

  lemma StepSources<T(!new)>(cfg: Config<T>, t: Tiers, e: Event<T>, c: CacheClass, key: string)
    requires !cfg.UsesStore(c)
    ensures MemorySource(cfg, t, Step(cfg, t, e), e, c, key) && RedisSource(cfg, t, Step(cfg, t, e), e, c, key)
  {
    hide Get, WriteLayers, Invalidate, Loads, Live, Namespaced;
    match e {
      case Read(d, l, _, link, loaded) => GetSources(cfg, t, e, d, l, link, loaded, c, key);
      case ReadDerived(d, l, za, _, link, loaded) =>
        if !za {
          GetSources(cfg, t, e, d, l, link, loaded, c, key);
        }
      case Write(d, l, v, _, link) =>
        WriteMemorySource(cfg, t, t, e, d, l, cfg.ser(v), link, c, key);
        WriteRedisSource(cfg, t, t, e, d, l, cfg.ser(v), link, c, key);
      case WriteDerived(d, l, za, v, _, link) =>
        if !za {
          WriteMemorySource(cfg, t, t, e, d, l, cfg.ser(v), link, c, key);
          WriteRedisSource(cfg, t, t, e, d, l, cfg.ser(v), link, c, key);
        }
      case Change(d, l, _, link) => DropTiers(cfg, t, d, l, link);
      case Forget(_, _) =>
    }
  }

  // -- the bound ---------------------------------------------------------------

  /** A class kept in memory or Redis only, with a time to live. */
  predicate Bounded<T(!new)>(cfg: Config<T>, c: CacheClass) {
    !cfg.UsesStore(c) && cfg.Of(c).ttl > 0
  }

  /** How much longer than `ttl` a text may stay: memory re-warmed from Redis starts a
      time to live of its own. */
  function Slack<T(!new)>(cfg: Config<T>, c: CacheClass): real {
    if cfg.UsesRedis(c) then 2.0 * cfg.Of(c).ttl as real else cfg.Of(c).ttl as real
  }

  predicate RedisBound<T(!new)>(cfg: Config<T>, t: Tiers, es: seq<Event<T>>, c: CacheClass, nk: string, e: Entry,
                                j: nat) {
    && Origin(cfg, t, es, j, nk, e.text) && e.deadline.Some?
    && e.deadline.value <= TimeOf(es[j]) + cfg.Of(c).ttl as real
  }

  predicate MemoryBound<T(!new)>(cfg: Config<T>, t: Tiers, es: seq<Event<T>>, c: CacheClass, nk: string, e: Entry,
                                 j: nat) {
    && Origin(cfg, t, es, j, nk, e.text) && e.deadline.Some?
    && e.deadline.value <= TimeOf(es[j]) + Slack(cfg, c)
  }

  /** The entry was created at a step's time, and stays for one time to live from then. */
  predicate CreatedAt<T(!new)>(cfg: Config<T>, es: seq<Event<T>>, c: CacheClass, e: Entry, j: nat) {
    j < |es| && Timed(es[j]) && e.deadline == Some(TimeOf(es[j]) + cfg.Of(c).ttl as real)
  }

  ghost predicate Aged<T(!new)>(cfg: Config<T>, t: Tiers, es: seq<Event<T>>, c: CacheClass, key: string) {
    var u, nk := Run(cfg, t, es), Namespaced(c, key);
    && (nk in u.memory ==> exists j :: MemoryBound(cfg, t, es, c, nk, u.memory[nk], j))
    && (nk in u.memory ==> exists j :: CreatedAt(cfg, es, c, u.memory[nk], j))
    && (nk in u.redis ==> exists j :: RedisBound(cfg, t, es, c, nk, u.redis[nk], j))
  }

  lemma OriginLasts<T(!new)>(cfg: Config<T>, t: Tiers, es: seq<Event<T>>, j: nat, nk: string, text: string)
    requires es != [] && Origin(cfg, t, es[..|es| - 1], j, nk, text)
    ensures Origin(cfg, t, es, j, nk, text) && es[..|es| - 1][j] == es[j]
  {
    assert es[..|es| - 1][..j] == es[..j];
    hide Run, Wrote;
  }

  lemma OriginLast<T(!new)>(cfg: Config<T>, t: Tiers, es: seq<Event<T>>, nk: string, text: string)
    requires es != [] && Wrote(cfg, Run(cfg, t, es[..|es| - 1]), es[|es| - 1]) == Some((nk, text))
    ensures Origin(cfg, t, es, |es| - 1, nk, text)
  {
  }

  /** An entry that is put into memory at a step runs out one time to live later at most:
      at the step's own time, or at the time of the live entry it overwrites. */
  lemma PutRunsOut<T(!new)>(cfg: Config<T>, front: seq<Event<T>>, es: seq<Event<T>>, c: CacheClass,
                            memory: map<string, Entry>,
                             nk: string, e: Entry)
    requires es != [] && front == es[..|es| - 1] && Bounded(cfg, c) && InOrder(es) && Timed(es[|es| - 1])
    requires nk in memory ==> exists j :: CreatedAt(cfg, front, c, memory[nk], j)
    requires e.deadline == MemDeadline(memory, nk, TimeOf(es[|es| - 1]), cfg.Of(c).ttl)
    ensures exists j :: CreatedAt(cfg, es, c, e, j)
    ensures e.deadline.Some? && e.deadline.value <= TimeOf(es[|es| - 1]) + cfg.Of(c).ttl as real
  {
    var now := TimeOf(es[|es| - 1]);
    hide TimeOf, Timed;
    if nk in memory && Live(memory[nk], now) {
      var j: nat :| CreatedAt(cfg, front, c, memory[nk], j);
      assert front[j] == es[j];
      assert CreatedAt(cfg, es, c, e, j);
    } else {
      assert CreatedAt(cfg, es, c, e, |es| - 1);
    }
  }

  lemma CreatedLasts<T(!new)>(cfg: Config<T>, es: seq<Event<T>>, c: CacheClass, e: Entry, j: nat)
    requires es != [] && CreatedAt(cfg, es[..|es| - 1], c, e, j)
    ensures CreatedAt(cfg, es, c, e, j)
  {
  }

  /** An entry that a step puts into memory. */
  lemma PutAges<T(!new)>(cfg: Config<T>, t: Tiers, front: seq<Event<T>>, es: seq<Event<T>>, c: CacheClass,
                         key: string, s: Tiers, m: Entry)
    requires es != [] && front == es[..|es| - 1] && Bounded(cfg, c) && InOrder(es) && Timed(es[|es| - 1])
    requires Aged(cfg, t, front, c, key) && s == Run(cfg, t, front)
    requires
      var e, nk := es[|es| - 1], Namespaced(c, key);
      && m.deadline == MemDeadline(s.memory, nk, TimeOf(e), cfg.Of(c).ttl)
      && (Wrote(cfg, s, e) == Some((nk, m.text))
          || (cfg.UsesRedis(c) && nk in s.redis && Live(s.redis[nk], TimeOf(e)) && m.text == s.redis[nk].text))
    ensures exists j :: MemoryBound(cfg, t, es, c, Namespaced(c, key), m, j)
    ensures exists j :: CreatedAt(cfg, es, c, m, j)
  {
    var e, nk := es[|es| - 1], Namespaced(c, key);
    hide Run, Wrote, Origin, Namespaced, MemDeadline, InOrder, TimeOf, Timed;
    PutRunsOut(cfg, front, es, c, s.memory, nk, m);
    if Wrote(cfg, s, e) == Some((nk, m.text)) {
      OriginLast(cfg, t, es, nk, m.text);
      assert MemoryBound(cfg, t, es, c, nk, m, |es| - 1);
    } else {
      var j :| RedisBound(cfg, t, front, c, nk, s.redis[nk], j);
      OriginLasts(cfg, t, es, j, nk, m.text);
      assert MemoryBound(cfg, t, es, c, nk, m, j);
    }
  }

  lemma MemoryAges<T(!new)>(cfg: Config<T>, t: Tiers, es: seq<Event<T>>, c: CacheClass, key: string)
    requires es != [] && Bounded(cfg, c) && InOrder(es) && Aged(cfg, t, es[..|es| - 1], c, key)
    requires MemorySource(cfg, Run(cfg, t, es[..|es| - 1]), Run(cfg, t, es), es[|es| - 1], c, key)
    ensures
      var u, nk := Run(cfg, t, es), Namespaced(c, key);
      nk in u.memory
      ==> && (exists j :: MemoryBound(cfg, t, es, c, nk, u.memory[nk], j))
          && exists j :: CreatedAt(cfg, es, c, u.memory[nk], j)
  {
    var front := es[..|es| - 1];
    var s, u, nk := Run(cfg, t, front), Run(cfg, t, es), Namespaced(c, key);
    hide Run, Wrote, Origin, Namespaced, MemDeadline, InOrder, TimeOf, Timed, Live, Bounded;
    if nk in u.memory {
      var m := u.memory[nk];
      if nk in s.memory && m == s.memory[nk] {
        var j :| MemoryBound(cfg, t, front, c, nk, m, j);
        OriginLasts(cfg, t, es, j, nk, m.text);
        assert MemoryBound(cfg, t, es, c, nk, m, j);
        var k :| CreatedAt(cfg, front, c, m, k);
        CreatedLasts(cfg, es, c, m, k);
      } else {
        PutAges(cfg, t, front, es, c, key, s, m);
      }
    }
  }

  lemma RedisAges<T(!new)>(cfg: Config<T>, t: Tiers, es: seq<Event<T>>, c: CacheClass, key: string)
    requires es != [] && Bounded(cfg, c) && Aged(cfg, t, es[..|es| - 1], c, key)
    requires RedisSource(cfg, Run(cfg, t, es[..|es| - 1]), Run(cfg, t, es), es[|es| - 1], c, key)
    ensures
      var u, nk := Run(cfg, t, es), Namespaced(c, key);
      nk in u.redis ==> exists j :: RedisBound(cfg, t, es, c, nk, u.redis[nk], j)
  {
    var front, e := es[..|es| - 1], es[|es| - 1];
    var s, u, nk := Run(cfg, t, front), Run(cfg, t, es), Namespaced(c, key);
    hide Run, Wrote, Origin, Namespaced;
    if nk in u.redis {
      var r := u.redis[nk];
      if nk in s.redis && r == s.redis[nk] {
        var j :| RedisBound(cfg, t, front, c, nk, r, j);
        OriginLasts(cfg, t, es, j, nk, r.text);
        assert RedisBound(cfg, t, es, c, nk, r, j);
      } else {
        OriginLast(cfg, t, es, nk, r.text);
        assert RedisBound(cfg, t, es, c, nk, r, |es| - 1);
      }
    }
  }

  lemma {:induction false} RunAges<T(!new)>(cfg: Config<T>, t: Tiers, es: seq<Event<T>>, c: CacheClass, key: string)
    requires Bounded(cfg, c) && InOrder(es) && t.memory == map[] && t.redis == map[]
    ensures Aged(cfg, t, es, c, key)
    decreases |es|
  {
    if es != [] {
      var front, e := es[..|es| - 1], es[|es| - 1];
      RunAges(cfg, t, front, c, key);
      StepSources(cfg, Run(cfg, t, front), e, c, key);
      assert Run(cfg, t, es) == Step(cfg, Run(cfg, t, front), e);
      hide Run, Step, MemorySource, RedisSource, Bounded;
      MemoryAges(cfg, t, es, c, key);
      RedisAges(cfg, t, es, c, key);
    }
  }

  lemma OriginInWhole<T(!new)>(cfg: Config<T>, t: Tiers, es: seq<Event<T>>, i: nat, j: nat, nk: string, text: string)
    requires i <= |es| && Origin(cfg, t, es[..i], j, nk, text)
    ensures Origin(cfg, t, es, j, nk, text) && es[..i][j] == es[j]
  {
    assert es[..i][..j] == es[..j];
    hide Run, Wrote;
  }

  /** For a class kept in memory and Redis only, with a clock that does not run back:
      every value served was brought in less than twice its time to live earlier, and less
      than once when Redis is not used. */
  lemma ServedValuesAreRecent<T(!new)>(cfg: Config<T>, t: Tiers, es: seq<Event<T>>, i: nat)
    requires i < |es| && es[i].Read? && Bounded(cfg, es[i].c) && cfg.GoodCodec()
    requires t.memory == map[] && t.redis == map[] && InOrder(es)
    requires Answer(cfg, Run(cfg, t, es[..i]), es[i]).Some?
    ensures exists j: nat, text ::
      && j <= i && Origin(cfg, t, es, j, Namespaced(es[i].c, es[i].key), text)
      && cfg.de(text) == Answer(cfg, Run(cfg, t, es[..i]), es[i])
      && TimeOf(es[i]) < TimeOf(es[j]) + Slack(cfg, es[i].c)
  {
    var s, e := Run(cfg, t, es[..i]), es[i];
    var nk := Namespaced(e.c, e.key);
    var v := Answer(cfg, s, e);
    RunAges(cfg, t, es[..i], e.c, e.key);
    HitSource(cfg, s, e.c, e.key, e.now, e.link);
    if Walk(cfg, s, e.c, e.key, e.now, e.link).0.None? {
      LoadedNow(cfg, t, es, i);
    } else if nk in s.memory && Live(s.memory[nk], e.now) && v == cfg.de(s.memory[nk].text) {
      var j :| MemoryBound(cfg, t, es[..i], e.c, nk, s.memory[nk], j);
      hide Run, Wrote, Origin, Namespaced, Walk;
      OriginInWhole(cfg, t, es, i, j, nk, s.memory[nk].text);
    } else {
      var j :| RedisBound(cfg, t, es[..i], e.c, nk, s.redis[nk], j);
      hide Run, Wrote, Origin, Namespaced, Walk;
      OriginInWhole(cfg, t, es, i, j, nk, s.redis[nk].text);
    }
  }

  lemma LoadedNow<T(!new)>(cfg: Config<T>, t: Tiers, es: seq<Event<T>>, i: nat)
    requires i < |es| && es[i].Read? && Bounded(cfg, es[i].c) && cfg.GoodCodec()
    requires
      var s := Run(cfg, t, es[..i]);
      Walk(cfg, s, es[i].c, es[i].key, es[i].now, es[i].link).0.None? && Answer(cfg, s, es[i]).Some?
    ensures exists text ::
      && Origin(cfg, t, es, i, Namespaced(es[i].c, es[i].key), text)
      && cfg.de(text) == Answer(cfg, Run(cfg, t, es[..i]), es[i])
  {
    var e := es[i];
    hide Run, Walk, WriteLayers, Namespaced;
    assert Origin(cfg, t, es, i, Namespaced(e.c, e.key), cfg.ser(e.loaded.value));
  }

  // -- the factor two is needed -----------------------------------------------

  function UpLink(): Link {
    Link(true, true, true, true)
  }

  /** Written at 0, forgotten by memory, read at `a`, read again at `b`. */
  function Rewarmed<T>(c: CacheClass, key: string, v: T, a: real, b: real): seq<Event<T>> {
    [Write(c, key, v, 0.0, UpLink()), Forget({Namespaced(c, key)}, {}), Read(c, key, a, UpLink(), None),
     Read(c, key, b, UpLink(), None)]
  }

  lemma AfterRewarming<T(!new)>(cfg: Config<T>, c: CacheClass, key: string, v: T, a: real, b: real)
    requires cfg.GoodCodec() && cfg.UsesMemory(c) && cfg.UsesRedis(c) && Bounded(cfg, c)
    requires 0.0 <= a < cfg.Of(c).ttl as real
    ensures
      var t := Run(cfg, Tiers(map[], map[], map[], true), Rewarmed(c, key, v, a, b)[..3]);
      var nk := Namespaced(c, key);
      nk in t.memory && t.memory[nk] == Entry(cfg.ser(v), Some(a + cfg.Of(c).ttl as real))
  {
    var t0 := Tiers(map[], map[], map[], true);
    var es := Rewarmed(c, key, v, a, b);
    var nk, ttl := Namespaced(c, key), cfg.Of(c).ttl;
    var t1, t2 := Run(cfg, t0, es[..1]), Run(cfg, t0, es[..2]);
    RunNext(cfg, t0, es, 0);
    RunNext(cfg, t0, es, 1);
    RunNext(cfg, t0, es, 2);
    assert es[..0] == [];
    WriteTiers(cfg, t0, c, key, cfg.ser(v), 0.0, UpLink());
    assert t1.redis == map[nk := Entry(cfg.ser(v), Some(ttl as real))];
    assert nk !in t2.memory && t2.redis == t1.redis;
    assert cfg.de(cfg.ser(v)) == Some(v);
    RedisHit(cfg, t2, c, key, v, a);
  }

  lemma RunNext<T(!new)>(cfg: Config<T>, t: Tiers, es: seq<Event<T>>, i: nat)
    requires i < |es|
    ensures Run(cfg, t, es[..i + 1]) == Step(cfg, Run(cfg, t, es[..i]), es[i])
  {
    assert es[..i + 1][..i] == es[..i];
  }

  lemma RedisHit<T(!new)>(cfg: Config<T>, t: Tiers, c: CacheClass, key: string, v: T, now: real)
    requires cfg.GoodCodec() && cfg.UsesMemory(c) && cfg.UsesRedis(c)
    requires
      var nk := Namespaced(c, key);
      nk !in t.memory && nk in t.redis && Live(t.redis[nk], now) && t.redis[nk].text == cfg.ser(v)
    ensures
      var nk := Namespaced(c, key);
      Get(cfg, t, c, key, now, UpLink(), None)
      == (Some(v), t.(memory := t.memory[nk := Entry(cfg.ser(v), Deadline(now, cfg.Of(c).ttl))]))
  {
    assert cfg.de(cfg.ser(v)) == Some(v);
    hide Namespaced;
  }

  lemma RewarmedInOrder<T>(c: CacheClass, key: string, v: T, a: real, b: real)
    requires 0.0 <= a <= b
    ensures InOrder(Rewarmed(c, key, v, a, b))
  {
  }

  /** Every age below twice the time to live occurs: some run serves a value written that
      long ago, although each tier keeps it for one time to live only. */
  lemma EveryAgeOccurs<T(!new)>(cfg: Config<T>, c: CacheClass, key: string, v: T, age: real)
    requires cfg.GoodCodec() && cfg.UsesMemory(c) && cfg.UsesRedis(c) && Bounded(cfg, c)
    requires 0.0 <= age < 2.0 * cfg.Of(c).ttl as real
    ensures exists a | 0.0 <= a <= age ::
      InOrder(Rewarmed(c, key, v, a, age))
      && Answer(cfg, Run(cfg, Tiers(map[], map[], map[], true), Rewarmed(c, key, v, a, age)[..3]),
             Rewarmed(c, key, v, a, age)[3]) == Some(v)
  {
    var a := age / 2.0;
    var t := Run(cfg, Tiers(map[], map[], map[], true), Rewarmed(c, key, v, a, age)[..3]);
    AfterRewarming(cfg, c, key, v, a, age);
    assert cfg.de(cfg.ser(v)) == Some(v);
    RewarmedInOrder(c, key, v, a, age);
    hide Run, Namespaced, InOrder;
    MemoryHit(cfg, t, c, key, v, age);
    assert Answer(cfg, t, Rewarmed(c, key, v, a, age)[3]) == Some(v);
  }

  lemma MemoryHit<T(!new)>(cfg: Config<T>, t: Tiers, c: CacheClass, key: string, v: T, now: real)
    requires cfg.GoodCodec() && cfg.UsesMemory(c)
    requires
      var nk := Namespaced(c, key);
      nk in t.memory && Live(t.memory[nk], now) && t.memory[nk].text == cfg.ser(v)
    ensures Get(cfg, t, c, key, now, UpLink(), None).0 == Some(v)
  {
    assert cfg.de(cfg.ser(v)) == Some(v);
    hide Namespaced;
  }

  // -- zero-access values -----------------------------------------------------

  predicate ZeroAccess<T>(e: Event<T>) {
    (e.ReadDerived? || e.WriteDerived?) && e.zeroAccess
  }

  /** The run without its zero-access steps. */
  function WithoutZeroAccess<T>(es: seq<Event<T>>): seq<Event<T>>
    decreases |es|
  {
    if es == [] then [] else
      var front := WithoutZeroAccess(es[..|es| - 1]);
      if ZeroAccess(es[|es| - 1]) then front else front + [es[|es| - 1]]
  }

  /** Zero-access reads and writes leave no trace: in every run the tiers end as if those
      steps had not happened. */
  lemma {:induction false} ZeroAccessLeavesNoTrace<T(!new)>(cfg: Config<T>, t: Tiers, es: seq<Event<T>>)
    ensures Run(cfg, t, es) == Run(cfg, t, WithoutZeroAccess(es))
    decreases |es|
  {
    if es != [] {
      var front, e := es[..|es| - 1], es[|es| - 1];
      ZeroAccessLeavesNoTrace(cfg, t, front);
      hide Get, WriteLayers, Invalidate;
      if !ZeroAccess(e) {
        var kept := WithoutZeroAccess(front);
        assert (kept + [e])[..|kept|] == kept;
      }
    }
  }
}
