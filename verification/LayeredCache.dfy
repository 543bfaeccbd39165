/** The layered cache: memory, then Redis, then the store, then the loader
    (crates/mw-cache/src/lib.rs). A tier is a map; whether a call to a tier succeeds is
    a parameter of every operation. Values are kept as their serialized text. */
module LayeredCache {
  import opened Wrappers

  datatype CacheClass =
    Sessions | HeaderWindows | MessageBodies | Blobs | SearchHotSet | PushPresence | RateLimit | GalDirectory

  datatype Layer = Memory | Redis | Store

  datatype Policy = Policy(layers: seq<Layer>, ttl: nat) {
    predicate Has(layer: Layer) {
      layer in layers
    }
  }

  /** A cached text and when it stops being served, at the latest. */
  datatype Entry = Entry(text: string, deadline: Option<real>)

  datatype Tiers = Tiers(memory: map<string, Entry>, redis: map<string, Entry>, store: map<string, string>,
                         connected: bool)

  /** Which tier calls of one operation succeed. */
  datatype Link = Link(redisRead: bool, redisWrite: bool, storeRead: bool, storeWrite: bool)

  datatype Config<!T(!new)> = Config(
    policies: map<CacheClass, Policy>, redis: bool, store: bool, ser: T -> string, de: string -> Option<T>)
  {
    function Of(c: CacheClass): Policy {
      if c in policies then policies[c] else Policy([Store], 0)
    }

    predicate UsesMemory(c: CacheClass) {
      Of(c).Has(Memory)
    }

    predicate UsesRedis(c: CacheClass) {
      Of(c).Has(Redis) && redis
    }

    predicate UsesStore(c: CacheClass) {
      Of(c).Has(Store) && store
    }

    /** Serialization can be undone, and never gives the tombstone. */
    ghost predicate GoodCodec() {
      forall v :: de(ser(v)) == Some(v) && ser(v) != TOMBSTONE
    }
  }

  const TOMBSTONE: string := ['\0'] + "mw-cache:tombstone"

  function Slug(c: CacheClass): string {
    match c
    case Sessions => "sessions"
    case HeaderWindows => "header-windows"
    case MessageBodies => "message-bodies"
    case Blobs => "blobs"
    case SearchHotSet => "search-hot-set"
    case PushPresence => "push-presence"
    case RateLimit => "rate-limit"
    case GalDirectory => "gal-directory"
  }

  function Namespaced(c: CacheClass, key: string): string {
    Slug(c) + ":" + key
  }

  function StoreKey(nk: string): string {
    "mwcache:" + nk
  }

  // -- single tier steps -------------------------------------------------------

  predicate Live(e: Entry, now: real) {
    e.deadline.None? || now < e.deadline.value
  }

  function Deadline(now: real, ttl: nat): Option<real> {
    if ttl == 0 then None else Some(now + ttl as real)
  }

  function MemGet(t: Tiers, nk: string, now: real): Option<string> {
    if nk in t.memory && Live(t.memory[nk], now) then Some(t.memory[nk].text) else None
  }

  /** An expiry is set when an entry is created; overwriting a live one keeps its own. */
  function MemDeadline(memory: map<string, Entry>, nk: string, now: real, ttl: nat): Option<real> {
    if nk in memory && Live(memory[nk], now) then memory[nk].deadline else Deadline(now, ttl)
  }

  function MemPut(t: Tiers, nk: string, text: string, now: real, ttl: nat): Tiers {
    t.(memory := t.memory[nk := Entry(text, MemDeadline(t.memory, nk, now, ttl))])
  }

  function RedisGet<T(!new)>(cfg: Config<T>, t: Tiers, nk: string, now: real, link: Link): (Option<string>, Tiers) {
    if !cfg.redis then (None, t)
    else if !link.redisRead then (None, t.(connected := false))
    else if nk in t.redis && Live(t.redis[nk], now) then (Some(t.redis[nk].text), t)
    else (None, t)
  }

  function RedisPut<T(!new)>(cfg: Config<T>, t: Tiers, nk: string, text: string, now: real, ttl: nat,
                             link: Link): Tiers {
    if !cfg.redis then t
    else if !link.redisWrite then t.(connected := false)
    else t.(redis := t.redis[nk := Entry(text, Deadline(now, ttl))])
  }

  function StoreGet<T(!new)>(cfg: Config<T>, t: Tiers, nk: string, link: Link): Option<string> {
    if cfg.store && link.storeRead && StoreKey(nk) in t.store && t.store[StoreKey(nk)] != TOMBSTONE
    then Some(t.store[StoreKey(nk)]) else None
  }

  function StorePut<T(!new)>(cfg: Config<T>, t: Tiers, nk: string, text: string, link: Link): Tiers {
    if cfg.store && link.storeWrite then t.(store := t.store[StoreKey(nk) := text]) else t
  }

  function Decoded<T(!new)>(cfg: Config<T>, text: Option<string>): Option<T> {
    match text case None => None case Some(s) => cfg.de(s)
  }

  // -- operations --------------------------------------------------------------

  function WriteLayers<T(!new)>(cfg: Config<T>, t: Tiers, c: CacheClass, key: string, text: string, now: real,
                                link: Link): Tiers {
    var p, nk := cfg.Of(c), Namespaced(c, key);
    var t1 := if p.Has(Memory) then MemPut(t, nk, text, now, p.ttl) else t;
    var t2 := if p.Has(Redis) then RedisPut(cfg, t1, nk, text, now, p.ttl, link) else t1;
    if p.Has(Store) then StorePut(cfg, t2, nk, text, link) else t2
  }

  function WarmMemory(p: Policy, t: Tiers, nk: string, text: string, now: real): Tiers {
    if p.Has(Memory) then MemPut(t, nk, text, now, p.ttl) else t
  }

  /** The tiers in order; a hit in a lower one warms memory. */
  function Walk<T(!new)>(cfg: Config<T>, t: Tiers, c: CacheClass, key: string, now: real,
                         link: Link): (Option<T>, Tiers) {
    var p, nk := cfg.Of(c), Namespaced(c, key);
    var m := if p.Has(Memory) then Decoded(cfg, MemGet(t, nk, now)) else None;
    if m.Some? then (m, t) else
      var r := if p.Has(Redis) then RedisGet(cfg, t, nk, now, link) else (None, t);
      var rv := Decoded(cfg, r.0);
      if rv.Some? then (rv, WarmMemory(p, r.1, nk, r.0.value, now)) else
        var s := if p.Has(Store) then StoreGet(cfg, r.1, nk, link) else None;
        var sv := Decoded(cfg, s);
        if sv.Some? then (sv, WarmMemory(p, r.1, nk, s.value, now)) else (None, r.1)
  }

  /** `get`: the loader's answer (`None` when it fails) is used only on a full miss. */
  function Get<T(!new)>(cfg: Config<T>, t: Tiers, c: CacheClass, key: string, now: real, link: Link, loaded: Option<T>)
    : (Option<T>, Tiers)
  {
    var w := Walk(cfg, t, c, key, now, link);
    if w.0.Some? || loaded.None? then w
    else (loaded, WriteLayers(cfg, w.1, c, key, cfg.ser(loaded.value), now, link))
  }

  function Invalidate<T(!new)>(cfg: Config<T>, t: Tiers, c: CacheClass, key: string, link: Link): Tiers {
    var p, nk := cfg.Of(c), Namespaced(c, key);
    var t1 := t.(memory := t.memory - {nk});
    var t2 :=
      if p.Has(Redis) && cfg.redis then
        if link.redisWrite then t1.(redis := t1.redis - {nk}) else t1.(connected := false)
      else t1;
    if p.Has(Store) then StorePut(cfg, t2, nk, TOMBSTONE, link) else t2
  }

  // -- the cache object --------------------------------------------------------

  class Cache<T(!new)> {
    const cfg: Config<T>
    var memory: map<string, Entry>
    var redis: map<string, Entry>
    var store: map<string, string>
    var connected: bool

    constructor (cfg: Config<T>, redis: map<string, Entry>, store: map<string, string>)
      ensures this.cfg == cfg && State() == Tiers(map[], redis, store, cfg.redis)
    {
      this.cfg := cfg;
      memory := map[];
      this.redis := redis;
      this.store := store;
      connected := cfg.redis;
    }

    function State(): Tiers
      reads this
    {
      Tiers(memory, redis, store, connected)
    }

    method PutMemory(nk: string, text: string, now: real, ttl: nat)
      modifies this
      ensures State() == MemPut(old(State()), nk, text, now, ttl)
    {
      var deadline := if ttl == 0 then None else Some(now + ttl as real);
      if nk in memory && Live(memory[nk], now) {
        deadline := memory[nk].deadline;
      }
      memory := memory[nk := Entry(text, deadline)];
    }

    method PutRedis(nk: string, text: string, now: real, ttl: nat, link: Link)
      modifies this
      ensures State() == RedisPut(cfg, old(State()), nk, text, now, ttl, link)
    {
      if !cfg.redis {
        return;
      }
      if link.redisWrite {
        redis := redis[nk := Entry(text, if ttl == 0 then None else Some(now + ttl as real))];
      } else {
        connected := false;
      }
    }

    method FetchRedis(nk: string, now: real, link: Link) returns (r: Option<string>)
      modifies this
      ensures (r, State()) == RedisGet(cfg, old(State()), nk, now, link)
    {
      if !cfg.redis {
        return None;
      }
      if !link.redisRead {
        connected := false;
        return None;
      }
      if nk in redis && Live(redis[nk], now) {
        return Some(redis[nk].text);
      }
      return None;
    }

    method Write(c: CacheClass, key: string, text: string, now: real, link: Link)
      modifies this
      ensures State() == WriteLayers(cfg, old(State()), c, key, text, now, link)
    {
      var p, nk := cfg.Of(c), Namespaced(c, key);
      if p.Has(Memory) {
        PutMemory(nk, text, now, p.ttl);
      }
      if p.Has(Redis) {
        PutRedis(nk, text, now, p.ttl, link);
      }
      if p.Has(Store) && cfg.store && link.storeWrite {
        store := store[StoreKey(nk) := text];
      }
    }

    method Lookup(c: CacheClass, key: string, now: real, link: Link) returns (r: Option<T>)
      modifies this
      ensures (r, State()) == Walk(cfg, old(State()), c, key, now, link)
    {
      var p, nk := cfg.Of(c), Namespaced(c, key);
      if p.Has(Memory) {
        var v := Decoded(cfg, MemGet(State(), nk, now));
        if v.Some? {
          return v;
        }
      }
      if p.Has(Redis) {
        var text := FetchRedis(nk, now, link);
        var v := Decoded(cfg, text);
        if v.Some? {
          if p.Has(Memory) {
            PutMemory(nk, text.value, now, p.ttl);
          }
          return v;
        }
      }
      if p.Has(Store) {
        var text := StoreGet(cfg, State(), nk, link);
        var v := Decoded(cfg, text);
        if v.Some? {
          if p.Has(Memory) {
            PutMemory(nk, text.value, now, p.ttl);
          }
          return v;
        }
      }
      return None;
    }

    method Read(c: CacheClass, key: string, now: real, link: Link, loaded: Option<T>) returns (r: Option<T>)
      modifies this
      ensures (r, State()) == Get(cfg, old(State()), c, key, now, link, loaded)
    {
      r := Lookup(c, key, now, link);
      if r.None? && loaded.Some? {
        Write(c, key, cfg.ser(loaded.value), now, link);
        r := loaded;
      }
    }

    method Set(c: CacheClass, key: string, value: T, now: real, link: Link)
      modifies this
      ensures State() == WriteLayers(cfg, old(State()), c, key, cfg.ser(value), now, link)
    {
      Write(c, key, cfg.ser(value), now, link);
    }

    method Drop(c: CacheClass, key: string, link: Link)
      modifies this
      ensures State() == Invalidate(cfg, old(State()), c, key, link)
    {
      var p, nk := cfg.Of(c), Namespaced(c, key);
      memory := memory - {nk};
      if p.Has(Redis) && cfg.redis {
        if link.redisWrite {
          redis := redis - {nk};
        } else {
          connected := false;
        }
      }
      if p.Has(Store) && cfg.store && link.storeWrite {
        store := store[StoreKey(nk) := TOMBSTONE];
      }
    }

    /** `get_derived`: for a zero-access account only the loader is asked. */
    method ReadDerived(c: CacheClass, key: string, zeroAccess: bool, now: real, link: Link, loaded: Option<T>)
      returns (r: Option<T>)
      modifies this
      ensures zeroAccess ==> r == loaded && State() == old(State())
      ensures !zeroAccess ==> (r, State()) == Get(cfg, old(State()), c, key, now, link, loaded)
    {
      if zeroAccess {
        return loaded;
      }
      r := Read(c, key, now, link, loaded);
    }

    /** `set_derived`: for a zero-access account nothing is written. */
    method SetDerived(c: CacheClass, key: string, zeroAccess: bool, value: T, now: real, link: Link)
      modifies this
      ensures State()
           == if zeroAccess then old(State()) else WriteLayers(cfg, old(State()), c, key, cfg.ser(value), now, link)
    {
      if zeroAccess {
        return;
      }
      Write(c, key, cfg.ser(value), now, link);
    }
  }
}
