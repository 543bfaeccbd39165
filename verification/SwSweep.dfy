/** The service worker's bounded cache: storing and sweeping (apps/web/public/sw.js). A
    cache is its entries in the order they were put in; one event reads one clock. */
module SwSweep {
  import opened Wrappers
  import opened Text
  import opened SwRouting
  import Sorting

  datatype Entry = Entry(url: Url, res: Response)

  type Cache = seq<Entry>

  // -- the storage operations -------------------------------------------------

  function Urls(c: Cache): set<Url> {
    set e | e in c :: e.url
  }

  /** Without the entries stored under these keys. */
  function Without(c: Cache, gone: set<Url>): Cache {
    if c == [] then [] else (if c[0].url in gone then [] else [c[0]]) + Without(c[1..], gone)
  }

  function Put(c: Cache, url: Url, res: Response): Cache {
    Without(c, {url}) + [Entry(url, res)]
  }

  function Lookup(c: Cache, url: Url): Option<Response> {
    if c == [] then None else if c[0].url == url then Some(c[0].res) else Lookup(c[1..], url)
  }

  /** Each key is stored once. */
  predicate DistinctKeys(c: Cache) {
    forall i, j | 0 <= i < j < |c| :: c[i].url != c[j].url
  }

  // -- sweeping ----------------------------------------------------------------

  predicate IsShell(env: Env, e: Entry) {
    IsShellKey(env, e.url)
  }

  /** Kept by the first pass: the shell, and fresh entries of a limited strategy. */
  predicate Stays(env: Env, e: Entry, now: real) {
    IsShell(env, e) || (Limited(KeyStrategy(env, e.url)) && IsFresh(e.res, KeyStrategy(env, e.url), now))
  }

  function FirstPass(env: Env, c: Cache, now: real): Cache {
    if c == [] then [] else (if Stays(env, c[0], now) then [c[0]] else []) + FirstPass(env, c[1..], now)
  }

  /** The entries of one strategy, the shell excepted. */
  function OfStrategy(env: Env, c: Cache, s: Strategy): Cache {
    if c == [] then [] else
      (if !IsShell(env, c[0]) && KeyStrategy(env, c[0].url) == s then [c[0]] else []) + OfStrategy(env, c[1..], s)
  }

  function InsertByAge(e: Entry, c: Cache, now: real): Cache {
    if c == [] || StoredAt(e.res, now) <= StoredAt(c[0].res, now) then [e] + c else [c[0]] + InsertByAge(e, c[1..], now)
  }

  /** Oldest first; entries of one age keep their order. */
  function SortByAge(c: Cache, now: real): Cache {
    if c == [] then [] else InsertByAge(c[0], SortByAge(c[1..], now), now)
  }

  function Keys(c: Cache): seq<Url> {
    if c == [] then [] else [c[0].url] + Keys(c[1..])
  }

  function UrlSet(urls: seq<Url>): set<Url> {
    set u | u in urls
  }

  /** The oldest of these entries beyond a strategy's cap. */
  function OldestEntries(env: Env, mine: Cache, s: Strategy, now: real): Cache {
    var sorted := SortByAge(mine, now);
    var n := |sorted| - MaxEntries(env, s);
    if n <= 0 then [] else sorted[..n]
  }

  /** Their keys. */
  function Oldest(env: Env, mine: Cache, s: Strategy, now: real): set<Url> {
    Urls(OldestEntries(env, mine, s, now))
  }

  function Excess(env: Env, live: Cache, s: Strategy, now: real): set<Url> {
    Oldest(env, OfStrategy(env, live, s), s, now)
  }

  /** The cache after a sweep in which no storage call fails. */
  function Swept(env: Env, c: Cache, now: real): Cache {
    var live := FirstPass(env, c, now);
    Without(Without(live, Excess(env, live, NetworkFirst, now)), Excess(env, live, CacheFirst, now))
  }

  /** The keys the first pass deletes, in its order. */
  function StaleKeys(env: Env, c: Cache, now: real): seq<Url> {
    if c == [] then [] else (if Stays(env, c[0], now) then [] else [c[0].url]) + StaleKeys(env, c[1..], now)
  }

  function ExcessKeys(env: Env, live: Cache, s: Strategy, now: real): seq<Url> {
    Keys(OldestEntries(env, OfStrategy(env, live, s), s, now))
  }

  /** Every deletion of a sweep, in order. */
  function SweepList(env: Env, c: Cache, now: real): seq<Url> {
    var live := FirstPass(env, c, now);
    StaleKeys(env, c, now) + (ExcessKeys(env, live, NetworkFirst, now) + ExcessKeys(env, live, CacheFirst, now))
  }

  function Take(urls: seq<Url>, n: nat): seq<Url> {
    if n < |urls| then urls[..n] else urls
  }

  /** The cache after a sweep that ends, by its own end or by a storage call that throws,
      after at most `budget` deletions. */
  function SweptUpTo(env: Env, c: Cache, now: real, budget: nat): Cache {
    Without(c, UrlSet(Take(SweepList(env, c, now), budget)))
  }

  class Storage {
    const env: Env
    var entries: Cache
    var lastSweep: real

    constructor (env: Env, entries: Cache)
      ensures this.env == env && this.entries == entries && lastSweep == 0.0
    {
      this.env := env;
      this.entries := entries;
      lastSweep := 0.0;
    }

    method DeleteKey(url: Url)
      modifies this`entries
      ensures entries == Without(old(entries), {url})
    {
      entries := Without(entries, {url});
    }

    /** `sweep`, in which a storage call throws after `budget` deletions. */
    method Sweep(now: real, budget: nat)
      modifies this
      ensures lastSweep == now && entries == SweptUpTo(env, old(entries), now, budget)
    {
      ghost var c := entries;
      lastSweep := now;
      var kept, left := DropStale(now, budget);
      SweepSteps(env, c, now, budget);
      hide *;
      if left.None? {
        return;
      }
      left := DropOldest(kept[NetworkFirst], NetworkFirst, now, left.value);
      if left.None? {
        return;
      }
      left := DropOldest(kept[CacheFirst], CacheFirst, now, left.value);
    }

    /** The first pass: deletes what may not stay and lists the rest by strategy. */
    method DropStale(now: real, budget: nat) returns (kept: map<Strategy, Cache>, left: Option<nat>)
      modifies this`entries
      ensures entries == Without(old(entries), UrlSet(Take(StaleKeys(env, old(entries), now), budget)))
      ensures left == Rest(StaleKeys(env, old(entries), now), budget)
      ensures left.Some?
          ==> NetworkFirst in kept && CacheFirst in kept && kept == KeptLists(env, FirstPass(env, old(entries), now))
    {
      var keys := entries;
      kept := map[NetworkFirst := [], CacheFirst := []];
      NothingYet(env, keys, now);
      var rest := budget;
      for i := 0 to |keys|
        invariant |StaleKeys(env, keys[..i], now)| == budget - rest
        invariant entries == Without(keys, UrlSet(StaleKeys(env, keys[..i], now)))
        invariant kept == KeptLists(env, FirstPass(env, keys[..i], now))
      {
        hide *;
        StaleStep(env, keys, i, now);
        ListStep(env, keys, i, now);
        StaysIff(env, keys[i], now);
        var e := keys[i];
        if IsShell(env, e) {
          continue;
        }
        var s := KeyStrategy(env, e.url);
        if !Limited(s) || !IsFresh(e.res, s, now) {
          if rest == 0 {
            left := None;
            return;
          }
          rest := rest - 1;
          WithoutTwice(keys, UrlSet(StaleKeys(env, keys[..i], now)), {e.url});
          DeleteKey(e.url);
          continue;
        }
        kept := kept[s := kept[s] + [e]];
      }
      assert keys[..|keys|] == keys;
      left := Some(rest);
    }

    /** Deletes the oldest of these entries beyond the strategy's cap. */
    method DropOldest(kept: Cache, s: Strategy, now: real, budget: nat) returns (left: Option<nat>)
      modifies this`entries
      ensures entries == Without(old(entries), UrlSet(Take(Keys(OldestEntries(env, kept, s, now)), budget)))
      ensures left == Rest(Keys(OldestEntries(env, kept, s, now)), budget)
    {
      var oldest := OldestEntries(env, kept, s, now);
      ghost var keys := Keys(oldest);
      WithoutNone(entries);
      KeysAre(oldest);
      hide OldestEntries, Keys, Without;
      for i := 0 to |oldest|
        invariant i <= budget && entries == Without(old(entries), UrlSet(keys[..i]))
      {
        if i == budget {
          return None;
        }
        WithoutTwice(old(entries), UrlSet(keys[..i]), {oldest[i].url});
        SetNext(keys, i);
        DeleteKey(oldest[i].url);
      }
      assert keys[..|oldest|] == keys;
      return Some(budget - |oldest|);
    }

    /** `store`; a write that fails leaves everything as it was. */
    method Store(url: Url, res: Response, now: real, ok: bool, budget: nat)
      modifies this
      ensures (entries, lastSweep) == Stored(env, old(entries), old(lastSweep), url, res, now, ok, budget)
    {
      if !ok {
        return;
      }
      entries := Put(entries, url, res.(stamp := now));
      if now - lastSweep >= SWEEP_INTERVAL {
        Sweep(now, budget);
      }
    }
  }

  const SWEEP_INTERVAL: real := 60000.0

  function Stored(env: Env, c: Cache, lastSweep: real, url: Url, res: Response, now: real, ok: bool,
                  budget: nat): (Cache, real) {
    if !ok then (c, lastSweep) else
      var put := Put(c, url, res.(stamp := now));
      if now - lastSweep >= SWEEP_INTERVAL then (SweptUpTo(env, put, now, budget), now) else (put, lastSweep)
  }

  /** What is left of the budget, unless it runs out first. */
  function Rest(urls: seq<Url>, budget: nat): Option<nat> {
    if |urls| <= budget then Some(budget - |urls|) else None
  }

  // -- lists and their keys ---------------------------------------------------

  lemma {:induction false} WithoutMember(c: Cache, gone: set<Url>, e: Entry)
    ensures e in Without(c, gone) <==> e in c && e.url !in gone
    decreases |c|
  {
    if |c| > 0 {
      WithoutMember(c[1..], gone, e);
      assert c == [c[0]] + c[1..];
    }
  }

  lemma {:induction false} WithoutNone(c: Cache)
    ensures Without(c, {}) == c
    decreases |c|
  {
    if |c| > 0 {
      WithoutNone(c[1..]);
    }
  }

  lemma {:induction false} WithoutConcat(a: Cache, b: Cache, gone: set<Url>)
    ensures Without(a + b, gone) == Without(a, gone) + Without(b, gone)
    decreases |a|
  {
    if |a| == 0 {
      assert a + b == b;
    } else {
      assert (a + b)[1..] == a[1..] + b;
      WithoutConcat(a[1..], b, gone);
    }
  }

  lemma {:induction false} WithoutTwice(c: Cache, a: set<Url>, b: set<Url>)
    ensures Without(Without(c, a), b) == Without(c, a + b)
    decreases |c|
  {
    if |c| > 0 {
      WithoutTwice(c[1..], a, b);
      var head := if c[0].url in a then [] else [c[0]];
      WithoutConcat(head, Without(c[1..], a), b);
      assert head != [] ==> head[1..] == [];
    }
  }

  lemma SetNext(urls: seq<Url>, i: nat)
    requires i < |urls|
    ensures UrlSet(urls[..i + 1]) == UrlSet(urls[..i]) + {urls[i]}
  {
    assert urls[..i + 1] == urls[..i] + [urls[i]];
  }

  lemma {:induction false} KeysAre(c: Cache)
    ensures |Keys(c)| == |c| && (forall i | 0 <= i < |c| :: Keys(c)[i] == c[i].url) && UrlSet(Keys(c)) == Urls(c)
    ensures UrlSet(Keys(c)[..0]) == {}
    decreases |c|
  {
    if |c| > 0 {
      KeysAre(c[1..]);
      assert c == [c[0]] + c[1..];
      assert forall u :: u in Keys(c) <==> u == c[0].url || u in Keys(c[1..]);
    }
  }

  lemma {:induction false} StaleConcat(env: Env, a: Cache, b: Cache, now: real)
    ensures StaleKeys(env, a + b, now) == StaleKeys(env, a, now) + StaleKeys(env, b, now)
    decreases |a|
  {
    if |a| == 0 {
      assert a + b == b;
    } else {
      assert (a + b)[1..] == a[1..] + b;
      StaleConcat(env, a[1..], b, now);
    }
  }

  /** One more key looked at: what is deleted so far, and that no more may be. */
  lemma StaleStep(env: Env, c: Cache, i: nat, now: real)
    requires i < |c|
    ensures
      var done, stays := StaleKeys(env, c[..i], now), Stays(env, c[i], now);
      && StaleKeys(env, c[..i + 1], now) == (if stays then done else done + [c[i].url])
      && UrlSet(StaleKeys(env, c[..i + 1], now)) == (if stays then UrlSet(done) else UrlSet(done) + {c[i].url})
      && (!stays ==> |StaleKeys(env, c, now)| > |done| && Take(StaleKeys(env, c, now), |done|) == done)
  {
    assert c[..i + 1] == c[..i] + [c[i]] && c == c[..i + 1] + c[i + 1..];
    StaleConcat(env, c[..i], [c[i]], now);
    StaleConcat(env, c[..i + 1], c[i + 1..], now);
    assert [c[i]][1..] == [];
    hide Stays;
  }

  lemma SetConcat(a: seq<Url>, b: seq<Url>)
    ensures UrlSet(a + b) == UrlSet(a) + UrlSet(b)
  {
  }

  lemma TakeConcat(a: seq<Url>, b: seq<Url>, n: nat)
    ensures Take(a + b, n) == if n < |a| then Take(a, n) else Take(a, n) + Take(b, n - |a|)
  {
  }

  /** Deleting up to `n` of two lists: up to `n` of the first, then what is left of it of
      the second. */
  lemma InTwoParts(c: Cache, a: seq<Url>, b: seq<Url>, n: nat)
    ensures
      var first := Without(c, UrlSet(Take(a, n)));
      Without(c, UrlSet(Take(a + b, n))) == if n < |a| then first else Without(first, UrlSet(Take(b, n - |a|)))
  {
    hide Take, UrlSet, Without;
    TakeConcat(a, b, n);
    if n >= |a| {
      SetConcat(Take(a, n), Take(b, n - |a|));
      WithoutTwice(c, UrlSet(Take(a, n)), UrlSet(Take(b, n - |a|)));
    }
  }

  /** The sweep's three lists of deletions, one after the other. */
  lemma SweepSteps(env: Env, c: Cache, now: real, budget: nat)
    ensures
      var live := FirstPass(env, c, now);
      var stale, network, assets := StaleKeys(env, c, now), ExcessKeys(env, live, NetworkFirst, now),
                                    ExcessKeys(env, live, CacheFirst, now);
      var c1 := Without(c, UrlSet(Take(stale, budget)));
      match Rest(stale, budget)
      case None => SweptUpTo(env, c, now, budget) == c1
      case Some(n) =>
        var c2 := Without(c1, UrlSet(Take(network, n)));
        match Rest(network, n)
        case None => SweptUpTo(env, c, now, budget) == c2
        case Some(m) => SweptUpTo(env, c, now, budget) == Without(c2, UrlSet(Take(assets, m)))
    ensures
      var live := FirstPass(env, c, now);
      var lists := KeptLists(env, live);
      && ExcessKeys(env, live, NetworkFirst, now) == Keys(OldestEntries(env, lists[NetworkFirst], NetworkFirst, now))
      && ExcessKeys(env, live, CacheFirst, now) == Keys(OldestEntries(env, lists[CacheFirst], CacheFirst, now))
  {
    var live := FirstPass(env, c, now);
    var stale, network, assets := StaleKeys(env, c, now), ExcessKeys(env, live, NetworkFirst, now),
                                  ExcessKeys(env, live, CacheFirst, now);
    hide Without, UrlSet, Take, StaleKeys, FirstPass, OldestEntries, Keys, OfStrategy;
    InTwoParts(c, stale, network + assets, budget);
    if budget >= |stale| {
      InTwoParts(Without(c, UrlSet(Take(stale, budget))), network, assets, budget - |stale|);
    }
  }

  lemma {:induction false} PassIsWithout(env: Env, c: Cache, gone: set<Url>, now: real)
    requires forall e | e in c :: Stays(env, e, now) <==> e.url !in gone
    ensures Without(c, gone) == FirstPass(env, c, now)
    decreases |c|
  {
    if |c| > 0 {
      assert c[0] in c && forall e | e in c[1..] :: e in c;
      hide Stays;
      PassIsWithout(env, c[1..], gone, now);
    }
  }

  lemma {:induction false} StaleMember(env: Env, c: Cache, now: real, u: Url)
    ensures u in StaleKeys(env, c, now) <==> exists e :: e in c && e.url == u && !Stays(env, e, now)
    decreases |c|
  {
    if |c| > 0 {
      StaleMember(env, c[1..], now, u);
      assert c == [c[0]] + c[1..];
      hide Stays;
    }
  }

  /** With budget enough, the sweep is the one without failures. */
  lemma CompleteSweep(env: Env, c: Cache, now: real, budget: nat)
    requires DistinctKeys(c) && budget >= |SweepList(env, c, now)|
    ensures SweptUpTo(env, c, now, budget) == Swept(env, c, now)
  {
    var live := FirstPass(env, c, now);
    var stale := StaleKeys(env, c, now);
    SweepSteps(env, c, now, budget);
    forall e | e in c ensures Stays(env, e, now) <==> e.url !in UrlSet(stale) {
      StaleMember(env, c, now, e.url);
      OnlyEntry(c, e);
    }
    PassIsWithout(env, c, UrlSet(stale), now);
    KeysAre(OldestEntries(env, OfStrategy(env, live, NetworkFirst), NetworkFirst, now));
    KeysAre(OldestEntries(env, OfStrategy(env, live, CacheFirst), CacheFirst, now));
    hide Without, FirstPass, StaleKeys, OldestEntries, Keys, OfStrategy, Urls, UrlSet, Stays;
  }

  lemma OnlyEntry(c: Cache, e: Entry)
    requires DistinctKeys(c) && e in c
    ensures forall x | x in c && x.url == e.url :: x == e
  {
  }

  lemma {:induction false} PassConcat(env: Env, a: Cache, b: Cache, now: real)
    ensures FirstPass(env, a + b, now) == FirstPass(env, a, now) + FirstPass(env, b, now)
    decreases |a|
  {
    if |a| == 0 {
      assert a + b == b;
    } else {
      assert (a + b)[1..] == a[1..] + b;
      PassConcat(env, a[1..], b, now);
    }
  }

  function OwnHead(env: Env, e: Entry, s: Strategy): Cache {
    if !IsShell(env, e) && KeyStrategy(env, e.url) == s then [e] else []
  }

  lemma StrategyCons(env: Env, e: Entry, c: Cache, s: Strategy)
    ensures OfStrategy(env, [e] + c, s) == OwnHead(env, e, s) + OfStrategy(env, c, s)
  {
    assert ([e] + c)[1..] == c;
    hide IsShell, KeyStrategy;
  }

  lemma HeadAndTail<T>(a: seq<T>, b: seq<T>)
    requires |a| > 0
    ensures a == [a[0]] + a[1..] && a + b == [a[0]] + (a[1..] + b)
  {
  }

  lemma StrategyEmpty(env: Env, a: Cache, b: Cache, s: Strategy)
    requires |a| == 0
    ensures OfStrategy(env, a + b, s) == OfStrategy(env, a, s) + OfStrategy(env, b, s)
  {
    assert a + b == b;
  }

  lemma {:induction false} StrategyConcat(env: Env, a: Cache, b: Cache, s: Strategy)
    ensures OfStrategy(env, a + b, s) == OfStrategy(env, a, s) + OfStrategy(env, b, s)
    decreases |a|
  {
    hide *;
    if |a| == 0 {
      StrategyEmpty(env, a, b, s);
    } else {
      HeadAndTail(a, b);
      StrategyConcat(env, a[1..], b, s);
      StrategyCons(env, a[0], a[1..] + b, s);
      StrategyCons(env, a[0], a[1..], s);
      Assoc(OwnHead(env, a[0], s), OfStrategy(env, a[1..], s), OfStrategy(env, b, s));
    }
  }

  lemma PassOne(env: Env, e: Entry, now: real)
    ensures FirstPass(env, [e], now) == if Stays(env, e, now) then [e] else []
  {
    assert [e][1..] == [];
  }

  lemma StrategyOne(env: Env, e: Entry, s: Strategy)
    ensures OfStrategy(env, [e], s) == if !IsShell(env, e) && KeyStrategy(env, e.url) == s then [e] else []
  {
    assert [e][1..] == [];
  }

  /** What one more key adds to a strategy's list. */
  function Listed(env: Env, e: Entry, now: real, s: Strategy): Cache {
    if Stays(env, e, now) && !IsShell(env, e) && KeyStrategy(env, e.url) == s then [e] else []
  }

  lemma PassNext(env: Env, c: Cache, i: nat, now: real)
    requires i < |c|
    ensures FirstPass(env, c[..i + 1], now)
         == FirstPass(env, c[..i], now) + (if Stays(env, c[i], now) then [c[i]] else [])
  {
    assert c[..i + 1] == c[..i] + [c[i]];
    PassConcat(env, c[..i], [c[i]], now);
    PassOne(env, c[i], now);
  }

  lemma ListNext(env: Env, c: Cache, i: nat, now: real, s: Strategy)
    requires i < |c|
    ensures OfStrategy(env, FirstPass(env, c[..i + 1], now), s)
         == OfStrategy(env, FirstPass(env, c[..i], now), s) + Listed(env, c[i], now, s)
  {
    hide FirstPass, Stays, IsShell, KeyStrategy;
    PassNext(env, c, i, now);
    StrategyConcat(env, FirstPass(env, c[..i], now), if Stays(env, c[i], now) then [c[i]] else [], s);
    StrategyOne(env, c[i], s);
  }

  function KeptLists(env: Env, c: Cache): map<Strategy, Cache> {
    map[NetworkFirst := OfStrategy(env, c, NetworkFirst), CacheFirst := OfStrategy(env, c, CacheFirst)]
  }

  lemma NothingYet(env: Env, c: Cache, now: real)
    ensures StaleKeys(env, c[..0], now) == [] && Without(c, UrlSet(StaleKeys(env, c[..0], now))) == c
    ensures KeptLists(env, FirstPass(env, c[..0], now)) == map[NetworkFirst := [], CacheFirst := []]
  {
    assert c[..0] == [] && UrlSet([]) == {};
    WithoutNone(c);
  }

  lemma StaysIff(env: Env, e: Entry, now: real)
    ensures Stays(env, e, now)
       <==> IsShell(env, e) || (Limited(KeyStrategy(env, e.url)) && IsFresh(e.res, KeyStrategy(env, e.url), now))
    ensures Limited(KeyStrategy(env, e.url))
       <==> KeyStrategy(env, e.url) == NetworkFirst || KeyStrategy(env, e.url) == CacheFirst
  {
  }

  lemma ListStep(env: Env, c: Cache, i: nat, now: real)
    requires i < |c|
    ensures
      var e, before := c[i], KeptLists(env, FirstPass(env, c[..i], now));
      KeptLists(env, FirstPass(env, c[..i + 1], now))
      == if Stays(env, e, now) && !IsShell(env, e)
            && (KeyStrategy(env, e.url) == NetworkFirst || KeyStrategy(env, e.url) == CacheFirst)
         then before[KeyStrategy(env, e.url) := before[KeyStrategy(env, e.url)] + [e]] else before
  {
    hide OfStrategy, FirstPass, Stays, IsShell, KeyStrategy;
    ListNext(env, c, i, now, NetworkFirst);
    ListNext(env, c, i, now, CacheFirst);
    EmptyRight(OfStrategy(env, FirstPass(env, c[..i], now), NetworkFirst));
    EmptyRight(OfStrategy(env, FirstPass(env, c[..i], now), CacheFirst));
  }

  lemma {:induction false} PassMember(env: Env, c: Cache, now: real, e: Entry)
    ensures e in FirstPass(env, c, now) <==> e in c && Stays(env, e, now)
    decreases |c|
  {
    if |c| > 0 {
      PassMember(env, c[1..], now, e);
      assert c == [c[0]] + c[1..];
    }
  }

  // -- keys stay distinct -----------------------------------------------------

  lemma {:induction false} WithoutDistinct(c: Cache, gone: set<Url>)
    requires DistinctKeys(c)
    ensures DistinctKeys(Without(c, gone))
    decreases |c|
  {
    if |c| > 0 {
      WithoutDistinct(c[1..], gone);
      var rest := Without(c[1..], gone);
      forall i | 0 <= i < |rest| ensures rest[i].url != c[0].url {
        WithoutMember(c[1..], gone, rest[i]);
        var j :| 0 <= j < |c[1..]| && c[1..][j] == rest[i];
        assert c[1 + j] == rest[i];
      }
    }
  }

  lemma {:induction false} PassDistinct(env: Env, c: Cache, now: real)
    requires DistinctKeys(c)
    ensures DistinctKeys(FirstPass(env, c, now))
    decreases |c|
  {
    if |c| > 0 {
      PassDistinct(env, c[1..], now);
      var rest := FirstPass(env, c[1..], now);
      forall i | 0 <= i < |rest| ensures rest[i].url != c[0].url {
        PassMember(env, c[1..], now, rest[i]);
        var j :| 0 <= j < |c[1..]| && c[1..][j] == rest[i];
        assert c[1 + j] == rest[i];
      }
    }
  }

  lemma PutDistinct(c: Cache, url: Url, res: Response)
    requires DistinctKeys(c)
    ensures DistinctKeys(Put(c, url, res))
  {
    WithoutDistinct(c, {url});
    var rest := Without(c, {url});
    forall i | 0 <= i < |rest| ensures rest[i].url != url {
      WithoutMember(c, {url}, rest[i]);
    }
  }

  lemma SweptDistinct(env: Env, c: Cache, now: real)
    requires DistinctKeys(c)
    ensures DistinctKeys(Swept(env, c, now))
  {
    var live := FirstPass(env, c, now);
    PassDistinct(env, c, now);
    WithoutDistinct(live, Excess(env, live, NetworkFirst, now));
    WithoutDistinct(Without(live, Excess(env, live, NetworkFirst, now)), Excess(env, live, CacheFirst, now));
  }

  // -- sorting by age ---------------------------------------------------------

  predicate AgeSorted(c: Cache, now: real) {
    forall i, j | 0 <= i <= j < |c| :: StoredAt(c[i].res, now) <= StoredAt(c[j].res, now)
  }

  lemma {:induction false} InsertByAgeResult(e: Entry, c: Cache, now: real)
    requires AgeSorted(c, now)
    ensures AgeSorted(InsertByAge(e, c, now), now)
    ensures multiset(InsertByAge(e, c, now)) == multiset(c) + multiset{e}
    decreases |c|
  {
    if |c| > 0 && StoredAt(e.res, now) > StoredAt(c[0].res, now) {
      InsertByAgeResult(e, c[1..], now);
      var r := InsertByAge(e, c[1..], now);
      assert c == [c[0]] + c[1..];
      forall j | 0 <= j < |r| ensures StoredAt(c[0].res, now) <= StoredAt(r[j].res, now) {
        assert r[j] in multiset(r);
        if r[j] != e {
          assert r[j] in c[1..];
        }
      }
    }
  }

  lemma {:induction false} SortByAgeResult(c: Cache, now: real)
    ensures AgeSorted(SortByAge(c, now), now) && multiset(SortByAge(c, now)) == multiset(c)
    ensures |SortByAge(c, now)| == |c|
    decreases |c|
  {
    if |c| > 0 {
      SortByAgeResult(c[1..], now);
      InsertByAgeResult(c[0], SortByAge(c[1..], now), now);
      assert c == [c[0]] + c[1..];
    }
    assert |multiset(SortByAge(c, now))| == |multiset(c)|;
  }

  lemma {:induction false} StrategyMember(env: Env, c: Cache, s: Strategy, e: Entry)
    ensures e in OfStrategy(env, c, s) <==> e in c && !IsShell(env, e) && KeyStrategy(env, e.url) == s
    decreases |c|
  {
    if |c| > 0 {
      StrategyMember(env, c[1..], s, e);
      assert c == [c[0]] + c[1..];
    }
  }

  lemma {:induction false} StrategyDistinct(env: Env, c: Cache, s: Strategy)
    requires DistinctKeys(c)
    ensures DistinctKeys(OfStrategy(env, c, s))
    decreases |c|
  {
    if |c| > 0 {
      StrategyDistinct(env, c[1..], s);
      var rest := OfStrategy(env, c[1..], s);
      forall i | 0 <= i < |rest| ensures rest[i].url != c[0].url {
        StrategyMember(env, c[1..], s, rest[i]);
        var j :| 0 <= j < |c[1..]| && c[1..][j] == rest[i];
        assert c[1 + j] == rest[i];
      }
    }
  }

  /** As many keys as entries, when the keys are distinct. */
  lemma {:induction false} CountKeys(c: Cache)
    requires DistinctKeys(c)
    ensures |Urls(c)| == |c|
    decreases |c|
  {
    if |c| > 0 {
      var front, last := c[..|c| - 1], c[|c| - 1];
      CountKeys(front);
      assert c == front + [last];
      assert Urls(c) == Urls(front) + {last.url};
    }
  }

  lemma SameUrls(a: Cache, b: Cache)
    requires multiset(a) == multiset(b)
    ensures Urls(a) == Urls(b) && forall e :: e in a <==> e in b
  {
    Sorting.SameMembers(a, b);
  }

  lemma {:induction false} SortedDistinct(c: Cache, now: real)
    requires DistinctKeys(c)
    ensures DistinctKeys(SortByAge(c, now))
    decreases |c|
  {
    if |c| > 0 {
      SortedDistinct(c[1..], now);
      SortByAgeResult(c[1..], now);
      Sorting.SameMembers(SortByAge(c[1..], now), c[1..]);
      var r := SortByAge(c[1..], now);
      forall i | 0 <= i < |r| ensures r[i].url != c[0].url {
        assert r[i] in c[1..];
        var j :| 0 <= j < |c[1..]| && c[1..][j] == r[i];
        assert c[1 + j] == r[i];
      }
      InsertDistinct(c[0], r, now);
    }
  }

  lemma {:induction false} InsertDistinct(e: Entry, c: Cache, now: real)
    requires DistinctKeys(c) && forall i | 0 <= i < |c| :: c[i].url != e.url
    ensures DistinctKeys(InsertByAge(e, c, now))
    ensures forall x | x in InsertByAge(e, c, now) :: x == e || x in c
    decreases |c|
  {
    if |c| > 0 && StoredAt(e.res, now) > StoredAt(c[0].res, now) {
      InsertDistinct(e, c[1..], now);
      var r := InsertByAge(e, c[1..], now);
      forall i | 0 <= i < |r| ensures r[i].url != c[0].url {
        assert r[i] in r;
        if r[i] != e {
          var j :| 0 <= j < |c[1..]| && c[1..][j] == r[i];
          assert c[1 + j] == r[i];
        }
      }
    }
  }

  // -- what a sweep guarantees ------------------------------------------------

  /** `x` are the keys of as many entries as exceed the cap, none newer than any that
      is not among them. */
  predicate OldestOf(mine: Cache, x: set<Url>, cap: nat, now: real) {
    && x <= Urls(mine)
    && |x| == (if |mine| > cap then |mine| - cap else 0)
    && forall d, k | d in mine && k in mine && d.url in x && k.url !in x :: StoredAt(d.res, now) <= StoredAt(k.res, now)
  }

  /** Which entries a strategy loses to its cap. */
  lemma ExcessFacts(env: Env, live: Cache, s: Strategy, now: real)
    requires DistinctKeys(live)
    ensures OldestOf(OfStrategy(env, live, s), Excess(env, live, s, now), MaxEntries(env, s), now)
  {
    StrategyDistinct(env, live, s);
    hide OldestOf, OfStrategy, DistinctKeys, Oldest;
    OldestFacts(env, OfStrategy(env, live, s), s, now);
  }

  lemma OldestFacts(env: Env, mine: Cache, s: Strategy, now: real)
    requires DistinctKeys(mine)
    ensures OldestOf(mine, Oldest(env, mine, s, now), MaxEntries(env, s), now)
  {
    hide *;
    var sorted, cap := SortByAge(mine, now), MaxEntries(env, s);
    SortByAgeResult(mine, now);
    SameUrls(sorted, mine);
    SortedDistinct(mine, now);
    OldestIs(env, mine, s, now);
    if |sorted| > cap {
      PrefixIsOldest(mine, sorted, |sorted| - cap, cap, now);
    } else {
      NoneIsOldest(mine, cap, now);
    }
  }

  lemma OldestIs(env: Env, mine: Cache, s: Strategy, now: real)
    ensures
      var sorted, cap := SortByAge(mine, now), MaxEntries(env, s);
      Oldest(env, mine, s, now) == if |sorted| > cap then Urls(sorted[..|sorted| - cap]) else {}
  {
    assert Urls([]) == {};
  }

  lemma NoneIsOldest(mine: Cache, cap: nat, now: real)
    requires |mine| <= cap
    ensures OldestOf(mine, {}, cap, now)
  {
  }

  lemma PrefixIsOldest(mine: Cache, sorted: Cache, n: nat, cap: nat, now: real)
    requires DistinctKeys(sorted) && AgeSorted(sorted, now) && n <= |sorted| && Urls(sorted) == Urls(mine)
    requires n == |mine| - cap && forall e :: e in sorted <==> e in mine
    ensures OldestOf(mine, Urls(sorted[..n]), cap, now)
  {
    PrefixDistinct(sorted, n);
    CountKeys(sorted[..n]);
    hide AgeSorted, DistinctKeys, StoredAt;
    forall d, k | d in mine && k in mine && d.url in Urls(sorted[..n]) && k.url !in Urls(sorted[..n])
      ensures StoredAt(d.res, now) <= StoredAt(k.res, now)
    {
      OlderThanKept(sorted, n, d, k, now);
    }
  }

  lemma PrefixDistinct(c: Cache, n: nat)
    requires DistinctKeys(c) && n <= |c|
    ensures DistinctKeys(c[..n]) && Urls(c[..n]) <= Urls(c)
  {
    assert forall e | e in c[..n] :: e in c;
  }

  lemma OlderThanKept(sorted: Cache, n: nat, d: Entry, k: Entry, now: real)
    requires DistinctKeys(sorted) && AgeSorted(sorted, now) && n <= |sorted|
    requires d in sorted && k in sorted && d.url in Urls(sorted[..n]) && k.url !in Urls(sorted[..n])
    ensures StoredAt(d.res, now) <= StoredAt(k.res, now)
  {
    var i :| 0 <= i < |sorted| && sorted[i] == d;
    var j :| 0 <= j < |sorted| && sorted[j] == k;
    var m :| 0 <= m < n && sorted[..n][m].url == d.url;
    assert sorted[m].url == sorted[i].url;
    assert m == i;
    PrefixKeys(sorted, n);
  }

  lemma PrefixKeys(c: Cache, n: nat)
    requires n <= |c|
    ensures forall j | 0 <= j < n :: c[j].url in Urls(c[..n])
  {
    forall j | 0 <= j < n ensures c[j].url in Urls(c[..n]) {
      assert c[..n][j] == c[j];
    }
  }

  /** An entry survives the sweep exactly if it survives the first pass and is not in
      excess. */
  lemma SweptMember(env: Env, c: Cache, now: real, e: Entry)
    ensures
      var live := FirstPass(env, c, now);
      e in Swept(env, c, now)
      <==> e in c && Stays(env, e, now)
           && e.url !in Excess(env, live, NetworkFirst, now) && e.url !in Excess(env, live, CacheFirst, now)
  {
    var live := FirstPass(env, c, now);
    PassMember(env, c, now, e);
    WithoutMember(live, Excess(env, live, NetworkFirst, now), e);
    WithoutMember(Without(live, Excess(env, live, NetworkFirst, now)), Excess(env, live, CacheFirst, now), e);
  }

  /** Every entry a sweep leaves was there before, and is the shell or a fresh entry the
      worker would store today. */
  lemma SweptIsFresh(env: Env, c: Cache, now: real, e: Entry)
    requires e in Swept(env, c, now)
    ensures e in c
    ensures IsShell(env, e) || (Limited(KeyStrategy(env, e.url)) && IsFresh(e.res, KeyStrategy(env, e.url), now))
  {
    SweptMember(env, c, now, e);
  }

  lemma ExcessIsOwn(env: Env, live: Cache, s: Strategy, now: real, e: Entry)
    requires DistinctKeys(live) && e in live && e.url in Excess(env, live, s, now)
    ensures !IsShell(env, e) && KeyStrategy(env, e.url) == s
  {
    ExcessFacts(env, live, s, now);
    var d :| d in OfStrategy(env, live, s) && d.url == e.url;
    StrategyMember(env, live, s, d);
  }

  /** The shell is never swept away. */
  lemma ShellSurvives(env: Env, c: Cache, now: real, e: Entry)
    requires DistinctKeys(c) && e in c && IsShell(env, e)
    ensures e in Swept(env, c, now)
  {
    var live := FirstPass(env, c, now);
    PassDistinct(env, c, now);
    PassMember(env, c, now, e);
    if e.url in Excess(env, live, NetworkFirst, now) {
      ExcessIsOwn(env, live, NetworkFirst, now, e);
    }
    if e.url in Excess(env, live, CacheFirst, now) {
      ExcessIsOwn(env, live, CacheFirst, now, e);
    }
    SweptMember(env, c, now, e);
  }

  /** The fresh entries of a strategy, before and after. */
  function Fresh(env: Env, c: Cache, s: Strategy, now: real): Cache {
    OfStrategy(env, FirstPass(env, c, now), s)
  }

  /** The keys of a strategy that a sweep leaves are its fresh ones less the excess. */
  lemma SweptKeys(env: Env, c: Cache, s: Strategy, now: real)
    requires DistinctKeys(c) && Limited(s)
    ensures Urls(OfStrategy(env, Swept(env, c, now), s))
         == Urls(Fresh(env, c, s, now)) - Excess(env, FirstPass(env, c, now), s, now)
  {
    var live, after := FirstPass(env, c, now), Swept(env, c, now);
    var mine, x := Fresh(env, c, s, now), Excess(env, live, s, now);
    PassDistinct(env, c, now);
    forall u ensures u in Urls(OfStrategy(env, after, s)) <==> u in Urls(mine) - x {
      if u in Urls(OfStrategy(env, after, s)) {
        var e :| e in OfStrategy(env, after, s) && e.url == u;
        StrategyMember(env, after, s, e);
        SweptMember(env, c, now, e);
        PassMember(env, c, now, e);
        StrategyMember(env, live, s, e);
      }
      if u in Urls(mine) - x {
        var e :| e in mine && e.url == u;
        StrategyMember(env, live, s, e);
        PassMember(env, c, now, e);
        var other := if s == NetworkFirst then CacheFirst else NetworkFirst;
        if e.url in Excess(env, live, other, now) {
          ExcessIsOwn(env, live, other, now, e);
        }
        SweptMember(env, c, now, e);
        StrategyMember(env, after, s, e);
      }
    }
  }

  /** After a sweep each strategy holds its cap or all its fresh entries, whichever is
      less: the bound holds and nothing is dropped needlessly. */
  lemma SweptWithinCap(env: Env, c: Cache, s: Strategy, now: real)
    requires DistinctKeys(c) && Limited(s)
    ensures
      var all := |Fresh(env, c, s, now)|;
      |OfStrategy(env, Swept(env, c, now), s)| == if all > MaxEntries(env, s) then MaxEntries(env, s) else all
  {
    var live, after := FirstPass(env, c, now), Swept(env, c, now);
    PassDistinct(env, c, now);
    SweptDistinct(env, c, now);
    StrategyDistinct(env, live, s);
    StrategyDistinct(env, after, s);
    CountKeys(Fresh(env, c, s, now));
    CountKeys(OfStrategy(env, after, s));
    ExcessFacts(env, live, s, now);
    SweptKeys(env, c, s, now);
  }

  /** No discarded fresh entry is newer than one that is kept. */
  lemma NewestAreKept(env: Env, c: Cache, s: Strategy, now: real, d: Entry, k: Entry)
    requires DistinctKeys(c) && Limited(s)
    requires d in Fresh(env, c, s, now) && d !in Swept(env, c, now)
    requires k in Swept(env, c, now) && !IsShell(env, k) && KeyStrategy(env, k.url) == s
    ensures StoredAt(d.res, now) <= StoredAt(k.res, now)
  {
    var live := FirstPass(env, c, now);
    PassDistinct(env, c, now);
    ExcessFacts(env, live, s, now);
    StrategyMember(env, live, s, d);
    PassMember(env, c, now, d);
    SweptMember(env, c, now, d);
    SweptMember(env, c, now, k);
    PassMember(env, c, now, k);
    StrategyMember(env, live, s, k);
    var other := if s == NetworkFirst then CacheFirst else NetworkFirst;
    if d.url in Excess(env, live, other, now) {
      ExcessIsOwn(env, live, other, now, d);
    }
  }
}
