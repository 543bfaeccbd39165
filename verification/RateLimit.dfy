/** The Assist rate limiter: one fixed window per account set in a map that is pruned on
    every call (crates/mw-assist/src/lib.rs). Times are seconds, in call order. */
module RateLimit {
  import opened Wrappers
  import opened Text
  import opened Sorting

  const RATE_WINDOW: real := 60.0

  datatype Window = Window(start: real, count: nat)

  type Windows = map<string, Window>

  predicate Current(w: Window, now: real) {
    now - w.start < RATE_WINDOW
  }

  function Prune(windows: Windows, now: real): Windows {
    map k | k in windows && Current(windows[k], now) :: windows[k]
  }

  /** One call: whether it is granted, and the window it leaves. */
  function Charge(w: Window, limit: nat): (bool, Window) {
    if w.count >= limit then (false, w) else (true, w.(count := w.count + 1))
  }

  function Opened(w: Option<Window>, now: real): Window {
    match w case None => Window(now, 0) case Some(v) => v
  }

  function Get(windows: Windows, key: string): Option<Window> {
    if key in windows then Some(windows[key]) else None
  }

  function CheckRate(windows: Windows, limit: nat, key: string, now: real): (bool, Windows) {
    var kept := Prune(windows, now);
    var r := Charge(Opened(Get(kept, key), now), limit);
    (r.0, kept[key := r.1])
  }

  class Limiter {
    const limit: Option<nat>
    var windows: Windows

    constructor (limit: Option<nat>)
      ensures this.limit == limit && windows == map[]
    {
      this.limit := limit;
      windows := map[];
    }

    /** `check_rate`: without a limit every call is granted and nothing is recorded. */
    method Check(key: string, now: real) returns (granted: bool)
      modifies this
      ensures limit.None? ==> granted && windows == old(windows)
      ensures limit.Some? ==> (granted, windows) == CheckRate(old(windows), limit.value, key, now)
    {
      if limit.None? {
        return true;
      }
      windows := map k | k in windows && Current(windows[k], now) :: windows[k];
      var w := if key in windows then windows[key] else Window(now, 0);
      if w.count >= limit.value {
        windows := windows[key := w];
        return false;
      }
      windows := windows[key := Window(w.start, w.count + 1)];
      return true;
    }
  }

  // -- a private limiter that is never pruned ---------------------------------

  /** The window a private limiter is in at `now`. */
  function Renewed(w: Option<Window>, now: real): Window {
    if w.Some? && Current(w.value, now) then w.value else Window(now, 0)
  }

  function PrivateCheck(w: Option<Window>, limit: nat, now: real): (bool, Window) {
    Charge(Renewed(w, now), limit)
  }

  // -- runs --------------------------------------------------------------------

  datatype Call = Call(key: string, now: real)

  predicate InOrder(calls: seq<Call>) {
    forall i, j | 0 <= i <= j < |calls| :: calls[i].now <= calls[j].now
  }

  /** The shared map after a run. */
  function Shared(limit: nat, calls: seq<Call>): Windows
    decreases |calls|
  {
    if calls == [] then map[] else
      var last := calls[|calls| - 1];
      CheckRate(Shared(limit, calls[..|calls| - 1]), limit, last.key, last.now).1
  }

  /** The private limiter of `key` after a run, which only its own calls reach. */
  function Private(limit: nat, calls: seq<Call>, key: string): Option<Window>
    decreases |calls|
  {
    if calls == [] then None else
      var before, last := Private(limit, calls[..|calls| - 1], key), calls[|calls| - 1];
      if last.key == key then Some(PrivateCheck(before, limit, last.now).1) else before
  }

  function SharedAnswer(limit: nat, calls: seq<Call>, i: nat): bool
    requires i < |calls|
  {
    CheckRate(Shared(limit, calls[..i]), limit, calls[i].key, calls[i].now).0
  }

  function PrivateAnswer(limit: nat, calls: seq<Call>, i: nat): bool
    requires i < |calls|
  {
    PrivateCheck(Private(limit, calls[..i], calls[i].key), limit, calls[i].now).0
  }

  /** What of a window counts at `now`. */
  function View(w: Option<Window>, now: real): Option<Window> {
    if w.Some? && Current(w.value, now) then w else None
  }

  /** At no later time does the pruned map say anything else about a key than its private
      limiter. */
  lemma {:induction false} SharedIsPrivate(limit: nat, calls: seq<Call>, key: string, now: real)
    requires InOrder(calls) && (calls != [] ==> calls[|calls| - 1].now <= now)
    ensures View(Get(Shared(limit, calls), key), now) == View(Private(limit, calls, key), now)
    decreases |calls|
  {
    if calls != [] {
      var front, last := calls[..|calls| - 1], calls[|calls| - 1];
      SharedIsPrivate(limit, front, key, last.now);
      SharedIsPrivate(limit, front, key, now);
    }
  }

  /** The shared pruned map answers every call exactly as a private limiter for its key
      that is never pruned. */
  lemma SharedAnswersAsPrivate(limit: nat, calls: seq<Call>, i: nat)
    requires InOrder(calls) && i < |calls|
    ensures SharedAnswer(limit, calls, i) == PrivateAnswer(limit, calls, i)
  {
    SharedIsPrivate(limit, calls[..i], calls[i].key, calls[i].now);
  }

  // -- how many calls are granted ---------------------------------------------

  /** The granted calls of `key` with `lo <= now < hi`. */
  function Grants(limit: nat, calls: seq<Call>, key: string, lo: real, hi: real): nat
    decreases |calls|
  {
    if calls == [] then 0 else
      var n, last := |calls| - 1, calls[|calls| - 1];
      Grants(limit, calls[..n], key, lo, hi)
      + if last.key == key && lo <= last.now < hi && SharedAnswer(limit, calls, n) then 1 else 0
  }

  lemma SharedNext(limit: nat, front: seq<Call>, c: Call)
    ensures Shared(limit, front + [c]) == CheckRate(Shared(limit, front), limit, c.key, c.now).1
  {
    assert (front + [c])[..|front|] == front;
  }

  lemma GrantsNext(limit: nat, front: seq<Call>, c: Call, key: string, lo: real, hi: real)
    ensures Grants(limit, front + [c], key, lo, hi)
         == Grants(limit, front, key, lo, hi)
            + if c.key == key && lo <= c.now < hi
                 && CheckRate(Shared(limit, front), limit, c.key, c.now).0 then 1 else 0
  {
    assert (front + [c])[..|front|] == front;
  }

  lemma {:induction false} WindowWithinLimit(limit: nat, calls: seq<Call>, key: string)
    requires Private(limit, calls, key).Some?
    ensures Private(limit, calls, key).value.count <= limit
    ensures limit >= 1 ==> Private(limit, calls, key).value.count >= 1
    decreases |calls|
  {
    var front := calls[..|calls| - 1];
    if Private(limit, front, key).Some? {
      WindowWithinLimit(limit, front, key);
    }
  }

  lemma {:induction false} NoGrantsYet(limit: nat, calls: seq<Call>, key: string, lo: real, hi: real)
    requires InOrder(calls) && (calls != [] ==> calls[|calls| - 1].now < lo)
    ensures Grants(limit, calls, key, lo, hi) == 0
    decreases |calls|
  {
    if calls != [] {
      NoGrantsYet(limit, calls[..|calls| - 1], key, lo, hi);
    }
  }

  lemma {:induction false} WindowsStartInThePast(limit: nat, calls: seq<Call>, key: string, now: real)
    requires InOrder(calls) && Private(limit, calls, key).Some? && calls[|calls| - 1].now <= now
    ensures Private(limit, calls, key).value.start <= now
    decreases |calls|
  {
    var front := calls[..|calls| - 1];
    if Private(limit, front, key).Some? {
      WindowsStartInThePast(limit, front, key, calls[|calls| - 1].now);
    }
  }

  /** Nothing is granted from `now` on when the key's window has ended by then. */
  lemma {:induction false} NoGrantsSince(limit: nat, calls: seq<Call>, key: string, now: real, hi: real)
    requires InOrder(calls) && (calls != [] ==> calls[|calls| - 1].now <= now)
    requires View(Private(limit, calls, key), now) == None
    ensures Grants(limit, calls, key, now, hi) == 0
    decreases |calls|
  {
    if calls != [] {
      var n, last := |calls| - 1, calls[|calls| - 1];
      if last.key == key {
        NoGrantsYet(limit, calls, key, now, hi);
      } else {
        NoGrantsSince(limit, calls[..n], key, now, hi);
      }
    }
  }

  /** A window counts exactly the calls that are granted in its minute, and so at most
      `limit`. */
  lemma {:induction false} WindowGrantsItsCount(limit: nat, calls: seq<Call>, key: string)
    requires InOrder(calls) && Private(limit, calls, key).Some?
    ensures
      var w := Private(limit, calls, key).value;
      Grants(limit, calls, key, w.start, w.start + RATE_WINDOW) == w.count <= limit
    decreases |calls|
  {
    var n, last := |calls| - 1, calls[|calls| - 1];
    var front := calls[..n];
    WindowWithinLimit(limit, calls, key);
    if last.key != key {
      WindowGrantsItsCount(limit, front, key);
    } else {
      SharedAnswersAsPrivate(limit, calls, n);
      var w := Private(limit, front, key);
      if View(w, last.now) == None {
        NoGrantsSince(limit, front, key, last.now, last.now + RATE_WINDOW);
      } else {
        WindowGrantsItsCount(limit, front, key);
        WindowsStartInThePast(limit, front, key, last.now);
      }
      hide CheckRate, InOrder;
    }
  }

  /** How many grants an interval of one window's length can hold so far, by where the
      key's last window starts. */
  predicate GrantBound(limit: nat, w: Option<Window>, grants: nat, lo: real) {
    match w
    case None => grants == 0
    case Some(v) =>
      if v.start < lo then grants <= v.count - (if limit >= 1 then 1 else 0)
      else if v.start < lo + RATE_WINDOW then grants <= (if limit >= 1 then limit - 1 else 0) + v.count
      else grants <= if limit >= 1 then 2 * limit - 1 else 0
  }

  /** One more call of the key keeps the bound. */
  lemma BoundStep(limit: nat, w: Option<Window>, grants: nat, lo: real, now: real)
    requires GrantBound(limit, w, grants, lo) && (now < lo ==> grants == 0)
    requires w.Some? ==> w.value.start <= now && w.value.count <= limit && (limit >= 1 ==> w.value.count >= 1)
    ensures
      var r := PrivateCheck(w, limit, now);
      GrantBound(limit, Some(r.1), grants + (if lo <= now < lo + RATE_WINDOW && r.0 then 1 else 0), lo)
  {
  }

  lemma {:induction false} GrantsAreBounded(limit: nat, calls: seq<Call>, key: string, lo: real)
    requires InOrder(calls)
    ensures GrantBound(limit, Private(limit, calls, key), Grants(limit, calls, key, lo, lo + RATE_WINDOW), lo)
    decreases |calls|
  {
    if calls != [] {
      var n, last := |calls| - 1, calls[|calls| - 1];
      var front := calls[..n];
      GrantsAreBounded(limit, front, key, lo);
      if last.key == key {
        var w, g := Private(limit, front, key), Grants(limit, front, key, lo, lo + RATE_WINDOW);
        if w.Some? {
          WindowWithinLimit(limit, front, key);
          WindowsStartInThePast(limit, front, key, last.now);
        }
        if last.now < lo {
          NoGrantsYet(limit, front, key, lo, lo + RATE_WINDOW);
        }
        SharedAnswersAsPrivate(limit, calls, n);
        hide GrantBound, PrivateCheck, CheckRate, InOrder;
        BoundStep(limit, w, g, lo, last.now);
      }
    }
  }

  /** In any half-open minute a key is granted fewer than twice `limit` calls (none when
      the limit is 0). */
  lemma AtMostTwiceLess(limit: nat, calls: seq<Call>, key: string, lo: real)
    requires InOrder(calls)
    ensures
      var g := Grants(limit, calls, key, lo, lo + RATE_WINDOW);
      if limit >= 1 then g <= 2 * limit - 1 else g == 0
  {
    GrantsAreBounded(limit, calls, key, lo);
    if Private(limit, calls, key).Some? {
      WindowWithinLimit(limit, calls, key);
    }
  }

  // -- the bound is reached ----------------------------------------------------

  function Repeat(key: string, now: real, n: nat): seq<Call> {
    if n == 0 then [] else Repeat(key, now, n - 1) + [Call(key, now)]
  }

  lemma AppendCall(limit: nat, front: seq<Call>, c: Call, lo: real)
    ensures
      var calls, w := front + [c], Private(limit, front, c.key);
      && Private(limit, calls, c.key) == Some(PrivateCheck(w, limit, c.now).1)
      && PrivateAnswer(limit, calls, |front|) == PrivateCheck(w, limit, c.now).0
      && Grants(limit, calls, c.key, lo, lo + RATE_WINDOW)
         == Grants(limit, front, c.key, lo, lo + RATE_WINDOW)
            + if lo <= c.now < lo + RATE_WINDOW && SharedAnswer(limit, calls, |front|) then 1 else 0
  {
    assert (front + [c])[..|front|] == front;
  }

  lemma AppendKeepsOrder(front: seq<Call>, c: Call)
    requires InOrder(front) && (front != [] ==> front[|front| - 1].now <= c.now)
    ensures InOrder(front + [c])
  {
  }

  /** A run no later than `now` whose key is then in window `w` and had `g` grants. */
  predicate Ready(limit: nat, calls: seq<Call>, key: string, now: real, w: Window, g: nat, lo: real) {
    && InOrder(calls) && (calls != [] ==> calls[|calls| - 1].now <= now)
    && Renewed(Private(limit, calls, key), now) == w && Grants(limit, calls, key, lo, lo + RATE_WINDOW) == g
  }

  lemma GrantOne(limit: nat, front: seq<Call>, key: string, now: real, w: Window, g: nat, lo: real)
    requires Ready(limit, front, key, now, w, g, lo) && w.count < limit && lo <= now < lo + RATE_WINDOW
    ensures Ready(limit, front + [Call(key, now)], key, now, Window(w.start, w.count + 1), g + 1, lo)
  {
    AppendKeepsOrder(front, Call(key, now));
    AppendCall(limit, front, Call(key, now), lo);
    SharedAnswersAsPrivate(limit, front + [Call(key, now)], |front|);
    hide InOrder, Private, Grants, CheckRate;
  }

  /** Calls at one time are granted until the window is full. */
  lemma {:induction false} GrantedTogether(limit: nat, front: seq<Call>, key: string, now: real, n: nat, w: Window,
                                           g: nat, lo: real)
    requires Ready(limit, front, key, now, w, g, lo) && w.count + n <= limit && lo <= now < lo + RATE_WINDOW
    ensures Ready(limit, front + Repeat(key, now, n), key, now, Window(w.start, w.count + n), g + n, lo)
    decreases n
  {
    if n == 0 {
      assert front + Repeat(key, now, n) == front;
    } else {
      RepeatNext(front, key, now, n);
      hide *;
      GrantedTogether(limit, front, key, now, n - 1, w, g, lo);
      GrantOne(limit, front + Repeat(key, now, n - 1), key, now, Window(w.start, w.count + n - 1), g + n - 1, lo);
    }
  }

  lemma RepeatNext(front: seq<Call>, key: string, now: real, n: nat)
    requires n >= 1
    ensures front + Repeat(key, now, n) == front + Repeat(key, now, n - 1) + [Call(key, now)]
  {
  }

  /** One call at 0, the rest of its window at 59, a full window at 60. */
  function Burst(limit: nat, key: string): seq<Call>
    requires limit >= 1
  {
    [Call(key, 0.0)] + Repeat(key, 59.0, limit - 1) + Repeat(key, 60.0, limit)
  }

  lemma FirstCall(limit: nat, key: string)
    requires limit >= 1
    ensures InOrder([Call(key, 0.0)]) && Private(limit, [Call(key, 0.0)], key) == Some(Window(0.0, 1))
    ensures Grants(limit, [Call(key, 0.0)], key, 59.0, 59.0 + RATE_WINDOW) == 0
  {
    AppendCall(limit, [], Call(key, 0.0), 59.0);
    assert [] + [Call(key, 0.0)] == [Call(key, 0.0)];
  }

  /** No smaller bound holds: a burst across a window's end is granted `2 * limit - 1`
      calls within one minute. */
  lemma BurstReachesBound(limit: nat, key: string)
    requires limit >= 1
    ensures InOrder(Burst(limit, key))
    ensures Grants(limit, Burst(limit, key), key, 59.0, 59.0 + RATE_WINDOW) == 2 * limit - 1
  {
    var first := [Call(key, 0.0)];
    var early := first + Repeat(key, 59.0, limit - 1);
    FirstCall(limit, key);
    assert Ready(limit, first, key, 59.0, Window(0.0, 1), 0, 59.0);
    hide InOrder, Private, Grants, Repeat;
    GrantedTogether(limit, first, key, 59.0, limit - 1, Window(0.0, 1), 0, 59.0);
    WindowEnds(limit, early, key, Window(0.0, limit), limit - 1);
    GrantedTogether(limit, early, key, 60.0, limit, Window(60.0, 0), limit - 1, 59.0);
  }

  lemma WindowEnds(limit: nat, calls: seq<Call>, key: string, w: Window, g: nat)
    requires Ready(limit, calls, key, 59.0, w, g, 59.0) && w.start == 0.0 && Private(limit, calls, key).Some?
    ensures Ready(limit, calls, key, 60.0, Window(60.0, 0), g, 59.0)
  {
    hide InOrder, Private, Grants;
  }

  // -- the budget key ----------------------------------------------------------

  const SEPARATOR: char := '\U{001F}'

  function JoinIds(ids: seq<string>): string {
    if ids == [] then "" else if |ids| == 1 then ids[0] else ids[0] + [SEPARATOR] + JoinIds(ids[1..])
  }

  function RateKey(accounts: seq<string>): string {
    JoinIds(Sort(accounts))
  }

  /** An account id as the gateway gets it. */
  predicate GoodIds(ids: seq<string>) {
    forall i | 0 <= i < |ids| :: ids[i] != "" && SEPARATOR !in ids[i]
  }

  lemma {:induction false} SplitOfJoin(ids: seq<string>)
    requires GoodIds(ids) && ids != []
    ensures SplitChar(JoinIds(ids), SEPARATOR) == ids && JoinIds(ids) != ""
    decreases |ids|
  {
    if |ids| == 1 {
      NoSplit(ids[0], SEPARATOR);
    } else {
      SplitOfJoin(ids[1..]);
      SplitCharAfter(ids[0], SEPARATOR, JoinIds(ids[1..]));
    }
  }

  lemma JoinInjective(a: seq<string>, b: seq<string>)
    requires GoodIds(a) && GoodIds(b) && JoinIds(a) == JoinIds(b)
    ensures a == b
  {
    if a != [] {
      SplitOfJoin(a);
    }
    if b != [] {
      SplitOfJoin(b);
    }
  }

  lemma GoodIdsOfSort(s: seq<string>)
    requires GoodIds(s)
    ensures GoodIds(Sort(s))
  {
    SortResult(s);
    forall i | 0 <= i < |Sort(s)| ensures Sort(s)[i] != "" && SEPARATOR !in Sort(s)[i] {
      assert Sort(s)[i] in multiset(s);
    }
  }

  /** Two calls share a budget exactly when they name the same accounts equally often, in
      whatever order. */
  lemma RateKeyIffSameAccounts(a: seq<string>, b: seq<string>)
    requires GoodIds(a) && GoodIds(b)
    ensures RateKey(a) == RateKey(b) <==> multiset(a) == multiset(b)
  {
    SortResult(a);
    SortResult(b);
    GoodIdsOfSort(a);
    GoodIdsOfSort(b);
    if RateKey(a) == RateKey(b) {
      JoinInjective(Sort(a), Sort(b));
    }
    if multiset(a) == multiset(b) {
      SortedUnique(Sort(a), Sort(b));
    }
  }

  /** The key is not one per account set: naming an account twice gives another budget,
      and no account shares one with the empty id. */
  lemma RateKeyIsNotPerSet(id: string)
    requires GoodIds([id])
    ensures RateKey([id, id]) != RateKey([id])
    ensures RateKey([]) == RateKey([""])
  {
    assert multiset([id, id])[id] == 2 && multiset([id])[id] == 1;
    assert GoodIds([id, id]);
    RateKeyIffSameAccounts([id, id], [id]);
    assert [""][1..] == [] && Sort([""]) == Insert("", Sort([])) == [""];
  }
}
