/** The login monitor and the ban list (crates/mw-admin/src/banlist.rs,
    crates/mw-admin/src/lib.rs, crates/mw-admin/src/store.rs). Times are seconds. */
module LoginMonitor {
  import opened Wrappers
  import opened Text
  import opened Utf8
  import AuthLog

  /** An address by its number. */
  datatype IpAddr = V4(n: nat) | V6(n: nat)

  /** `to_canonical`: an IPv4 address mapped into IPv6 is that IPv4 address. */
  function Canonical(a: IpAddr): IpAddr {
    if a.V6? && a.n / 0x1_0000_0000 == 0xFFFF then V4(a.n % 0x1_0000_0000) else a
  }

  /** An IPv4 address and that address mapped into IPv6, `::ffff:a.b.c.d`. */
  predicate Mapped(a: IpAddr, b: IpAddr) {
    a.V4? && b.V6? && a.n < 0x1_0000_0000 && b.n == 0xFFFF * 0x1_0000_0000 + a.n
  }

  predicate SameHost(a: IpAddr, b: IpAddr) {
    a == b || Mapped(a, b) || Mapped(b, a)
  }

  /** Which addresses are taken for one host: equal ones, and an IPv4 address with its
      mapped form. */
  lemma CanonicalIff(a: IpAddr, b: IpAddr)
    ensures Canonical(a) == Canonical(b) <==> SameHost(a, b)
  {
  }

  /** How addresses are written and read, and how times are written. */
  datatype Notation = Notation(show: IpAddr -> string, parse: string -> Option<IpAddr>, time: real -> string)

  ghost predicate Good(n: Notation) {
    forall a :: n.parse(n.show(a)) == Some(a)
  }

  datatype Verdict = Watched(failures: nat) | Ban(failures: nat)

  type Hits = map<IpAddr, seq<real>>

  /** `retain(|t| t >= cutoff)`. */
  function Since(times: seq<real>, cutoff: real): seq<real> {
    if times == [] then [] else (if times[0] >= cutoff then [times[0]] else []) + Since(times[1..], cutoff)
  }

  function HitsOf(hits: Hits, a: IpAddr): seq<real> {
    if a in hits then hits[a] else []
  }

  const U32: nat := 0x1_0000_0000

  /** `as u32`. */
  function CastU32(n: nat): nat {
    n % U32
  }

  function VerdictOf(count: nat, max: nat): Verdict {
    var failures := CastU32(count);
    if failures >= max then Ban(failures) else Watched(failures)
  }

  /** The times kept for an address after one more failure. */
  function AfterFailure(hits: Hits, ip: IpAddr, now: real, window: real): seq<real> {
    Since(HitsOf(hits, Canonical(ip)), now - window) + [now]
  }

  class Monitor {
    const max: nat
    const window: real
    var hits: Hits

    constructor (max: nat, window: real)
      ensures this.max == max && this.window == window && hits == map[]
    {
      this.max := max;
      this.window := window;
      hits := map[];
    }

    method RecordFailure(ip: IpAddr, now: real) returns (v: Verdict)
      modifies this
      ensures hits == old(hits)[Canonical(ip) := AfterFailure(old(hits), ip, now, window)]
      ensures v == VerdictOf(|AfterFailure(old(hits), ip, now, window)|, max)
    {
      var key := Canonical(ip);
      var kept := Retained(if key in hits then hits[key] else [], now - window);
      hits := hits[key := kept + [now]];
      var failures := |hits[key]| % U32;
      v := if failures >= max then Ban(failures) else Watched(failures);
    }

    method Retained(times: seq<real>, cutoff: real) returns (kept: seq<real>)
      ensures kept == Since(times, cutoff)
    {
      kept := [];
      for i := 0 to |times|
        invariant kept + Since(times[i..], cutoff) == Since(times, cutoff)
      {
        SinceNext(kept, times, i, cutoff);
        if times[i] >= cutoff {
          kept := kept + [times[i]];
        } else {
          assert kept + [] == kept;
        }
      }
      assert times[|times|..] == [] && kept + [] == kept;
    }

    method RecordSuccess(ip: IpAddr)
      modifies this
      ensures hits == old(hits) - {Canonical(ip)}
    {
      hits := hits - {Canonical(ip)};
    }
  }

  lemma SinceNext(kept: seq<real>, times: seq<real>, i: nat, cutoff: real)
    requires i < |times|
    ensures kept + Since(times[i..], cutoff)
         == kept + (if times[i] >= cutoff then [times[i]] else []) + Since(times[i + 1..], cutoff)
  {
    assert times[i..][1..] == times[i + 1..];
  }

  // -- counting over the whole history ----------------------------------------

  /** A login attempt; the address is missing when the server could not resolve one. */
  datatype Login = Failure(ip: Option<IpAddr>, now: real) | Success(ip: Option<IpAddr>, now: real)

  predicate Concerns(e: Login, a: IpAddr) {
    e.ip.Some? && SameHost(e.ip.value, a)
  }

  predicate InOrder(es: seq<Login>) {
    forall i, j | 0 <= i <= j < |es| :: es[i].now <= es[j].now
  }

  /** The failures of an address since its last success, no earlier than `cutoff`. */
  function Recent(es: seq<Login>, a: IpAddr, cutoff: real): seq<real>
    decreases |es|
  {
    if es == [] then [] else
      var front, e := es[..|es| - 1], es[|es| - 1];
      if !Concerns(e, a) then Recent(front, a, cutoff)
      else if e.Success? then []
      else Recent(front, a, cutoff) + if e.now >= cutoff then [e.now] else []
  }

  function MonitorStep(hits: Hits, e: Login, window: real): Hits {
    if e.ip.None? then hits
    else if e.Success? then hits - {Canonical(e.ip.value)}
    else hits[Canonical(e.ip.value) := AfterFailure(hits, e.ip.value, e.now, window)]
  }

  function MonitorRun(es: seq<Login>, window: real): Hits
    decreases |es|
  {
    if es == [] then map[] else MonitorStep(MonitorRun(es[..|es| - 1], window), es[|es| - 1], window)
  }

  lemma {:induction false} SinceConcat(a: seq<real>, b: seq<real>, cutoff: real)
    ensures Since(a + b, cutoff) == Since(a, cutoff) + Since(b, cutoff)
    decreases |a|
  {
    if a == [] {
      assert a + b == b;
    } else {
      assert (a + b)[1..] == a[1..] + b;
      SinceConcat(a[1..], b, cutoff);
    }
  }

  lemma {:induction false} SinceTwice(times: seq<real>, early: real, late: real)
    requires early <= late
    ensures Since(Since(times, early), late) == Since(times, late)
    decreases |times|
  {
    if times != [] {
      SinceTwice(times[1..], early, late);
      var head := if times[0] >= early then [times[0]] else [];
      SinceConcat(head, Since(times[1..], early), late);
      assert head != [] ==> head[1..] == [];
    }
  }

  lemma SinceOne(t: real, cutoff: real)
    ensures Since([t], cutoff) == if t >= cutoff then [t] else []
  {
    assert [t][1..] == [];
  }

  lemma SinceAfterFailure(times: seq<real>, at: real, window: real, now: real)
    requires at <= now
    ensures Since(Since(times, at - window) + [at], now - window)
         == Since(times, now - window) + if at >= now - window then [at] else []
  {
    SinceConcat(Since(times, at - window), [at], now - window);
    SinceTwice(times, at - window, now - window);
    SinceOne(at, now - window);
  }

  lemma StepForOther(hits: Hits, e: Login, window: real, a: IpAddr)
    ensures HitsOf(MonitorStep(hits, e, window), Canonical(a))
         == if !Concerns(e, a) then HitsOf(hits, Canonical(a)) else if e.Success? then []
            else Since(HitsOf(hits, Canonical(a)), e.now - window) + [e.now]
  {
    if e.ip.Some? {
      CanonicalIff(e.ip.value, a);
    }
    hide Since, Canonical;
  }

  /** What the pruned counters hold of the window is what the whole history holds. */
  lemma {:induction false} PrunedIsHistory(es: seq<Login>, a: IpAddr, window: real, now: real)
    requires InOrder(es) && (es != [] ==> es[|es| - 1].now <= now)
    ensures Since(HitsOf(MonitorRun(es, window), Canonical(a)), now - window) == Recent(es, a, now - window)
    decreases |es|
  {
    if es != [] {
      var front, e := es[..|es| - 1], es[|es| - 1];
      PrunedIsHistory(front, a, window, now);
      HistoryLast(es, a, window, now - window);
      hide *;
      var before := HitsOf(MonitorRun(front, window), Canonical(a));
      StepForOther(MonitorRun(front, window), e, window, a);
      SinceAfterFailure(before, e.now, window, now);
      SinceEmpty(now - window);
    }
  }

  lemma HistoryLast(es: seq<Login>, a: IpAddr, window: real, cutoff: real)
    requires InOrder(es) && es != []
    ensures
      var front, e := es[..|es| - 1], es[|es| - 1];
      && MonitorRun(es, window) == MonitorStep(MonitorRun(front, window), e, window)
      && Recent(es, a, cutoff)
         == if !Concerns(e, a) then Recent(front, a, cutoff)
            else if e.Success? then []
            else Recent(front, a, cutoff) + if e.now >= cutoff then [e.now] else []
  {
    hide MonitorStep, Concerns;
  }

  lemma SinceEmpty(cutoff: real)
    ensures Since([], cutoff) == []
  {
  }

  /** The number a failure is judged by is the number of this host's failures since its
      last success that lie in the window, whatever other addresses did. */
  lemma VerdictAgreesWithHistory(es: seq<Login>, ip: IpAddr, a: IpAddr, now: real, window: real)
    requires InOrder(es) && (es != [] ==> es[|es| - 1].now <= now) && window >= 0.0 && SameHost(ip, a)
    ensures AfterFailure(MonitorRun(es, window), ip, now, window)
         == Recent(es + [Failure(Some(ip), now)], a, now - window)
  {
    hide *;
    CanonicalIff(ip, a);
    HistoryThenFailure(es, ip, a, now, window);
    PrunedIsHistory(es, a, window, now);
    FailureAfter(MonitorRun(es, window), ip, now, window);
  }

  lemma HistoryThenFailure(es: seq<Login>, ip: IpAddr, a: IpAddr, now: real, window: real)
    requires window >= 0.0 && SameHost(ip, a)
    ensures Recent(es + [Failure(Some(ip), now)], a, now - window) == Recent(es, a, now - window) + [now]
  {
    assert (es + [Failure(Some(ip), now)])[..|es|] == es;
    hide SameHost;
  }

  lemma FailureAfter(hits: Hits, ip: IpAddr, now: real, window: real)
    ensures AfterFailure(hits, ip, now, window) == Since(HitsOf(hits, Canonical(ip)), now - window) + [now]
  {
  }

  // -- the ban list ------------------------------------------------------------

  datatype Expiry = Never | Until(time: real) | Unreadable

  datatype BanEntry = BanEntry(ip: string, reason: string, bannedAt: real, expires: Expiry)

  type Bans = map<string, BanEntry>

  predicate SameAddress(n: Notation, x: string, y: string) {
    var a, b := n.parse(x), n.parse(y);
    if a.Some? && b.Some? then Canonical(a.value) == Canonical(b.value) else x == y
  }

  /** An unreadable expiry counts as active. */
  predicate Ahead(e: Expiry, now: real) {
    match e case Never => true case Unreadable => true case Until(t) => t > now
  }

  predicate ActiveAt(b: BanEntry, now: real) {
    Ahead(b.expires, now)
  }

  predicate IsBanned(n: Notation, bans: Bans, ip: string, now: real) {
    exists key | key in bans :: SameAddress(n, bans[key].ip, ip) && ActiveAt(bans[key], now)
  }

  /** `char::is_control`. */
  predicate IsControl(c: char) {
    c as int < 0x20 || 0x7F <= c as int <= 0x9F
  }

  predicate HasControl(s: string) {
    exists i | 0 <= i < |s| :: IsControl(s[i])
  }

  /** At most 512 bytes, none of them a control character. */
  predicate GoodReason(reason: string) {
    |Encode(reason)| <= 512 && !HasControl(reason)
  }

  /** What an unban may name: an address, or the text of an old row. */
  predicate GoodBanName(ip: string) {
    ip != "" && |Encode(ip)| <= 128 && !HasControl(ip)
  }

  function AutoReason(failures: nat): string {
    "brute-force: " + Decimal(failures) + " failures"
  }

  function TenTo(k: nat): nat {
    if k == 0 then 1 else 10 * TenTo(k - 1)
  }

  lemma {:induction false} DecimalText(n: nat, k: nat)
    requires k >= 1 && n < TenTo(k)
    ensures |Decimal(n)| <= k && forall i | 0 <= i < |Decimal(n)| :: '0' <= Decimal(n)[i] <= '9'
    decreases n
  {
    if n >= 10 {
      assert TenTo(k) == 10 * TenTo(k - 1);
      assert TenTo(0) == 1;
      DecimalText(n / 10, k - 1);
    }
  }

  lemma TenDigits()
    ensures TenTo(10) == 10_000_000_000
  {
    assert TenTo(3) == 1000;
    assert TenTo(6) == 1000 * TenTo(3);
    assert TenTo(9) == 1000 * TenTo(6);
  }

  /** The reason of an automatic ban is always accepted. */
  lemma AutoReasonIsGood(failures: nat)
    requires failures < U32
    ensures GoodReason(AutoReason(failures))
  {
    TenDigits();
    DecimalText(failures, 10);
    var d := Decimal(failures);
    var reason := "brute-force: " + d + " failures";
    hide Decimal, TenTo;
    assert forall i | 0 <= i < |reason| :: ' ' <= reason[i] <= 'z';
    EncodeAscii(reason);
  }

  function AddBan(n: Notation, bans: Bans, ip: IpAddr, reason: string, now: real, expires: Expiry): Bans {
    var text := n.show(Canonical(ip));
    bans[text := BanEntry(text, reason, now, expires)]
  }

  function RemoveBan(n: Notation, bans: Bans, ip: string): Bans {
    map key | key in bans && !SameAddress(n, bans[key].ip, ip) :: bans[key]
  }

  /** The text under which a ban of this address is kept. */
  function BanText(n: Notation, ip: string): string {
    match n.parse(ip) case Some(a) => n.show(Canonical(a)) case None => ip
  }

  predicate BanAccepted(n: Notation, ip: string, reason: string, now: real, expires: Expiry) {
    n.parse(ip).Some? && GoodReason(reason) && expires != Unreadable && (expires.Until? ==> expires.time > now)
  }

  /** No character of the control ranges. */
  predicate Printable(s: string) {
    forall c | c in s :: 0x20 <= c as int <= 0x7E || c as int >= 0xA0
  }

  lemma NoControlIff(s: string)
    ensures HasControl(s) <==> !Printable(s)
  {
    if HasControl(s) {
      var i :| 0 <= i < |s| && IsControl(s[i]);
      assert s[i] in s;
    } else {
      forall c | c in s ensures 0x20 <= c as int <= 0x7E || c as int >= 0xA0 {
        var i :| 0 <= i < |s| && s[i] == c;
        assert !IsControl(s[i]);
      }
    }
  }

  /** Which bans by hand are accepted: for a real address, with a reason of at most 512
      bytes without control characters, for ever or until a time ahead. */
  lemma BanAcceptedIff(n: Notation, ip: string, reason: string, now: real, expires: Expiry)
    ensures BanAccepted(n, ip, reason, now, expires) <==>
      && n.parse(ip).Some? && |Encode(reason)| <= 512 && Printable(reason)
      && match expires case Never => true case Until(t) => now < t case Unreadable => false
  {
    NoControlIff(reason);
  }

  /** Which names an unban takes: at most 128 bytes, at least one, none of them a control
      character. */
  lemma GoodBanNameIff(ip: string)
    ensures GoodBanName(ip) <==> 1 <= |ip| && |Encode(ip)| <= 128 && Printable(ip)
  {
    NoControlIff(ip);
  }

  class Admin {
    const n: Notation
    const monitor: Monitor
    var bans: Bans

    constructor (n: Notation, monitor: Monitor)
      ensures this.n == n && this.monitor == monitor && bans == map[]
    {
      this.n := n;
      this.monitor := monitor;
      bans := map[];
    }

    /** `ban_ip` for a text that may be no address. */
    method BanIp(ip: string, reason: string, now: real, expires: Expiry) returns (ok: bool)
      modifies this
      ensures ok <==> BanAccepted(n, ip, reason, now, expires)
      ensures bans == if ok then AddBan(n, old(bans), n.parse(ip).value, reason, now, expires) else old(bans)
      ensures (bans, monitor.hits)
           == EventStep(n, old(bans), old(monitor.hits), BanByHand(ip, reason, now, expires), monitor.max,
                        monitor.window)
    {
      var parsed := n.parse(ip);
      if parsed.None? {
        return false;
      }
      if |Encode(reason)| > 512 || HasControl(reason) {
        return false;
      }
      if expires.Unreadable? || (expires.Until? && expires.time <= now) {
        return false;
      }
      var text := n.show(Canonical(parsed.value));
      bans := bans[text := BanEntry(text, reason, now, expires)];
      return true;
    }

    method UnbanIp(ip: string) returns (ok: bool)
      modifies this
      ensures ok <==> GoodBanName(ip)
      ensures bans == if ok then RemoveBan(n, old(bans), BanText(n, ip)) else old(bans)
      ensures (bans, monitor.hits)
           == EventStep(n, old(bans), old(monitor.hits), UnbanByHand(ip), monitor.max, monitor.window)
    {
      if ip == "" || |Encode(ip)| > 128 || HasControl(ip) {
        return false;
      }
      var parsed := n.parse(ip);
      var text := if parsed.Some? then n.show(Canonical(parsed.value)) else ip;
      bans := map key | key in bans && !SameAddress(n, bans[key].ip, text) :: bans[key];
      return true;
    }

    method RecordLoginSuccess(ip: Option<IpAddr>)
      modifies monitor
      ensures monitor.hits == if ip.Some? then old(monitor.hits) - {Canonical(ip.value)} else old(monitor.hits)
    {
      if ip.Some? {
        CanonicalTwice(ip.value);
        monitor.RecordSuccess(Canonical(ip.value));
      }
    }

    method RecordLoginFailure(account: string, ip: Option<IpAddr>, now: real) returns (r: Outcome)
      requires Good(n)
      modifies this, monitor
      ensures (bans, monitor.hits)
           == AdminStep(n, old(bans), old(monitor.hits), Failure(ip, now), monitor.max, monitor.window)
      ensures r == OutcomeOf(n, account, ip, now, old(monitor.hits), monitor.max, monitor.window)
    {
      if ip.None? {
        return Outcome(None, None, false);
      }
      var address := Canonical(ip.value);
      CanonicalTwice(ip.value);
      var v := monitor.RecordFailure(address, now);
      var line := AuthLog.LogLine(n.time(now), account, n.show(address));
      if v.Ban? {
        AutoReasonIsGood(v.failures);
        var _ := BanIp(n.show(address), AutoReason(v.failures), now, Never);
      }
      return Outcome(Some(v), Some(line), v.Ban?);
    }
  }

  /** What a recorded failure reports. */
  datatype Outcome = Outcome(verdict: Option<Verdict>, logLine: Option<string>, banned: bool)

  function OutcomeOf(n: Notation, account: string, ip: Option<IpAddr>, now: real, hits: Hits, max: nat,
                     window: real): Outcome {
    match ip
    case None => Outcome(None, None, false)
    case Some(a) =>
      var v := VerdictOf(|AfterFailure(hits, a, now, window)|, max);
      Outcome(Some(v), Some(AuthLog.LogLine(n.time(now), account, n.show(Canonical(a)))), v.Ban?)
  }

  /** The address that a jail reads from the line is the one that the monitor judged and
      that a ban of this outcome names, whatever the account is called. */
  lemma LineNamesTheJudged(n: Notation, account: string, ip: IpAddr, now: real, hits: Hits, max: nat, window: real)
    requires Good(n) && AuthLog.TimeText(n.time(now)) && AuthLog.HostText(n.show(Canonical(ip)))
    ensures
      var r, host := OutcomeOf(n, account, Some(ip), now, hits, max, window), n.show(Canonical(ip));
      && AuthLog.ParseHost(r.logLine.value) == Some(host)
      && n.parse(host).Some? && SameHost(n.parse(host).value, ip)
      && forall bans | r.banned :: host in AdminStep(n, bans, hits, Failure(Some(ip), now), max, window).0
  {
    AuthLog.HostReadsBack(n.time(now), account, n.show(Canonical(ip)));
    CanonicalTwice(ip);
    CanonicalIff(Canonical(ip), ip);
    hide AuthLog.LogLine, AuthLog.ParseHost, AuthLog.TimeText, AuthLog.HostText, AfterFailure;
  }

  lemma CanonicalTwice(a: IpAddr)
    ensures Canonical(Canonical(a)) == Canonical(a)
  {
  }

  /** One login event: the bans and the monitor's counters afterwards. */
  function AdminStep(n: Notation, bans: Bans, hits: Hits, e: Login, max: nat, window: real): (Bans, Hits) {
    var after := MonitorStep(hits, e, window);
    if e.Success? || e.ip.None? then (bans, after)
    else
      var failures := CastU32(|after[Canonical(e.ip.value)]|);
      (if failures >= max then AddBan(n, bans, e.ip.value, AutoReason(failures), e.now, Never) else bans, after)
  }

  /** The bans after a run of login events. */
  function BanRun(n: Notation, es: seq<Login>, max: nat, window: real): Bans
    decreases |es|
  {
    if es == [] then map[] else
      var front := es[..|es| - 1];
      AdminStep(n, BanRun(n, front, max, window), MonitorRun(front, window), es[|es| - 1], max, window).0
  }

  /** Event `i` is a failure of the address that is at least its `max`-th in the window
      since its last success, as the 32-bit counter has it. */
  predicate Crosses(es: seq<Login>, a: IpAddr, i: nat, max: nat, window: real)
    requires i < |es|
  {
    es[i].Failure? && Concerns(es[i], a) && CastU32(|Recent(es[..i + 1], a, es[i].now - window)|) >= max
  }

  predicate OnceCrossed(es: seq<Login>, a: IpAddr, max: nat, window: real) {
    exists i | 0 <= i < |es| :: Crosses(es, a, i, max, window)
  }

  /** Every row names a canonical address under its own text. */
  ghost predicate CanonicalRows(n: Notation, bans: Bans) {
    forall key | key in bans :: bans[key].ip == key && exists a :: a == Canonical(a) && key == n.show(a)
  }

  /** The expiry of the row that bans a host under its canonical text. */
  function RowOf(n: Notation, bans: Bans, a: IpAddr): Option<Expiry> {
    var text := n.show(Canonical(a));
    if text in bans then Some(bans[text].expires) else None
  }

  /** Only the row under the address's own text decides. */
  lemma BannedIffRow(n: Notation, bans: Bans, text: string, now: real)
    requires Good(n) && CanonicalRows(n, bans) && n.parse(text).Some?
    ensures
      var row := RowOf(n, bans, n.parse(text).value);
      IsBanned(n, bans, text, now) <==> row.Some? && Ahead(row.value, now)
  {
    var a := Canonical(n.parse(text).value);
    CanonicalTwice(n.parse(text).value);
    assert n.parse(n.show(a)) == Some(a);
    if IsBanned(n, bans, text, now) {
      var key :| key in bans && SameAddress(n, bans[key].ip, text) && ActiveAt(bans[key], now);
      var b :| b == Canonical(b) && key == n.show(b);
      assert n.parse(key) == Some(b);
    }
    if n.show(a) in bans && ActiveAt(bans[n.show(a)], now) {
      assert SameAddress(n, bans[n.show(a)].ip, text);
    }
  }

  ghost predicate AutoBans(n: Notation, bans: Bans) {
    CanonicalRows(n, bans) && forall key | key in bans :: bans[key].expires == Never
  }

  lemma {:induction false} RunBansAreAuto(n: Notation, es: seq<Login>, max: nat, window: real)
    ensures AutoBans(n, BanRun(n, es, max, window))
    decreases |es|
  {
    if es != [] {
      RunBansAreAuto(n, es[..|es| - 1], max, window);
      if es[|es| - 1].ip.Some? {
        CanonicalTwice(es[|es| - 1].ip.value);
      }
    }
  }

  lemma CrossingIsCounted(es: seq<Login>, ip: IpAddr, a: IpAddr, max: nat, window: real)
    requires InOrder(es) && window >= 0.0 && es != [] && es[|es| - 1] == Failure(Some(ip), es[|es| - 1].now)
    requires SameHost(ip, a)
    ensures
      var count := |AfterFailure(MonitorRun(es[..|es| - 1], window), ip, es[|es| - 1].now, window)|;
      Crosses(es, a, |es| - 1, max, window) <==> CastU32(count) >= max
  {
    var front, now := es[..|es| - 1], es[|es| - 1].now;
    CrossesLast(es, a, max, window);
    FrontInOrder(es);
    assert front + [Failure(Some(ip), now)] == es;
    assert Concerns(es[|es| - 1], a);
    hide *;
    VerdictAgreesWithHistory(front, ip, a, now, window);
  }

  /** What a login event does to the row of an address: crossing writes it, nothing else
      touches it. */
  lemma AttemptRow(n: Notation, bans: Bans, es: seq<Login>, a: IpAddr, max: nat, window: real)
    requires Good(n) && InOrder(es) && window >= 0.0 && es != []
    ensures
      var after := AdminStep(n, bans, MonitorRun(es[..|es| - 1], window), es[|es| - 1], max, window).0;
      RowOf(n, after, a) == if Crosses(es, a, |es| - 1, max, window) then Some(Never) else RowOf(n, bans, a)
  {
    var e, hits := es[|es| - 1], MonitorRun(es[..|es| - 1], window);
    CrossesLast(es, a, max, window);
    hide Crosses, Recent, InOrder, Good, Canonical, SameHost, RowOf, MonitorRun, MonitorStep;
    if e.Failure? && e.ip.Some? {
      assert Concerns(e, a) <==> SameHost(e.ip.value, a);
      hide *;
      CanonicalIff(e.ip.value, a);
      SameTextIff(n, Canonical(a), Canonical(e.ip.value));
      FailureStep(n, bans, hits, e, a, max, window);
      if SameHost(e.ip.value, a) {
        CrossingIsCounted(es, e.ip.value, a, max, window);
      }
    }
  }

  lemma BannedKeyStep(n: Notation, es: seq<Login>, a: IpAddr, max: nat, window: real)
    requires Good(n) && InOrder(es) && window >= 0.0 && es != []
    ensures RowOf(n, BanRun(n, es, max, window), a).Some?
       <==> RowOf(n, BanRun(n, es[..|es| - 1], max, window), a).Some? || Crosses(es, a, |es| - 1, max, window)
  {
    BanRunLast(n, es, max, window);
    AttemptRow(n, BanRun(n, es[..|es| - 1], max, window), es, a, max, window);
    hide RowOf, BanRun, MonitorRun, AdminStep, Crosses, InOrder, Good, Canonical;
  }

  lemma FrontInOrder(es: seq<Login>)
    requires InOrder(es) && es != []
    ensures InOrder(es[..|es| - 1])
    ensures es[..|es| - 1] != [] ==> es[..|es| - 1][|es| - 2].now <= es[|es| - 1].now
  {
  }

  lemma SameTextIff(n: Notation, a: IpAddr, b: IpAddr)
    requires Good(n)
    ensures n.show(a) == n.show(b) <==> a == b
  {
    if n.show(a) == n.show(b) {
      SameText(n, a, b);
    }
  }

  lemma SameText(n: Notation, a: IpAddr, b: IpAddr)
    requires Good(n) && n.show(a) == n.show(b)
    ensures a == b
  {
    assert n.parse(n.show(a)) == Some(a) && n.parse(n.show(b)) == Some(b);
  }

  lemma CrossesLast(es: seq<Login>, a: IpAddr, max: nat, window: real)
    requires es != []
    ensures
      var e := es[|es| - 1];
      Crosses(es, a, |es| - 1, max, window)
      <==> e.Failure? && Concerns(e, a) && CastU32(|Recent(es, a, e.now - window)|) >= max
  {
    assert es[..|es|] == es;
    hide Recent;
  }

  lemma BanRunLast(n: Notation, es: seq<Login>, max: nat, window: real)
    requires es != []
    ensures BanRun(n, es, max, window)
         == AdminStep(n, BanRun(n, es[..|es| - 1], max, window), MonitorRun(es[..|es| - 1], window), es[|es| - 1],
                      max, window).0
  {
  }

  lemma FailureStep(n: Notation, bans: Bans, hits: Hits, e: Login, a: IpAddr, max: nat, window: real)
    requires e.Failure? && e.ip.Some?
    ensures
      var r := AfterFailure(hits, e.ip.value, e.now, window);
      RowOf(n, AdminStep(n, bans, hits, e, max, window).0, a)
      == if CastU32(|r|) >= max && n.show(Canonical(e.ip.value)) == n.show(Canonical(a)) then Some(Never)
         else RowOf(n, bans, a)
  {
    hide AfterFailure, CastU32, Canonical, AutoReason;
  }

  lemma {:induction false} BannedKeyIff(n: Notation, es: seq<Login>, a: IpAddr, max: nat, window: real)
    requires Good(n) && InOrder(es) && window >= 0.0
    ensures RowOf(n, BanRun(n, es, max, window), a).Some? <==> OnceCrossed(es, a, max, window)
    decreases |es|
  {
    if es != [] {
      BannedKeyIff(n, es[..|es| - 1], a, max, window);
      hide Good, RowOf, BanRun, OnceCrossed, Crosses, Canonical;
      BannedKeyStep(n, es, a, max, window);
      CrossesEarlier(es, a, max, window);
    }
  }

  lemma CrossesEarlier(es: seq<Login>, a: IpAddr, max: nat, window: real)
    requires es != []
    ensures OnceCrossed(es, a, max, window)
       <==> OnceCrossed(es[..|es| - 1], a, max, window) || Crosses(es, a, |es| - 1, max, window)
  {
    var front := es[..|es| - 1];
    forall i | 0 <= i < |es| - 1 ensures Crosses(front, a, i, max, window) <==> Crosses(es, a, i, max, window) {
      assert front[..i + 1] == es[..i + 1];
    }
    hide Crosses;
    if OnceCrossed(es, a, max, window) {
      var i :| 0 <= i < |es| && Crosses(es, a, i, max, window);
      if i < |es| - 1 {
        assert Crosses(front, a, i, max, window);
      }
    }
    if OnceCrossed(front, a, max, window) {
      var i :| 0 <= i < |front| && Crosses(front, a, i, max, window);
      assert Crosses(es, a, i, max, window);
    }
  }

  lemma {:induction false} RecentIsShort(es: seq<Login>, a: IpAddr, cutoff: real)
    ensures |Recent(es, a, cutoff)| <= |es|
    decreases |es|
  {
    if es != [] {
      RecentIsShort(es[..|es| - 1], a, cutoff);
      hide Canonical;
    }
  }

  /** What a failure reports after a run: a ban, the number of failures and that it banned,
      exactly when it crosses the threshold; otherwise the number that is watched. */
  lemma OutcomeIs(n: Notation, es: seq<Login>, account: string, ip: IpAddr, now: real, max: nat, window: real)
    requires InOrder(es + [Failure(Some(ip), now)]) && window >= 0.0
    ensures
      var all := es + [Failure(Some(ip), now)];
      var r := OutcomeOf(n, account, Some(ip), now, MonitorRun(es, window), max, window);
      var failures := CastU32(|Recent(all, ip, now - window)|);
      && r.verdict == Some(if Crosses(all, ip, |es|, max, window) then Ban(failures) else Watched(failures))
      && (r.banned <==> Crosses(all, ip, |es|, max, window))
  {
    var all := es + [Failure(Some(ip), now)];
    FrontInOrder(all);
    AllIs(es, Failure(Some(ip), now));
    hide *;
    CrossesLast(all, ip, max, window);
    SameAsItself(ip);
    VerdictAgreesWithHistory(es, ip, ip, now, window);
    OutcomeParts(n, account, ip, now, MonitorRun(es, window), max, window);
    ConcernedBy(Failure(Some(ip), now), ip);
  }

  lemma AllIs(es: seq<Login>, e: Login)
    ensures var all := es + [e]; |all| == |es| + 1 && all[|es|] == e && all[..|all| - 1] == es && all[..|es|] == es
  {
  }

  lemma SameAsItself(ip: IpAddr)
    ensures SameHost(ip, ip)
  {
  }

  lemma ConcernedBy(e: Login, ip: IpAddr)
    requires e.ip == Some(ip)
    ensures Concerns(e, ip)
  {
  }

  lemma OutcomeParts(n: Notation, account: string, ip: IpAddr, now: real, hits: Hits, max: nat, window: real)
    ensures
      var r := OutcomeOf(n, account, Some(ip), now, hits, max, window);
      var failures := CastU32(|AfterFailure(hits, ip, now, window)|);
      && r.verdict == Some(if failures >= max then Ban(failures) else Watched(failures))
      && (r.banned <==> failures >= max)
  {
    hide AfterFailure, CastU32, AuthLog.LogLine;
  }

  /** Up to 2 to the 32nd events the cast of the counter changes nothing: crossing is
      having at least `max` failures in the window. */
  lemma CrossesIff(es: seq<Login>, a: IpAddr, i: nat, max: nat, window: real)
    requires i < |es| < U32
    ensures Crosses(es, a, i, max, window)
       <==> es[i].Failure? && Concerns(es[i], a) && |Recent(es[..i + 1], a, es[i].now - window)| >= max
  {
    RecentIsShort(es[..i + 1], a, es[i].now - window);
    hide Recent, Concerns;
  }

  /** In every run of login events alone, an address is banned, at any time and in
      whatever notation it is asked for, exactly when it once had `max` failures in the
      window since its last success. */
  lemma BannedIffOnceCrossed(n: Notation, es: seq<Login>, text: string, max: nat, window: real, now: real)
    requires Good(n) && InOrder(es) && window >= 0.0 && n.parse(text).Some?
    ensures IsBanned(n, BanRun(n, es, max, window), text, now)
       <==> OnceCrossed(es, n.parse(text).value, max, window)
  {
    var a, bans := n.parse(text).value, BanRun(n, es, max, window);
    BannedKeyIff(n, es, a, max, window);
    RunBansAreAuto(n, es, max, window);
    BannedIffRow(n, bans, text, now);
    hide CanonicalRows, BanRun, OnceCrossed, InOrder, IsBanned, Good, Canonical;
  }

  // -- banning and unbanning by hand ------------------------------------------

  /** Every row is stored under its own text. */
  predicate KeyedByText(bans: Bans) {
    forall key | key in bans :: bans[key].ip == key
  }

  /** Two texts for one host, or one text that is no address. */
  predicate NameOneHost(n: Notation, x: string, y: string) {
    if n.parse(x).Some? && n.parse(y).Some? then SameHost(n.parse(x).value, n.parse(y).value) else x == y
  }

  lemma SameAddressIff(n: Notation, x: string, y: string)
    ensures SameAddress(n, x, y) <==> NameOneHost(n, x, y)
  {
    if n.parse(x).Some? && n.parse(y).Some? {
      CanonicalIff(n.parse(x).value, n.parse(y).value);
    }
  }

  /** Unbanning an address lifts every ban of it, however it was written, and no other. */
  lemma UnbanIsExact(n: Notation, bans: Bans, ip: string, query: string, now: real)
    requires Good(n)
    ensures IsBanned(n, RemoveBan(n, bans, BanText(n, ip)), query, now)
       <==> IsBanned(n, bans, query, now) && !NameOneHost(n, ip, query)
  {
    var text := BanText(n, ip);
    SameAddressIff(n, ip, query);
    if n.parse(ip).Some? {
      CanonicalTwice(n.parse(ip).value);
      assert n.parse(text) == Some(Canonical(n.parse(ip).value));
    }
    var after := RemoveBan(n, bans, text);
    if IsBanned(n, after, query, now) {
      var key :| key in after && SameAddress(n, after[key].ip, query) && ActiveAt(after[key], now);
      assert key in bans && !SameAddress(n, bans[key].ip, text);
    }
    if IsBanned(n, bans, query, now) && !SameAddress(n, ip, query) {
      var key :| key in bans && SameAddress(n, bans[key].ip, query) && ActiveAt(bans[key], now);
      assert key in after;
    }
  }

  /** Banning an address bans it, in every notation, until the expiry; no other address
      becomes banned. */
  lemma BanIsExact(n: Notation, bans: Bans, ip: IpAddr, reason: string, at: real, expires: Expiry, query: string,
                   now: real)
    requires Good(n) && KeyedByText(bans) && n.parse(query).Some?
    ensures SameHost(n.parse(query).value, ip) && Ahead(expires, now) ==>
              IsBanned(n, AddBan(n, bans, ip, reason, at, expires), query, now)
    ensures !SameHost(n.parse(query).value, ip) ==>
              (IsBanned(n, AddBan(n, bans, ip, reason, at, expires), query, now) <==> IsBanned(n, bans, query, now))
  {
    var text, after := n.show(Canonical(ip)), AddBan(n, bans, ip, reason, at, expires);
    CanonicalTwice(ip);
    CanonicalIff(n.parse(query).value, ip);
    assert n.parse(text) == Some(Canonical(ip));
    if SameHost(n.parse(query).value, ip) {
      assert SameAddress(n, after[text].ip, query);
    } else {
      if IsBanned(n, after, query, now) {
        var key :| key in after && SameAddress(n, after[key].ip, query) && ActiveAt(after[key], now);
        assert key in bans && bans[key] == after[key];
      }
      if IsBanned(n, bans, query, now) {
        var key :| key in bans && SameAddress(n, bans[key].ip, query) && ActiveAt(bans[key], now);
        assert key in after && bans[key] == after[key];
      }
    }
  }

  // -- runs of every event -----------------------------------------------------

  datatype Event =
    | Attempt(login: Login)
    | BanByHand(ip: string, reason: string, now: real, expires: Expiry)
    | UnbanByHand(ip: string)

  /** One event: the bans and the monitor's counters afterwards. */
  function EventStep(n: Notation, bans: Bans, hits: Hits, e: Event, max: nat, window: real): (Bans, Hits) {
    match e
    case Attempt(login) => AdminStep(n, bans, hits, login, max, window)
    case BanByHand(ip, reason, now, expires) =>
      (if BanAccepted(n, ip, reason, now, expires) then AddBan(n, bans, n.parse(ip).value, reason, now, expires)
       else bans,
       hits)
    case UnbanByHand(ip) => (if GoodBanName(ip) then RemoveBan(n, bans, BanText(n, ip)) else bans, hits)
  }

  function EventRun(n: Notation, es: seq<Event>, max: nat, window: real): (Bans, Hits)
    decreases |es|
  {
    if es == [] then (map[], map[]) else
      var before := EventRun(n, es[..|es| - 1], max, window);
      EventStep(n, before.0, before.1, es[|es| - 1], max, window)
  }

  /** The login events of a run. */
  function Logins(es: seq<Event>): (r: seq<Login>)
    ensures es != [] && es[|es| - 1].Attempt? ==> r != [] && r[|r| - 1] == es[|es| - 1].login
    decreases |es|
  {
    if es == [] then [] else
      Logins(es[..|es| - 1]) + if es[|es| - 1].Attempt? then [es[|es| - 1].login] else []
  }

  predicate Names(n: Notation, ip: string, a: IpAddr) {
    n.parse(ip).Some? && SameHost(n.parse(ip).value, a)
  }

  /** The last event bans the address: a failed login that crosses the threshold, judged by
      the login events alone, or an accepted ban by hand. */
  predicate BansLast(n: Notation, es: seq<Event>, a: IpAddr, max: nat, window: real)
    requires es != []
  {
    match es[|es| - 1]
    case Attempt(_) => Crosses(Logins(es), a, |Logins(es)| - 1, max, window)
    case BanByHand(ip, reason, now, expires) => BanAccepted(n, ip, reason, now, expires) && Names(n, ip, a)
    case UnbanByHand(_) => false
  }

  predicate Lifts(n: Notation, e: Event, a: IpAddr) {
    e.UnbanByHand? && GoodBanName(e.ip) && Names(n, e.ip, a)
  }

  function ExpiryOf(e: Event): Expiry {
    if e.BanByHand? then e.expires else Never
  }

  predicate BansAt(n: Notation, es: seq<Event>, a: IpAddr, i: nat, max: nat, window: real)
    requires i < |es|
  {
    BansLast(n, es[..i + 1], a, max, window)
  }

  /** Event `i` bans the address, and no later one bans it anew or lifts the ban. */
  predicate Stands(n: Notation, es: seq<Event>, a: IpAddr, i: nat, max: nat, window: real)
    requires i < |es|
  {
    && BansAt(n, es, a, i, max, window)
    && forall j | i < j < |es| :: !Lifts(n, es[j], a) && !BansAt(n, es, a, j, max, window)
  }

  /** The event whose ban stands, if any. */
  function Standing(n: Notation, es: seq<Event>, a: IpAddr, max: nat, window: real): Option<nat>
    decreases |es|
  {
    if es == [] then None
    else if BansLast(n, es, a, max, window) then Some(|es| - 1)
    else if Lifts(n, es[|es| - 1], a) then None
    else Standing(n, es[..|es| - 1], a, max, window)
  }

  lemma AtLast(n: Notation, es: seq<Event>, a: IpAddr, max: nat, window: real)
    requires es != []
    ensures BansAt(n, es, a, |es| - 1, max, window) == BansLast(n, es, a, max, window)
  {
    assert es[..|es|] == es;
    hide BansLast;
  }

  lemma AtEarlier(n: Notation, es: seq<Event>, a: IpAddr, j: nat, max: nat, window: real)
    requires j < |es| - 1
    ensures BansAt(n, es[..|es| - 1], a, j, max, window) == BansAt(n, es, a, j, max, window)
  {
    assert es[..|es| - 1][..j + 1] == es[..j + 1];
    hide BansLast;
  }

  lemma StandsEarlier(n: Notation, es: seq<Event>, a: IpAddr, i: nat, max: nat, window: real)
    requires i < |es| - 1
    ensures Stands(n, es, a, i, max, window) <==>
      && Stands(n, es[..|es| - 1], a, i, max, window)
      && !Lifts(n, es[|es| - 1], a) && !BansLast(n, es, a, max, window)
  {
    hide BansAt, BansLast, Lifts;
    var front := es[..|es| - 1];
    AtLast(n, es, a, max, window);
    forall j | 0 <= j < |front|
      ensures front[j] == es[j] && BansAt(n, front, a, j, max, window) == BansAt(n, es, a, j, max, window)
    {
      AtEarlier(n, es, a, j, max, window);
    }
  }

  lemma {:induction false} StandingIff(n: Notation, es: seq<Event>, a: IpAddr, i: nat, max: nat, window: real)
    requires i < |es|
    ensures Standing(n, es, a, max, window) == Some(i) <==> Stands(n, es, a, i, max, window)
    decreases |es|
  {
    if i == |es| - 1 {
      AtLast(n, es, a, max, window);
      StandingBelow(n, es[..|es| - 1], a, max, window);
    } else {
      StandingIff(n, es[..|es| - 1], a, i, max, window);
      StandsEarlier(n, es, a, i, max, window);
    }
    hide BansAt, BansLast, Lifts;
  }

  lemma {:induction false} StandingBelow(n: Notation, es: seq<Event>, a: IpAddr, max: nat, window: real)
    ensures var r := Standing(n, es, a, max, window); r.Some? ==> r.value < |es|
    decreases |es|
  {
    if es != [] {
      StandingBelow(n, es[..|es| - 1], a, max, window);
    }
    hide BansLast, Lifts;
  }

  lemma LoginsLast(es: seq<Event>)
    requires es != []
    ensures Logins(es[..|es| - 1]) == if es[|es| - 1].Attempt? then Logins(es)[..|Logins(es)| - 1] else Logins(es)
  {
  }

  /** The counters do not see what is done by hand. */
  lemma {:induction false} CountersOfLogins(n: Notation, es: seq<Event>, max: nat, window: real)
    ensures EventRun(n, es, max, window).1 == MonitorRun(Logins(es), window)
    decreases |es|
  {
    if es != [] {
      var front, e := es[..|es| - 1], es[|es| - 1];
      CountersOfLogins(n, front, max, window);
      LoginsLast(es);
    }
    hide AddBan, RemoveBan, MonitorStep, BanAccepted, GoodBanName;
  }

  lemma {:induction false} RunRows(n: Notation, es: seq<Event>, max: nat, window: real)
    ensures CanonicalRows(n, EventRun(n, es, max, window).0)
    decreases |es|
  {
    if es != [] {
      RunRows(n, es[..|es| - 1], max, window);
      var before := EventRun(n, es[..|es| - 1], max, window);
      RowsAfter(n, before.0, before.1, es[|es| - 1], max, window);
      hide CanonicalRows, EventStep;
    }
  }

  lemma RowsAfter(n: Notation, bans: Bans, hits: Hits, e: Event, max: nat, window: real)
    requires CanonicalRows(n, bans)
    ensures CanonicalRows(n, EventStep(n, bans, hits, e, max, window).0)
  {
    if e.Attempt? && e.login.ip.Some? {
      CanonicalTwice(e.login.ip.value);
    }
    if e.BanByHand? && n.parse(e.ip).Some? {
      CanonicalTwice(n.parse(e.ip).value);
    }
    hide Canonical, MonitorStep, CastU32, SameAddress, BanAccepted, GoodBanName, AutoReason;
  }

  lemma BanRow(n: Notation, bans: Bans, ip: IpAddr, reason: string, now: real, expires: Expiry, a: IpAddr)
    requires Good(n)
    ensures RowOf(n, AddBan(n, bans, ip, reason, now, expires), a)
         == if SameHost(ip, a) then Some(expires) else RowOf(n, bans, a)
  {
    CanonicalIff(ip, a);
    SameTextIff(n, Canonical(a), Canonical(ip));
  }

  lemma UnbanRow(n: Notation, bans: Bans, ip: string, a: IpAddr)
    requires Good(n) && CanonicalRows(n, bans)
    ensures RowOf(n, RemoveBan(n, bans, BanText(n, ip)), a) == if Names(n, ip, a) then None else RowOf(n, bans, a)
  {
    CanonicalTwice(a);
    assert n.parse(n.show(Canonical(a))) == Some(Canonical(a));
    if n.parse(ip).Some? {
      CanonicalTwice(n.parse(ip).value);
      CanonicalIff(n.parse(ip).value, a);
      assert n.parse(BanText(n, ip)) == Some(Canonical(n.parse(ip).value));
    }
    hide Canonical;
  }

  /** What an event does to the row of an address. */
  lemma EventRow(n: Notation, es: seq<Event>, a: IpAddr, max: nat, window: real)
    requires Good(n) && InOrder(Logins(es)) && window >= 0.0 && es != []
    ensures RowOf(n, EventRun(n, es, max, window).0, a)
         == if BansLast(n, es, a, max, window) then Some(ExpiryOf(es[|es| - 1]))
            else if Lifts(n, es[|es| - 1], a) then None
            else RowOf(n, EventRun(n, es[..|es| - 1], max, window).0, a)
  {
    var front, e := es[..|es| - 1], es[|es| - 1];
    var before := EventRun(n, front, max, window);
    match e {
      case Attempt(login) =>
        var ls := Logins(es);
        LoginsLast(es);
        CountersOfLogins(n, front, max, window);
        AttemptRow(n, before.0, ls, a, max, window);
      case BanByHand(ip, reason, now, expires) =>
        if n.parse(ip).Some? {
          BanRow(n, before.0, n.parse(ip).value, reason, now, expires, a);
        }
      case UnbanByHand(ip) =>
        RunRows(n, front, max, window);
        UnbanRow(n, before.0, ip, a);
    }
    hide RowOf, AdminStep, Crosses, CanonicalRows, AddBan, RemoveBan, MonitorRun, BanAccepted, GoodBanName, Good,
         InOrder;
  }

  lemma EarlierInOrder(es: seq<Event>)
    requires InOrder(Logins(es)) && es != []
    ensures InOrder(Logins(es[..|es| - 1]))
  {
    LoginsLast(es);
    hide *;
    if es[|es| - 1].Attempt? {
      FrontInOrder(Logins(es));
    }
  }

  lemma {:induction false} RowIsStanding(n: Notation, es: seq<Event>, a: IpAddr, max: nat, window: real)
    requires Good(n) && InOrder(Logins(es)) && window >= 0.0
    ensures
      var i := Standing(n, es, a, max, window);
      && (i.Some? ==> i.value < |es|)
      && RowOf(n, EventRun(n, es, max, window).0, a) == if i.None? then None else Some(ExpiryOf(es[i.value]))
    decreases |es|
  {
    if es != [] {
      StandingBelow(n, es, a, max, window);
      StandingBelow(n, es[..|es| - 1], a, max, window);
      EventRow(n, es, a, max, window);
      EarlierInOrder(es);
      RowIsStanding(n, es[..|es| - 1], a, max, window);
      hide EventRun, RowOf, BansLast, Lifts, ExpiryOf, Good, Canonical;
    }
  }

  /** In every run of login events, bans and unbans in any order, an address is banned, at
      any time and in whatever notation it is asked for, exactly when some event banned it,
      by crossing the threshold or by hand, no later event bans it anew or lifts the ban,
      and that event's expiry is ahead. */
  lemma BannedIffStands(n: Notation, es: seq<Event>, text: string, max: nat, window: real, now: real)
    requires Good(n) && InOrder(Logins(es)) && window >= 0.0 && n.parse(text).Some?
    ensures
      var a := n.parse(text).value;
      IsBanned(n, EventRun(n, es, max, window).0, text, now)
      <==> exists i | 0 <= i < |es| :: Stands(n, es, a, i, max, window) && Ahead(ExpiryOf(es[i]), now)
  {
    var a := n.parse(text).value;
    hide *;
    RunRows(n, es, max, window);
    BannedIffRow(n, EventRun(n, es, max, window).0, text, now);
    RowIsStanding(n, es, a, max, window);
    forall i | 0 <= i < |es|
      ensures Standing(n, es, a, max, window) == Some(i) <==> Stands(n, es, a, i, max, window)
    {
      StandingIff(n, es, a, i, max, window);
    }
  }
}
