/** The Assist gateway: switch, grant, ceiling, redaction, rate limit and audit row before
    every dispatch (crates/mw-assist/src/lib.rs). An endpoint is known by its host; what
    it answers is left out. */
module AssistGateway {
  import opened Wrappers
  import opened AssistCapability
  import opened DataScopes
  import RL = RateLimit

  datatype Error = Disabled | CapabilityDenied(cap: Capability) | ScopeExceeded | RateLimited

  datatype Outcome<T> = Done(value: T) | Refused(error: Error)

  datatype Input = Input(prompt: string, context: seq<ContextItem>)

  /** The content-free summary of a scope: counts and flags. */
  datatype Summary = Summary(accounts: nat, folders: nat, e2ee: bool, attach: bool)

  function SummaryOf(s: DataScope): Summary {
    Summary(|s.accounts|, |s.folders|, s.includeE2ee, s.includeAttachments)
  }

  datatype AuditRow = AuditRow(cap: Capability, scope: Summary, host: string)

  /** What an endpoint is handed. A chat also carries the system prompt of its
      capability. */
  datatype Payload =
    | Chat(cap: Capability, prompt: string)
    | Embed(text: string)
    | Transcribe(audio: seq<int>, mime: string)

  datatype Dispatch = Dispatch(host: string, payload: Payload)

  datatype Config = Config(enabled: bool, grants: set<Capability>, ceiling: DataScope, own: Option<string>,
                           limit: Option<nat>)

  datatype Request =
    | Invoke(via: Option<string>, capability: Capability, scope: DataScope, input: Input)
    | EmbedText(scope: DataScope, text: string)
    | TranscribeAudio(via: Option<string>, scope: DataScope, audio: seq<int>, mime: string)
  {
    function Via(): Option<string> {
      if EmbedText? then None else via
    }

    function Cap(): Capability {
      match this
      case Invoke(_, c, _, _) => c
      case EmbedText(_, _) => SearchSemantic
      case TranscribeAudio(_, _, _, _) => Dictation
    }
  }

  // -- what a request means ---------------------------------------------------

  function HostOf(cfg: Config, r: Request): Option<string> {
    if r.Via().Some? then r.Via() else cfg.own
  }

  /** The first reason to refuse a request before the rate limit is asked. */
  function Refusal(cfg: Config, r: Request): Option<Error> {
    if !cfg.enabled || HostOf(cfg, r).None? then Some(Disabled)
    else if r.Cap() !in cfg.grants then Some(CapabilityDenied(r.Cap()))
    else if r.EmbedText? && Disjoint(r.scope.accounts, cfg.ceiling.accounts) then Some(ScopeExceeded)
    else None
  }

  function BudgetKey(cfg: Config, r: Request): string {
    RL.RateKey(Clamp(r.scope, cfg.ceiling).accounts)
  }

  /** The audit row and the dispatch of a request that is let through. */
  function RowOf(cfg: Config, r: Request): AuditRow
    requires HostOf(cfg, r).Some?
  {
    AuditRow(r.Cap(), SummaryOf(Clamp(r.scope, cfg.ceiling)), HostOf(cfg, r).value)
  }

  function PayloadOf(cfg: Config, r: Request): Payload {
    match r
    case Invoke(_, c, scope, input) =>
      Chat(c, PromptWith(input.prompt, Admitted(input.context, Clamp(scope, cfg.ceiling))))
    case EmbedText(_, text) => Embed(text)
    case TranscribeAudio(_, _, audio, mime) => Transcribe(audio, mime)
  }

  function DispatchOf(cfg: Config, r: Request): Dispatch
    requires HostOf(cfg, r).Some?
  {
    Dispatch(HostOf(cfg, r).value, PayloadOf(cfg, r))
  }

  /** What leaves the gateway: audit rows and dispatches, in the order they happen. */
  datatype Effect = Row(row: AuditRow) | Sent(dispatch: Dispatch)

  datatype State = State(windows: RL.Windows, log: seq<Effect>)

  function Limit(cfg: Config, windows: RL.Windows, key: string, now: real): (bool, RL.Windows) {
    if cfg.limit.None? then (true, windows) else RL.CheckRate(windows, cfg.limit.value, key, now)
  }

  /** One request: the error, if it is refused, and the state it leaves. */
  function Step(cfg: Config, s: State, r: Request, now: real): (Option<Error>, State) {
    if Refusal(cfg, r).Some? then (Refusal(cfg, r), s) else
      var l := Limit(cfg, s.windows, BudgetKey(cfg, r), now);
      if !l.0 then (Some(RateLimited), s.(windows := l.1))
      else (None, State(l.1, s.log + [Row(RowOf(cfg, r)), Sent(DispatchOf(cfg, r))]))
  }

  // -- the gateway -------------------------------------------------------------

  class Gateway {
    const cfg: Config
    var windows: RL.Windows
    var log: seq<Effect>

    constructor (cfg: Config)
      ensures this.cfg == cfg && Now() == State(map[], [])
    {
      this.cfg := cfg;
      windows, log := map[], [];
    }

    function Now(): State
      reads this
    {
      State(windows, log)
    }

    method RequireAdapter(via: Option<string>) returns (r: Outcome<string>)
      ensures r == if !cfg.enabled then Refused(Disabled)
                   else if via.Some? then Done(via.value)
                   else if cfg.own.Some? then Done(cfg.own.value) else Refused(Disabled)
    {
      if !cfg.enabled {
        return Refused(Disabled);
      }
      var host := if via.Some? then via else cfg.own;
      return if host.Some? then Done(host.value) else Refused(Disabled);
    }

    method CheckRate(eff: DataScope, now: real) returns (granted: bool)
      modifies this
      ensures log == old(log)
      ensures (granted, windows) == Limit(cfg, old(windows), RL.RateKey(eff.accounts), now)
    {
      if cfg.limit.None? {
        return true;
      }
      var l := RL.CheckRate(windows, cfg.limit.value, RL.RateKey(eff.accounts), now);
      windows := l.1;
      return l.0;
    }

    /** `invoke_disclosed_via`: the disclosed report is returned on success. */
    method InvokeVia(via: Option<string>, cap: Capability, scope: DataScope, input: Input, now: real)
      returns (r: Outcome<Report>)
      modifies this
      ensures
        var step := Step(cfg, old(Now()), Invoke(via, cap, scope, input), now);
        && Now() == step.1
        && r == if step.0.Some? then Refused(step.0.value) else Done(ReportOf(input.context, Clamp(scope, cfg.ceiling)))
    {
      var adapter := RequireAdapter(via);
      if adapter.Refused? {
        return Refused(adapter.error);
      }
      if cap !in cfg.grants {
        return Refused(CapabilityDenied(cap));
      }
      var eff := Clamp(scope, cfg.ceiling);
      var payload, report := RedactChat(input.prompt, input.context, eff);
      var granted := CheckRate(eff, now);
      if !granted {
        return Refused(RateLimited);
      }
      log := log + [Row(AuditRow(cap, SummaryOf(eff), adapter.value))];
      log := log + [Sent(Dispatch(adapter.value, Chat(cap, payload)))];
      return Done(report);
    }

    method EmbedFor(scope: DataScope, text: string, now: real) returns (r: Outcome<()>)
      modifies this
      ensures
        var step := Step(cfg, old(Now()), EmbedText(scope, text), now);
        Now() == step.1 && r == if step.0.Some? then Refused(step.0.value) else Done(())
    {
      var adapter := RequireAdapter(None);
      if adapter.Refused? {
        return Refused(adapter.error);
      }
      if SearchSemantic !in cfg.grants {
        return Refused(CapabilityDenied(SearchSemantic));
      }
      var eff := Clamp(scope, cfg.ceiling);
      ClashIsEmpty(scope.accounts, cfg.ceiling.accounts);
      if eff.accounts == [] {
        return Refused(ScopeExceeded);
      }
      var granted := CheckRate(eff, now);
      if !granted {
        return Refused(RateLimited);
      }
      log := log + [Row(AuditRow(SearchSemantic, SummaryOf(eff), adapter.value))];
      log := log + [Sent(Dispatch(adapter.value, Embed(text)))];
      return Done(());
    }

    method TranscribeVia(via: Option<string>, scope: DataScope, audio: seq<int>, mime: string, now: real)
      returns (r: Outcome<()>)
      modifies this
      ensures
        var step := Step(cfg, old(Now()), TranscribeAudio(via, scope, audio, mime), now);
        Now() == step.1 && r == if step.0.Some? then Refused(step.0.value) else Done(())
    {
      var adapter := RequireAdapter(via);
      if adapter.Refused? {
        return Refused(adapter.error);
      }
      if Dictation !in cfg.grants {
        return Refused(CapabilityDenied(Dictation));
      }
      var eff := Clamp(scope, cfg.ceiling);
      var granted := CheckRate(eff, now);
      if !granted {
        return Refused(RateLimited);
      }
      log := log + [Row(AuditRow(Dictation, SummaryOf(eff), adapter.value))];
      log := log + [Sent(Dispatch(adapter.value, Transcribe(audio, mime)))];
      return Done(());
    }
  }

  // -- runs --------------------------------------------------------------------

  datatype Timed = Timed(request: Request, now: real)

  function Start(): State {
    State(map[], [])
  }

  function Run(cfg: Config, rs: seq<Timed>): State
    decreases |rs|
  {
    if rs == [] then Start() else
      var last := rs[|rs| - 1];
      Step(cfg, Run(cfg, rs[..|rs| - 1]), last.request, last.now).1
  }

  /** Request `i` of the run was let through. */
  predicate Accepted(cfg: Config, rs: seq<Timed>, i: nat)
    requires i < |rs|
  {
    Step(cfg, Run(cfg, rs[..i]), rs[i].request, rs[i].now).0.None?
  }

  /** The accepted requests of a run, in order. */
  function AcceptedRequests(cfg: Config, rs: seq<Timed>): (r: seq<Request>)
    ensures forall k | 0 <= k < |r| :: Refusal(cfg, r[k]).None?
    decreases |rs|
  {
    if rs == [] then [] else
      var n := |rs| - 1;
      AcceptedRequests(cfg, rs[..n]) + if Accepted(cfg, rs, n) then [rs[n].request] else []
  }

  /** In every run the log is an audit row and a dispatch for each accepted request, in
      order: the row of a request stands right before its dispatch, and a refused request
      leaves neither. */
  lemma {:induction false} RowBeforeDispatch(cfg: Config, rs: seq<Timed>)
    ensures
      var log, a := Run(cfg, rs).log, AcceptedRequests(cfg, rs);
      && |log| == 2 * |a|
      && forall k | 0 <= k < |a| :: log[2 * k] == Row(RowOf(cfg, a[k])) && log[2 * k + 1] == Sent(DispatchOf(cfg, a[k]))
    decreases |rs|
  {
    if rs != [] {
      RowBeforeDispatch(cfg, rs[..|rs| - 1]);
      hide RowOf, DispatchOf, Refusal, Limit, BudgetKey;
    }
  }

  /** What is sent, for any request of any run, is sent while the gateway is switched on
      and for a capability that is granted, and the entry before it is the row that names
      the same host and capability. */
  lemma SentOnlyIfAllowed(cfg: Config, rs: seq<Timed>, i: nat)
    requires i < |Run(cfg, rs).log| && Run(cfg, rs).log[i].Sent?
    ensures
      var log, k := Run(cfg, rs).log, i / 2;
      && i % 2 == 1 && k < |AcceptedRequests(cfg, rs)| && cfg.enabled
      && AcceptedRequests(cfg, rs)[k].Cap() in cfg.grants
      && log[i - 1].Row? && log[i - 1].row.host == log[i].dispatch.host
      && log[i - 1].row.cap == AcceptedRequests(cfg, rs)[k].Cap()
  {
    RowBeforeDispatch(cfg, rs);
    var k := i / 2;
    assert i == 2 * k || i == 2 * k + 1;
    var r := AcceptedRequests(cfg, rs)[k];
    assert Refusal(cfg, r).None?;
    hide Run, AcceptedRequests;
  }

  /** What was sent for the accepted request `k`. */
  function SentFor(cfg: Config, rs: seq<Timed>, k: nat): Payload
    requires k < |AcceptedRequests(cfg, rs)|
  {
    RowBeforeDispatch(cfg, rs);
    assert Run(cfg, rs).log[2 * k + 1] == Sent(DispatchOf(cfg, AcceptedRequests(cfg, rs)[k]));
    Run(cfg, rs).log[2 * k + 1].dispatch.payload
  }

  /** Every chat payload of a run is the request's prompt and exactly the texts that both
      its scope and the ceiling admit, unless the two folder lists clash on a shared
      account. */
  lemma ChatPayloads(cfg: Config, rs: seq<Timed>, k: nat)
    requires k < |AcceptedRequests(cfg, rs)| && AcceptedRequests(cfg, rs)[k].Invoke?
    requires
      var scope := AcceptedRequests(cfg, rs)[k].scope;
      !(FoldersClash(scope, cfg.ceiling) && !Disjoint(scope.accounts, cfg.ceiling.accounts))
    ensures
      var r := AcceptedRequests(cfg, rs)[k];
      SentFor(cfg, rs, k)
      == Chat(r.capability, PromptWith(r.input.prompt, TextsWhere(r.input.context, Both(r.scope, cfg.ceiling))))
  {
    RowBeforeDispatch(cfg, rs);
    var r := AcceptedRequests(cfg, rs)[k];
    hide Run, AcceptedRequests, PromptWith;
    ForwardedTexts(r.input.context, r.scope, cfg.ceiling);
  }

  /** Every embedded text comes from a request that shares an account with the ceiling; a
      chat without a shared account carries the prompt alone. */
  lemma OutsideTheCeiling(cfg: Config, rs: seq<Timed>, k: nat)
    requires k < |AcceptedRequests(cfg, rs)|
    requires Disjoint(AcceptedRequests(cfg, rs)[k].scope.accounts, cfg.ceiling.accounts)
    ensures
      var r := AcceptedRequests(cfg, rs)[k];
      !r.EmbedText? && (r.Invoke? ==> SentFor(cfg, rs, k) == Chat(r.capability, r.input.prompt))
  {
    RowBeforeDispatch(cfg, rs);
    var r := AcceptedRequests(cfg, rs)[k];
    assert Refusal(cfg, r).None?;
    hide Run, AcceptedRequests;
    if r.Invoke? {
      NothingWithoutAccounts(r.input.context, r.scope, cfg.ceiling);
    }
  }

  // -- the rate limit inside the gateway --------------------------------------

  /** The requests that reach the rate limit, as calls on their budgets. */
  function RateCalls(cfg: Config, rs: seq<Timed>): seq<RL.Call>
    decreases |rs|
  {
    if rs == [] then [] else
      var last := rs[|rs| - 1];
      RateCalls(cfg, rs[..|rs| - 1])
      + if Refusal(cfg, last.request).None? then [RL.Call(BudgetKey(cfg, last.request), last.now)] else []
  }

  lemma {:induction false} WindowsAreShared(cfg: Config, rs: seq<Timed>)
    requires cfg.limit.Some?
    ensures Run(cfg, rs).windows == RL.Shared(cfg.limit.value, RateCalls(cfg, rs))
    decreases |rs|
  {
    if rs != [] {
      var front, last := rs[..|rs| - 1], rs[|rs| - 1];
      WindowsAreShared(cfg, front);
      hide RL.CheckRate, BudgetKey, RowOf, DispatchOf, Refusal, RL.Shared;
      var calls := RateCalls(cfg, front);
      assert calls + [] == calls;
      RL.SharedNext(cfg.limit.value, calls, RL.Call(BudgetKey(cfg, last.request), last.now));
    }
  }

  predicate InOrder(rs: seq<Timed>) {
    forall i, j | 0 <= i <= j < |rs| :: rs[i].now <= rs[j].now
  }

  /** How many requests on a budget were dispatched with `lo <= now < hi`. */
  function Dispatched(cfg: Config, rs: seq<Timed>, key: string, lo: real, hi: real): nat
    decreases |rs|
  {
    if rs == [] then 0 else
      var n := |rs| - 1;
      Dispatched(cfg, rs[..n], key, lo, hi)
      + if Accepted(cfg, rs, n) && BudgetKey(cfg, rs[n].request) == key && lo <= rs[n].now < hi then 1 else 0
  }

  lemma {:induction false} DispatchedAreGranted(cfg: Config, rs: seq<Timed>, key: string, lo: real, hi: real)
    requires cfg.limit.Some?
    ensures Dispatched(cfg, rs, key, lo, hi) == RL.Grants(cfg.limit.value, RateCalls(cfg, rs), key, lo, hi)
    decreases |rs|
  {
    if rs != [] {
      var n := |rs| - 1;
      var front, last := rs[..n], rs[n];
      DispatchedAreGranted(cfg, front, key, lo, hi);
      WindowsAreShared(cfg, front);
      hide RL.CheckRate, BudgetKey, RowOf, DispatchOf, Refusal, RL.Shared, RL.Grants, Run;
      var calls := RateCalls(cfg, front);
      assert calls + [] == calls;
      RL.GrantsNext(cfg.limit.value, calls, RL.Call(BudgetKey(cfg, last.request), last.now), key, lo, hi);
    }
  }

  lemma {:induction false} CallsInOrder(cfg: Config, rs: seq<Timed>, now: real)
    requires InOrder(rs) && (rs != [] ==> rs[|rs| - 1].now <= now)
    ensures RL.InOrder(RateCalls(cfg, rs))
    ensures forall i | 0 <= i < |RateCalls(cfg, rs)| :: RateCalls(cfg, rs)[i].now <= now
    decreases |rs|
  {
    if rs != [] {
      CallsInOrder(cfg, rs[..|rs| - 1], rs[|rs| - 1].now);
      hide BudgetKey, Refusal;
    }
  }

  /** In any half-open minute fewer than twice the limit is dispatched on one budget. */
  lemma DispatchRateIsBounded(cfg: Config, rs: seq<Timed>, key: string, lo: real)
    requires cfg.limit.Some? && cfg.limit.value >= 1 && InOrder(rs)
    ensures Dispatched(cfg, rs, key, lo, lo + RL.RATE_WINDOW) <= 2 * cfg.limit.value - 1
  {
    DispatchedAreGranted(cfg, rs, key, lo, lo + RL.RATE_WINDOW);
    CallsInOrder(cfg, rs, if rs == [] then 0.0 else rs[|rs| - 1].now);
    RL.AtMostTwiceLess(cfg.limit.value, RateCalls(cfg, rs), key, lo);
  }

  // -- what is sent, spelled out -----------------------------------------------

  /** The places in `a` of what `b` has too. */
  function Shared(a: seq<string>, b: seq<string>): set<nat> {
    set i: nat | i < |a| && a[i] in b
  }

  lemma {:induction false} IntersectCount(a: seq<string>, b: seq<string>)
    ensures |IntersectIds(a, b)| == |Shared(a, b)|
    decreases |a|
  {
    if a == [] {
      assert Shared(a, b) == {};
    } else {
      var n := |a| - 1;
      IntersectCount(a[..n], b);
      IntersectLast(a, b);
      assert Shared(a, b) == Shared(a[..n], b) + if a[n] in b then {n} else {};
    }
  }

  lemma {:induction false} IntersectLast(a: seq<string>, b: seq<string>)
    requires a != []
    ensures IntersectIds(a, b) == IntersectIds(a[..|a| - 1], b) + if a[|a| - 1] in b then [a[|a| - 1]] else []
    decreases |a|
  {
    if |a| > 1 {
      IntersectLast(a[1..], b);
      assert a[1..][..|a| - 2] == a[..|a| - 1][1..];
    }
  }

  /** To whom and what, for every accepted request: the endpoint of the call, which an
      embedding has none of, or else the configured one; the audio and the text to embed as
      they came. The row before names the same host and counts the accounts that the
      request shares with the ceiling. */
  lemma SentAsAsked(cfg: Config, rs: seq<Timed>, k: nat)
    requires k < |AcceptedRequests(cfg, rs)|
    ensures
      var log, r := Run(cfg, rs).log, AcceptedRequests(cfg, rs)[k];
      var host := if !r.EmbedText? && r.via.Some? then r.via else cfg.own;
      && host.Some? && 2 * k + 1 < |log| && log[2 * k].Row? && log[2 * k + 1].Sent?
      && log[2 * k].row.host == log[2 * k + 1].dispatch.host == host.value
      && log[2 * k].row.cap
         == (if r.Invoke? then r.capability else if r.EmbedText? then SearchSemantic else Dictation)
      && log[2 * k].row.scope.accounts
         == |Shared(r.scope.accounts, cfg.ceiling.accounts)|
      && (log[2 * k].row.scope.e2ee <==> r.scope.includeE2ee && cfg.ceiling.includeE2ee)
      && (log[2 * k].row.scope.attach <==> r.scope.includeAttachments && cfg.ceiling.includeAttachments)
      && (r.EmbedText? ==> log[2 * k + 1].dispatch.payload == Embed(r.text))
      && (r.TranscribeAudio? ==> log[2 * k + 1].dispatch.payload == Transcribe(r.audio, r.mime))
  {
    RowBeforeDispatch(cfg, rs);
    var r := AcceptedRequests(cfg, rs)[k];
    assert Refusal(cfg, r).None?;
    IntersectCount(r.scope.accounts, cfg.ceiling.accounts);
    hide Run, AcceptedRequests, IntersectIds, Admitted;
  }

  /** A request is refused exactly for one of these reasons, in this order: the gateway is
      off or nobody is there to ask, the capability is not granted, an embedding shares no
      account with the ceiling, or a limit is set and the budget is used up. */
  lemma RefusedIff(cfg: Config, s: State, r: Request, now: real)
    ensures
      var error := Step(cfg, s, r, now).0;
      var cap := if r.Invoke? then r.capability else if r.EmbedText? then SearchSemantic else Dictation;
      error == if !cfg.enabled || (cfg.own.None? && (r.EmbedText? || r.via.None?)) then Some(Disabled)
               else if cap !in cfg.grants then Some(CapabilityDenied(cap))
               else if r.EmbedText? && forall a | a in r.scope.accounts :: a !in cfg.ceiling.accounts
                 then Some(ScopeExceeded)
               else if cfg.limit.Some? && !RL.CheckRate(s.windows, cfg.limit.value, BudgetKey(cfg, r), now).0
                 then Some(RateLimited)
               else None
    ensures cfg.limit.None? ==> Step(cfg, s, r, now).1.windows == s.windows
  {
    hide RL.CheckRate, BudgetKey, RowOf, DispatchOf;
  }
}
