/** The streaming filter that separates an assistant reply's prose from its proposal
    block (crates/mw-assist/src/assistant.rs).

    Deltas arrive cut anywhere. What is shown plus what is returned at the end must be
    the text before the first marker, and the block the text after it, as if the whole
    reply had been seen at once. */
module ProposalFilter {
  import opened Wrappers
  import opened Text
  import opened AssistCapability

  const ACTION_MARKER: string := "<<<MW_ACTIONS"

  // The functions and lemmas below hold for every non-empty marker.

  /** Is the last `k` characters of `text` the first `k` characters of the marker? */
  predicate HeldSuffix(marker: string, text: string, k: nat) {
    k <= |text| && k <= |marker| && text[|text| - k..] == marker[..k]
  }

  /** The largest `k` up to the bound for which the last `k` characters may still
      become the marker. */
  function HoldbackFrom(marker: string, text: string, k: nat): (r: nat)
    requires k <= |text| && k <= |marker|
    ensures r <= k && HeldSuffix(marker, text, r)
    ensures forall j | r < j <= k :: !HeldSuffix(marker, text, j)
  {
    if k == 0 || HeldSuffix(marker, text, k) then k else HoldbackFrom(marker, text, k - 1)
  }

  function Holdback(marker: string, text: string): (r: nat)
    requires marker != ""
    ensures r < |marker| && HeldSuffix(marker, text, r)
    ensures forall j | r < j < |marker| :: !HeldSuffix(marker, text, j)
  {
    HoldbackFrom(marker, text, if |text| < |marker| then |text| else |marker| - 1)
  }

  // -- the one-shot meaning ----------------------------------------------------

  function Before(marker: string, text: string): string {
    match Find(text, marker)
    case None => text
    case Some(i) => text[..i]
  }

  function After(marker: string, text: string): Option<string> {
    match Find(text, marker)
    case None => None
    case Some(i) => Some(text[i + |marker|..])
  }

  // -- one push, as a function of the filter's fields --------------------------

  datatype State = State(active: bool, pending: string, block: Option<string>)

  const SCANNING := State(true, "", None)

  /** Searching the held text: what becomes pending, the block, and what is shown. */
  function Scan(marker: string, pending: string): (State, string)
    requires marker != ""
  {
    match Find(pending, marker)
    case Some(i) => (State(true, "", Some(pending[i + |marker|..])), pending[..i])
    case None =>
      var split := |pending| - Holdback(marker, pending);
      (State(true, pending[split..], None), pending[..split])
  }

  function Step(marker: string, s: State, delta: string): (State, string)
    requires marker != ""
  {
    if !s.active then (s, delta)
    else if s.block.Some? then (s.(block := Some(s.block.value + delta)), "")
    else Scan(marker, s.pending + delta)
  }

  function PushAll(marker: string, s: State, deltas: seq<string>): (State, string)
    requires marker != ""
    decreases |deltas|
  {
    if deltas == [] then (s, "") else
      var (s1, shown) := Step(marker, s, deltas[0]);
      var (s2, rest) := PushAll(marker, s1, deltas[1..]);
      (s2, shown + rest)
  }

  /** A scanning filter that has seen no marker: it shows all but the longest suffix. */
  ghost predicate Waiting(marker: string, s: State, seen: string, shown: string)
    requires marker != ""
  {
    var cut := |seen| - Holdback(marker, seen);
    && Find(seen, marker).None? && s == State(true, seen[cut..], None) && shown == seen[..cut]
  }

  /** A scanning filter that has seen the marker. */
  ghost predicate Split(marker: string, s: State, seen: string, shown: string) {
    && Find(seen, marker).Some?
    && s == State(true, "", After(marker, seen)) && shown == Before(marker, seen)
  }

  ghost predicate Tracks(marker: string, s: State, seen: string, shown: string)
    requires marker != ""
  {
    if s.active then Waiting(marker, s, seen, shown) || Split(marker, s, seen, shown)
    else s == State(false, "", None) && shown == seen
  }

  // -- why holding back the longest suffix is enough ---------------------------

  /** The marker first completes at or after the held-back text: an earlier start
      would make a longer suffix of `seen` a prefix of the marker. */
  lemma NoEarlyMarker(marker: string, seen: string, delta: string, i: int)
    requires marker != "" && Find(seen, marker).None?
    requires MatchesAt(seen + delta, marker, i)
    ensures i >= |seen| - Holdback(marker, seen)
  {
    if i < |seen| - Holdback(marker, seen) {
      if i + |marker| <= |seen| {
        MatchesAtPrefix(seen, delta, marker, i);
      } else {
        var k := |seen| - i;
        assert seen[i..] == (seen + delta)[i..i + |marker|][..k];
        assert HeldSuffix(marker, seen, k);
      }
    }
  }

  lemma SamePlace(marker: string, seen: string, delta: string, cut: nat, i: int)
    requires marker != "" && Find(seen, marker).None? && cut == |seen| - Holdback(marker, seen)
    ensures MatchesAt(seen + delta, marker, i) <==> i >= cut && MatchesAt(seen[cut..] + delta, marker, i - cut)
  {
    if i >= cut {
      MatchesAtCut(seen, cut, delta, marker, i);
    } else if MatchesAt(seen + delta, marker, i) {
      NoEarlyMarker(marker, seen, delta, i);
    }
  }

  /** Searching the held-back text plus the delta finds what searching everything finds. */
  lemma SearchPendingIsSearchAll(marker: string, seen: string, delta: string, cut: nat)
    requires marker != "" && Find(seen, marker).None? && cut == |seen| - Holdback(marker, seen)
    ensures
      var r := Find(seen[cut..] + delta, marker);
      Find(seen + delta, marker) == if r.Some? then Some(cut + r.value) else None
  {
    var r := Find(seen[cut..] + delta, marker);
    hide *;
    if r.Some? {
      FoundInPending(marker, seen, delta, cut, r.value);
    } else if Find(seen + delta, marker).Some? {
      SamePlace(marker, seen, delta, cut, Find(seen + delta, marker).value);
    }
  }

  lemma FoundInPending(marker: string, seen: string, delta: string, cut: nat, at: nat)
    requires marker != "" && Find(seen, marker).None? && cut == |seen| - Holdback(marker, seen)
    requires Find(seen[cut..] + delta, marker) == Some(at)
    ensures Find(seen + delta, marker) == Some(cut + at)
  {
    hide Holdback, MatchesAt;
    SamePlace(marker, seen, delta, cut, cut + at);
    forall j | 0 <= j < cut + at ensures !MatchesAt(seen + delta, marker, j) {
      SamePlace(marker, seen, delta, cut, j);
    }
    FindIs(seen + delta, marker, cut + at);
  }

  lemma HeldSuffixOfPending(marker: string, seen: string, delta: string, cut: nat, k: nat)
    requires marker != "" && cut == |seen| - Holdback(marker, seen) && k < |marker|
    ensures HeldSuffix(marker, seen + delta, k) <==> HeldSuffix(marker, seen[cut..] + delta, k)
  {
    var all, pending := seen + delta, seen[cut..] + delta;
    if k <= |pending| {
      assert all[|all| - k..] == pending[|pending| - k..];
    } else if HeldSuffix(marker, all, k) {
      HeldSuffixOfHead(marker, seen, delta, k);
    }
  }

  lemma HeldSuffixOfHead(marker: string, seen: string, delta: string, k: nat)
    requires |delta| <= k && HeldSuffix(marker, seen + delta, k)
    ensures HeldSuffix(marker, seen, k - |delta|)
  {
    var all, j := seen + delta, k - |delta|;
    assert seen[|seen| - j..] == all[|all| - k..][..j] == marker[..j];
  }

  /** The held-back suffix of the held-back text is that of the whole text. */
  lemma HoldbackOfPending(marker: string, seen: string, delta: string, cut: nat)
    requires marker != "" && cut == |seen| - Holdback(marker, seen)
    ensures Holdback(marker, seen[cut..] + delta) == Holdback(marker, seen + delta)
  {
    var a, b := Holdback(marker, seen[cut..] + delta), Holdback(marker, seen + delta);
    HeldSuffixOfPending(marker, seen, delta, cut, a);
    HeldSuffixOfPending(marker, seen, delta, cut, b);
  }

  lemma MarkerFound(marker: string, seen: string, delta: string)
    requires Find(seen, marker).Some?
    ensures Find(seen + delta, marker) == Find(seen, marker)
    ensures Before(marker, seen + delta) == Before(marker, seen)
    ensures After(marker, seen + delta) == Some(After(marker, seen).value + delta)
  {
    var i := Find(seen, marker).value;
    forall j | j <= i ensures MatchesAt(seen + delta, marker, j) <==> MatchesAt(seen, marker, j) {
      MatchesAtPrefix(seen, delta, marker, j);
    }
    FindIs(seen + delta, marker, i);
    assert (seen + delta)[i + |marker|..] == seen[i + |marker|..] + delta;
    assert (seen + delta)[..i] == seen[..i];
  }

  /** Adding the delta to what was held back leaves the text shown so far in front. */
  lemma ShownThenPending(seen: string, delta: string, cut: nat, n: nat)
    requires cut <= |seen| && n <= |seen[cut..] + delta|
    ensures (seen + delta)[..cut + n] == seen[..cut] + (seen[cut..] + delta)[..n]
    ensures (seen + delta)[cut + n..] == (seen[cut..] + delta)[n..]
  {
  }

  lemma ScanFinds(marker: string, seen: string, delta: string, cut: nat)
    requires marker != "" && Find(seen, marker).None? && cut == |seen| - Holdback(marker, seen)
    requires Find(seen[cut..] + delta, marker).Some?
    ensures
      var r := Scan(marker, seen[cut..] + delta);
      Split(marker, r.0, seen + delta, seen[..cut] + r.1)
  {
    SearchPendingIsSearchAll(marker, seen, delta, cut);
    var i := Find(seen[cut..] + delta, marker).value;
    ShownThenPending(seen, delta, cut, i);
    ShownThenPending(seen, delta, cut, i + |marker|);
  }

  lemma ScanWaits(marker: string, seen: string, delta: string, cut: nat)
    requires marker != "" && Find(seen, marker).None? && cut == |seen| - Holdback(marker, seen)
    requires Find(seen[cut..] + delta, marker).None?
    ensures
      var r := Scan(marker, seen[cut..] + delta);
      Waiting(marker, r.0, seen + delta, seen[..cut] + r.1)
  {
    SearchPendingIsSearchAll(marker, seen, delta, cut);
    HoldbackOfPending(marker, seen, delta, cut);
    var pending := seen[cut..] + delta;
    ShownThenPending(seen, delta, cut, |pending| - Holdback(marker, pending));
  }

  lemma ScanTracks(marker: string, s: State, seen: string, shown: string, delta: string)
    requires marker != "" && Waiting(marker, s, seen, shown)
    ensures
      var r := Scan(marker, s.pending + delta);
      Waiting(marker, r.0, seen + delta, shown + r.1) || Split(marker, r.0, seen + delta, shown + r.1)
  {
    var cut := |seen| - Holdback(marker, seen);
    hide Scan, Split, Find;
    if Find(s.pending + delta, marker).Some? {
      ScanFinds(marker, seen, delta, cut);
    } else {
      ScanWaits(marker, seen, delta, cut);
    }
  }

  lemma PushTracks(marker: string, s: State, seen: string, shown: string, delta: string)
    requires marker != "" && Tracks(marker, s, seen, shown)
    ensures Tracks(marker, Step(marker, s, delta).0, seen + delta, shown + Step(marker, s, delta).1)
  {
    if s.active && s.block.None? {
      ScanTracks(marker, s, seen, shown, delta);
    } else if s.active {
      MarkerFound(marker, seen, delta);
      assert shown + "" == shown;
    }
  }

  lemma TracksShowsPrefix(marker: string, s: State, seen: string, shown: string)
    requires marker != "" && Tracks(marker, s, seen, shown)
    ensures s.active ==> shown <= Before(marker, seen)
  {
  }

  lemma {:induction false} PushAllTracks(marker: string, s: State, seen: string, shown: string, deltas: seq<string>)
    requires marker != "" && Tracks(marker, s, seen, shown)
    ensures
      var (s', out) := PushAll(marker, s, deltas);
      Tracks(marker, s', seen + Flatten(deltas), shown + out)
    decreases |deltas|
  {
    hide Tracks, Step, Scan;
    if deltas == [] {
      assert seen + Flatten(deltas) == seen && shown + "" == shown;
    } else {
      PushTracks(marker, s, seen, shown, deltas[0]);
      var (s1, out) := Step(marker, s, deltas[0]);
      PushAllTracks(marker, s1, seen + deltas[0], shown + out, deltas[1..]);
      assert seen + deltas[0] + Flatten(deltas[1..]) == seen + Flatten(deltas);
      var rest := PushAll(marker, s1, deltas[1..]).1;
      assert (shown + out) + rest == shown + (out + rest);
    }
  }

  lemma InitiallyTracks(marker: string)
    requires marker != ""
    ensures Tracks(marker, SCANNING, "", "")
  {
    assert Waiting(marker, SCANNING, "", "");
  }

  lemma ScanningTracks(marker: string, deltas: seq<string>)
    requires marker != ""
    ensures Tracks(marker, PushAll(marker, SCANNING, deltas).0, Flatten(deltas), PushAll(marker, SCANNING, deltas).1)
  {
    InitiallyTracks(marker);
    hide *;
    PushAllTracks(marker, SCANNING, "", "", deltas);
    EmptyHead(Flatten(deltas));
    EmptyHead(PushAll(marker, SCANNING, deltas).1);
  }

  lemma EmptyHead(s: string)
    ensures "" + s == s
  {
  }

  lemma {:induction false} PushAllStaysActive(marker: string, s: State, deltas: seq<string>)
    requires marker != "" && s.active
    ensures PushAll(marker, s, deltas).0.active
    decreases |deltas|
  {
    if deltas != [] {
      PushAllStaysActive(marker, Step(marker, s, deltas[0]).0, deltas[1..]);
    }
  }

  /** Streaming equals batch: however the reply is cut, the text shown by the pushes
      followed by the text `finish` returns is the text before the first marker, and
      the block is the text after it. */
  lemma StreamingEqualsBatch(marker: string, deltas: seq<string>)
    requires marker != ""
    ensures
      var (s, shown) := PushAll(marker, SCANNING, deltas);
      && shown + s.pending == Before(marker, Flatten(deltas))
      && s.block == After(marker, Flatten(deltas))
  {
    ScanningTracks(marker, deltas);
    PushAllStaysActive(marker, SCANNING, deltas);
    hide PushAll;
    var (s, shown) := PushAll(marker, SCANNING, deltas);
    var text := Flatten(deltas);
    if s.block.Some? {
      assert shown + "" == shown;
    } else {
      assert text[..|text| - Holdback(marker, text)] + text[|text| - Holdback(marker, text)..] == text;
    }
  }

  /** While no marker has completed, exactly the longest suffix that is a proper prefix
      of the marker is held back. */
  lemma HeldBackIsLongestSuffix(marker: string, deltas: seq<string>)
    requires marker != "" && Find(Flatten(deltas), marker).None?
    ensures
      var text, held := Flatten(deltas), PushAll(marker, SCANNING, deltas).0.pending;
      && |held| < |marker| && HeldSuffix(marker, text, |held|) && held == text[|text| - |held|..]
      && forall k | |held| < k < |marker| :: !HeldSuffix(marker, text, k)
  {
    ScanningTracks(marker, deltas);
    PushAllStaysActive(marker, SCANNING, deltas);
  }

  /** Holding back less is unsafe: some continuation makes the marker begin exactly
      where the held-back text begins, so one more released character would have been
      the marker's. */
  lemma SmallerHoldbackLeaks(marker: string, seen: string)
    requires marker != "" && Find(seen, marker).None?
    ensures exists delta :: Find(seen + delta, marker) == Some(|seen| - Holdback(marker, seen))
  {
    var k := Holdback(marker, seen);
    var delta := marker[k..];
    assert (seen + delta)[|seen| - k..] == marker[..k] + marker[k..] == marker;
    assert (seen + delta)[|seen| - k..|seen| - k + |marker|] == marker;
    forall j | 0 <= j < |seen| - k ensures !MatchesAt(seen + delta, marker, j) {
      if MatchesAt(seen + delta, marker, j) {
        NoEarlyMarker(marker, seen, delta, j);
      }
    }
    FindIs(seen + delta, marker, |seen| - k);
  }

  // -- the filter itself -------------------------------------------------------

  class Filter {
    var active: bool
    var pending: string
    var block: Option<string>
    /** Everything pushed so far, and everything released so far. */
    ghost var seen: string
    ghost var shown: string

    ghost function Fields(): State
      reads this
    {
      State(active, pending, block)
    }

    ghost predicate Valid()
      reads this
    {
      Tracks(ACTION_MARKER, Fields(), seen, shown)
    }

    constructor ForCapability(cap: Capability)
      ensures Valid() && seen == "" && shown == "" && active == cap.Assistant?
    {
      active, pending, block := cap.Assistant?, "", None;
      seen, shown := "", "";
    }

    method Push(delta: string) returns (visible: string)
      requires Valid()
      modifies this
      ensures Valid() && active == old(active)
      ensures seen == old(seen) + delta && shown == old(shown) + visible
      ensures active ==> shown <= Before(ACTION_MARKER, seen)
    {
      PushTracks(ACTION_MARKER, Fields(), seen, shown, delta);
      TracksShowsPrefix(ACTION_MARKER, Step(ACTION_MARKER, Fields(), delta).0, seen + delta,
                        shown + Step(ACTION_MARKER, Fields(), delta).1);
      hide Tracks, Before, After, Find, Holdback;
      seen := seen + delta;
      if !active {
        visible := delta;
        shown := shown + visible;
        return;
      }
      if block.Some? {
        block := Some(block.value + delta);
        visible := "";
        shown := shown + visible;
        return;
      }
      pending := pending + delta;
      var idx := Find(pending, ACTION_MARKER);
      if idx.Some? {
        visible := pending[..idx.value];
        block := Some(pending[idx.value + |ACTION_MARKER|..]);
        pending := "";
        shown := shown + visible;
        return;
      }
      var keep := Holdback(ACTION_MARKER, pending);
      var split := |pending| - keep;
      visible := pending[..split];
      pending := pending[split..];
      shown := shown + visible;
    }

    /** `parseActions` stands for the JSON reading of a proposal block. */
    method Finish<A>(parseActions: string -> seq<A>) returns (text: string, actions: seq<A>)
      requires Valid()
      ensures active ==> shown + text == Before(ACTION_MARKER, seen)
      ensures active
          ==> actions == if After(ACTION_MARKER, seen).Some? then parseActions(After(ACTION_MARKER, seen).value)
                         else []
      ensures !active ==> shown + text == seen && actions == []
    {
      text := pending;
      actions := if block.Some? then parseActions(block.value) else [];
    }
  }
}
