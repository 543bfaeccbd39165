/** What an Assist call may forward: the scope lattice and redaction
    (crates/mw-assist/src/lib.rs, crates/mw-assist/src/redact.rs). */
module DataScopes {
  import opened Wrappers

  datatype ContentKind = Plain | E2eeDecrypted | Attachment

  datatype ContextItem = ContextItem(account: string, folder: string, text: string, kind: ContentKind)

  /** No accounts means none; no folders means all of them. */
  datatype DataScope = DataScope(accounts: seq<string>, folders: seq<string>, includeE2ee: bool,
                                 includeAttachments: bool)

  function IntersectIds(a: seq<string>, b: seq<string>): seq<string> {
    if a == [] then [] else (if a[0] in b then [a[0]] else []) + IntersectIds(a[1..], b)
  }

  function IntersectFolders(a: seq<string>, b: seq<string>): seq<string> {
    if a == [] then b else if b == [] then a else IntersectIds(a, b)
  }

  function Clamp(scope: DataScope, ceiling: DataScope): DataScope {
    DataScope(
      IntersectIds(scope.accounts, ceiling.accounts),
      IntersectFolders(scope.folders, ceiling.folders),
      scope.includeE2ee && ceiling.includeE2ee,
      scope.includeAttachments && ceiling.includeAttachments)
  }

  predicate WithinCeiling(item: ContextItem, eff: DataScope) {
    item.account in eff.accounts && (eff.folders != [] ==> item.folder in eff.folders)
  }

  /** The item may be forwarded under this scope. */
  predicate Admits(scope: DataScope, item: ContextItem) {
    && WithinCeiling(item, scope)
    && (item.kind == E2eeDecrypted ==> scope.includeE2ee)
    && (item.kind == Attachment ==> scope.includeAttachments)
  }

  // -- redaction ---------------------------------------------------------------

  datatype Report = Report(droppedScope: nat, droppedE2ee: nat, droppedAttachment: nat, kept: nat)

  /** The texts that may be forwarded, in order. */
  function Admitted(context: seq<ContextItem>, eff: DataScope): seq<string> {
    if context == [] then [] else
      (if Admits(eff, context[0]) then [context[0].text] else []) + Admitted(context[1..], eff)
  }

  /** How many items satisfy `p`. */
  function Count(context: seq<ContextItem>, p: ContextItem -> bool): nat {
    if context == [] then 0 else (if p(context[0]) then 1 else 0) + Count(context[1..], p)
  }

  function Join(parts: seq<string>, sep: string): string {
    if parts == [] then "" else if |parts| == 1 then parts[0] else parts[0] + sep + Join(parts[1..], sep)
  }

  /** The prompt with the forwarded texts behind it. */
  function PromptWith(prompt: string, texts: seq<string>): string {
    if texts == [] then prompt else prompt + "\n\n" + Join(texts, "\n\n")
  }

  function Outside(eff: DataScope): ContextItem -> bool {
    item => !WithinCeiling(item, eff)
  }

  function Sealed(eff: DataScope): ContextItem -> bool {
    item => WithinCeiling(item, eff) && item.kind == E2eeDecrypted && !eff.includeE2ee
  }

  function Withheld(eff: DataScope): ContextItem -> bool {
    item => WithinCeiling(item, eff) && item.kind == Attachment && !eff.includeAttachments
  }

  function ReportOf(context: seq<ContextItem>, eff: DataScope): Report {
    Report(Count(context, Outside(eff)), Count(context, Sealed(eff)), Count(context, Withheld(eff)),
           |Admitted(context, eff)|)
  }

  function Plus(a: Report, b: Report): Report {
    Report(a.droppedScope + b.droppedScope, a.droppedE2ee + b.droppedE2ee,
           a.droppedAttachment + b.droppedAttachment, a.kept + b.kept)
  }

  /** What one item adds to the report. */
  function ReportOfOne(item: ContextItem, eff: DataScope): Report {
    if !WithinCeiling(item, eff) then Report(1, 0, 0, 0)
    else if item.kind == E2eeDecrypted && !eff.includeE2ee then Report(0, 1, 0, 0)
    else if item.kind == Attachment && !eff.includeAttachments then Report(0, 0, 1, 0)
    else Report(0, 0, 0, 1)
  }

  function TextsOfOne(item: ContextItem, eff: DataScope): seq<string> {
    if Admits(eff, item) then [item.text] else []
  }

  lemma ReportFirst(context: seq<ContextItem>, eff: DataScope)
    requires context != []
    ensures ReportOf(context, eff) == Plus(ReportOfOne(context[0], eff), ReportOf(context[1..], eff))
  {
    hide WithinCeiling;
  }

  lemma ReportNext(report: Report, context: seq<ContextItem>, i: nat, eff: DataScope)
    requires i < |context|
    ensures Plus(report, ReportOf(context[i..], eff))
         == Plus(Plus(report, ReportOfOne(context[i], eff)), ReportOf(context[i + 1..], eff))
  {
    ReportFirst(context[i..], eff);
    hide ReportOf, ReportOfOne;
    assert context[i..][1..] == context[i + 1..];
  }

  lemma TextsNext(kept: seq<string>, context: seq<ContextItem>, i: nat, eff: DataScope)
    requires i < |context|
    ensures kept + Admitted(context[i..], eff)
         == kept + TextsOfOne(context[i], eff) + Admitted(context[i + 1..], eff)
  {
    hide Admits;
    assert context[i..][1..] == context[i + 1..];
  }

  /** Every item is either kept or dropped for one reason. */
  lemma {:induction false} ReportAddsUp(context: seq<ContextItem>, eff: DataScope)
    ensures
      var r := ReportOf(context, eff);
      r.kept + r.droppedScope + r.droppedE2ee + r.droppedAttachment == |context|
    decreases |context|
  {
    if context != [] {
      ReportAddsUp(context[1..], eff);
      ReportFirst(context, eff);
      hide ReportOf;
    }
  }

  method RedactChat(prompt: string, context: seq<ContextItem>, eff: DataScope) returns (payload: string, report: Report)
    ensures payload == PromptWith(prompt, Admitted(context, eff))
    ensures report == ReportOf(context, eff)
    ensures report.kept + report.droppedScope + report.droppedE2ee + report.droppedAttachment == |context|
  {
    var kept: seq<string> := [];
    report := Report(0, 0, 0, 0);
    for i := 0 to |context|
      invariant kept + Admitted(context[i..], eff) == Admitted(context, eff)
      invariant Plus(report, ReportOf(context[i..], eff)) == ReportOf(context, eff)
    {
      hide Admitted, ReportOf;
      var item := context[i];
      TextsNext(kept, context, i, eff);
      assert kept + [] == kept;
      ReportNext(report, context, i, eff);
      if !WithinCeiling(item, eff) {
        report := report.(droppedScope := report.droppedScope + 1);
        continue;
      }
      if item.kind == E2eeDecrypted && !eff.includeE2ee {
        report := report.(droppedE2ee := report.droppedE2ee + 1);
        continue;
      }
      if item.kind == Attachment && !eff.includeAttachments {
        report := report.(droppedAttachment := report.droppedAttachment + 1);
        continue;
      }
      report := report.(kept := report.kept + 1);
      kept := kept + [item.text];
    }
    assert context[|context|..] == [] && kept + [] == kept;
    ReportAddsUp(context, eff);
    payload := if kept == [] then prompt else prompt + "\n\n" + Join(kept, "\n\n");
  }

  // -- a clamped scope against both scopes ------------------------------------

  lemma {:induction false} IntersectMember(a: seq<string>, b: seq<string>, x: string)
    ensures x in IntersectIds(a, b) <==> x in a && x in b
    decreases |a|
  {
    if a != [] {
      IntersectMember(a[1..], b, x);
      assert a == [a[0]] + a[1..];
    }
  }

  predicate Disjoint(a: seq<string>, b: seq<string>) {
    forall x | x in a :: x !in b
  }

  /** Both list folders, and none is on both lists. */
  predicate FoldersClash(a: DataScope, b: DataScope) {
    a.folders != [] && b.folders != [] && Disjoint(a.folders, b.folders)
  }

  lemma ClashIsEmpty(a: seq<string>, b: seq<string>)
    ensures IntersectIds(a, b) == [] <==> Disjoint(a, b)
  {
    if IntersectIds(a, b) == [] {
      forall x | x in a ensures x !in b {
        IntersectMember(a, b, x);
      }
    } else {
      var x := IntersectIds(a, b)[0];
      IntersectMember(a, b, x);
    }
  }

  /** For one item: clamping admits what both scopes admit, and, when the folder lists
      clash, also every folder of the shared accounts. */
  lemma ClampAdmits(a: DataScope, b: DataScope, item: ContextItem)
    ensures Admits(a, item) && Admits(b, item) ==> Admits(Clamp(a, b), item)
    ensures !FoldersClash(a, b) ==> (Admits(Clamp(a, b), item) <==> Admits(a, item) && Admits(b, item))
  {
    IntersectMember(a.accounts, b.accounts, item.account);
    IntersectMember(a.folders, b.folders, item.folder);
    ClashIsEmpty(a.folders, b.folders);
  }

  /** Clamping is the meet of the two scopes for every item, unless the folder lists
      clash and some account is shared: then it is not. */
  lemma ClampIsMeetIff(a: DataScope, b: DataScope)
    ensures (forall item :: Admits(Clamp(a, b), item) <==> Admits(a, item) && Admits(b, item))
       <==> !(FoldersClash(a, b) && !Disjoint(a.accounts, b.accounts))
  {
    if FoldersClash(a, b) && !Disjoint(a.accounts, b.accounts) {
      var acc :| acc in a.accounts && acc in b.accounts;
      var item := ContextItem(acc, a.folders[0], "", Plain);
      IntersectMember(a.accounts, b.accounts, acc);
      ClashIsEmpty(a.folders, b.folders);
      assert Admits(Clamp(a, b), item) && !Admits(b, item);
    } else {
      forall item ensures Admits(Clamp(a, b), item) <==> Admits(a, item) && Admits(b, item) {
        ClampAdmits(a, b, item);
        IntersectMember(a.accounts, b.accounts, item.account);
      }
    }
  }

  lemma {:induction false} SameAdmitted(context: seq<ContextItem>, eff: DataScope, p: ContextItem -> bool)
    requires forall item :: Admits(eff, item) <==> p(item)
    ensures Admitted(context, eff) == TextsWhere(context, p)
    decreases |context|
  {
    if context != [] {
      SameAdmitted(context[1..], eff, p);
    }
  }

  function TextsWhere(context: seq<ContextItem>, p: ContextItem -> bool): seq<string> {
    if context == [] then [] else (if p(context[0]) then [context[0].text] else []) + TextsWhere(context[1..], p)
  }

  function Both(a: DataScope, b: DataScope): ContextItem -> bool {
    item => Admits(a, item) && Admits(b, item)
  }

  /** What a call forwards is exactly what both its scope and the ceiling admit, unless
      the folder lists clash on a shared account. */
  lemma ForwardedTexts(context: seq<ContextItem>, scope: DataScope, ceiling: DataScope)
    requires !(FoldersClash(scope, ceiling) && !Disjoint(scope.accounts, ceiling.accounts))
    ensures Admitted(context, Clamp(scope, ceiling)) == TextsWhere(context, Both(scope, ceiling))
  {
    ClampIsMeetIff(scope, ceiling);
    SameAdmitted(context, Clamp(scope, ceiling), Both(scope, ceiling));
  }

  /** A call that shares no account with the ceiling forwards no context at all. */
  lemma {:induction false} NothingWithoutAccounts(context: seq<ContextItem>, scope: DataScope, ceiling: DataScope)
    requires Disjoint(scope.accounts, ceiling.accounts)
    ensures Admitted(context, Clamp(scope, ceiling)) == []
    decreases |context|
  {
    if context != [] {
      NothingWithoutAccounts(context[1..], scope, ceiling);
      IntersectMember(scope.accounts, ceiling.accounts, context[0].account);
    }
  }

  /** Encrypted content and attachments need both switches. */
  lemma SealedNeedsBoth(scope: DataScope, ceiling: DataScope, item: ContextItem)
    requires Admits(Clamp(scope, ceiling), item)
    ensures item.kind == E2eeDecrypted ==> scope.includeE2ee && ceiling.includeE2ee
    ensures item.kind == Attachment ==> scope.includeAttachments && ceiling.includeAttachments
    ensures item.account in scope.accounts && item.account in ceiling.accounts
  {
    IntersectMember(scope.accounts, ceiling.accounts, item.account);
  }

  // -- the forwarded texts in the prompt ---------------------------------------

  /** The texts, each behind an empty line. */
  function Spaced(texts: seq<string>): string {
    if texts == [] then "" else "\n\n" + texts[0] + Spaced(texts[1..])
  }

  lemma {:induction false} JoinIsSpaced(texts: seq<string>)
    requires texts != []
    ensures "\n\n" + Join(texts, "\n\n") == Spaced(texts)
    decreases |texts|
  {
    if |texts| == 1 {
      assert texts[1..] == [] && "\n\n" + texts[0] + "" == "\n\n" + texts[0];
    } else {
      JoinIsSpaced(texts[1..]);
      var rest := Join(texts[1..], "\n\n");
      assert "\n\n" + (texts[0] + "\n\n" + rest) == "\n\n" + texts[0] + ("\n\n" + rest);
    }
  }

  lemma {:induction false} SpacedAt(texts: seq<string>, i: nat)
    requires i < |texts|
    ensures Spaced(texts) == Spaced(texts[..i]) + "\n\n" + texts[i] + Spaced(texts[i + 1..])
    decreases i
  {
    if i == 0 {
      assert texts[..0] == [] && "" + "\n\n" == "\n\n";
    } else {
      SpacedAt(texts[1..], i - 1);
      assert texts[..i][0] == texts[0] && texts[..i][1..] == texts[1..][..i - 1];
      assert texts[1..][i..] == texts[i + 1..] && texts[1..][i - 1] == texts[i];
      var a, m, b := Spaced(texts[1..][..i - 1]), "\n\n" + texts[i], Spaced(texts[i + 1..]);
      var head := "\n\n" + texts[0];
      assert head + (a + "\n\n" + texts[i] + b) == head + a + "\n\n" + texts[i] + b;
    }
  }

  /** What a chat is handed: the prompt first, then every forwarded text whole and in order,
      each behind an empty line, and nothing else. */
  lemma PayloadHoldsTexts(prompt: string, texts: seq<string>)
    ensures PromptWith(prompt, texts) == prompt + Spaced(texts)
    ensures forall i | 0 <= i < |texts| ::
              PromptWith(prompt, texts)
              == prompt + (Spaced(texts[..i]) + "\n\n" + texts[i] + Spaced(texts[i + 1..]))
  {
    if texts == [] {
      assert prompt + "" == prompt;
    } else {
      JoinIsSpaced(texts);
      assert prompt + "\n\n" + Join(texts, "\n\n") == prompt + ("\n\n" + Join(texts, "\n\n"));
    }
    forall i | 0 <= i < |texts|
      ensures Spaced(texts) == Spaced(texts[..i]) + "\n\n" + texts[i] + Spaced(texts[i + 1..])
    {
      SpacedAt(texts, i);
    }
  }
}
