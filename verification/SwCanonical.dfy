/** The service worker undoes what the server does to an asset under a deploy prefix
    (apps/web/public/sw.js, crates/mw-server/src/lib.rs). */
module SwCanonical {
  import opened Wrappers
  import opened Text
  import opened Utf8
  import opened SwRouting

  // -- the server's side ------------------------------------------------------

  /** A prefix as the server normalises it: empty, or segments of plain characters. */
  predicate PlainBase(base: string) {
    base != "" ==> base[0] == '/' && forall c | c in base :: IsAlnum(c) || c in "/-_.~"
  }

  const HEAD := "<head>"

  /** Where the shim's tag goes: behind the first `<head>`, or in front of everything. */
  function ShimPlace(html: string): (i: nat)
    ensures i <= |html|
  {
    match Find(html, HEAD) case Some(i) => i + |HEAD| case None => 0
  }

  function WithShim(env: Env, html: string): string {
    html[..ShimPlace(html)] + ShimTag(env) + html[ShimPlace(html)..]
  }

  function PrefixFonts(env: Env, css: string, quote: string): string {
    ReplaceAll(css, "url(" + quote + "/fonts/", "url(" + quote + env.base + "/fonts/")
  }

  /** `String::from_utf8` accepts these bytes. */
  predicate ValidUtf8(b: Bytes) {
    Encode(Lossy(b)) == b
  }

  predicate IndexPath(path: string) {
    path == "/index.html" || EndsWith(path, "/index.html")
  }

  function StyleSent(env: Env, css: string): string {
    if Find(css, "/fonts/").None? then css
    else PrefixFonts(env, PrefixFonts(env, PrefixFonts(env, css, ""), "'"), "\"")
  }

  /** What the server sends for an asset of the build. */
  function Adapted(env: Env, path: string, b: Bytes): Bytes {
    if env.base == "" then b
    else if IndexPath(path) then if ValidUtf8(b) then Encode(WithShim(env, Lossy(b))) else b
    else if EndsWith(path, ".css") && ValidUtf8(b) then Encode(StyleSent(env, Lossy(b)))
    else b
  }

  // -- replacing at sites that cannot overlap ---------------------------------

  /** The shape of every text that is searched for: one bracket, right behind `url`, and a
      slash at the end. */
  predicate Site(p: string) {
    |p| > 4 && p[..4] == "url(" && '(' !in p[4..] && p[|p| - 1] == '/'
  }

  predicate NoneBefore(s: string, p: string, n: nat) {
    forall j | 0 <= j < n :: !MatchesAt(s, p, j)
  }

  lemma SiteShape(p: string)
    requires Site(p)
    ensures p[0] == 'u' && p[1] == 'r' && p[2] == 'l' && p[3] == '(' && p[|p| - 1] == '/'
    ensures forall i | 4 <= i < |p| :: p[i] != '('
  {
    assert p[0] == p[..4][0] && p[1] == p[..4][1] && p[2] == p[..4][2] && p[3] == p[..4][3];
    assert forall i | 4 <= i < |p| :: p[i] == p[4..][i - 4];
  }

  /** A site that starts inside another one, behind its start, does not fit. */
  lemma SitesDoNotCross(x: string, y: string, q: string, j: nat)
    requires Site(x) && Site(q) && 0 < j < |x|
    ensures !MatchesAt(x + y, q, j)
  {
    SiteShape(x);
    SiteShape(q);
    NoMatch(x + y, q, j, if j + 3 < |x| then 3 else |x| - 1 - j);
  }

  /** Nor does one that starts before it and runs into it. */
  lemma SitesDoNotRunIn(a: string, x: string, y: string, q: string, j: nat)
    requires Site(x) && Site(q) && j < |a| < j + |q|
    ensures !MatchesAt(a + (x + y), q, j)
  {
    SiteShape(x);
    SiteShape(q);
    var k := |a| - j;
    NoMatch(a + (x + y), q, j, if k + 3 < |q| then k + 3 else |q| - 1);
  }

  /** Text before a site in which `q` does not occur: no occurrence of `q` starts in it. */
  lemma NoneInFront(a: string, x: string, y: string, q: string)
    requires Site(x) && Site(q) && NoneBefore(a, q, |a|)
    ensures NoneBefore(a + (x + y), q, |a|)
  {
    forall j | 0 <= j < |a| ensures !MatchesAt(a + (x + y), q, j) {
      if j + |q| <= |a| {
        MatchesAtPrefix(a, x + y, q, j);
      } else {
        SitesDoNotRunIn(a, x, y, q, j);
      }
    }
  }

  /** The same up to the end of the site, if `q` is not the site itself. */
  lemma NoneThrough(a: string, x: string, y: string, q: string)
    requires Site(x) && Site(q) && NoneBefore(a, q, |a|) && !MatchesAt(x + y, q, 0)
    ensures NoneBefore(a + (x + y), q, |a + x|)
  {
    NoneInFront(a, x, y, q);
    forall j | |a| <= j < |a + x| ensures !MatchesAt(a + (x + y), q, j) {
      MatchesAtSuffix(a, x + y, q, j);
      if j > |a| {
        SitesDoNotCross(x, y, q, j - |a|);
      }
    }
  }

  /** Sites that differ right behind the bracket. */
  predicate Unlike(p: string, q: string) {
    Site(p) && Site(q) && p[4] != q[4]
  }

  lemma UnlikeNoMatch(x: string, y: string, q: string)
    requires Unlike(x, q)
    ensures !MatchesAt(x + y, q, 0)
  {
    NoMatch(x + y, q, 0, 4);
  }

  lemma ReplaceFound(s: string, p: string, v: string, i: nat)
    requires p != "" && Find(s, p) == Some(i)
    ensures ReplaceAll(s, p, v) == s[..i] + v + ReplaceAll(s[i + |p|..], p, v)
  {
    hide Find, FindFrom, MatchesAt;
  }

  lemma ReplaceNone(s: string, p: string, v: string)
    requires p != "" && Find(s, p) == None
    ensures ReplaceAll(s, p, v) == s
  {
    hide Find, FindFrom, MatchesAt;
  }

  lemma CutAt(a: string, x: string, y: string)
    ensures (a + (x + y))[..|a|] == a && (a + (x + y))[|a| + |x|..] == y && MatchesAt(x + y, x, 0)
  {
  }

  lemma FoundAtSite(a: string, x: string, y: string)
    requires Site(x) && NoneBefore(a, x, |a|)
    ensures Find(a + (x + y), x) == Some(|a|)
  {
    NoneInFront(a, x, y, x);
    CutAt(a, x, y);
    MatchesAtSuffix(a, x + y, x, |a|);
    hide MatchesAt, Find;
    FindIs(a + (x + y), x, |a|);
  }

  /** The first occurrence decides. */
  lemma ReplaceAtSite(a: string, x: string, y: string, v: string)
    requires Site(x) && NoneBefore(a, x, |a|)
    ensures ReplaceAll(a + (x + y), x, v) == a + (v + ReplaceAll(y, x, v))
  {
    FoundAtSite(a, x, y);
    ReplaceHere(a, x, y, v);
  }

  lemma ReplaceHere(a: string, x: string, y: string, v: string)
    requires x != "" && Find(a + (x + y), x) == Some(|a|)
    ensures ReplaceAll(a + (x + y), x, v) == a + (v + ReplaceAll(y, x, v))
  {
    hide *;
    CutAt(a, x, y);
    ReplaceFound(a + (x + y), x, v, |a|);
    Assoc(a, v, ReplaceAll(y, x, v));
  }

  lemma ShiftedFind(a: string, y: string, q: string)
    requires q != "" && NoneBefore(a + y, q, |a|)
    ensures Find(a + y, q) == (match Find(y, q) case None => None case Some(i) => Some(|a| + i))
  {
    var s := a + y;
    forall j | |a| <= j ensures MatchesAt(s, q, j) <==> MatchesAt(y, q, j - |a|) {
      MatchesAtSuffix(a, y, q, j);
    }
    var n := match Find(y, q) case None => None case Some(i) => Some(|a| + i);
    hide MatchesAt, FindFrom;
    if n.Some? {
      FindIs(s, q, n.value);
    } else {
      assert Find(s, q) == None;
    }
  }

  lemma CutBehind(a: string, y: string, i: nat, n: nat)
    requires i + n <= |y|
    ensures (a + y)[..|a| + i] == a + y[..i] && (a + y)[|a| + i + n..] == y[i + n..]
  {
  }

  /** A piece in which no occurrence starts is passed over. */
  lemma ReplaceBehind(a: string, y: string, q: string, v: string)
    requires q != "" && NoneBefore(a + y, q, |a|)
    ensures ReplaceAll(a + y, q, v) == a + ReplaceAll(y, q, v)
  {
    ShiftedFind(a, y, q);
    if Find(y, q).None? {
      ReplaceNone(a + y, q, v);
      ReplaceNone(y, q, v);
    } else {
      var i := Find(y, q).value;
      assert i + |q| <= |y|;
      hide *;
      ReplaceFoundBehind(a, y, q, v, i);
    }
  }

  lemma ReplaceFoundBehind(a: string, y: string, q: string, v: string, i: nat)
    requires q != "" && i + |q| <= |y| && Find(y, q) == Some(i) && Find(a + y, q) == Some(|a| + i)
    ensures ReplaceAll(a + y, q, v) == a + ReplaceAll(y, q, v)
  {
    hide *;
    CutBehind(a, y, i, |q|);
    ReplaceFound(a + y, q, v, |a| + i);
    ReplaceFound(y, q, v, i);
    Assoc(a, y[..i], v);
    Assoc(a, y[..i] + v, ReplaceAll(y[i + |q|..], q, v));
  }

  /** A text cut at its first occurrence of a site. */
  lemma FirstSite(t: string, p: string) returns (a: string, y: string)
    requires Site(p) && Find(t, p).Some?
    ensures t == a + (p + y) && NoneBefore(a, p, |a|) && |y| < |t| && Find(t, p) == Some(|a|)
  {
    var i := Find(t, p).value;
    a, y := t[..i], t[i + |p|..];
    MatchIsSlice(t, p, i);
    assert t == a + (p + y);
    forall j | 0 <= j < |a| ensures !MatchesAt(a, p, j) {
      if j + |p| <= |a| {
        MatchesAtPrefix(a, p + y, p, j);
      }
    }
  }

  // -- undoing replacements ----------------------------------------------------

  lemma NoneOfFind(t: string, q: string, n: nat)
    requires q != "" && (match Find(t, q) case None => true case Some(i) => n <= i)
    ensures NoneBefore(t, q, n)
  {
  }

  lemma NoneInPrefix(a: string, x: string, q: string, n: nat)
    requires NoneBefore(a + x, q, n) && n <= |a|
    ensures NoneBefore(a, q, n)
  {
    forall j | 0 <= j < n ensures !MatchesAt(a, q, j) {
      if j + |q| <= |a| {
        MatchesAtPrefix(a, x, q, j);
      }
    }
  }

  /** Replacing `p` by `w` and back, where every `w` starts with a `p`. */
  lemma {:induction false} BackFromLonger(t: string, p: string, w: string)
    requires Site(p) && Site(w) && p <= w
    ensures ReplaceAll(ReplaceAll(t, p, w), w, p) == t
    decreases |t|
  {
    if Find(t, p).None? {
      ReplaceNone(t, p, w);
      forall j | 0 <= j ensures !MatchesAt(t, w, j) {
        assert !MatchesAt(t, p, j);
      }
      assert Find(t, w).None?;
      ReplaceNone(t, w, p);
    } else {
      var a, y := FirstSite(t, p);
      forall j | 0 <= j < |a| ensures !MatchesAt(a, w, j) {
        assert !MatchesAt(a, p, j);
      }
      hide *;
      ReplaceAtSite(a, p, y, w);
      ReplaceAtSite(a, w, ReplaceAll(y, p, w), p);
      BackFromLonger(y, p, w);
    }
  }

  /** Neither text is where the other one is. */
  predicate Differ(p: string, w: string) {
    exists k | 0 <= k < |p| && k < |w| :: p[k] != w[k]
  }

  lemma DifferNoMatch(p: string, w: string, y: string)
    requires Differ(p, w)
    ensures !MatchesAt(p + y, w, 0) && !MatchesAt(w + y, p, 0)
  {
    var k :| 0 <= k < |p| && k < |w| && p[k] != w[k];
    NoMatch(p + y, w, 0, k);
    NoMatch(w + y, p, 0, k);
  }

  lemma BackFromP(a: string, p: string, y: string, w: string)
    requires Site(p) && Site(w) && Differ(p, w) && NoneBefore(a, p, |a|) && NoneBefore(a, w, |a|)
    requires ReplaceAll(ReplaceAll(y, p, w), w, p) == ReplaceAll(y, w, p)
    ensures ReplaceAll(ReplaceAll(a + (p + y), p, w), w, p) == ReplaceAll(a + (p + y), w, p)
  {
    var d := ReplaceAll(y, p, w);
    ReplaceAtSite(a, p, y, w);
    ReplaceAtSite(a, w, d, p);
    DifferNoMatch(p, w, y);
    NoneThrough(a, p, y, w);
    Assoc(a, p, y);
    hide *;
    ReplaceBehind(a + p, y, w, p);
    Assoc(a, p, ReplaceAll(y, w, p));
  }

  lemma BackFromW(a: string, p: string, y: string, w: string)
    requires Site(p) && Site(w) && Differ(p, w) && NoneBefore(a, p, |a|) && NoneBefore(a, w, |a|)
    requires ReplaceAll(ReplaceAll(y, p, w), w, p) == ReplaceAll(y, w, p)
    ensures ReplaceAll(ReplaceAll(a + (w + y), p, w), w, p) == ReplaceAll(a + (w + y), w, p)
  {
    var d := ReplaceAll(y, p, w);
    DifferNoMatch(p, w, y);
    NoneThrough(a, w, y, p);
    Assoc(a, w, y);
    Assoc(a, w, d);
    hide *;
    ReplaceBehind(a + w, y, p, w);
    ReplaceAtSite(a, w, d, p);
    ReplaceAtSite(a, w, y, p);
  }

  /** Replacing `p` by `w` and back is undoing every `w`, old and new. */
  lemma {:induction false} BackFromOther(t: string, p: string, w: string)
    requires Site(p) && Site(w) && Differ(p, w)
    ensures ReplaceAll(ReplaceAll(t, p, w), w, p) == ReplaceAll(t, w, p)
    decreases |t|
  {
    var i, j := Find(t, p), Find(t, w);
    if i.None? && j.None? {
      ReplaceNone(t, p, w);
    } else if i.Some? && (j.None? || i.value <= j.value) {
      var a, y := FirstSite(t, p);
      NoneOfFind(t, w, |a|);
      hide *;
      NoneInPrefix(a, p + y, w, |a|);
      BackFromOther(y, p, w);
      BackFromP(a, p, y, w);
    } else {
      var a, y := FirstSite(t, w);
      NoneOfFind(t, p, |a|);
      hide *;
      NoneInPrefix(a, w + y, p, |a|);
      BackFromOther(y, p, w);
      BackFromW(a, p, y, w);
    }
  }

  /** Two replacements that do not see each other. */
  predicate Independent(p: string, w: string, q: string, z: string) {
    Unlike(p, q) && Unlike(p, z) && Unlike(w, q) && Unlike(w, z)
  }

  lemma CommuteAt(a: string, p: string, y: string, w: string, q: string, z: string)
    requires Independent(p, w, q, z) && NoneBefore(a, p, |a|) && NoneBefore(a, q, |a|)
    requires ReplaceAll(ReplaceAll(y, p, w), q, z) == ReplaceAll(ReplaceAll(y, q, z), p, w)
    ensures ReplaceAll(ReplaceAll(a + (p + y), p, w), q, z) == ReplaceAll(ReplaceAll(a + (p + y), q, z), p, w)
  {
    var d, u := ReplaceAll(y, p, w), ReplaceAll(y, q, z);
    UnlikeNoMatch(w, d, q);
    NoneThrough(a, w, d, q);
    UnlikeNoMatch(p, y, q);
    NoneThrough(a, p, y, q);
    hide ReplaceAll, NoneBefore, MatchesAt;
    ReplaceAtSite(a, p, y, w);
    Assoc(a, w, d);
    ReplaceBehind(a + w, d, q, z);
    Assoc(a, w, ReplaceAll(d, q, z));
    Assoc(a, p, y);
    ReplaceBehind(a + p, y, q, z);
    Assoc(a, p, u);
    ReplaceAtSite(a, p, u, w);
  }

  /** They commute. */
  lemma {:induction false} Commute(t: string, p: string, w: string, q: string, z: string)
    requires Independent(p, w, q, z)
    ensures ReplaceAll(ReplaceAll(t, p, w), q, z) == ReplaceAll(ReplaceAll(t, q, z), p, w)
    decreases |t|
  {
    var i, j := Find(t, p), Find(t, q);
    if i.None? && j.None? {
      ReplaceNone(t, p, w);
      ReplaceNone(t, q, z);
    } else if i.Some? && (j.None? || i.value <= j.value) {
      var a, y := FirstSite(t, p);
      NoneOfFind(t, q, |a|);
      assert Independent(p, w, q, z);
      hide *;
      NoneInPrefix(a, p + y, q, |a|);
      Commute(y, p, w, q, z);
      CommuteAt(a, p, y, w, q, z);
    } else {
      var a, y := FirstSite(t, q);
      NoneOfFind(t, p, |a|);
      assert Independent(q, z, p, w);
      hide *;
      NoneInPrefix(a, q + y, p, |a|);
      Commute(y, p, w, q, z);
      CommuteAt(a, q, y, z, p, w);
    }
  }

  /** Replacing by something shorter shortens the text, or finds nothing. */
  lemma {:induction false} ReplaceShortens(t: string, w: string, p: string)
    requires |p| < |w|
    ensures |ReplaceAll(t, w, p)| <= |t|
    ensures |ReplaceAll(t, w, p)| == |t| <==> Find(t, w).None?
    decreases |t|
  {
    if Find(t, w).Some? {
      var i := Find(t, w).value;
      ReplaceShortens(t[i + |w|..], w, p);
      ReplaceFound(t, w, p, i);
    }
  }

  // -- stylesheets -------------------------------------------------------------

  function Plain(quote: string): string {
    "url(" + quote + "/fonts/"
  }

  function Prefixed(env: Env, quote: string): string {
    "url(" + quote + env.base + "/fonts/"
  }

  /** A prefix under which every font reference looks prefixed already. */
  predicate FontsBase(base: string) {
    "/fonts/" <= base + "/fonts/"
  }

  /** The text holds a font reference that is prefixed already. */
  predicate HoldsPrefixed(env: Env, css: string) {
    Find(css, Prefixed(env, "")).Some? || Find(css, Prefixed(env, "'")).Some? || Find(css, Prefixed(env, "\"")).Some?
  }

  predicate Quote(q: string) {
    q == "" || q == "'" || q == "\""
  }

  lemma SiteIs(x: string)
    requires x != "" && '(' !in x && x[|x| - 1] == '/'
    ensures Site("url(" + x) && ("url(" + x)[4] == x[0] && |"url(" + x| == 4 + |x|
  {
    var p := "url(" + x;
    assert p[..4] == "url(" && p[4..] == x && p[|p| - 1] == x[|x| - 1];
  }

  lemma SiteTexts(env: Env, quote: string)
    ensures Plain(quote) == "url(" + (quote + "/fonts/")
    ensures Prefixed(env, quote) == "url(" + (quote + env.base + "/fonts/")
  {
  }

  lemma SiteTails(quote: string, base: string)
    requires '(' !in quote && '(' !in base && base != "" && base[0] == '/'
    ensures
      var x, y := quote + "/fonts/", quote + base + "/fonts/";
      && '(' !in x && '(' !in y && x[|x| - 1] == '/' && y[|y| - 1] == '/' && |x| < |y|
      && x[0] == y[0] == if quote == "" then '/' else quote[0]
  {
  }

  lemma NoBracket(quote: string, base: string)
    requires PlainBase(base) && base != "" && Quote(quote)
    ensures '(' !in quote && '(' !in base && '(' !in "/fonts/"
    ensures base[0] == '/'
  {
  }

  lemma SiteOf(env: Env, quote: string)
    requires PlainBase(env.base) && env.base != "" && Quote(quote)
    ensures Site(Plain(quote)) && Site(Prefixed(env, quote)) && |Plain(quote)| < |Prefixed(env, quote)|
    ensures Plain(quote)[4] == Prefixed(env, quote)[4] == (if quote == "" then '/' else quote[0])
  {
    NoBracket(quote, env.base);
    SiteTails(quote, env.base);
    hide *;
    SiteTexts(env, quote);
    SiteIs(quote + "/fonts/");
    SiteIs(quote + env.base + "/fonts/");
  }

  lemma TailsOf(env: Env, quote: string)
    ensures Plain(quote) == ("url(" + quote) + "/fonts/"
         && Prefixed(env, quote) == ("url(" + quote) + (env.base + "/fonts/")
  {
  }

  lemma PrefixOrDiffer(env: Env, quote: string)
    requires Quote(quote) && env.base != ""
    ensures FontsBase(env.base) ==> Plain(quote) <= Prefixed(env, quote)
    ensures !FontsBase(env.base) ==> Differ(Plain(quote), Prefixed(env, quote))
  {
    var f, b, h := "/fonts/", env.base + "/fonts/", "url(" + quote;
    TailsOf(env, quote);
    if FontsBase(env.base) {
      assert b == f + b[|f|..];
      Assoc(h, f, b[|f|..]);
    } else {
      var k :| 0 <= k < |f| && f[k] != b[k];
      assert Plain(quote)[|h| + k] == f[k] && Prefixed(env, quote)[|h| + k] == b[k];
    }
  }

  /** One quoting form: what is undone after it was prefixed. */
  lemma OneForm(env: Env, t: string, quote: string)
    requires PlainBase(env.base) && env.base != "" && Quote(quote)
    ensures UnprefixFonts(env, PrefixFonts(env, t, quote), quote)
         == if FontsBase(env.base) then t else UnprefixFonts(env, t, quote)
  {
    var p, w := Plain(quote), Prefixed(env, quote);
    SiteOf(env, quote);
    PrefixOrDiffer(env, quote);
    if FontsBase(env.base) {
      BackFromLonger(t, p, w);
    } else {
      BackFromOther(t, p, w);
    }
  }

  /** Two quoting forms do not see each other. */
  lemma FormsCommute(env: Env, t: string, a: string, b: string)
    requires PlainBase(env.base) && env.base != "" && Quote(a) && Quote(b) && a != b
    ensures UnprefixFonts(env, PrefixFonts(env, t, b), a) == PrefixFonts(env, UnprefixFonts(env, t, a), b)
  {
    SiteOf(env, a);
    SiteOf(env, b);
    Commute(t, Prefixed(env, a), Plain(a), Plain(b), Prefixed(env, b));
  }

  function AllPrefixed(env: Env, t: string): string {
    PrefixFonts(env, PrefixFonts(env, PrefixFonts(env, t, ""), "'"), "\"")
  }

  function AllUnprefixed(env: Env, t: string): string {
    UnprefixFonts(env, UnprefixFonts(env, UnprefixFonts(env, t, ""), "'"), "\"")
  }

  lemma AllForms(env: Env, t: string)
    requires PlainBase(env.base) && env.base != ""
    ensures AllUnprefixed(env, AllPrefixed(env, t)) == if FontsBase(env.base) then t else AllUnprefixed(env, t)
  {
    hide PrefixFonts, UnprefixFonts;
    var d1 := PrefixFonts(env, t, "");
    var d2 := PrefixFonts(env, d1, "'");
    FormsCommute(env, d2, "", "\"");
    FormsCommute(env, d1, "", "'");
    OneForm(env, t, "");
    var u := if FontsBase(env.base) then t else UnprefixFonts(env, t, "");
    FormsCommute(env, PrefixFonts(env, u, "'"), "'", "\"");
    OneForm(env, u, "'");
    var v := if FontsBase(env.base) then u else UnprefixFonts(env, u, "'");
    OneForm(env, v, "\"");
  }

  lemma UnprefixedShortens(env: Env, t: string)
    requires env.base != ""
    ensures AllUnprefixed(env, t) == t <==> !HoldsPrefixed(env, t)
  {
    var u := UnprefixFonts(env, t, "");
    var v := UnprefixFonts(env, u, "'");
    ReplaceShortens(t, Prefixed(env, ""), Plain(""));
    ReplaceShortens(u, Prefixed(env, "'"), Plain("'"));
    ReplaceShortens(v, Prefixed(env, "\""), Plain("\""));
    hide Find;
    if !HoldsPrefixed(env, t) {
      ReplaceNone(t, Prefixed(env, ""), Plain(""));
      ReplaceNone(t, Prefixed(env, "'"), Plain("'"));
      ReplaceNone(t, Prefixed(env, "\""), Plain("\""));
    } else if AllUnprefixed(env, t) == t {
      ReplaceNone(t, Prefixed(env, ""), Plain(""));
      ReplaceNone(t, Prefixed(env, "'"), Plain("'"));
    }
  }

  /** Without a font path no reference is found. */
  lemma NoFontPath(env: Env, t: string)
    requires Find(t, "/fonts/").None?
    ensures AllPrefixed(env, t) == t
  {
    NoForm(env, t, "");
    NoForm(env, t, "'");
    NoForm(env, t, "\"");
  }

  lemma NoForm(env: Env, t: string, quote: string)
    requires Find(t, "/fonts/").None?
    ensures PrefixFonts(env, t, quote) == t
  {
    forall j | 0 <= j ensures !MatchesAt(t, Plain(quote), j) {
      if MatchesAt(t, Plain(quote), j) {
        assert forall k | 0 <= k < 7 :: "/fonts/"[k] == Plain(quote)[4 + |quote| + k];
        assert MatchesAt(t, "/fonts/", j + 4 + |quote|);
      }
    }
    ReplaceNone(t, Plain(quote), Prefixed(env, quote));
  }

  lemma StyleSentIs(env: Env, css: string)
    ensures StyleSent(env, css) == AllPrefixed(env, css)
  {
    if Find(css, "/fonts/").None? {
      NoFontPath(env, css);
    }
    hide Find, PrefixFonts;
  }

  /** What is not UTF-8 is never what an encoder writes. */
  lemma OnlyUtf8IsEncoded(b: Bytes, s: string)
    ensures Encode(s) == b <==> ValidUtf8(b) && s == Lossy(b)
  {
    LossyOfEncode(s);
  }

  // -- a byte order mark in front ----------------------------------------------

  lemma {:induction false} ReplaceLength(t: string, p: string, w: string)
    requires p != ""
    ensures |w| <= |p| ==> |ReplaceAll(t, p, w)| <= |t|
    ensures |w| > 0 && w[0] != MARK && Marked(ReplaceAll(t, p, w)) ==> Marked(t)
    decreases |t|
  {
    if Find(t, p).Some? {
      var i := Find(t, p).value;
      ReplaceLength(t[i + |p|..], p, w);
      ReplaceFound(t, p, w, i);
    }
  }

  /** No site starts with the mark. */
  lemma ReplaceBehindMark(t: string, p: string, w: string)
    requires Site(p) && Marked(t)
    ensures ReplaceAll(t, p, w) == [MARK] + ReplaceAll(t[1..], p, w)
  {
    SiteShape(p);
    assert t == [MARK] + t[1..];
    ReplaceBehind([MARK], t[1..], p, w);
  }

  lemma FormOfMarked(env: Env, t: string, quote: string)
    requires PlainBase(env.base) && env.base != "" && Quote(quote)
    ensures Marked(PrefixFonts(env, t, quote)) <==> Marked(t)
    ensures Marked(t) ==> PrefixFonts(env, t, quote)[1..] == PrefixFonts(env, t[1..], quote)
    ensures |UnprefixFonts(env, t, quote)| <= |t|
  {
    SiteOf(env, quote);
    SiteShape(Prefixed(env, quote));
    ReplaceLength(t, Plain(quote), Prefixed(env, quote));
    ReplaceLength(t, Prefixed(env, quote), Plain(quote));
    if Marked(t) {
      ReplaceBehindMark(t, Plain(quote), Prefixed(env, quote));
    }
  }

  /** The mark survives the prefixing, and nothing brings it back once it is dropped. */
  lemma MarkedStyle(env: Env, t: string)
    requires PlainBase(env.base) && env.base != ""
    ensures Marked(AllPrefixed(env, t)) <==> Marked(t)
    ensures Marked(t) ==> AllPrefixed(env, t)[1..] == AllPrefixed(env, t[1..])
  {
    var d1 := PrefixFonts(env, t, "");
    var d2 := PrefixFonts(env, d1, "'");
    FormOfMarked(env, t, "");
    FormOfMarked(env, d1, "'");
    FormOfMarked(env, d2, "\"");
    hide PrefixFonts, UnprefixFonts, PlainBase, Marked;
  }

  lemma UnprefixedIsShort(env: Env, t: string)
    requires PlainBase(env.base) && env.base != ""
    ensures |AllUnprefixed(env, t)| <= |t|
  {
    var u1 := UnprefixFonts(env, t, "");
    var u2 := UnprefixFonts(env, u1, "'");
    FormOfMarked(env, t, "");
    FormOfMarked(env, u1, "'");
    FormOfMarked(env, u2, "\"");
    hide PrefixFonts, UnprefixFonts, PlainBase, Marked;
  }

  lemma StyleTextIff(env: Env, t: string)
    requires PlainBase(env.base) && env.base != ""
    ensures AllUnprefixed(env, Unmarked(StyleSent(env, t))) == t
       <==> !Marked(t) && (FontsBase(env.base) || !HoldsPrefixed(env, t))
  {
    StyleSentIs(env, t);
    MarkedStyle(env, t);
    if Marked(t) {
      AllForms(env, t[1..]);
      UnprefixedIsShort(env, t[1..]);
    } else {
      AllForms(env, t);
      UnprefixedShortens(env, t);
    }
    hide AllPrefixed, AllUnprefixed, HoldsPrefixed, StyleSent, FontsBase, PlainBase;
  }

  lemma StyleChecked(env: Env, path: string, sent: Bytes)
    requires env.base != "" && EndsWith(path, ".css") && !IndexPath(path)
    ensures CanonicalBytes(env, path, sent) == Encode(AllUnprefixed(env, Decoded(sent)))
  {
    hide Encode, Decoded, UnprefixFonts, EndsWith;
  }

  lemma StyleAdapted(env: Env, path: string, b: Bytes)
    requires env.base != "" && EndsWith(path, ".css") && !IndexPath(path)
    ensures Adapted(env, path, b) == if ValidUtf8(b) then Encode(StyleSent(env, Lossy(b))) else b
  {
    hide Encode, Lossy, StyleSent, ValidUtf8, EndsWith;
  }

  /** A stylesheet is checked as the bytes of the build exactly when it is UTF-8 without a
      byte order mark and holds no reference that looks prefixed already, or the prefix
      makes every reference look so. */
  lemma StylesheetRestoredIff(env: Env, path: string, b: Bytes)
    requires PlainBase(env.base) && EndsWith(path, ".css")
    ensures CanonicalBytes(env, path, Adapted(env, path, b)) == b <==>
      || env.base == ""
      || (&& ValidUtf8(b) && !Marked(Lossy(b))
          && (FontsBase(env.base) || !HoldsPrefixed(env, Lossy(b))))
  {
    if env.base != "" {
      NotIndex(path);
      StyleTextIff(env, Lossy(b));
      LossyOfEncode(StyleSent(env, Lossy(b)));
      var sent := if ValidUtf8(b) then Encode(StyleSent(env, Lossy(b))) else b;
      OnlyUtf8IsEncoded(b, AllUnprefixed(env, Decoded(sent)));
      StyleChecked(env, path, sent);
      hide *;
      StyleAdapted(env, path, b);
    }
  }

  lemma NotIndex(path: string)
    requires EndsWith(path, ".css")
    ensures !IndexPath(path)
  {
    LastOf(path, ".css");
    if EndsWith(path, "/index.html") {
      LastOf(path, "/index.html");
    }
  }

  // -- the shell document ------------------------------------------------------

  /** The page holds the tag already, before the place where the server puts it. */
  predicate HoldsTag(env: Env, html: string) {
    Find(html[..ShimPlace(html)], ShimTag(env)).Some?
  }

  lemma TagShape(env: Env)
    requires PlainBase(env.base)
    ensures var tag := ShimTag(env);
      && |tag| > 22 && tag[0] == '<' && tag[1] == 's' && tag[|tag| - 1] == '>' && tag[|tag| - 2] == 't'
      && tag[|tag| - 8] == '/'
      && forall k | 0 < k < |tag| && k != |tag| - 9 :: tag[k] != '<'
  {
    var tag, open, file, end := ShimTag(env), "script src=\"", "/__mw_base.js\">", "/script>";
    assert tag == "<" + (open + (env.base + (file + ("<" + end))));
    assert '<' !in open && '<' !in file && '<' !in end;
    assert '<' !in env.base by {
      assert '<' !in "/-_.~" && !IsAlnum('<');
    }
    forall k | 0 < k < |tag| && k != |tag| - 9 ensures tag[k] != '<' {
      if k < 13 {
        assert tag[k] == open[k - 1];
      } else if k < 13 + |env.base| {
        assert tag[k] == env.base[k - 13];
      } else if k < |tag| - 9 {
        assert tag[k] == file[k - 13 - |env.base|];
      } else {
        assert tag[k] == end[k - (|tag| - 8)];
      }
    }
  }

  /** The tag does not fit at a place where it would run into itself. */
  lemma TagAlone(env: Env, a: string, rest: string, j: nat)
    requires PlainBase(env.base) && j < |a| < j + |ShimTag(env)|
    ensures !MatchesAt(a + (ShimTag(env) + rest), ShimTag(env), j)
  {
    var tag, k := ShimTag(env), |a| - j;
    TagShape(env);
    assert (a + (tag + rest))[j + k] == tag[0];
    if k == |tag| - 9 {
      assert (a + (tag + rest))[j + k + 1] == tag[1];
      NoMatch(a + (tag + rest), tag, j, k + 1);
    } else {
      NoMatch(a + (tag + rest), tag, j, k);
    }
  }

  lemma NoTagBefore(env: Env, a: string, rest: string)
    requires PlainBase(env.base) && Find(a, ShimTag(env)).None?
    ensures Find(a + (ShimTag(env) + rest), ShimTag(env)) == Some(|a|)
  {
    var tag := ShimTag(env);
    assert tag != "" by { TagShape(env); }
    forall j | 0 <= j < |a| ensures !MatchesAt(a + (tag + rest), tag, j) {
      if j + |tag| <= |a| {
        MatchesAtPrefix(a, tag + rest, tag, j);
      } else {
        TagAlone(env, a, rest, j);
      }
    }
    MatchesAtSuffix(a, tag + rest, tag, |a|);
    CutAt(a, tag, rest);
    FindIs(a + (tag + rest), tag, |a|);
  }

  lemma ShimUndone(env: Env, html: string)
    requires PlainBase(env.base)
    ensures ReplaceFirst(WithShim(env, html), ShimTag(env), "") == html <==> !HoldsTag(env, html)
  {
    var q, tag := ShimPlace(html), ShimTag(env);
    var a, rest := html[..q], html[q..];
    var sent := a + (tag + rest);
    assert WithShim(env, html) == sent;
    CutAt(a, tag, rest);
    if HoldsTag(env, html) {
      TagShape(env);
      var j := Find(a, tag).value;
      FoundInFront(a, tag, rest, j);
      HeadBefore(html);
      assert a[q - 2] == 'd';
      hide ShimTag, WithShim, ShimPlace, Find, MatchesAt;
      assert html == a + rest;
      TwoTags(a, tag, rest, j);
    } else {
      NoTagBefore(env, a, rest);
      assert html == a + rest;
    }
  }

  /** Removing an earlier copy of the tag leaves the later one. */
  lemma TwoTags(a: string, tag: string, rest: string, j: nat)
    requires |tag| > 2 && j + |tag| <= |a| && a[|a| - 2] != tag[|tag| - 2] && Find(a + (tag + rest), tag) == Some(j)
    ensures ReplaceFirst(a + (tag + rest), tag, "") != a + rest
  {
    var sent := a + (tag + rest);
    var r := ReplaceFirst(sent, tag, "");
    hide Find, MatchesAt;
    assert r == sent[..j] + sent[j + |tag|..];
    assert r[|a| - 2] == sent[|a| - 2 + |tag|] == tag[|tag| - 2];
    assert (a + rest)[|a| - 2] == a[|a| - 2];
  }

  lemma FoundInFront(a: string, tag: string, rest: string, j: nat)
    requires tag != "" && Find(a, tag) == Some(j)
    ensures Find(a + (tag + rest), tag) == Some(j)
  {
    forall i | 0 <= i <= j ensures MatchesAt(a + (tag + rest), tag, i) <==> MatchesAt(a, tag, i) {
      MatchesAtPrefix(a, tag + rest, tag, i);
    }
    FindIs(a + (tag + rest), tag, j);
  }

  /** What stands before the tag's place, if anything does. */
  lemma HeadBefore(html: string)
    ensures ShimPlace(html) > 0 ==> ShimPlace(html) >= 6 && html[ShimPlace(html) - 2] == 'd'
  {
    if Find(html, HEAD).Some? {
      var i := Find(html, HEAD).value;
      assert html[i + 4] == HEAD[4];
    }
  }

  /** Where the mark stands in front of what is sent, the worker drops it for good. */
  lemma PageTextIff(env: Env, html: string)
    requires PlainBase(env.base)
    ensures ReplaceFirst(Unmarked(WithShim(env, html)), ShimTag(env), "") == html
       <==> (Marked(html) ==> Find(html, HEAD).None?) && !HoldsTag(env, html)
  {
    var sent := WithShim(env, html);
    MarkedPage(env, html);
    hide ShimTag, WithShim, HoldsTag, Find, PlainBase;
    if Marked(sent) {
      var r := ReplaceFirst(sent[1..], ShimTag(env), "");
      assert |r| == |sent| - 1 || |r| == |sent| - 1 - |ShimTag(env)|;
    } else {
      ShimUndone(env, html);
    }
  }

  lemma MarkedPage(env: Env, html: string)
    requires PlainBase(env.base)
    ensures |WithShim(env, html)| == |html| + |ShimTag(env)| && |ShimTag(env)| > 1
    ensures Marked(WithShim(env, html)) <==> Marked(html) && Find(html, HEAD).Some?
  {
    TagShape(env);
    hide ShimTag, Find, FindFrom;
  }

  /** What of an asset the worker restores. */
  predicate Restorable(env: Env, path: string, b: Bytes) {
    env.base == ""
    || if path == "/index.html" then
         ValidUtf8(b) && (Marked(Lossy(b)) ==> Find(Lossy(b), HEAD).None?) && !HoldsTag(env, Lossy(b))
       else if IndexPath(path) then !ValidUtf8(b)
       else if EndsWith(path, ".css") then
         ValidUtf8(b) && !Marked(Lossy(b)) && (FontsBase(env.base) || !HoldsPrefixed(env, Lossy(b)))
       else true
  }

  /** The page: as UTF-8, without a mark that stays in front, and without a tag where the
      server looks for the head. */
  lemma PageRestoredIff(env: Env, b: Bytes)
    requires PlainBase(env.base) && env.base != ""
    ensures CanonicalBytes(env, "/index.html", Adapted(env, "/index.html", b)) == b
       <==> Restorable(env, "/index.html", b)
  {
    var html := Lossy(b);
    LossyOfEncode(WithShim(env, html));
    PageTextIff(env, html);
    var sent := if ValidUtf8(b) then Encode(WithShim(env, html)) else b;
    OnlyUtf8IsEncoded(b, ReplaceFirst(Decoded(sent), ShimTag(env), ""));
    hide WithShim, ShimTag, ReplaceFirst, Encode, Lossy, ValidUtf8, HoldsTag, Find, PlainBase, Unmarked, EndsWith;
  }

  /** A nested page is adapted, but never undone. */
  lemma NestedRestoredIff(env: Env, path: string, b: Bytes)
    requires PlainBase(env.base) && env.base != "" && IndexPath(path) && path != "/index.html"
    ensures CanonicalBytes(env, path, Adapted(env, path, b)) == b <==> !ValidUtf8(b)
  {
    if EndsWith(path, ".css") {
      NotIndex(path);
    }
    MarkedPage(env, Lossy(b));
    OnlyUtf8IsEncoded(b, WithShim(env, Lossy(b)));
    hide WithShim, ShimTag, Encode, Lossy, ValidUtf8, EndsWith, PlainBase;
  }

  /** For every file of the build and every prefix the server accepts: exactly when the
      worker checks the bytes of the build. */
  lemma AssetRestoredIff(env: Env, path: string, b: Bytes)
    requires PlainBase(env.base)
    ensures CanonicalBytes(env, path, Adapted(env, path, b)) == b <==> Restorable(env, path, b)
  {
    if env.base != "" {
      if path == "/index.html" {
        PageRestoredIff(env, b);
      } else if IndexPath(path) {
        NestedRestoredIff(env, path, b);
      } else if EndsWith(path, ".css") {
        StylesheetRestoredIff(env, path, b);
      }
    }
    hide ValidUtf8, HoldsTag, Marked, HoldsPrefixed, FontsBase, Encode, Lossy, EndsWith, Find;
  }
}
