/** Searching, replacing and trimming as Rust's slices and strings do it. */
module Text {
  import opened Wrappers

  predicate MatchesAt<T(==)>(hay: seq<T>, needle: seq<T>, i: int) {
    0 <= i && i + |needle| <= |hay| && forall k | 0 <= k < |needle| :: needle[k] == hay[i + k]
  }

  /** A match is an equal slice. */
  lemma MatchIsSlice<T>(hay: seq<T>, needle: seq<T>, i: int)
    ensures MatchesAt(hay, needle, i) <==> 0 <= i && i + |needle| <= |hay| && hay[i..i + |needle|] == needle
  {
    if 0 <= i && i + |needle| <= |hay| && hay[i..i + |needle|] == needle {
      forall k | 0 <= k < |needle| ensures needle[k] == hay[i + k] {
        assert hay[i..i + |needle|][k] == hay[i + k];
      }
    }
  }

  function FindFrom<T(==)>(hay: seq<T>, needle: seq<T>, i: nat): (r: Option<nat>)
    ensures r.Some? ==> i <= r.value && MatchesAt(hay, needle, r.value)
    ensures r.Some? ==> forall j | i <= j < r.value :: !MatchesAt(hay, needle, j)
    ensures r.None? ==> forall j | i <= j :: !MatchesAt(hay, needle, j)
    decreases |hay| - i
  {
    if i + |needle| > |hay| then None
    else if MatchesAt(hay, needle, i) then Some(i)
    else FindFrom(hay, needle, i + 1)
  }

  /** The first position of `needle`; an empty needle is never found. */
  function Find<T(==)>(hay: seq<T>, needle: seq<T>): (r: Option<nat>)
    ensures r.Some? ==> MatchesAt(hay, needle, r.value)
    ensures r.Some? ==> forall j | 0 <= j < r.value :: !MatchesAt(hay, needle, j)
    ensures r.None? && needle != [] ==> forall j :: !MatchesAt(hay, needle, j)
  {
    if needle == [] then None else FindFrom(hay, needle, 0)
  }

  lemma FindIs<T>(hay: seq<T>, needle: seq<T>, i: nat)
    requires needle != [] && MatchesAt(hay, needle, i)
    requires forall j | 0 <= j < i :: !MatchesAt(hay, needle, j)
    ensures Find(hay, needle) == Some(i)
  {
    assert Find(hay, needle).Some?;
  }

  /** One differing element rules a match out. */
  lemma NoMatch<T>(hay: seq<T>, needle: seq<T>, i: nat, k: nat)
    requires k < |needle| && (i + k >= |hay| || hay[i + k] != needle[k])
    ensures !MatchesAt(hay, needle, i)
  {
    if i + |needle| <= |hay| {
      assert hay[i..i + |needle|][k] == hay[i + k];
    }
  }

  /** A match that lies inside a prefix is a match of the prefix, and back. */
  lemma MatchesAtPrefix<T>(hay: seq<T>, tail: seq<T>, needle: seq<T>, i: int)
    requires i + |needle| <= |hay|
    ensures MatchesAt(hay + tail, needle, i) <==> MatchesAt(hay, needle, i)
  {
    if 0 <= i {
      assert (hay + tail)[i..i + |needle|] == hay[i..i + |needle|];
    }
  }

  /** Cutting `hay` in two does not move a match that lies in the second half. */
  lemma MatchesAtCut<T>(hay: seq<T>, cut: nat, tail: seq<T>, needle: seq<T>, i: int)
    requires cut <= i && cut <= |hay|
    ensures MatchesAt(hay + tail, needle, i) <==> MatchesAt(hay[cut..] + tail, needle, i - cut)
  {
    var a, b := hay + tail, hay[cut..] + tail;
    assert a == hay[..cut] + b;
    if MatchesAt(a, needle, i) {
      forall k | 0 <= k < |needle| ensures needle[k] == b[i - cut + k] {
        assert needle[k] == a[i + k];
      }
    }
  }

  lemma MatchesAtSuffix<T>(head: seq<T>, hay: seq<T>, needle: seq<T>, i: int)
    requires i >= |head|
    ensures MatchesAt(head + hay, needle, i) <==> MatchesAt(hay, needle, i - |head|)
  {
    if i + |needle| <= |head + hay| {
      assert (head + hay)[i..i + |needle|] == hay[i - |head|..i - |head| + |needle|];
    }
  }

  /** What a suffix that starts with `a` says about the whole. */
  lemma Peel<T>(s: seq<T>, i: nat, a: seq<T>, b: seq<T>)
    requires i <= |s| && s[i..] == a + b
    ensures i + |a| <= |s| && s[i..i + |a|] == a && s[i + |a|..] == b
    ensures MatchesAt(s, a, i)
  {
    assert |s| - i == |a| + |b|;
    assert s[i..i + |a|] == s[i..][..|a|] && s[i + |a|..] == s[i..][|a|..];
  }

  /** The concatenation of a list of pieces. */
  function Flatten<T>(parts: seq<seq<T>>): seq<T> {
    if parts == [] then [] else parts[0] + Flatten(parts[1..])
  }

  lemma Assoc<T>(a: seq<T>, b: seq<T>, c: seq<T>)
    ensures (a + b) + c == a + (b + c)
  {
  }

  lemma EmptyRight<T>(a: seq<T>)
    ensures a + [] == a
  {
  }

  predicate EndsWith(s: string, suffix: string) {
    |s| >= |suffix| && s[|s| - |suffix|..] == suffix
  }

  lemma LastOf(s: string, suffix: string)
    requires EndsWith(s, suffix) && suffix != ""
    ensures s[|s| - 1] == suffix[|suffix| - 1]
  {
    assert s[|s| - |suffix|..][|suffix| - 1] == s[|s| - 1];
  }

  predicate IsAlnum(c: char) {
    'a' <= c <= 'z' || 'A' <= c <= 'Z' || '0' <= c <= '9'
  }

  /** `is_ascii_whitespace`. */
  predicate IsAsciiSpace(c: char) {
    c == ' ' || c == '\t' || c == '\n' || c as int == 12 || c == '\r'
  }

  predicate CrlfAt(b: string, i: int) {
    0 <= i && i + 2 <= |b| && b[i] == '\r' && b[i + 1] == '\n'
  }

  // -- trimming and splitting text ---------------------------------------------

  /** Unicode White_Space, what `str::trim` removes. */
  predicate IsWhitespace(c: char) {
    var n := c as int;
    9 <= n <= 13 || n == 0x20 || n == 0x85 || n == 0xA0 || n == 0x1680 || 0x2000 <= n <= 0x200A
    || n == 0x2028 || n == 0x2029 || n == 0x202F || n == 0x205F || n == 0x3000
  }

  function TrimStart(s: string): string {
    if s != "" && IsWhitespace(s[0]) then TrimStart(s[1..]) else s
  }

  function TrimEnd(s: string): string {
    if s != "" && IsWhitespace(s[|s| - 1]) then TrimEnd(s[..|s| - 1]) else s
  }

  function Trim(s: string): string {
    TrimEnd(TrimStart(s))
  }

  predicate Trimmed(s: string) {
    s != "" ==> !IsWhitespace(s[0]) && !IsWhitespace(s[|s| - 1])
  }

  lemma TrimOfTrimmed(s: string)
    requires Trimmed(s)
    ensures Trim(s) == s
  {
  }

  lemma {:induction false} TrimStartResult(s: string)
    ensures TrimStart(s) == "" || !IsWhitespace(TrimStart(s)[0])
    ensures exists k | 0 <= k <= |s| :: TrimStart(s) == s[k..]
    decreases |s|
  {
    if s != "" && IsWhitespace(s[0]) {
      TrimStartResult(s[1..]);
      var k :| 0 <= k <= |s[1..]| && TrimStart(s[1..]) == s[1..][k..];
      assert s[1..][k..] == s[k + 1..];
    } else {
      assert TrimStart(s) == s[0..];
    }
  }

  lemma {:induction false} TrimEndResult(s: string)
    ensures TrimEnd(s) <= s
    ensures TrimEnd(s) == "" || !IsWhitespace(TrimEnd(s)[|TrimEnd(s)| - 1])
    decreases |s|
  {
    if s != "" && IsWhitespace(s[|s| - 1]) {
      TrimEndResult(s[..|s| - 1]);
    }
  }

  /** Trimming gives trimmed text made of the text's own characters. */
  lemma TrimResult(s: string)
    ensures Trimmed(Trim(s))
    ensures forall c | c in Trim(s) :: c in s
  {
    TrimStartResult(s);
    TrimEndResult(TrimStart(s));
    assert Trim(s) == TrimStart(s)[..|Trim(s)|];
  }

  function IndexOf(s: string, c: char): (r: nat)
    requires c in s
    ensures r < |s| && s[r] == c && c !in s[..r]
  {
    if s[0] == c then 0 else 1 + IndexOf(s[1..], c)
  }

  lemma IndexOfAfter(a: string, c: char, rest: string)
    requires c !in a
    ensures c in a + [c] + rest && IndexOf(a + [c] + rest, c) == |a|
  {
    var s := a + [c] + rest;
    assert s[|a|] == c;
    var i := IndexOf(s, c);
    assert s[..|a|] == a;
    assert forall k | 0 <= k < i :: s[k] in s[..i];
  }

  /** `str::split(c)`. */
  function SplitChar(s: string, c: char): (r: seq<string>)
    ensures |r| > 0
    decreases |s|
  {
    if c !in s then [s] else
      var i := IndexOf(s, c);
      [s[..i]] + SplitChar(s[i + 1..], c)
  }

  lemma NoSplit(s: string, c: char)
    requires c !in s
    ensures SplitChar(s, c) == [s]
  {
  }

  lemma SplitCharAfter(a: string, c: char, rest: string)
    requires c !in a
    ensures SplitChar(a + [c] + rest, c) == [a] + SplitChar(rest, c)
  {
    IndexOfAfter(a, c, rest);
    var s := a + [c] + rest;
    assert s[..|a|] == a && s[|a| + 1..] == rest;
  }

  lemma {:induction false} SplitCharPieces(s: string, c: char)
    ensures forall i | 0 <= i < |SplitChar(s, c)| :: c !in SplitChar(s, c)[i]
    decreases |s|
  {
    if c in s {
      var i := IndexOf(s, c);
      SplitCharPieces(s[i + 1..], c);
    }
  }

  /** `str::split_once(c)`. */
  function SplitOnce(s: string, c: char): Option<(string, string)> {
    if c !in s then None else Some((s[..IndexOf(s, c)], s[IndexOf(s, c) + 1..]))
  }

  lemma SplitOnceParts(s: string, c: char)
    requires c in s
    ensures
      var (a, b) := SplitOnce(s, c).value;
      c !in a && (forall x | x in a :: x in s) && (forall x | x in b :: x in s) && s == a + [c] + b
  {
  }

  lemma SplitOnceAfter(a: string, c: char, rest: string)
    requires c !in a
    ensures SplitOnce(a + [c] + rest, c) == Some((a, rest))
  {
    IndexOfAfter(a, c, rest);
    var s := a + [c] + rest;
    assert s[..|a|] == a && s[|a| + 1..] == rest;
  }

  // -- numbers -----------------------------------------------------------------

  function Digit(n: nat): char
    requires n < 10
  {
    (n + 48) as char
  }

  function Decimal(n: nat): string {
    if n < 10 then [Digit(n)] else Decimal(n / 10) + [Digit(n % 10)]
  }

  // -- ASCII case --------------------------------------------------------------

  function LowerChar(c: char): char {
    if 'A' <= c <= 'Z' then (c as int + 32) as char else c
  }

  /** `to_ascii_lowercase`. */
  function Lower(s: string): (r: string)
    ensures |r| == |s| && forall i | 0 <= i < |s| :: r[i] == LowerChar(s[i])
  {
    seq(|s|, i requires 0 <= i < |s| => LowerChar(s[i]))
  }

  /** `eq_ignore_ascii_case`. */
  predicate SameIgnoringCase(a: string, b: string) {
    Lower(a) == Lower(b)
  }
}
