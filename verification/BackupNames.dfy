/** File names of a backup set (scripts/backup-destinations.py). */
module BackupNames {
  import opened Text
  import opened Sorting

  /** The pattern `NAME`. */
  predicate SafeName(n: string) {
    1 <= |n| <= 160 && IsAlnum(n[0])
    && forall i | 1 <= i < |n| :: IsAlnum(n[i]) || n[i] == '.' || n[i] == '_' || n[i] == '-'
  }

  /** The two endings of an encrypted archive. */
  predicate Encrypted(n: string) {
    EndsWith(n, ".tar.age") || EndsWith(n, ".tar.gpg")
  }

  /** The name of an encrypted archive. */
  predicate ArchiveName(n: string) {
    SafeName(n) && Encrypted(n)
  }

  /** What stands before the last `.tar.`. */
  function Stem(n: string): string
    requires |n| >= 8
  {
    n[..|n| - 8]
  }

  function ReleaseName(n: string): string
    requires |n| >= 8
  {
    Stem(n) + ".release.env"
  }

  function MarkerName(n: string): string {
    n + ".complete.json"
  }

  /** The files of a set in the order they are published: archive, release file,
      completion manifest. */
  function FileName(n: string, i: nat): string
    requires |n| >= 8 && i <= 2
  {
    if i == 0 then n else if i == 1 then ReleaseName(n) else MarkerName(n)
  }

  lemma LastCharacter(n: string, i: nat)
    requires Encrypted(n) && i <= 2
    ensures
      var f := FileName(n, i);
      && f != ""
      && f[|f| - 1] == (if i == 1 then 'v' else if i == 2 then 'n' else if EndsWith(n, ".tar.age") then 'e' else 'g')
  {
    if i == 0 {
      LastOf(n, if EndsWith(n, ".tar.age") then ".tar.age" else ".tar.gpg");
    }
  }

  /** No file of a set starts with a dot. */
  lemma FirstCharacter(n: string, i: nat)
    requires ArchiveName(n) && i <= 2
    ensures FileName(n, i) != "" && FileName(n, i)[0] != '.'
  {
    StemNotEmpty(n);
  }

  /** Archives do not start with a dot, so something stands before the suffix. */
  lemma StemNotEmpty(n: string)
    requires ArchiveName(n)
    ensures |n| > 8 && Stem(n) != "" && Stem(n)[0] == n[0]
  {
    assert n[|n| - 8..][0] == n[|n| - 8];
  }

  lemma AppendInjective(a: string, b: string, suffix: string)
    requires a + suffix == b + suffix
    ensures a == b
  {
    assert a == (a + suffix)[..|a|] && b == (b + suffix)[..|b|];
  }

  /** Files of two sets have one name exactly when they are the same file of one set, or
      the release files of two sets with one stem. */
  lemma NamesApart(n: string, i: nat, m: string, j: nat)
    requires Encrypted(n) && Encrypted(m) && i <= 2 && j <= 2
    ensures FileName(n, i) == FileName(m, j) <==> i == j && (n == m || (i == 1 && Stem(n) == Stem(m)))
  {
    LastCharacter(n, i);
    LastCharacter(m, j);
    if FileName(n, i) == FileName(m, j) {
      if i == 1 {
        AppendInjective(Stem(n), Stem(m), ".release.env");
      } else if i == 2 {
        AppendInjective(n, m, ".complete.json");
      }
    }
  }

  // -- snapshot names ----------------------------------------------------------

  predicate AllDigits(s: string) {
    forall i | 0 <= i < |s| :: '0' <= s[i] <= '9'
  }

  /** The pattern `SNAPSHOT`: a stamp, two numbers, and the suffix of an encrypted
      archive. */
  predicate Snapshot(n: string) {
    && |n| >= 28 && Encrypted(n)
    && AllDigits(n[..8]) && n[8] == 'T' && AllDigits(n[9..15]) && n[15] == 'Z' && n[16] == '-'
    && var numbers := n[17..|n| - 8];
       exists d | 0 < d < |numbers| - 1 :: numbers[d] == '-' && AllDigits(numbers[..d]) && AllDigits(numbers[d + 1..])
  }

  /** When the snapshot was made. */
  function Stamp(n: string): string
    requires |n| >= 16
  {
    n[..16]
  }

  predicate GoodStamp(s: string) {
    |s| == 16 && AllDigits(s[..8]) && s[8] == 'T' && AllDigits(s[9..15]) && s[15] == 'Z'
  }

  /** The digits read as one decimal number. */
  function Value(digits: string): int {
    if digits == "" then 0 else 10 * Value(digits[..|digits| - 1]) + (digits[|digits| - 1] as int - '0' as int)
  }

  /** Date and time as one number, year first. */
  function StampValue(s: string): int
    requires |s| == 16
  {
    Value(s[..8]) * 1000000 + Value(s[9..15])
  }

  function Pow10(n: nat): nat {
    if n == 0 then 1 else 10 * Pow10(n - 1)
  }

  lemma {:induction false} ValueRange(s: string)
    requires AllDigits(s)
    ensures 0 <= Value(s) < Pow10(|s|)
    decreases |s|
  {
    if s != "" {
      ValueRange(s[..|s| - 1]);
    }
  }

  /** The value, from the first digit on. */
  lemma {:induction false} ValueFromFront(s: string)
    requires s != ""
    ensures Value(s) == (s[0] as int - '0' as int) * Pow10(|s| - 1) + Value(s[1..])
    decreases |s|
  {
    if |s| == 1 {
      assert s[..0] == "" && s[1..] == "";
    } else {
      var front, last := s[..|s| - 1], s[|s| - 1] as int - '0' as int;
      ValueFromFront(front);
      ValueOfTail(s);
      assert Value(s) == 10 * Value(front) + last && Pow10(|s| - 1) == 10 * Pow10(|s| - 2);
      hide *;
      OneMoreDigit(s[0] as int - '0' as int, Pow10(|s| - 2), Value(front[1..]), last);
    }
  }

  lemma ValueOfTail(s: string)
    requires |s| > 1
    ensures Value(s[1..]) == 10 * Value(s[..|s| - 1][1..]) + (s[|s| - 1] as int - '0' as int)
  {
    assert s[1..][..|s| - 2] == s[..|s| - 1][1..];
  }

  lemma OneMoreDigit(d: int, p: int, v: int, last: int)
    ensures 10 * (d * p + v) + last == d * (10 * p) + (10 * v + last)
  {
  }

  /** Numbers of one width compare as their texts do. */
  lemma {:induction false} LeIsNumeric(a: string, b: string)
    requires |a| == |b| && AllDigits(a) && AllDigits(b)
    ensures Le(a, b) <==> Value(a) <= Value(b)
    ensures a == b <==> Value(a) == Value(b)
    decreases |a|
  {
    if a != "" {
      ValueFromFront(a);
      ValueFromFront(b);
      LeIsNumeric(a[1..], b[1..]);
      ValueRange(a[1..]);
      ValueRange(b[1..]);
      assert a == [a[0]] + a[1..] && b == [b[0]] + b[1..];
      DigitDecides(a[0] as int - '0' as int, b[0] as int - '0' as int, Pow10(|a| - 1), Value(a[1..]), Value(b[1..]));
    }
  }

  lemma DigitDecides(x: int, y: int, p: nat, v: int, w: int)
    requires 0 <= v < p && 0 <= w < p
    ensures x < y ==> x * p + v < y * p + w
    ensures y < x ==> y * p + w < x * p + v
  {
    if x < y {
      SmallerDigit(x, y, p, v, w);
    } else if y < x {
      SmallerDigit(y, x, p, w, v);
    }
  }

  lemma SmallerDigit(x: int, y: int, p: nat, v: int, w: int)
    requires x < y && v < p && 0 <= w
    ensures x * p + v < y * p + w
  {
    var d := y - x - 1;
    calc {
      y * p;
      (x + 1 + d) * p;
      x * p + p + d * p;
    }
    NotNegative(d, p);
  }

  lemma NotNegative(d: nat, p: nat)
    ensures d * p >= 0
  {
  }

  /** Comparing texts whose fronts have one length: the fronts decide, then the rest. */
  lemma {:induction false} LeOfParts(a: string, x: string, b: string, y: string)
    requires |a| == |b|
    ensures Le(a + x, b + y) <==> (if a == b then Le(x, y) else Le(a, b))
    decreases |a|
  {
    if a == "" {
      assert a + x == x && b + y == y;
    } else {
      assert (a + x)[1..] == a[1..] + x && (b + y)[1..] == b[1..] + y;
      assert a == [a[0]] + a[1..] && b == [b[0]] + b[1..];
      LeOfParts(a[1..], x, b[1..], y);
    }
  }

  lemma StampParts(s: string)
    requires GoodStamp(s)
    ensures s == s[..8] + ("T" + (s[9..15] + "Z"))
  {
  }

  /** Stamps compare as the times they stand for. */
  lemma StampOrder(s: string, t: string)
    requires GoodStamp(s) && GoodStamp(t)
    ensures Le(s, t) <==> StampValue(s) <= StampValue(t)
    ensures s == t <==> StampValue(s) == StampValue(t)
  {
    StampParts(s);
    StampParts(t);
    LeOfParts(s[..8], "T" + (s[9..15] + "Z"), t[..8], "T" + (t[9..15] + "Z"));
    LeOfParts("T", s[9..15] + "Z", "T", t[9..15] + "Z");
    LeOfParts(s[9..15], "Z", t[9..15], "Z");
    LeTotal("Z", "Z");
    LeTotal(s[..8], t[..8]);
    LeIsNumeric(s[..8], t[..8]);
    LeIsNumeric(s[9..15], t[9..15]);
    ValueRange(s[9..15]);
    ValueRange(t[9..15]);
    assert Pow10(6) == 1000000;
  }

  /** The order of snapshot names is the order of their times. */
  lemma NameOrderIsTimeOrder(m: string, n: string)
    requires Snapshot(m) && Snapshot(n) && Stamp(m) != Stamp(n)
    ensures Le(m, n) <==> StampValue(Stamp(m)) < StampValue(Stamp(n))
  {
    assert m == m[..16] + m[16..] && n == n[..16] + n[16..];
    LeOfParts(m[..16], m[16..], n[..16], n[16..]);
    SnapshotStamp(m);
    SnapshotStamp(n);
    StampOrder(m[..16], n[..16]);
  }

  lemma SnapshotStamp(n: string)
    requires Snapshot(n)
    ensures GoodStamp(Stamp(n))
  {
    assert n[..16][..8] == n[..8] && n[..16][9..15] == n[9..15];
  }

  /** What makes a name a snapshot's stands in its stem. */
  lemma SameStemSnapshot(n: string, m: string)
    requires Snapshot(n) && Encrypted(m) && Stem(n) == Stem(m)
    ensures Snapshot(m) && |m| == |n|
  {
    assert |Stem(n)| == |n| - 8 && |Stem(m)| == |m| - 8;
    assert m[..8] == n[..8] by { assert Stem(n)[..8] == Stem(m)[..8]; }
    assert m[9..15] == n[9..15] by { assert Stem(n)[9..15] == Stem(m)[9..15]; }
    assert m[17..|m| - 8] == n[17..|n| - 8] by { assert Stem(n)[17..] == Stem(m)[17..]; }
    assert n[8] == Stem(n)[8] && n[15] == Stem(n)[15] && n[16] == Stem(n)[16];
    assert m[8] == Stem(m)[8] && m[15] == Stem(m)[15] && m[16] == Stem(m)[16];
  }
}
