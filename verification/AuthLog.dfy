/** The authentication-failure log line and reading the address back out of it
    (crates/mw-admin/src/banlist.rs). */
module AuthLog {
  import opened Wrappers
  import opened Text

  const MAX: nat := 128

  predicate NameChar(c: char) {
    'a' <= c <= 'z' || 'A' <= c <= 'Z' || '0' <= c <= '9' || c == '@' || c == '.' || c == '_' || c == '-' || c == '+'
  }

  function Cleaned(s: string): (r: string)
    ensures |r| == |s| && forall i | 0 <= i < |r| :: r[i] == if NameChar(s[i]) then s[i] else '_'
  {
    seq(|s|, i requires 0 <= i < |s| => if NameChar(s[i]) then s[i] else '_')
  }

  /** The login name as it may stand in the log. */
  function Sanitized(user: string): string {
    if user == "" then "-" else Cleaned(if |user| > MAX then user[..MAX] else user)
  }

  method SanitizeLogname(user: string) returns (out: string)
    ensures out == Sanitized(user)
  {
    out := "";
    var n := if |user| > MAX then MAX else |user|;
    for i := 0 to n
      invariant out == Cleaned(user[..i])
    {
      if NameChar(user[i]) {
        out := out + [user[i]];
      } else {
        out := out + "_";
      }
    }
    if out == "" {
      out := out + "-";
    }
    assert n == |user| ==> user[..n] == user;
  }

  const PREFIX: string := "mailwoman[auth]: " + "authentication failure; "
  const RHOST: string := "rhost="

  function LogLine(ts: string, user: string, host: string): string {
    ts + " " + (PREFIX + ("logname=" + Sanitized(user) + " " + (RHOST + host)))
  }

  /** How far a run without white space goes. */
  function Run(s: string): (n: nat)
    ensures n <= |s| && forall i | 0 <= i < n :: !IsWhitespace(s[i])
  {
    if s == "" || IsWhitespace(s[0]) then 0 else 1 + Run(s[1..])
  }

  /** A position where the filter's token can stand: after it at least one character that
      is not white space, before it no line break. */
  predicate TokenAt(s: string, i: nat) {
    MatchesAt(s, RHOST, i) && i + 6 < |s| && !IsWhitespace(s[i + 6]) && '\n' !in s[..i]
  }

  /** The last such position up to `i`. */
  function LastToken(s: string, i: nat): (r: Option<nat>)
    ensures r.Some? ==> TokenAt(s, r.value)
  {
    if TokenAt(s, i) then Some(i) else if i == 0 then None else LastToken(s, i - 1)
  }

  /** `parse_host`: the token after the last `rhost=` that follows the marker. */
  function ParseHost(line: string): Option<string> {
    var p :- Find(line, PREFIX);
    var rest := line[p + |PREFIX|..];
    var i :- LastToken(rest, |rest|);
    Some(rest[i + 6..][..Run(rest[i + 6..])])
  }

  /** An address text as `Display` writes it: no blanks, no equals sign. */
  predicate HostText(h: string) {
    h != "" && forall i | 0 <= i < |h| :: !IsWhitespace(h[i]) && h[i] != '='
  }

  /** An RFC 3339 time: no letter of the marker's first word, no line break. */
  predicate TimeText(ts: string) {
    forall i | 0 <= i < |ts| :: ts[i] != 'm' && ts[i] != '=' && ts[i] != '\n' && ts[i] != '\r'
  }

  lemma SanitizedIsClean(user: string)
    ensures Sanitized(user) != "" && |Sanitized(user)| <= MAX
    ensures forall i | 0 <= i < |Sanitized(user)| :: NameChar(Sanitized(user)[i])
  {
  }

  lemma PrefixFound(head: string, tail: string)
    requires 'm' !in head
    ensures Find(head + (PREFIX + tail), PREFIX) == Some(|head|)
  {
    var s := head + (PREFIX + tail);
    assert s[|head|..] == PREFIX + tail;
    Peel(s, |head|, PREFIX, tail);
    forall j | 0 <= j < |head| ensures !MatchesAt(s, PREFIX, j) {
      NoMatch(s, PREFIX, j, 0);
    }
    FindIs(s, PREFIX, |head|);
  }

  lemma {:induction false} RunAll(h: string)
    requires forall i | 0 <= i < |h| :: !IsWhitespace(h[i])
    ensures Run(h) == |h|
    decreases |h|
  {
    if h != "" {
      RunAll(h[1..]);
    }
  }

  /** With no `=` after the token, it is the last one. */
  lemma {:induction false} LastTokenIs(head: string, host: string, i: nat)
    requires HostText(host) && '\n' !in head && |head| <= i
    ensures LastToken(head + (RHOST + host), i) == Some(|head|)
    decreases i
  {
    hide *;
    if i == |head| {
      TokenIsThere(head, host);
    } else {
      NoTokenYet(head, host, i);
      LastTokenIs(head, host, i - 1);
    }
  }

  lemma TokenIsThere(head: string, host: string)
    requires HostText(host) && '\n' !in head
    ensures LastToken(head + (RHOST + host), |head|) == Some(|head|)
  {
    TokenThere(head, host);
    var s, i := head + (RHOST + host), |head|;
    assert s[..i] == head && s[i + 6] == host[0];
  }

  lemma NoTokenYet(head: string, host: string, i: nat)
    requires HostText(host) && |head| < i
    ensures LastToken(head + (RHOST + host), i) == LastToken(head + (RHOST + host), i - 1)
  {
    NoLaterToken(head, host, i);
  }

  lemma NoLaterToken(head: string, host: string, i: nat)
    requires HostText(host) && |head| < i
    ensures !MatchesAt(head + (RHOST + host), RHOST, i)
  {
    var s := head + (RHOST + host);
    if i + 5 < |s| {
      assert s[i + 5] == host[i + 5 - |head| - 6];
    }
    NoMatch(s, RHOST, i, 5);
  }

  lemma LognameHasNoBreak(user: string)
    ensures '\n' !in "logname=" + Sanitized(user) + " "
  {
    SanitizedIsClean(user);
  }

  /** A jail reads back exactly the address, whatever login name was supplied. */
  lemma HostReadsBack(ts: string, user: string, host: string)
    requires TimeText(ts) && HostText(host)
    ensures ParseHost(LogLine(ts, user, host)) == Some(host)
  {
    var head, mid := ts + " ", "logname=" + Sanitized(user) + " ";
    var rest := mid + (RHOST + host);
    assert LogLine(ts, user, host) == head + (PREFIX + rest);
    PrefixFound(head, rest);
    LognameHasNoBreak(user);
    LastTokenIs(mid, host, |rest|);
    RunAll(host);
    AfterPrefix(head, rest);
    AfterToken(mid, host);
    hide Find, LastToken, Run, Sanitized;
  }

  lemma AfterPrefix(head: string, rest: string)
    ensures (head + (PREFIX + rest))[|head| + |PREFIX|..] == rest
  {
  }

  lemma AfterToken(mid: string, host: string)
    ensures (mid + (RHOST + host))[|mid| + 6..] == host && host[..|host|] == host
  {
  }

  /** The line is one line, and `rhost=` stands in it exactly once. */
  lemma LineIsOneRecord(ts: string, user: string, host: string)
    requires TimeText(ts) && HostText(host)
    ensures
      var line := LogLine(ts, user, host);
      && '\n' !in line && '\r' !in line
      && forall i: nat :: MatchesAt(line, RHOST, i) <==> i == |line| - |host| - 6
  {
    hide *;
    NoBreakInLine(ts, user, host);
    forall i: nat
      ensures MatchesAt(LogLine(ts, user, host), RHOST, i) <==> i == |LogLine(ts, user, host)| - |host| - 6
    {
      TokenOnlyAtEnd(ts, user, host, i);
    }
  }

  lemma NoBreakInLine(ts: string, user: string, host: string)
    requires TimeText(ts) && HostText(host)
    ensures '\n' !in LogLine(ts, user, host) && '\r' !in LogLine(ts, user, host)
  {
    LineLacks(ts, user, host, '\n');
    LineLacks(ts, user, host, '\r');
  }

  lemma LineLacks(ts: string, user: string, host: string, c: char)
    requires TimeText(ts) && HostText(host) && (c == '\n' || c == '\r')
    ensures c !in LogLine(ts, user, host)
  {
    SanitizedIsClean(user);
    MarkerIsPlain();
    assert IsWhitespace(c) && !NameChar(c);
    assert c !in ts + " " && c !in PREFIX && c !in "logname=" && c !in Sanitized(user) && c !in " " && c !in RHOST
        && c !in host;
    hide Sanitized, PREFIX, RHOST, NameChar, TimeText, HostText, IsWhitespace;
    NotInSum(c, RHOST, host);
    NotInSum(c, "logname=", Sanitized(user));
    NotInSum(c, "logname=" + Sanitized(user), " ");
    NotInSum(c, "logname=" + Sanitized(user) + " ", RHOST + host);
    NotInSum(c, PREFIX, "logname=" + Sanitized(user) + " " + (RHOST + host));
    NotInSum(c, ts + " ", PREFIX + ("logname=" + Sanitized(user) + " " + (RHOST + host)));
  }

  lemma NotInSum(c: char, a: string, b: string)
    requires c !in a && c !in b
    ensures c !in a + b
  {
  }

  lemma TokenOnlyAtEnd(ts: string, user: string, host: string, i: nat)
    requires TimeText(ts) && HostText(host)
    ensures MatchesAt(LogLine(ts, user, host), RHOST, i) <==> i == |LogLine(ts, user, host)| - |host| - 6
  {
    var head := ts + " " + (PREFIX + ("logname=" + Sanitized(user) + " "));
    MarkerIsPlain();
    LineEnds(ts, user, host);
    if i == |head| {
      TokenThere(head, host);
    } else if i > |head| {
      NoLaterToken(head, host, i);
    } else {
      NoEarlierToken(ts, user, host, i);
    }
  }

  lemma LineEnds(ts: string, user: string, host: string)
    ensures LogLine(ts, user, host) == ts + " " + (PREFIX + ("logname=" + Sanitized(user) + " ")) + (RHOST + host)
  {
    hide Sanitized, PREFIX, RHOST;
  }

  lemma TokenThere(head: string, host: string)
    ensures MatchesAt(head + (RHOST + host), RHOST, |head|)
  {
    assert (head + (RHOST + host))[|head|..] == RHOST + host;
    Peel(head + (RHOST + host), |head|, RHOST, host);
  }

  lemma MarkerIsPlain()
    ensures '\n' !in PREFIX && '\r' !in PREFIX && '=' !in PREFIX && |PREFIX| == 41
    ensures PREFIX[0] == 'm'
  {
    PlainPair("mailwoman[auth]: ", "authentication failure; ");
  }

  lemma PlainPair(a: string, b: string)
    requires '\n' !in a && '\r' !in a && '=' !in a && '\n' !in b && '\r' !in b && '=' !in b
    ensures '\n' !in a + b && '\r' !in a + b && '=' !in a + b
  {
  }

  /** Before the token the only `=` is that of `logname=`. */
  lemma NoEarlierToken(ts: string, user: string, host: string, i: nat)
    requires TimeText(ts) && HostText(host) && i < |ts| + 1 + 41 + 8 + |Sanitized(user)| + 1
    ensures !MatchesAt(LogLine(ts, user, host), RHOST, i)
  {
    var line, at := LogLine(ts, user, host), |ts| + 1 + 41;
    MarkerIsPlain();
    SanitizedIsClean(user);
    if i + 5 == at + 7 {
      assert line[at + 6] == "logname="[6] == 'e';
      NoMatch(line, RHOST, i, 4);
    } else {
      EqualsAt(ts, user, host, i + 5);
      NoMatch(line, RHOST, i, 5);
    }
  }

  lemma EqualsAt(ts: string, user: string, host: string, k: nat)
    requires TimeText(ts) && HostText(host) && k < |ts| + 1 + 41 + 8 + |Sanitized(user)| + 1 + 5
    requires k != |ts| + 1 + 41 + 7
    ensures k < |LogLine(ts, user, host)| && LogLine(ts, user, host)[k] != '='
  {
    var line, at := LogLine(ts, user, host), |ts| + 1 + 41;
    MarkerIsPlain();
    SanitizedIsClean(user);
    var name := Sanitized(user);
    if |ts| < k < at {
      assert line[k] == PREFIX[k - |ts| - 1];
    } else if at <= k < at + 8 {
      assert line[k] == "logname="[k - at];
    } else if at + 8 <= k < at + 8 + |name| {
      assert line[k] == name[k - at - 8];
    } else if k > at + 8 + |name| {
      assert line[k] == RHOST[k - at - 9 - |name|];
    }
  }

  /** What is kept of a login name: its first 128 characters, one for one, with an underscore
      for every character that is not allowed; an empty name is a dash. */
  lemma SanitizedKeeps(user: string)
    ensures user == "" ==> Sanitized(user) == "-"
    ensures user != "" ==> |Sanitized(user)| == if |user| < 128 then |user| else 128
    ensures user != "" ==> forall i | 0 <= i < |Sanitized(user)| ::
              Sanitized(user)[i] == if NameChar(user[i]) then user[i] else '_'
    ensures 0 < |user| <= 128 && (forall c | c in user :: NameChar(c)) ==> Sanitized(user) == user
  {
    if 0 < |user| <= 128 && (forall c | c in user :: NameChar(c)) {
      assert forall i | 0 <= i < |user| :: user[i] in user;
      assert Cleaned(user) == user;
    }
  }
}
