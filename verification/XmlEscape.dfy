/** Escaping text for XML and undoing it (crates/mw-carddav/src/request.rs,
    crates/mw-autoconfig/src/xml.rs). */
module XmlEscape {
  import opened Text

  const META: set<char> := {'&', '<', '>', '"', '\''}

  /** The entity a metacharacter is written as. */
  function EntityOf(c: char): (r: string)
    requires c in META
  {
    if c == '&' then "&amp;"
    else if c == '<' then "&lt;"
    else if c == '>' then "&gt;"
    else if c == '"' then "&quot;"
    else "&apos;"
  }

  /** The text with the characters of `which` written as entities. */
  function EscapeSome(s: string, which: set<char>): string
    requires which <= META
  {
    if s == "" then "" else
      (if s[0] in which then EntityOf(s[0]) else [s[0]]) + EscapeSome(s[1..], which)
  }

  function Escape(s: string): string {
    EscapeSome(s, META)
  }

  /** What one character is written as. */
  function Written(c: char): string {
    if c in META then EntityOf(c) else [c]
  }

  lemma WriteOne(out: string, s: string, i: nat)
    requires i < |s|
    ensures out + Escape(s[i..]) == out + Written(s[i]) + Escape(s[i + 1..])
  {
    assert s[i..][1..] == s[i + 1..];
  }

  method XmlEscapeText(s: string) returns (out: string)
    ensures out == Escape(s)
  {
    out := "";
    for i := 0 to |s|
      invariant out + Escape(s[i..]) == Escape(s)
    {
      WriteOne(out, s, i);
      var piece;
      match s[i] {
        case '&' => piece := "&amp;";
        case '<' => piece := "&lt;";
        case '>' => piece := "&gt;";
        case '"' => piece := "&quot;";
        case '\'' => piece := "&apos;";
        case _ => piece := [s[i]];
      }
      assert piece == Written(s[i]);
      out := out + piece;
    }
    assert s[|s|..] == "";
  }

  /** `str::replace`: every occurrence of a non-empty pattern, left to right. */
  function Replace(s: string, pattern: string, with: string): string
    requires pattern != ""
    decreases |s|
  {
    if s == "" then ""
    else if pattern <= s then with + Replace(s[|pattern|..], pattern, with)
    else [s[0]] + Replace(s[1..], pattern, with)
  }

  function Unescape(s: string): string {
    if '&' !in s then s else
      Replace(Replace(Replace(Replace(Replace(s, "&lt;", "<"), "&gt;", ">"), "&quot;", "\""), "&apos;", "'"), "&amp;",
              "&")
  }

  // -- the five replacements undo one pass of escaping ------------------------

  /** Text without an ampersand is passed over. */
  lemma {:induction false} ReplacePasses(p: string, rest: string, pattern: string, with: string)
    requires '&' !in p && pattern != "" && pattern[0] == '&'
    ensures Replace(p + rest, pattern, with) == p + Replace(rest, pattern, with)
    decreases |p|
  {
    if p == "" {
      assert p + rest == rest;
    } else {
      assert (p + rest)[1..] == p[1..] + rest;
      assert p[0] in p && !(pattern <= p + rest);
      ReplacePasses(p[1..], rest, pattern, with);
    }
  }

  lemma ReplaceHits(rest: string, pattern: string, with: string)
    requires pattern != ""
    ensures Replace(pattern + rest, pattern, with) == with + Replace(rest, pattern, with)
  {
    assert (pattern + rest)[|pattern|..] == rest;
  }

  /** Two entities differ within their first three characters. */
  lemma EntitiesDiffer(a: char, b: char)
    requires a in META && b in META && a != b
    ensures EntityOf(a)[..3] != EntityOf(b)[..3]
  {
    assert EntityOf(a)[1] == EntityOf(a)[..3][1] && EntityOf(a)[2] == EntityOf(a)[..3][2];
    assert EntityOf(b)[1] == EntityOf(b)[..3][1] && EntityOf(b)[2] == EntityOf(b)[..3][2];
  }

  lemma EntityShape(c: char)
    requires c in META
    ensures |EntityOf(c)| >= 4 && EntityOf(c)[0] == '&' && '&' !in EntityOf(c)[1..]
  {
  }

  /** Another character's entity is passed over. */
  lemma ReplaceMisses(c: char, x: char, rest: string)
    requires c in META && x in META && c != x
    ensures Replace(EntityOf(x) + rest, EntityOf(c), [c]) == EntityOf(x) + Replace(rest, EntityOf(c), [c])
  {
    var p, e := EntityOf(c), EntityOf(x);
    EntityShape(c);
    EntityShape(x);
    assert (e + rest)[..3] == e[..3];
    if p <= e + rest {
      assert p[..3] == (e + rest)[..3];
    }
    EntitiesDiffer(c, x);
    assert (e + rest)[1..] == e[1..] + rest;
    ReplacePasses(e[1..], rest, p, [c]);
    assert [e[0]] + (e[1..] + Replace(rest, p, [c])) == e + Replace(rest, p, [c]);
  }

  /** Replacing one character's entity leaves the others escaped. */
  lemma {:induction false} OneStage(s: string, which: set<char>, c: char)
    requires which <= META && '&' in which && c in which
    ensures EntityOf(c) != "" && Replace(EscapeSome(s, which), EntityOf(c), [c]) == EscapeSome(s, which - {c})
    decreases |s|
  {
    EntityShape(c);
    if s != "" {
      var x, rest := s[0], EscapeSome(s[1..], which);
      OneStage(s[1..], which, c);
      if x == c {
        ReplaceHits(rest, EntityOf(c), [c]);
      } else if x in which {
        ReplaceMisses(c, x, rest);
      } else {
        ReplacePasses([x], rest, EntityOf(c), [c]);
      }
    }
  }

  lemma {:induction false} NothingEscaped(s: string)
    ensures EscapeSome(s, {}) == s
    decreases |s|
  {
    if s != "" {
      NothingEscaped(s[1..]);
    }
  }

  lemma NoAmpersand(s: string, pattern: string, with: string)
    requires '&' !in s && pattern != "" && pattern[0] == '&'
    ensures Replace(s, pattern, with) == s
  {
    ReplacePasses(s, "", pattern, with);
    assert s + "" == s;
  }

  lemma UnescapeIsFiveStages(s: string)
    ensures Unescape(s)
         == Replace(Replace(Replace(Replace(Replace(s, "&lt;", "<"), "&gt;", ">"), "&quot;", "\""), "&apos;", "'"),
                    "&amp;", "&")
  {
    if '&' !in s {
      NoAmpersand(s, "&lt;", "<");
      NoAmpersand(s, "&gt;", ">");
      NoAmpersand(s, "&quot;", "\"");
      NoAmpersand(s, "&apos;", "'");
      NoAmpersand(s, "&amp;", "&");
    }
  }

  lemma SetSteps()
    ensures META - {'<'} == {'&', '>', '"', '\''} && {'&', '>', '"', '\''} - {'>'} == {'&', '"', '\''}
    ensures {'&', '"', '\''} - {'"'} == {'&', '\''} && {'&', '\''} - {'\''} == {'&'} && {'&'} - {'&'} == {}
  {
  }

  /** The five replacements, in their order, undo escaping for every text. */
  lemma UnescapeOfEscape(s: string)
    ensures Unescape(Escape(s)) == s
  {
    UnescapeIsFiveStages(Escape(s));
    SetSteps();
    hide EscapeSome, Replace, Unescape;
    OneStage(s, META, '<');
    OneStage(s, {'&', '>', '"', '\''}, '>');
    OneStage(s, {'&', '"', '\''}, '"');
    OneStage(s, {'&', '\''}, '\'');
    OneStage(s, {'&'}, '&');
    NothingEscaped(s);
  }

  /** Escaped text holds no metacharacter but the ampersand. */
  lemma {:induction false} EscapedIsClean(s: string, c: char)
    requires c in META && c != '&'
    ensures c !in Escape(s)
    decreases |s|
  {
    if s != "" {
      EscapedIsClean(s[1..], c);
    }
  }
}
