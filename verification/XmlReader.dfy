/** The autoconfig XML reader: a cursor over the document's bytes and a descent with a
    depth cap (crates/mw-autoconfig/src/xml.rs). */
module XmlReader {
  import opened Wrappers
  import opened Text
  import opened Utf8
  import opened XmlEscape

  datatype Node = Node(name: string, attrs: seq<(string, string)>, children: seq<Node>, text: string)

  const MAX_DEPTH: nat := 64

  // -- what each reading step leaves, as a function of the unread bytes -------

  function SkipWs(s: Bytes): (r: Bytes)
    ensures |r| <= |s| && (r != "" ==> !IsAsciiSpace(r[0]))
  {
    if s != "" && IsAsciiSpace(s[0]) then SkipWs(s[1..]) else s
  }

  function SkipUntil(s: Bytes, marker: string): (r: Bytes)
    ensures |r| <= |s| && (s != "" && marker != "" ==> |r| < |s|)
  {
    match Find(s, marker) case Some(i) => s[i + |marker|..] case None => ""
  }

  /** Blanks, declarations, comments and the document type. */
  function SkipMisc(s: Bytes): (r: Bytes)
    ensures |r| <= |s|
    decreases |s|
  {
    var t := SkipWs(s);
    if "<?" <= t then SkipMisc(SkipUntil(t, "?>"))
    else if "<!--" <= t then SkipMisc(SkipUntil(t, "-->"))
    else if "<!" <= t then SkipMisc(SkipUntil(t, ">"))
    else t
  }

  predicate EndsName(c: char) {
    IsAsciiSpace(c) || c == '>' || c == '/' || c == '='
  }

  /** How many bytes come before the first one that satisfies `stop`. */
  function Span(s: Bytes, stop: char -> bool): (n: nat)
    ensures n <= |s| && (forall i | 0 <= i < n :: !stop(s[i])) && (n < |s| ==> stop(s[n]))
  {
    if s == "" || stop(s[0]) then 0 else 1 + Span(s[1..], stop)
  }

  function ReadName(s: Bytes): (r: (string, Bytes))
    ensures |r.1| <= |s| && (r.0 != "" ==> |r.1| < |s|)
  {
    var t := SkipWs(s);
    var n := Span(t, EndsName);
    assert n == 0 ==> t[..n] == "" && Lossy("") == "";
    (Lossy(t[..n]), t[n..])
  }

  /** What follows the first byte, if there is one. */
  function Behind(s: Bytes): (r: Bytes)
    ensures |r| <= |s|
  {
    if s == "" then "" else s[1..]
  }

  function ReadQuoted(s: Bytes): (r: Option<(string, Bytes)>)
    ensures r.Some? ==> |r.value.1| < |s|
  {
    if s == "" || (s[0] != '"' && s[0] != '\'') then None else
      var quote := s[0];
      var n := Span(s[1..], c => c == quote);
      Some((Unescape(Lossy(s[1..][..n])), Behind(s[1..][n..])))
  }

  /** An open tag's attributes, whether the tag closes itself, and what follows. */
  datatype Tag = Tag(attrs: seq<(string, string)>, closed: bool, rest: Bytes)

  function ReadTag(s: Bytes, attrs: seq<(string, string)>): (r: Option<Tag>)
    ensures r.Some? ==> |r.value.rest| < |s|
    decreases |s|
  {
    var t := SkipWs(s);
    if t == "" then None
    else if "/>" <= t then Some(Tag(attrs, true, t[2..]))
    else if ">" <= t then Some(Tag(attrs, false, t[1..]))
    else
      var name := ReadName(t);
      if name.0 == "" then None else
        var u := SkipWs(name.1);
        if !("=" <= u) then ReadTag(u, attrs + [(name.0, "")])
        else
          match ReadQuoted(SkipWs(u[1..]))
          case None => None
          case Some(value) => ReadTag(value.1, attrs + [(name.0, value.0)])
  }

  const CDATA: string := "<![CDATA["

  predicate IsLess(c: char) {
    c == '<'
  }

  function ReadElement(s: Bytes, depth: nat): (r: Option<(Node, Bytes)>)
    ensures r.Some? ==> |r.value.1| < |s|
    decreases |s|, 0
  {
    if depth > MAX_DEPTH || !("<" <= s) then None else
      var name := ReadName(s[1..]);
      if name.0 == "" then None else
        match ReadTag(name.1, [])
        case None => None
        case Some(tag) =>
          if tag.closed then Some((Node(name.0, tag.attrs, [], ""), tag.rest))
          else ReadContent(tag.rest, depth, Node(name.0, tag.attrs, [], ""))
  }

  /** Reads what stands between the tags into `node`. */
  function ReadContent(s: Bytes, depth: nat, node: Node): (r: Option<(Node, Bytes)>)
    ensures r.Some? ==> |r.value.1| <= |s|
    decreases |s|, 1
  {
    if s == "" then Some((node, s))
    else if "</" <= s then Some((node, SkipUntil(ReadName(s[2..]).1, ">")))
    else if "<!--" <= s then ReadContent(SkipUntil(s, "-->"), depth, node)
    else if CDATA <= s then
      var data := s[9..];
      (match Find(data, "]]>")
       case Some(i) => ReadContent(data[i + 3..], depth, node.(text := node.text + Lossy(data[..i])))
       case None => Some((node, "")))
    else if "<?" <= s then ReadContent(SkipUntil(s, "?>"), depth, node)
    else if "<" <= s then
      match ReadElement(s, depth + 1)
      case None => None
      case Some(child) => ReadContent(child.1, depth, node.(children := node.children + [child.0]))
    else
      var n := Span(s, IsLess);
      ReadContent(s[n..], depth, node.(text := node.text + Unescape(Lossy(s[..n]))))
  }

  /** What the reader makes of a document. */
  function ParsedDocument(input: string): Option<Node> {
    match ReadElement(SkipMisc(Encode(input)), 0)
    case None => None
    case Some(r) => Some(r.0)
  }

  // -- the cursor --------------------------------------------------------------

  class Parser {
    const b: Bytes
    var pos: nat

    constructor (b: Bytes)
      ensures this.b == b && pos == 0 && Valid() && Rest() == b
    {
      this.b := b;
      pos := 0;
    }

    ghost predicate Valid()
      reads this
    {
      pos <= |b|
    }

    function Rest(): Bytes
      reads this
      requires Valid()
    {
      b[pos..]
    }

    method AdvanceBy(n: nat)
      requires Valid() && n <= |Rest()|
      modifies this
      ensures Valid() && Rest() == old(Rest())[n..]
    {
      pos := pos + n;
    }

    method SkipBlanks()
      requires Valid()
      modifies this
      ensures Valid() && Rest() == SkipWs(old(Rest()))
    {
      while pos < |b| && IsAsciiSpace(b[pos])
        invariant Valid() && SkipWs(Rest()) == SkipWs(old(Rest()))
        decreases |b| - pos
      {
        assert Rest()[1..] == b[pos + 1..];
        pos := pos + 1;
      }
    }

    method SkipPast(marker: string)
      requires Valid() && marker != ""
      modifies this
      ensures Valid() && Rest() == SkipUntil(old(Rest()), marker)
    {
      var found := Find(Rest(), marker);
      if found.Some? {
        AdvanceBy(found.value + |marker|);
      } else {
        pos := |b|;
      }
    }

    method SkipProlog()
      requires Valid()
      modifies this
      ensures Valid() && Rest() == SkipMisc(old(Rest()))
    {
      while true
        invariant Valid() && SkipMisc(Rest()) == SkipMisc(old(Rest()))
        decreases |Rest()|
      {
        SkipBlanks();
        if "<?" <= Rest() {
          SkipPast("?>");
        } else if "<!--" <= Rest() {
          SkipPast("-->");
        } else if "<!" <= Rest() {
          SkipPast(">");
        } else {
          return;
        }
      }
    }

    /** Moves to the first byte that satisfies `stop`, or to the end, and returns what
        was passed. */
    method TakeUntil(stop: char -> bool) returns (taken: Bytes)
      requires Valid()
      modifies this
      ensures Valid() && pos >= old(pos)
      ensures
        var n := Span(old(Rest()), stop);
        taken == old(Rest())[..n] && Rest() == old(Rest())[n..]
    {
      var start := pos;
      while pos < |b| && !stop(b[pos])
        invariant start <= pos <= |b| && start == old(pos)
        invariant Span(old(Rest()), stop) == pos - start + Span(Rest(), stop)
        decreases |b| - pos
      {
        assert Rest()[1..] == b[pos + 1..];
        pos := pos + 1;
      }
      taken := b[start..pos];
    }

    method TakeName() returns (name: string)
      requires Valid()
      modifies this
      ensures Valid() && (name, Rest()) == ReadName(old(Rest()))
    {
      SkipBlanks();
      var taken := TakeUntil(EndsName);
      name := Lossy(taken);
    }

    /** One byte on, but not past the end. */
    method StepOver()
      requires Valid()
      modifies this
      ensures Valid() && Rest() == Behind(old(Rest()))
    {
      pos := if pos + 1 <= |b| then pos + 1 else |b|;
    }

    method TakeQuoted() returns (value: Option<string>)
      requires Valid()
      modifies this
      ensures Valid()
      ensures
        var r := ReadQuoted(old(Rest()));
        (value.Some? <==> r.Some?) && (r.Some? ==> (value.value, Rest()) == r.value)
    {
      hide Unescape, Lossy, Span;
      if Rest() == "" {
        return None;
      }
      var quote := Rest()[0];
      if quote != '"' && quote != '\'' {
        return None;
      }
      AdvanceBy(1);
      var taken := TakeUntil(c => c == quote);
      StepOver();
      return Some(Unescape(Lossy(taken)));
    }

    /** The attributes of an open tag and whether it closes itself. */
    method TakeTag() returns (r: Option<(seq<(string, string)>, bool)>)
      requires Valid()
      modifies this
      ensures Valid()
      ensures
        var t := ReadTag(old(Rest()), []);
        (r.Some? <==> t.Some?) && (t.Some? ==> Tag(r.value.0, r.value.1, Rest()) == t.value)
    {
      var attrs := [];
      while true
        invariant Valid() && ReadTag(Rest(), attrs) == ReadTag(old(Rest()), [])
        decreases |Rest()|
      {
        SkipBlanks();
        if pos >= |b| {
          return None;
        }
        if "/>" <= Rest() {
          AdvanceBy(2);
          return Some((attrs, true));
        }
        if ">" <= Rest() {
          AdvanceBy(1);
          return Some((attrs, false));
        }
        var name := TakeName();
        if name == "" {
          return None;
        }
        SkipBlanks();
        if !("=" <= Rest()) {
          attrs := attrs + [(name, "")];
          continue;
        }
        AdvanceBy(1);
        SkipBlanks();
        var value := TakeQuoted();
        if value.None? {
          return None;
        }
        attrs := attrs + [(name, value.value)];
      }
    }

    method TakeElement(depth: nat) returns (node: Option<Node>)
      requires Valid()
      modifies this
      ensures Valid()
      ensures
        var r := ReadElement(old(Rest()), depth);
        (node.Some? <==> r.Some?) && (r.Some? ==> (node.value, Rest()) == r.value)
      decreases |Rest()|, 0
    {
      if depth > MAX_DEPTH {
        return None;
      }
      if !("<" <= Rest()) {
        return None;
      }
      AdvanceBy(1);
      var name := TakeName();
      if name == "" {
        return None;
      }
      var tag := TakeTag();
      if tag.None? {
        return None;
      }
      if tag.value.1 {
        return Some(Node(name, tag.value.0, [], ""));
      }
      node := TakeContent(depth, Node(name, tag.value.0, [], ""));
    }

    method TakeContent(depth: nat, open: Node) returns (node: Option<Node>)
      requires Valid()
      modifies this
      ensures Valid()
      ensures
        var r := ReadContent(old(Rest()), depth, open);
        (node.Some? <==> r.Some?) && (r.Some? ==> (node.value, Rest()) == r.value)
      decreases |Rest()|, 1
    {
      var n := open;
      while pos < |b|
        invariant Valid() && ReadContent(Rest(), depth, n) == ReadContent(old(Rest()), depth, open)
        invariant |Rest()| <= |old(Rest())|
        decreases |Rest()|
      {
        if "</" <= Rest() {
          AdvanceBy(2);
          var _ := TakeName();
          SkipPast(">");
          return Some(n);
        }
        if "<!--" <= Rest() {
          SkipPast("-->");
          continue;
        }
        if CDATA <= Rest() {
          AdvanceBy(9);
          var end := Find(Rest(), "]]>");
          if end.Some? {
            n := n.(text := n.text + Lossy(Rest()[..end.value]));
            AdvanceBy(end.value + 3);
          } else {
            pos := |b|;
          }
          continue;
        }
        if "<?" <= Rest() {
          SkipPast("?>");
          continue;
        }
        if "<" <= Rest() {
          var child := TakeElement(depth + 1);
          if child.None? {
            return None;
          }
          n := n.(children := n.children + [child.value]);
          continue;
        }
        var run := TakeUntil(IsLess);
        n := n.(text := n.text + Unescape(Lossy(run)));
      }
      return Some(n);
    }
  }

  method Parse(input: string) returns (node: Option<Node>)
    ensures node == ParsedDocument(input)
  {
    var p := new Parser(Encode(input));
    p.SkipProlog();
    node := p.TakeElement(0);
  }
}
