/** XML documents as they are written, and the trees they mean
    (crates/mw-autoconfig/src/xml.rs, crates/mw-carddav/src/request.rs). */
module XmlMarkup {
  import opened Text
  import opened XmlEscape
  import opened XmlReader

  // -- what a document is made of ----------------------------------------------

  /** An attribute behind blanks: alone, or with a value in quotes as it is written. */
  datatype Attr =
    | Bare(lead: string, name: string)
    | Quoted(lead: string, name: string, before: string, after: string, quote: char, raw: string)

  datatype Item =
    | Run(raw: string)
    | Comment(text: string)
    | Cdata(text: string)
    | Instruction(text: string)
    | Child(element: Element)

  /** What stands in the closing tag is free: the reader does not compare it. */
  datatype Element =
    | SelfClosed(name: string, attrs: seq<Attr>, blanks: string)
    | Open(name: string, attrs: seq<Attr>, blanks: string, items: seq<Item>, close: string)

  /** What may stand before the root. */
  datatype Misc = Blanks(s: string) | Declaration(text: string) | Remark(text: string) | Doctype(text: string)

  // -- how it is written, in front of more text --------------------------------

  function AttrOnto(a: Attr, rest: string): string {
    match a
    case Bare(lead, name) => lead + (name + rest)
    case Quoted(lead, name, before, after, quote, raw) =>
      lead + (name + (before + ("=" + (after + ([quote] + (raw + ([quote] + rest)))))))
  }

  function AttrsOnto(attrs: seq<Attr>, rest: string): string {
    if attrs == [] then rest else AttrOnto(attrs[0], AttrsOnto(attrs[1..], rest))
  }

  function CloseOnto(close: string, rest: string): string {
    "</" + (close + (">" + rest))
  }

  function ElementOnto(e: Element, rest: string): string
    decreases e
  {
    "<" + (e.name + AttrsOnto(e.attrs, e.blanks +
             match e
             case SelfClosed(_, _, _) => "/>" + rest
             case Open(_, _, _, items, close) => ">" + ItemsOnto(items, CloseOnto(close, rest))))
  }

  function ItemOnto(i: Item, rest: string): string
    decreases i
  {
    match i
    case Run(raw) => raw + rest
    case Comment(text) => "<!--" + (text + ("-->" + rest))
    case Cdata(text) => CDATA + (text + ("]]>" + rest))
    case Instruction(text) => "<?" + (text + ("?>" + rest))
    case Child(e) => ElementOnto(e, rest)
  }

  function ItemsOnto(items: seq<Item>, rest: string): string
    decreases items
  {
    if items == [] then rest else ItemOnto(items[0], ItemsOnto(items[1..], rest))
  }

  function MiscOnto(m: Misc, rest: string): string {
    match m
    case Blanks(s) => s + rest
    case Declaration(text) => "<?" + (text + ("?>" + rest))
    case Remark(text) => "<!--" + (text + ("-->" + rest))
    case Doctype(text) => "<!" + (text + (">" + rest))
  }

  function PrologOnto(prolog: seq<Misc>, rest: string): string {
    if prolog == [] then rest else MiscOnto(prolog[0], PrologOnto(prolog[1..], rest))
  }

  // -- what it means -----------------------------------------------------------

  function AttrMeaning(a: Attr): (string, string) {
    (a.name, if a.Bare? then "" else Unescape(a.raw))
  }

  function AttrMeanings(attrs: seq<Attr>): seq<(string, string)> {
    if attrs == [] then [] else [AttrMeaning(attrs[0])] + AttrMeanings(attrs[1..])
  }

  /** The text runs with their entities undone and the CDATA sections as they are. */
  function TextOf(items: seq<Item>): string {
    if items == [] then "" else TextIn(items[0]) + TextOf(items[1..])
  }

  function TextIn(i: Item): string {
    match i case Run(raw) => Unescape(raw) case Cdata(text) => text case _ => ""
  }

  function ChildrenOf(items: seq<Item>): seq<Node>
    decreases items
  {
    if items == [] then [] else ChildOf(items[0]) + ChildrenOf(items[1..])
  }

  function ChildOf(i: Item): seq<Node>
    decreases i
  {
    match i case Child(e) => [Meaning(e)] case _ => []
  }

  function Meaning(e: Element): Node
    decreases e
  {
    match e
    case SelfClosed(name, attrs, _) => Node(name, AttrMeanings(attrs), [], "")
    case Open(name, attrs, _, items, _) => Node(name, AttrMeanings(attrs), ChildrenOf(items), TextOf(items))
  }

  // -- what may be written -----------------------------------------------------

  predicate Blank(s: string) {
    forall i | 0 <= i < |s| :: IsAsciiSpace(s[i])
  }

  predicate LegalAttrName(n: string) {
    n != "" && forall i | 0 <= i < |n| :: !EndsName(n[i])
  }

  predicate LegalName(n: string) {
    LegalAttrName(n) && n[0] != '!' && n[0] != '?'
  }

  predicate LegalAttr(a: Attr) {
    && Blank(a.lead) && a.lead != "" && LegalAttrName(a.name)
    && (a.Quoted? ==> Blank(a.before) && Blank(a.after) && a.quote in {'"', '\''} && a.quote !in a.raw)
  }

  predicate LegalAttrs(attrs: seq<Attr>) {
    forall i | 0 <= i < |attrs| :: LegalAttr(attrs[i])
  }

  /** The marker does not occur before the end of `s`. */
  predicate EndsFirst(s: string, marker: string) {
    forall i: nat | i < |s| :: !MatchesAt(s + marker, marker, i)
  }

  predicate LegalItem(i: Item)
    decreases i
  {
    match i
    case Run(raw) => raw != "" && '<' !in raw
    case Comment(text) => EndsFirst("<!--" + text, "-->")
    case Cdata(text) => EndsFirst(text, "]]>")
    case Instruction(text) => EndsFirst("<?" + text, "?>")
    case Child(e) => Legal(e)
  }

  /** No two runs side by side: they would be one. */
  predicate LegalItems(items: seq<Item>)
    decreases items
  {
    items == [] ||
    (LegalItem(items[0]) && LegalItems(items[1..]) && (items[0].Run? && |items| > 1 ==> !items[1].Run?))
  }

  predicate Legal(e: Element)
    decreases e
  {
    && LegalName(e.name) && LegalAttrs(e.attrs) && Blank(e.blanks)
    && match e
       case SelfClosed(_, _, _) => true
       case Open(_, _, _, items, close) => LegalItems(items) && '>' !in close
  }

  predicate LegalMisc(m: Misc) {
    match m
    case Blanks(s) => Blank(s)
    case Declaration(text) => EndsFirst("<?" + text, "?>")
    case Remark(text) => EndsFirst("<!--" + text, "-->")
    case Doctype(text) => '>' !in text && !("--" <= text)
  }

  predicate LegalProlog(prolog: seq<Misc>) {
    forall i | 0 <= i < |prolog| :: LegalMisc(prolog[i])
  }

  // -- how deep a tree is ------------------------------------------------------

  /** How many elements are nested, the outermost included. */
  function Levels(t: Node): (n: nat)
    ensures n >= 1
    decreases t
  {
    1 + MostLevels(t.children)
  }

  function MostLevels(nodes: seq<Node>): nat
    decreases nodes
  {
    if nodes == [] then 0 else
      var first, rest := Levels(nodes[0]), MostLevels(nodes[1..]);
      if first > rest then first else rest
  }

  // -- every tree is meant by some document ------------------------------------

  function PlainAttrs(attrs: seq<(string, string)>): seq<Attr> {
    if attrs == [] then [] else
      [PlainAttr(attrs[0])] + PlainAttrs(attrs[1..])
  }

  function PlainChildren(nodes: seq<Node>): seq<Item>
    decreases nodes
  {
    if nodes == [] then [] else [Child(Plain(nodes[0]))] + PlainChildren(nodes[1..])
  }

  /** A tree as the repository writes XML: escaped texts, the text before the children. */
  function Plain(t: Node): Element
    decreases t
  {
    Open(t.name, PlainAttrs(t.attrs), "",
         (if t.text == "" then [] else [Run(Escape(t.text))]) + PlainChildren(t.children), t.name)
  }

  function Print(t: Node): string {
    ElementOnto(Plain(t), "")
  }

  /** Names that can be written. */
  predicate Writable(t: Node)
    decreases t
  {
    && LegalName(t.name) && (forall i | 0 <= i < |t.attrs| :: LegalAttrName(t.attrs[i].0))
    && AllWritable(t.children)
  }

  predicate AllWritable(nodes: seq<Node>)
    decreases nodes
  {
    nodes == [] || (Writable(nodes[0]) && AllWritable(nodes[1..]))
  }

  function PlainAttr(a: (string, string)): Attr {
    Quoted(" ", a.0, "", "", '"', Escape(a.1))
  }

  lemma PlainAttrMeans(a: (string, string))
    requires LegalAttrName(a.0)
    ensures LegalAttr(PlainAttr(a)) && AttrMeaning(PlainAttr(a)) == a
  {
    UnescapeOfEscape(a.1);
    EscapedIsClean(a.1, '"');
    hide Escape, Unescape;
  }

  lemma {:induction false} PlainAttrsMean(attrs: seq<(string, string)>)
    requires forall i | 0 <= i < |attrs| :: LegalAttrName(attrs[i].0)
    ensures LegalAttrs(PlainAttrs(attrs)) && AttrMeanings(PlainAttrs(attrs)) == attrs
    decreases |attrs|
  {
    if attrs != [] {
      PlainAttrsMean(attrs[1..]);
      PlainAttrMeans(attrs[0]);
      hide LegalAttr, AttrMeaning, LegalAttrName, PlainAttr;
      assert PlainAttrs(attrs)[1..] == PlainAttrs(attrs[1..]);
      assert [attrs[0]] + attrs[1..] == attrs;
    }
  }

  lemma EscapeNotEmpty(text: string)
    requires text != ""
    ensures Escape(text) != ""
  {
    if text[0] in META {
      EntityShape(text[0]);
    }
  }

  lemma {:induction false} PlainChildrenMean(nodes: seq<Node>)
    requires AllWritable(nodes)
    ensures LegalItems(PlainChildren(nodes)) && ChildrenOf(PlainChildren(nodes)) == nodes
    ensures TextOf(PlainChildren(nodes)) == ""
    ensures forall i | 0 <= i < |PlainChildren(nodes)| :: PlainChildren(nodes)[i].Child?
    decreases nodes, 0
  {
    if nodes != [] {
      PlainChildrenMean(nodes[1..]);
      EveryTreeIsMeant(nodes[0]);
      hide Plain, Meaning, Legal;
      assert PlainChildren(nodes)[1..] == PlainChildren(nodes[1..]);
      assert [nodes[0]] + nodes[1..] == nodes;
    }
  }

  lemma RunThen(raw: string, items: seq<Item>)
    requires raw != "" && '<' !in raw && LegalItems(items) && (items != [] ==> !items[0].Run?)
    ensures LegalItems([Run(raw)] + items) && ChildrenOf([Run(raw)] + items) == ChildrenOf(items)
    ensures TextOf([Run(raw)] + items) == Unescape(raw) + TextOf(items)
  {
    assert ([Run(raw)] + items)[1..] == items;
    assert [] + ChildrenOf(items) == ChildrenOf(items);
  }

  /** Every tree with legal names is what some legal document means. */
  lemma {:induction false} EveryTreeIsMeant(t: Node)
    requires Writable(t)
    ensures Legal(Plain(t)) && Meaning(Plain(t)) == t
    decreases t, 1
  {
    PlainAttrsMean(t.attrs);
    PlainChildrenMean(t.children);
    NamesNoBracket(t.name);
    var items := PlainChildren(t.children);
    hide LegalItems, LegalAttrs, ChildrenOf, TextOf, Escape, Unescape, LegalName;
    if t.text == "" {
      assert [] + items == items;
    } else {
      UnescapeOfEscape(t.text);
      EscapedIsClean(t.text, '<');
      EscapeNotEmpty(t.text);
      RunThen(Escape(t.text), items);
      assert t.text + "" == t.text;
    }
  }

  lemma NamesNoBracket(n: string)
    requires LegalName(n)
    ensures '>' !in n
  {
  }
}
