/** The module reader inverts the encoding of modules (plugins/verify-artifacts.py;
    section 5.5 of the WebAssembly core specification). */
module WasmRoundTrip {
  import opened Wrappers
  import opened Text
  import opened Utf8
  import opened Sorting
  import opened WasmReader
  import opened WasmModule

  // -- reading back, piece by piece -------------------------------------------

  lemma NameBack(n: Name, rest: Bytes)
    requires GoodName(n)
    ensures ReadName(EncodeName(n) + rest) == Some((n.text, rest))
  {
    var e := Encode(n.text);
    Assoc(EncodeNum(NameLength(n)), e, rest);
    NumBack(NameLength(n), e + rest);
    LossyOfEncode(n.text);
    assert (e + rest)[..|e|] == e && (e + rest)[|e|..] == rest;
    hide Uleb, EncodeNum, Lossy, Encode;
  }

  lemma FlagThen(flag: nat, rest: Bytes)
    requires flag < 256
    ensures
      var s := [Octet(flag)] + rest;
      s != "" && ByteAt(s) == flag && s[1..] == rest && Drop(s, 1) == rest
  {
    OctetBack(flag);
  }

  /** What follows the flags of limits: the minimum, and the maximum if the flags say so. */
  lemma BoundsBack(l: Limits, rest: Bytes)
    requires GoodLimits(l)
    ensures SkipUleb(EncodeBounds(l) + rest) == Some(EncodeMax(l) + rest)
    ensures l.max.Some? ==> SkipUleb(EncodeMax(l) + rest) == Some(rest)
    ensures l.max.None? ==> EncodeMax(l) + rest == rest
  {
    Assoc(EncodeNum(l.min), EncodeMax(l), rest);
    NumBack(l.min, EncodeMax(l) + rest);
    if l.max.Some? {
      NumBack(l.max.value, rest);
    }
    assert "" + rest == rest;
    hide SkipUleb, EncodeNum;
  }

  lemma LimitsBack(l: Limits, rest: Bytes)
    requires GoodLimits(l)
    ensures SkipLimits(EncodeLimits(l) + rest) == Some(rest)
  {
    Assoc([Octet(l.flags)], EncodeBounds(l), rest);
    FlagThen(l.flags, EncodeBounds(l) + rest);
    BoundsBack(l, rest);
    hide SkipUleb, EncodeBounds, EncodeMax, ByteAt, Octet;
  }

  /** The flags of limits, taken for a number: they are one byte. */
  lemma FlagsAsNumber(l: Limits, rest: Bytes)
    requires GoodLimits(l)
    ensures SkipUleb(EncodeLimits(l) + rest) == Some(EncodeBounds(l) + rest)
  {
    Assoc([Octet(l.flags)], EncodeBounds(l), rest);
    LastDigit(l.flags, EncodeBounds(l) + rest, MAX_LEB);
    hide Uleb, EncodeBounds, Octet;
  }

  /** A heap type, taken for a number. */
  lemma {:induction false} HeapSkipped(h: Bytes, rest: Bytes, left: nat)
    requires IsHeapType(h) && |h| <= left
    ensures Uleb(h + rest, left).Some? && Uleb(h + rest, left).value.1 == rest
    decreases |h|
  {
    assert (h + rest)[0] == h[0] && (h + rest)[1..] == h[1..] + rest;
    if |h| > 1 {
      HeapSkipped(h[1..], rest, left - 1);
    } else {
      assert h[1..] + rest == rest;
    }
  }

  /** A table's limits, read one byte into its element type. */
  lemma TableUnread(h: Bytes, l: Limits, rest: Bytes)
    requires IsHeapType(h) && GoodLimits(l)
    ensures
      var odd := ByteOf(h[0]) % 2 == 1;
      SkipLimits(h + (EncodeLimits(l) + rest))
      == Some((if |h| == 1 then (if odd then EncodeMax(l) else EncodeBounds(l))
               else (if odd then EncodeBounds(l) else EncodeLimits(l))) + rest)
  {
    var s := h + (EncodeLimits(l) + rest);
    assert s[0] == h[0] && s[1..] == h[1..] + (EncodeLimits(l) + rest);
    FlagsAsNumber(l, rest);
    BoundsBack(l, rest);
    if |h| == 1 {
      assert s[1..] == EncodeLimits(l) + rest;
    } else {
      HeapSkipped(h[1..], EncodeLimits(l) + rest, MAX_LEB);
    }
    hide Uleb, EncodeBounds, EncodeMax, EncodeLimits, ByteOf, IsHeapType;
  }

  lemma TableBack(e: Bytes, l: Limits, rest: Bytes)
    requires IsValueType(e) && GoodLimits(l)
    ensures SkipDescription(1, EncodeType(TableType(e, l)) + rest) == Some(Unread(TableType(e, l)) + rest)
  {
    var s := e + EncodeLimits(l) + rest;
    Assoc(e, EncodeLimits(l), rest);
    assert Drop(s, 1) == e[1..] + (EncodeLimits(l) + rest);
    if |e| == 1 {
      assert e[1..] + (EncodeLimits(l) + rest) == EncodeLimits(l) + rest;
      LimitsBack(l, rest);
      assert "" + rest == rest;
    } else {
      TableUnread(e[1..], l, rest);
    }
    hide SkipLimits, EncodeBounds, EncodeMax, EncodeLimits, ByteOf, IsHeapType, Drop;
  }

  lemma GlobalBack(v: Bytes, m: nat, rest: Bytes)
    requires IsValueType(v) && m < 2
    ensures SkipDescription(3, EncodeType(GlobalType(v, m)) + rest) == Some(Unread(GlobalType(v, m)) + rest)
  {
    var s := v + [Octet(m)] + rest;
    if |v| == 1 {
      assert s[2..] == rest && "" + rest == rest;
    } else {
      assert s[2..] == v[2..] + [Octet(m)] + rest;
    }
  }

  /** Where the reader stops in a description, for every kind of import. */
  lemma TypeBack(d: ImportType, rest: Bytes)
    requires GoodType(d)
    ensures SkipDescription(KindOf(d), EncodeType(d) + rest) == Some(Unread(d) + rest)
  {
    assert "" + rest == rest;
    hide SkipUleb, EncodeNum, SkipLimits, EncodeLimits, Octet, IsValueType;
    match d {
      case FuncType(i) => NumBack(i, rest);
      case TableType(e, l) => TableBack(e, l, rest);
      case MemoryType(l) => LimitsBack(l, rest);
      case GlobalType(v, m) => GlobalBack(v, m, rest);
      case TagType(_) =>
    }
  }

  lemma FourTogether(a: Bytes, b: Bytes, c: Bytes, d: Bytes, rest: Bytes)
    ensures (a + (b + (c + d))) + rest == a + (b + (c + (d + rest)))
  {
  }

  lemma ImportBack(i: Import, rest: Bytes)
    requires GoodImport(i)
    ensures ReadImport(EncodeImport(i) + rest) == Some((TextOf(i), Unread(i.desc) + rest))
  {
    var d := EncodeType(i.desc);
    var k: Bytes := [Octet(KindOf(i.desc))];
    FourTogether(EncodeName(i.mod), EncodeName(i.field), k, d, rest);
    FlagThen(KindOf(i.desc), d + rest);
    hide ReadName, EncodeName, SkipDescription, EncodeType, ByteAt, Octet, KindOf, GoodType, ImportText, Unread;
    NameBack(i.mod, EncodeName(i.field) + (k + (d + rest)));
    NameBack(i.field, k + (d + rest));
    TypeBack(i.desc, rest);
  }

  lemma ThreeTogether(a: Bytes, b: Bytes, c: Bytes, rest: Bytes)
    ensures (a + (b + c)) + rest == a + (b + (c + rest))
  {
  }

  lemma ExportBack(e: Export, rest: Bytes)
    requires GoodExport(e)
    ensures ReadExport(EncodeExport(e) + rest) == Some((ExportText(e.name.text, e.kind), rest))
  {
    var k: Bytes := [Octet(e.kind)];
    ThreeTogether(EncodeName(e.name), k, EncodeNum(e.index), rest);
    FlagThen(e.kind, EncodeNum(e.index) + rest);
    hide ReadName, EncodeName, SkipUleb, EncodeNum, ByteAt, Octet, ExportText;
    NameBack(e.name, k + (EncodeNum(e.index) + rest));
    NumBack(e.index, rest);
  }

  lemma ImportsUnfold(l: seq<Import>, rest: Bytes)
    requires GoodImports(l) && l != []
    ensures GoodImport(l[0]) && GoodImports(l[1..])
    ensures EncodeImports(l) + rest == EncodeImport(l[0]) + (EncodeImports(l[1..]) + rest)
    ensures ImportTexts(l) == [TextOf(l[0])] + ImportTexts(l[1..])
  {
    hide GoodImport, EncodeImport, TextOf;
    Assoc(EncodeImport(l[0]), EncodeImports(l[1..]), rest);
  }

  lemma OneImportMore(s: Bytes, first: Bytes, tail: Bytes, count: nat, before: seq<string>, text: string,
                     texts: seq<string>, all: seq<string>)
    requires count > 0 && s == first + tail && all == [text] + texts && ReadImport(first + tail) == Some((text, tail))
    requires ReadImports(tail, count - 1, before + [text]) == Some(before + [text] + texts)
    ensures ReadImports(s, count, before) == Some(before + all)
  {
    hide ReadImport;
    Assoc(before, [text], texts);
  }

  lemma NoImportsBack(l: seq<Import>, rest: Bytes, before: seq<string>)
    requires l == []
    ensures GoodImports(l) && ReadImports(EncodeImports(l) + rest, |l|, before) == Some(before + ImportTexts(l))
  {
    assert before + [] == before;
  }

  lemma ImportsStep(l: seq<Import>, rest: Bytes, before: seq<string>, text: string, tail: Bytes)
    requires GoodImports(l) && l != [] && GoodImports(l[1..]) && Exact(l[0])
    requires text == TextOf(l[0]) && tail == EncodeImports(l[1..]) + rest
    requires ReadImports(tail, |l| - 1, before + [text]) == Some(before + [text] + ImportTexts(l[1..]))
    ensures ReadImports(EncodeImports(l) + rest, |l|, before) == Some(before + ImportTexts(l))
  {
    hide *;
    ImportsUnfold(l, rest);
    ImportBack(l[0], tail);
    NothingUnread(l[0], tail);
    OneImportMore(EncodeImports(l) + rest, EncodeImport(l[0]), tail, |l|, before, text, ImportTexts(l[1..]),
                  ImportTexts(l));
  }

  lemma NothingUnread(i: Import, tail: Bytes)
    requires GoodImport(i) && Exact(i)
    ensures Unread(i.desc) + tail == tail
  {
  }

  /** Every import but the last one is stepped over exactly. */
  predicate Aligned(l: seq<Import>) {
    forall i | 0 <= i < |l| - 1 :: Exact(l[i])
  }

  /** The first of several imports is read; what it leaves of its description stays in front of the rest. */
  lemma FirstRead(l: seq<Import>, rest: Bytes, before: seq<string>)
    requires GoodImports(l) && l != []
    ensures GoodImport(l[0]) && GoodImports(l[1..])
    ensures ReadImports(EncodeImports(l) + rest, |l|, before)
         == ReadImports(Unread(l[0].desc) + (EncodeImports(l[1..]) + rest), |l| - 1, before + [TextOf(l[0])])
  {
    FirstIsGoodImport(l);
    hide *;
    var tail := EncodeImports(l[1..]) + rest;
    ImportsUnfold(l, rest);
    ImportBack(l[0], tail);
    ReadOneImport(EncodeImports(l) + rest, |l|, before, TextOf(l[0]), Unread(l[0].desc) + tail);
  }

  lemma FirstIsGoodImport(l: seq<Import>)
    requires GoodImports(l) && l != []
    ensures GoodImport(l[0]) && GoodImports(l[1..]) && GoodType(l[0].desc)
  {
  }

  lemma LastImportBack(l: seq<Import>, rest: Bytes, before: seq<string>)
    requires GoodImports(l) && |l| == 1
    ensures ReadImports(EncodeImports(l) + rest, 1, before) == Some(before + ImportTexts(l))
  {
    FirstRead(l, rest, before);
    assert ImportTexts(l) == [TextOf(l[0])];
    hide EncodeImports, ReadImport, Unread, TextOf;
  }

  lemma AlignedRest(l: seq<Import>)
    requires Aligned(l) && |l| > 1
    ensures Exact(l[0]) && Aligned(l[1..])
  {
  }

  lemma {:induction false} ImportsBack(l: seq<Import>, rest: Bytes, before: seq<string>)
    requires Aligned(l)
    requires GoodImports(l)
    ensures ReadImports(EncodeImports(l) + rest, |l|, before) == Some(before + ImportTexts(l))
    decreases |l|
  {
    hide *;
    if |l| == 0 {
      NoImportsBack(l, rest, before);
    } else if |l| == 1 {
      LastImportBack(l, rest, before);
    } else {
      var text := TextOf(l[0]);
      ImportsUnfold(l, rest);
      AlignedRest(l);
      ImportsBack(l[1..], rest, before + [text]);
      ImportsStep(l, rest, before, text, EncodeImports(l[1..]) + rest);
    }
  }

  lemma ReadOneImport(s: Bytes, count: nat, before: seq<string>, text: string, rest: Bytes)
    requires count > 0 && ReadImport(s) == Some((text, rest))
    ensures ReadImports(s, count, before) == ReadImports(rest, count - 1, before + [text])
  {
    hide ReadImport;
  }

  lemma ExportsUnfold(l: seq<Export>, rest: Bytes)
    requires GoodExports(l) && l != []
    ensures GoodExport(l[0]) && GoodExports(l[1..])
    ensures EncodeExports(l) + rest == EncodeExport(l[0]) + (EncodeExports(l[1..]) + rest)
    ensures ExportTexts(l) == [ExportText(l[0].name.text, l[0].kind)] + ExportTexts(l[1..])
  {
    hide GoodExport, EncodeExport, ExportText;
    Assoc(EncodeExport(l[0]), EncodeExports(l[1..]), rest);
  }

  lemma OneExportMore(s: Bytes, first: Bytes, tail: Bytes, count: nat, before: seq<string>, text: string,
                     texts: seq<string>, all: seq<string>)
    requires count > 0 && s == first + tail && all == [text] + texts && ReadExport(first + tail) == Some((text, tail))
    requires ReadExports(tail, count - 1, before + [text]) == Some(before + [text] + texts)
    ensures ReadExports(s, count, before) == Some(before + all)
  {
    hide ReadExport;
    Assoc(before, [text], texts);
  }

  lemma NoExportsBack(l: seq<Export>, rest: Bytes, before: seq<string>)
    requires l == []
    ensures GoodExports(l) && ReadExports(EncodeExports(l) + rest, |l|, before) == Some(before + ExportTexts(l))
  {
    assert before + [] == before;
  }

  lemma ExportsStep(l: seq<Export>, rest: Bytes, before: seq<string>, text: string, tail: Bytes)
    requires GoodExports(l) && l != [] && GoodExports(l[1..])
    requires text == ExportText(l[0].name.text, l[0].kind) && tail == EncodeExports(l[1..]) + rest
    requires ReadExports(tail, |l| - 1, before + [text]) == Some(before + [text] + ExportTexts(l[1..]))
    ensures ReadExports(EncodeExports(l) + rest, |l|, before) == Some(before + ExportTexts(l))
  {
    hide *;
    ExportsUnfold(l, rest);
    ExportBack(l[0], tail);
    OneExportMore(EncodeExports(l) + rest, EncodeExport(l[0]), tail, |l|, before, text, ExportTexts(l[1..]),
                  ExportTexts(l));
  }

  lemma {:induction false} ExportsBack(l: seq<Export>, rest: Bytes, before: seq<string>)
    requires GoodExports(l)
    ensures ReadExports(EncodeExports(l) + rest, |l|, before) == Some(before + ExportTexts(l))
    decreases |l|
  {
    hide *;
    if |l| == 0 {
      NoExportsBack(l, rest, before);
    } else {
      var text := ExportText(l[0].name.text, l[0].kind);
      ExportsUnfold(l, rest);
      ExportsBack(l[1..], rest, before + [text]);
      ExportsStep(l, rest, before, text, EncodeExports(l[1..]) + rest);
    }
  }

  predicate SectionAligned(s: Section) {
    s.ImportSection? ==> Aligned(s.imports)
  }

  lemma SectionBack(s: Section, rest: Bytes, imports: seq<string>, exports: seq<string>)
    requires GoodList(s) && SectionAligned(s)
    ensures ReadSection(IdOf(s), ContentOf(s) + rest, imports, exports)
         == Some((imports + (if s.ImportSection? then ImportTexts(s.imports) else []),
                  exports + (if s.ExportSection? then ExportTexts(s.exports) else [])))
  {
    hide Uleb, EncodeNum, ReadImports, EncodeImports, ReadExports, EncodeExports, ImportTexts, ExportTexts;
    assert imports + [] == imports && exports + [] == exports;
    match s {
      case ImportSection(l, len, _) =>
        Assoc(EncodeNum(Num(|l|, len)), EncodeImports(l), rest);
        NumBack(Num(|l|, len), EncodeImports(l) + rest);
        ImportsBack(l, rest, imports);
      case ExportSection(l, len, _) =>
        Assoc(EncodeNum(Num(|l|, len)), EncodeExports(l), rest);
        NumBack(Num(|l|, len), EncodeExports(l) + rest);
        ExportsBack(l, rest, exports);
      case Other(_, _, _) =>
    }
  }

  /** One section and what follows it. */
  lemma SectionsStep(id: nat, size: Num, content: Bytes, rest: Bytes, imports: seq<string>, exports: seq<string>)
    requires id < 256 && GoodNum(size) && size.value == |content|
    ensures
      ReadSections([Octet(id)] + (EncodeNum(size) + (content + rest)), imports, exports)
      == match ReadSection(id, content + rest, imports, exports)
         case None => None
         case Some(l) => ReadSections(rest, l.0, l.1)
  {
    FlagThen(id, EncodeNum(size) + (content + rest));
    NumBack(size, content + rest);
    assert (content + rest)[|content|..] == rest;
    hide Uleb, EncodeNum, ReadSection, Octet, ByteAt;
  }

  /** Every import that is not stepped over exactly stands last in its section. */
  predicate AllAligned(ss: seq<Section>) {
    forall i | 0 <= i < |ss| :: SectionAligned(ss[i])
  }

  lemma {:induction false} SectionsBack(ss: seq<Section>, imports: seq<string>, exports: seq<string>)
    requires GoodSections(ss) && AllAligned(ss)
    ensures ReadSections(EncodeSections(ss), imports, exports)
         == Some((imports + AllImports(ss), exports + AllExports(ss)))
    decreases |ss|
  {
    if ss == [] {
      assert imports + [] == imports && exports + [] == exports;
    } else {
      var s, rest := ss[0], EncodeSections(ss[1..]);
      var i := if s.ImportSection? then ImportTexts(s.imports) else [];
      var e := if s.ExportSection? then ExportTexts(s.exports) else [];
      SectionsBack(ss[1..], imports + i, exports + e);
      SectionBack(s, rest, imports, exports);
      assert EncodeSections(ss) == [Octet(IdOf(s))] + (EncodeNum(SizeOf(s)) + (ContentOf(s) + rest));
      assert AllImports(ss) == i + AllImports(ss[1..]) && AllExports(ss) == e + AllExports(ss[1..]);
      hide *;
      FirstIsGood(ss);
      SectionsStep(IdOf(s), SizeOf(s), ContentOf(s), rest, imports, exports);
      Assoc(imports, i, AllImports(ss[1..]));
      Assoc(exports, e, AllExports(ss[1..]));
    }
  }

  lemma FirstIsGood(ss: seq<Section>)
    requires GoodSections(ss) && ss != []
    ensures GoodList(ss[0]) && IdOf(ss[0]) < 256 && GoodNum(SizeOf(ss[0])) && SizeOf(ss[0]).value == |ContentOf(ss[0])|
  {
  }

  lemma ModuleSections(ss: seq<Section>)
    requires GoodSections(ss)
    ensures Interface(EncodeModule(ss))
         == match ReadSections(EncodeSections(ss), [], [])
            case None => None
            case Some(l) => Some((Sort(l.0), Sort(l.1)))
  {
    var b := EncodeModule(ss);
    assert b[8..] == EncodeSections(ss);
  }

  /** The reader inverts the encoding: it reports exactly the sorted imports and exports of
      every section of a well-formed module and nothing of the other sections, if every
      import but the last of its section is one it steps over exactly. */
  lemma InterfaceOfModule(ss: seq<Section>)
    requires GoodSections(ss) && AllAligned(ss)
    ensures Interface(EncodeModule(ss)) == Some((Sort(AllImports(ss)), Sort(AllExports(ss))))
  {
    ModuleSections(ss);
    SectionsBack(ss, [], []);
    assert [] + AllImports(ss) == AllImports(ss) && [] + AllExports(ss) == AllExports(ss);
  }

  /** The reported lists are sorted and lose nothing. */
  lemma InterfaceIsSorted(ss: seq<Section>)
    requires GoodSections(ss) && AllAligned(ss)
    ensures
      var r := Interface(EncodeModule(ss));
      && r.Some? && Sorted(r.value.0) && Sorted(r.value.1)
      && multiset(r.value.0) == multiset(AllImports(ss)) && multiset(r.value.1) == multiset(AllExports(ss))
  {
    InterfaceOfModule(ss);
    SortResult(AllImports(ss));
    SortResult(AllExports(ss));
  }
}
