/** What the module reader reports when it does not step over an import exactly, and exactly
    when its report is right (plugins/verify-artifacts.py). */
module WasmMisread {
  import opened Wrappers
  import opened Text
  import opened Utf8
  import opened Sorting
  import opened WasmReader
  import opened WasmModule
  import opened WasmRoundTrip

  // -- behind an import that is not stepped over ------------------------------

  lemma EmptyName(rest: Bytes)
    ensures ReadName([Octet(0)] + rest) == Some(("", rest))
  {
    LastDigit(0, rest, MAX_LEB);
    assert rest[..0] == "" && rest[0..] == rest && Lossy("") == "";
  }

  /** The reader does not step over a tag's description. Whatever follows, the next import
      is read from the attribute byte on: its module name is empty, its field is as many of
      the following bytes as the tag's type index says, and it is refused if there are
      fewer. */
  lemma AfterTag(index: Num, rest: Bytes)
    requires GoodNum(index)
    ensures
      var n := index.value;
      ReadImport(EncodeType(TagType(index)) + rest)
      == if n >= |rest| then None else
           match SkipDescription(ByteAt(rest[n..]), rest[n + 1..])
           case None => None
           case Some(s) => Some(("." + Lossy(rest[..n]), s))
  {
    var tail, n := EncodeNum(index) + rest, index.value;
    Assoc([Octet(0)], EncodeNum(index), rest);
    EmptyName(tail);
    NumBack(index, rest);
    assert "" + "." == ".";
    hide Uleb, EncodeNum, Lossy, SkipDescription, ByteAt, Octet;
    if n < |rest| {
      assert rest[n..][1..] == rest[n + 1..];
    }
  }

  /** For one: a tag of type 0 hides the next import's names. */
  lemma TagImportIsMisread(t: Import, rest: Bytes)
    requires GoodImport(t) && t.desc == TagType(Num(0, 1))
    ensures
      var r := ReadImports(EncodeImport(t) + rest, 2, []);
      r.Some? ==> r.value == [TextOf(t), "."]
  {
    var text := TextOf(t);
    ImportBack(t, rest);
    AfterTag(Num(0, 1), rest);
    assert rest[..0] == "" && Lossy("") == "" && "." + "" == ".";
    assert [] + [text] == [text];
    hide TextOf, EncodeImport, EncodeType, SkipDescription, ReadImport, Lossy;
  }

  /** An immutable global of a two-byte type leaves its mutability byte, 0: the next import
      is read with an empty module name and its own module name as field. */
  lemma AfterGlobal(v: Bytes, next: Import, rest: Bytes)
    requires IsValueType(v) && |v| == 2 && GoodImport(next)
    ensures
      var r := ReadImport(Unread(GlobalType(v, 0)) + (EncodeImport(next) + rest));
      r.Some? ==> r.value.0 == "." + next.mod.text
  {
    var field, k, d := EncodeName(next.field), [Octet(KindOf(next.desc))], EncodeType(next.desc);
    assert Unread(GlobalType(v, 0)) == [Octet(0)] by { assert v[2..] == ""; }
    FourTogether(EncodeName(next.mod), field, k, d, rest);
    hide ReadName, EncodeName, SkipDescription, EncodeType, ByteAt, Octet, KindOf, Unread;
    EmptyName(EncodeImport(next) + rest);
    NameBack(next.mod, field + (k + (d + rest)));
    assert "" + "." + next.mod.text == "." + next.mod.text;
  }

  /** The global `m.g` of type `(ref null 0)`, and the function `a.b`. */
  const REF_GLOBAL := Import(Name("m", 1), Name("g", 1), GlobalType([Octet(0x63), Octet(0)], 0))
  const PLAIN_FUNC := Import(Name("a", 1), Name("b", 1), FuncType(Num(0, 1)))

  lemma LetterName(c: string)
    requires |c| == 1 && IsAscii(c)
    ensures GoodName(Name(c, 1)) && EncodeName(Name(c, 1)) == [Octet(1)] + c
  {
    EncodeAscii(c);
    assert Pow128(1) == 128 * Pow128(0);
  }

  lemma SmallImports()
    ensures GoodImport(REF_GLOBAL) && GoodImport(PLAIN_FUNC)
    ensures TextOf(REF_GLOBAL) == "m.g" && TextOf(PLAIN_FUNC) == "a.b"
    ensures Unread(REF_GLOBAL.desc) == [Octet(0)]
    ensures EncodeImport(PLAIN_FUNC) == ([Octet(1)] + "a") + ([Octet(1)] + ['b', Octet(0), Octet(0)])
  {
    LetterName("m");
    LetterName("g");
    LetterName("a");
    LetterName("b");
    assert Pow128(1) == 128 * Pow128(0);
    assert "m" + "." + "g" == "m.g" && "a" + "." + "b" == "a.b";
    assert REF_GLOBAL.desc.value[2..] == "";
    assert EncodeImport(PLAIN_FUNC)
        == ([Octet(1)] + "a") + (([Octet(1)] + "b") + ([Octet(0)] + [Octet(0)]));
    FourCharacters(Octet(1), 'b', Octet(0), Octet(0));
  }

  lemma FourCharacters(a: char, b: char, c: char, d: char)
    ensures ([a] + [b]) + ([c] + [d]) == [a] + [b, c, d]
  {
  }

  lemma FieldThenTable(name: Name, rest: Bytes, s: Bytes)
    requires GoodName(name) && SkipDescription(1, rest) == Some(s)
    ensures ReadImport([Octet(0)] + (EncodeName(name) + ([Octet(1)] + rest))) == Some(("." + name.text, s))
  {
    EmptyName(EncodeName(name) + ([Octet(1)] + rest));
    NameBack(name, [Octet(1)] + rest);
    FlagThen(1, rest);
    assert "" + "." + name.text == "." + name.text;
    hide ReadName, EncodeName, SkipDescription, ByteAt, Octet;
  }

  lemma FunctionBytes()
    ensures GoodName(Name("a", 1))
    ensures EncodeImport(PLAIN_FUNC) == EncodeName(Name("a", 1)) + ([Octet(1)] + ['b', Octet(0), Octet(0)])
  {
    hide *;
    SmallImports();
    LetterIsAscii();
    LetterName("a");
  }

  lemma LetterIsAscii()
    ensures |"a"| == 1 && IsAscii("a")
  {
  }

  lemma FieldText()
    ensures "." + Name("a", 1).text == ".a"
  {
  }

  /** The function behind the global's last byte is taken for a table `.a`. */
  lemma MisreadFunction()
    ensures ReadImport([Octet(0)] + EncodeImport(PLAIN_FUNC)) == Some((".a", ""))
  {
    hide *;
    FunctionBytes();
    MisreadTable();
    FieldText();
    FieldThenTable(Name("a", 1), ['b', Octet(0), Octet(0)], "");
  }

  lemma MisreadTable()
    ensures SkipDescription(1, ['b', Octet(0), Octet(0)]) == Some("")
  {
    MisreadLimits();
    assert Drop(['b', Octet(0), Octet(0)], 1) == [Octet(0), Octet(0)];
    hide SkipLimits;
  }

  lemma MisreadLimits()
    ensures SkipLimits([Octet(0), Octet(0)]) == Some("")
  {
    assert [Octet(0), Octet(0)][1..] == [Octet(0)] + "";
    LastDigit(0, "", MAX_LEB);
  }

  /** For one: nothing is refused, no tag occurs, and a wrong import is reported. */
  lemma GlobalImportIsMisread()
    ensures GoodImports([REF_GLOBAL, PLAIN_FUNC]) && TextOf(REF_GLOBAL) == "m.g" && TextOf(PLAIN_FUNC) == "a.b"
    ensures ReadImports(EncodeImports([REF_GLOBAL, PLAIN_FUNC]), 2, []) == Some(["m.g", ".a"])
  {
    hide *;
    SmallImports();
    MisreadFunction();
    TwoImports(REF_GLOBAL, PLAIN_FUNC);
    TwoRead(REF_GLOBAL, PLAIN_FUNC, ".a");
  }

  lemma TwoRead(i: Import, j: Import, second: string)
    requires GoodImport(i) && GoodImport(j) && GoodImports([i, j])
    requires ReadImport(Unread(i.desc) + EncodeImport(j)) == Some((second, ""))
    ensures ReadImports(EncodeImports([i, j]), 2, []) == Some([TextOf(i), second])
  {
    FirstIsGoodImport([i, j]);
    hide *;
    TwoImports(i, j);
    FirstRead([i, j], "", []);
    ReadOneImport(Unread(i.desc) + EncodeImport(j), 1, [TextOf(i)], second, "");
    NoMore([TextOf(i)] + [second]);
    Pairs(TextOf(i), second);
  }

  lemma Pairs(a: string, b: string)
    ensures [] + [a] == [a] && [a] + [b] == [a, b]
  {
  }

  lemma NoMore(out: seq<string>)
    ensures ReadImports("", 0, out) == Some(out)
  {
  }

  lemma TwoImports(i: Import, j: Import)
    requires GoodImport(i) && GoodImport(j)
    ensures GoodImports([i, j]) && [i, j][1..] == [j] && EncodeImports([j]) + "" == EncodeImport(j)
    ensures EncodeImports([i, j]) + "" == EncodeImports([i, j])
  {
    assert [j][1..] == [];
    hide GoodImport, EncodeImport;
  }

  // -- names that give a misreading away --------------------------------------

  /** A text that starts with a dot or a control character. */
  predicate Odd(s: string) {
    s != "" && (s[0] == '.' || s[0] < ' ')
  }

  predicate SomeOdd(l: seq<string>) {
    exists i :: 0 <= i < |l| && Odd(l[i])
  }

  /** What is left of the import starts with the number 0. */
  predicate Blank(i: Import) {
    GoodType(i.desc) && match Uleb(Unread(i.desc), MAX_LEB) case Some(n) => n.0 == 0 case None => false
  }

  /** Tags and immutable globals with a type of two bytes are of this kind. */
  lemma TagsAreBlank(i: Import)
    requires GoodType(i.desc)
    requires i.desc.TagType? || (i.desc.GlobalType? && |i.desc.value| == 2 && i.desc.mutability == 0)
    ensures Blank(i) && !Exact(i)
  {
    if i.desc.TagType? {
      LastDigit(0, EncodeNum(i.desc.index), MAX_LEB);
    } else {
      assert i.desc.value[2..] == "";
      LastDigit(0, "", MAX_LEB);
      assert Unread(i.desc) == [Octet(0)] + "";
    }
  }

  /** What is left of the import makes the next one's name start with a dot, or with a
      control character: a mutable global with a type of two bytes leaves the number 1, and
      the length of a module name below 32 is then read as the name. */
  predicate GivesAway(i: Import, next: Import) {
    Blank(i) || (GoodType(i.desc) && Unread(i.desc) == [Octet(1)] && next.mod.len == 1 && |Encode(next.mod.text)| < 32)
  }

  lemma {:induction false} UlebPrefix(s: Bytes, rest: Bytes, left: nat)
    requires Uleb(s, left).Some?
    ensures Uleb(s + rest, left) == Some((Uleb(s, left).value.0, Uleb(s, left).value.1 + rest))
    decreases left
  {
    assert (s + rest)[0] == s[0] && (s + rest)[1..] == s[1..] + rest;
    if ByteOf(s[0]) >= 0x80 {
      UlebPrefix(s[1..], rest, left - 1);
    }
  }

  lemma AfterBlank(i: Import, rest: Bytes)
    requires Blank(i)
    ensures var r := ReadImport(Unread(i.desc) + rest); r.Some? ==> Odd(r.value.0)
  {
    var s := Unread(i.desc);
    UlebPrefix(s, rest, MAX_LEB);
    var tail := Uleb(s, MAX_LEB).value.1 + rest;
    assert tail[..0] == "" && tail[0..] == tail && Lossy("") == "";
    assert ReadName(s + rest) == Some(("", tail));
    hide ReadName, SkipDescription, Uleb, Unread;
  }

  lemma LossyOfControl(c: char)
    requires c < ' '
    ensures Lossy([c]) == [c]
  {
    assert [c][1..] == [];
    LossyUnfold([c], c, 1);
  }

  lemma AfterMutable(next: Import, rest: Bytes)
    requires GoodImport(next) && next.mod.len == 1 && |Encode(next.mod.text)| < 32
    ensures var r := ReadImport([Octet(1)] + (EncodeImport(next) + rest)); r.Some? ==> Odd(r.value.0)
  {
    var tail := EncodeImport(next) + rest;
    var n := |Encode(next.mod.text)|;
    assert EncodeNum(NameLength(next.mod)) == [Octet(n)];
    assert EncodeName(next.mod) == [Octet(n)] + Encode(next.mod.text);
    assert tail[0] == Octet(n);
    hide Encode, EncodeImport, EncodeName, GoodImport;
    LastDigit(1, tail, MAX_LEB);
    assert tail[..1] == [Octet(n)];
    LossyOfControl(Octet(n));
    assert ReadName([Octet(1)] + tail) == Some(([Octet(n)], tail[1..]));
    hide ReadName, SkipDescription, Uleb;
  }

  lemma AfterGiven(i: Import, next: Import, rest: Bytes)
    requires GivesAway(i, next) && GoodImport(next)
    ensures GoodType(i.desc)
    ensures var r := ReadImport(Unread(i.desc) + (EncodeImport(next) + rest)); r.Some? ==> Odd(r.value.0)
  {
    if Blank(i) {
      AfterBlank(i, EncodeImport(next) + rest);
    } else {
      AfterMutable(next, rest);
    }
    hide ReadImport, EncodeImport, Odd;
  }

  // -- a wrong report ----------------------------------------------------------

  /** The first import that is not stepped over, if it is not the last one, gives the
      misreading away. */
  predicate Decided(l: seq<Import>) {
    if |l| <= 1 then true
    else if Exact(l[0]) then Decided(l[1..])
    else GivesAway(l[0], l[1])
  }

  /** So it does if every import but the last is stepped over or leaves the number 0. */
  lemma {:induction false} DecidedIf(l: seq<Import>)
    requires forall i | 0 <= i < |l| - 1 :: Exact(l[i]) || Blank(l[i])
    ensures Decided(l)
    decreases |l|
  {
    if |l| > 1 {
      assert Exact(l[0]) || Blank(l[0]);
      assert forall i | 0 <= i < |l[1..]| - 1 :: l[1..][i] == l[i + 1];
      hide Exact, Blank;
      DecidedIf(l[1..]);
    }
  }

  lemma OddPrefix(a: seq<string>, b: seq<string>)
    requires SomeOdd(a)
    ensures SomeOdd(a + b)
  {
    var i :| 0 <= i < |a| && Odd(a[i]);
    assert (a + b)[i] == a[i];
  }

  /** Reading on never drops an entry. */
  lemma {:induction false} ImportsKeepOdd(s: Bytes, count: nat, before: seq<string>)
    requires SomeOdd(before)
    ensures var r := ReadImports(s, count, before); r.Some? ==> SomeOdd(r.value)
    decreases count
  {
    hide ReadImport;
    if count > 0 && ReadImport(s).Some? {
      var r := ReadImport(s).value;
      OddPrefix(before, [r.0]);
      ImportsKeepOdd(r.1, count - 1, before + [r.0]);
    }
  }

  lemma LastOdd(a: seq<string>, x: string)
    requires Odd(x)
    ensures SomeOdd(a + [x])
  {
    assert (a + [x])[|a|] == x;
  }

  lemma OddNext(s: Bytes, count: nat, before: seq<string>)
    requires count > 0 && (ReadImport(s).Some? ==> Odd(ReadImport(s).value.0))
    ensures var r := ReadImports(s, count, before); r.Some? ==> SomeOdd(r.value)
  {
    hide *;
    ImportsNext(s, count, before);
    if ReadImport(s).Some? {
      var n := ReadImport(s).value;
      LastOdd(before, n.0);
      ImportsKeepOdd(n.1, count - 1, before + [n.0]);
    }
  }

  /** An import that gives itself away before another one: reading fails or reports an odd
      name. */
  lemma GivenFirst(l: seq<Import>, rest: Bytes, before: seq<string>)
    requires GoodImports(l) && |l| > 1 && GivesAway(l[0], l[1])
    ensures var r := ReadImports(EncodeImports(l) + rest, |l|, before); r.Some? ==> SomeOdd(r.value)
  {
    var tail := EncodeImports(l[1..]) + rest;
    FirstIsGoodImport(l);
    FirstRead(l, rest, before);
    ImportsUnfold(l[1..], rest);
    assert l[1..][0] == l[1] && tail == EncodeImport(l[1]) + (EncodeImports(l[1..][1..]) + rest);
    AfterGiven(l[0], l[1], EncodeImports(l[1..][1..]) + rest);
    hide *;
    OddNext(Unread(l[0].desc) + tail, |l| - 1, before + [TextOf(l[0])]);
  }

  lemma {:induction false} ImportsMisread(l: seq<Import>, rest: Bytes, before: seq<string>)
    requires GoodImports(l) && !Aligned(l) && Decided(l)
    ensures var r := ReadImports(EncodeImports(l) + rest, |l|, before); r.Some? ==> SomeOdd(r.value)
    decreases |l|
  {
    LaterImport(l);
    if !Exact(l[0]) {
      GivenFirst(l, rest, before);
    } else {
      FirstIsGoodImport(l);
      hide *;
      FirstRead(l, rest, before);
      NothingUnread(l[0], EncodeImports(l[1..]) + rest);
      ImportsMisread(l[1..], rest, before + [TextOf(l[0])]);
    }
  }

  lemma LaterImport(l: seq<Import>)
    requires GoodImports(l) && !Aligned(l) && Decided(l)
    ensures |l| > 1
    ensures if Exact(l[0]) then GoodImports(l[1..]) && !Aligned(l[1..]) && Decided(l[1..]) else GivesAway(l[0], l[1])
  {
    var i :| 0 <= i < |l| - 1 && !Exact(l[i]);
    if i > 0 {
      assert l[1..][i - 1] == l[i];
    }
    hide Exact, GoodImport, GivesAway;
  }

  predicate SectionDecided(s: Section) {
    s.ImportSection? ==> Decided(s.imports)
  }

  lemma SectionMisread(s: Section, rest: Bytes, imports: seq<string>, exports: seq<string>)
    requires GoodList(s) && !SectionAligned(s) && SectionDecided(s)
    ensures var r := ReadSection(IdOf(s), ContentOf(s) + rest, imports, exports); r.Some? ==> SomeOdd(r.value.0)
  {
    var l, count := s.imports, Num(|s.imports|, s.countLen);
    Assoc(EncodeNum(count), EncodeImports(l), rest);
    NumBack(count, EncodeImports(l) + rest);
    ImportsMisread(l, rest, imports);
    hide Uleb, EncodeNum, ReadImports, EncodeImports, Aligned, Decided, SomeOdd;
  }

  lemma SectionKeepsOdd(id: nat, s: Bytes, imports: seq<string>, exports: seq<string>)
    requires SomeOdd(imports)
    ensures var r := ReadSection(id, s, imports, exports); r.Some? ==> SomeOdd(r.value.0)
  {
    if id == 2 && Uleb(s, MAX_LEB).Some? {
      var count := Uleb(s, MAX_LEB).value;
      ImportsKeepOdd(count.1, count.0, imports);
    }
    hide Uleb, ReadImports, ReadExports, SomeOdd;
  }

  lemma {:induction false} SectionsKeepOdd(s: Bytes, imports: seq<string>, exports: seq<string>)
    requires SomeOdd(imports)
    ensures var r := ReadSections(s, imports, exports); r.Some? ==> SomeOdd(r.value.0)
    decreases |s|
  {
    hide Uleb, ReadSection, SomeOdd, ByteAt;
    if s != "" && Uleb(s[1..], MAX_LEB).Some? {
      var size := Uleb(s[1..], MAX_LEB).value;
      if size.0 <= |size.1| && ReadSection(ByteAt(s), size.1, imports, exports).Some? {
        var l := ReadSection(ByteAt(s), size.1, imports, exports).value;
        SectionKeepsOdd(ByteAt(s), size.1, imports, exports);
        SectionsKeepOdd(size.1[size.0..], l.0, l.1);
      }
    }
  }

  /** In every section the first import that is not stepped over gives the misreading
      away. */
  predicate AllDecided(ss: seq<Section>) {
    forall i | 0 <= i < |ss| :: SectionDecided(ss[i])
  }

  lemma {:induction false} SectionsMisread(ss: seq<Section>, imports: seq<string>, exports: seq<string>)
    requires GoodSections(ss) && !AllAligned(ss) && AllDecided(ss)
    ensures var r := ReadSections(EncodeSections(ss), imports, exports); r.Some? ==> SomeOdd(r.value.0)
    decreases |ss|
  {
    var s, rest := ss[0], EncodeSections(ss[1..]);
    FirstIsGood(ss);
    assert EncodeSections(ss) == [Octet(IdOf(s))] + (EncodeNum(SizeOf(s)) + (ContentOf(s) + rest));
    LaterSection(ss);
    hide *;
    SectionsStep(IdOf(s), SizeOf(s), ContentOf(s), rest, imports, exports);
    var l := ReadSection(IdOf(s), ContentOf(s) + rest, imports, exports);
    if l.Some? {
      if !SectionAligned(s) {
        SectionMisread(s, rest, imports, exports);
        SectionsKeepOdd(rest, l.value.0, l.value.1);
      } else {
        SectionsMisread(ss[1..], l.value.0, l.value.1);
      }
    }
  }

  lemma LaterSection(ss: seq<Section>)
    requires GoodSections(ss) && !AllAligned(ss) && AllDecided(ss)
    ensures ss != [] && GoodSections(ss[1..]) && SectionDecided(ss[0])
    ensures SectionAligned(ss[0]) ==> !AllAligned(ss[1..]) && AllDecided(ss[1..])
  {
    hide SectionAligned, SectionDecided, GoodList, GoodNum, SizeOf;
    GoodLater(ss);
    MisreadLater(ss);
    hide GoodSections;
  }

  lemma GoodLater(ss: seq<Section>)
    requires GoodSections(ss) && ss != []
    ensures GoodSections(ss[1..])
  {
    hide GoodList, GoodNum, SizeOf;
    forall i | 0 <= i < |ss[1..]| ensures GoodList(ss[1..][i]) && GoodNum(SizeOf(ss[1..][i])) {
      assert ss[1..][i] == ss[i + 1];
    }
  }

  lemma MisreadLater(ss: seq<Section>)
    requires !AllAligned(ss)
    ensures ss != [] && (SectionAligned(ss[0]) ==> !AllAligned(ss[1..]))
  {
    hide SectionAligned;
    var i :| 0 <= i < |ss| && !SectionAligned(ss[i]);
    if i > 0 {
      assert ss[1..][i - 1] == ss[i];
    }
  }

  /** Module names as they are in practice: not empty, and starting with neither a dot nor a
      control character. */
  predicate PlainModules(ss: seq<Section>) {
    forall i | 0 <= i < |ss| && ss[i].ImportSection? :: PlainImports(ss[i].imports)
  }

  predicate PlainImports(l: seq<Import>) {
    forall j | 0 <= j < |l| :: l[j].mod.text != "" && !Odd(l[j].mod.text)
  }

  lemma NotOddConcat(a: seq<string>, b: seq<string>)
    requires !SomeOdd(a) && !SomeOdd(b)
    ensures !SomeOdd(a + b)
  {
    forall i | 0 <= i < |a + b| ensures !Odd((a + b)[i]) {
      assert (a + b)[i] == if i < |a| then a[i] else b[i - |a|];
    }
  }

  lemma {:induction false} TextsNotOdd(l: seq<Import>)
    requires PlainImports(l)
    ensures !SomeOdd(ImportTexts(l))
    decreases |l|
  {
    if l != [] {
      assert PlainImports(l[1..]) && !Odd(TextOf(l[0]));
      TextsNotOdd(l[1..]);
      hide Odd, TextOf;
      NotOddConcat([TextOf(l[0])], ImportTexts(l[1..]));
    }
  }

  lemma {:induction false} ImportsNotOdd(ss: seq<Section>)
    requires PlainModules(ss)
    ensures !SomeOdd(AllImports(ss))
    decreases |ss|
  {
    if ss != [] {
      assert PlainModules(ss[1..]);
      ImportsNotOdd(ss[1..]);
      if ss[0].ImportSection? {
        TextsNotOdd(ss[0].imports);
      }
      hide ImportTexts, Odd, PlainImports;
      NotOddConcat(if ss[0].ImportSection? then ImportTexts(ss[0].imports) else [], AllImports(ss[1..]));
    }
  }

  /** Exactly when the reader is right about a module whose module names are plain: every
      import that is not stepped over exactly stands last in its section, where the
      section's size skips it. Where a table or global of a longer type leaves another
      number in front of the next import, what is read can agree by coincidence; every
      other case is decided. */
  lemma InterfaceIsRightIff(ss: seq<Section>)
    requires GoodSections(ss) && PlainModules(ss) && AllDecided(ss)
    ensures Interface(EncodeModule(ss)) == Some((Sort(AllImports(ss)), Sort(AllExports(ss)))) <==> AllAligned(ss)
  {
    if AllAligned(ss) {
      InterfaceOfModule(ss);
    } else {
      ModuleSections(ss);
      SectionsMisread(ss, [], []);
      ImportsNotOdd(ss);
      hide *;
      var r := ReadSections(EncodeSections(ss), [], []);
      if r.Some? {
        OddDiffers(r.value.0, AllImports(ss));
      }
    }
  }

  lemma OddDiffers(a: seq<string>, b: seq<string>)
    requires SomeOdd(a) && !SomeOdd(b)
    ensures Sort(a) != Sort(b)
  {
    SortResult(a);
    SortResult(b);
    var i :| 0 <= i < |a| && Odd(a[i]);
    assert a[i] in multiset(a);
    assert a[i] !in b;
    assert a[i] !in multiset(b);
  }
}
