/** Core modules and their encodings (sections 5.2 to 5.5 of the WebAssembly core
    specification): every LEB128 number in any permitted length, reference types of several
    bytes, and all flags of limits. */
module WasmModule {
  import opened Wrappers
  import opened Text
  import opened Utf8
  import opened WasmReader

  // -- numbers -----------------------------------------------------------------

  /** The shortest LEB128 form. */
  function EncodeUleb(n: nat): Bytes {
    if n < 0x80 then [Octet(n)] else [Octet(n % 0x80 + 0x80)] + EncodeUleb(n / 0x80)
  }

  lemma OctetBack(n: nat)
    requires n < 256
    ensures ByteOf(Octet(n)) == n
  {
  }

  /** What a number with one more digit reads as. */
  lemma UlebMore(c: nat, tail: Bytes, left: nat)
    requires 0x80 <= c < 256 && left > 0
    ensures Uleb([Octet(c)] + tail, left)
         == match Uleb(tail, left - 1) case None => None case Some(n) => Some((c - 0x80 + 0x80 * n.0, n.1))
  {
    OctetBack(c);
    assert ([Octet(c)] + tail)[1..] == tail;
  }

  lemma SmallerThanPower(n: nat, left: nat)
    requires left > 0
    ensures n < Pow128(left) <==> n / 0x80 < Pow128(left - 1)
  {
    assert Pow128(left) == 128 * Pow128(left - 1);
  }

  /** A number is read back exactly when it has at most `left` digits. */
  lemma {:induction false} UlebBack(n: nat, rest: Bytes, left: nat)
    requires left > 0
    ensures Uleb(EncodeUleb(n) + rest, left) == if n < Pow128(left) then Some((n, rest)) else None
    decreases n
  {
    if n < 0x80 {
      OctetBack(n);
      assert ([Octet(n)] + rest)[1..] == rest;
      assert Pow128(left) == 128 * Pow128(left - 1);
      PowPositive(left - 1);
    } else {
      var tail := EncodeUleb(n / 0x80);
      assert EncodeUleb(n) + rest == [Octet(n % 0x80 + 0x80)] + (tail + rest);
      UlebMore(n % 0x80 + 0x80, tail + rest, left);
      SmallerThanPower(n, left);
      if left > 1 {
        hide Uleb, EncodeUleb, Pow128;
        UlebBack(n / 0x80, rest, left - 1);
      } else {
        assert Pow128(0) == 1;
      }
    }
  }

  lemma PowPositive(n: nat)
    ensures Pow128(n) >= 1
  {
  }

  /** The bound the reader has: ten digits of seven bits. */
  lemma TenDigits()
    ensures Pow128(10) == 0x40_0000_0000_0000_0000
  {
    assert Pow128(5) == 0x8_0000_0000;
    assert Pow128(6) == 0x400_0000_0000;
    assert Pow128(8) == 0x100_0000_0000_0000;
  }

  /** `_uleb` inverts LEB128 for every number below 2 to the 70th, and refuses the rest. */
  lemma UlebInvertsEncoding(n: nat, rest: Bytes)
    ensures Uleb(EncodeUleb(n) + rest, MAX_LEB) == if n < 0x40_0000_0000_0000_0000 then Some((n, rest)) else None
  {
    UlebBack(n, rest, MAX_LEB);
    TenDigits();
  }

  /** Whatever the bytes, at most ten of them are read. */
  lemma {:induction false} UlebReadsAtMost(s: Bytes, left: nat)
    ensures var r := Uleb(s, left); r.Some? ==> |s| - |r.value.1| <= left && r.value.0 < Pow128(left)
    decreases left
  {
    if s != "" && left > 0 {
      UlebReadsAtMost(s[1..], left - 1);
      PowPositive(left - 1);
    }
  }

  // -- numbers of any length --------------------------------------------------

  /** A number and how many bytes hold it. */
  datatype Num = Num(value: nat, len: nat)

  predicate GoodNum(x: Num) {
    1 <= x.len <= MAX_LEB && x.value < Pow128(x.len)
  }

  /** The number in exactly that many bytes. */
  function EncodeDigits(n: nat, len: nat): Bytes {
    if len <= 1 then [Octet(n % 0x80)] else [Octet(n % 0x80 + 0x80)] + EncodeDigits(n / 0x80, len - 1)
  }

  function EncodeNum(x: Num): Bytes {
    EncodeDigits(x.value, x.len)
  }

  lemma LastDigit(n: nat, rest: Bytes, left: nat)
    requires n < 0x80 && left > 0
    ensures Uleb([Octet(n)] + rest, left) == Some((n, rest))
  {
    OctetBack(n);
    assert ([Octet(n)] + rest)[1..] == rest;
  }

  lemma {:induction false} DigitsBack(n: nat, len: nat, rest: Bytes, left: nat)
    requires 1 <= len <= left && n < Pow128(len)
    ensures Uleb(EncodeDigits(n, len) + rest, left) == Some((n, rest))
    decreases len
  {
    if len == 1 {
      assert Pow128(1) == 128 * Pow128(0);
      LastDigit(n, rest, left);
    } else {
      var tail := EncodeDigits(n / 0x80, len - 1);
      assert EncodeDigits(n, len) + rest == [Octet(n % 0x80 + 0x80)] + (tail + rest);
      UlebMore(n % 0x80 + 0x80, tail + rest, left);
      SmallerThanPower(n, len);
      hide Uleb, EncodeDigits, Pow128;
      DigitsBack(n / 0x80, len - 1, rest, left - 1);
    }
  }

  /** `_uleb` reads a number of any length up to ten bytes. */
  lemma NumBack(x: Num, rest: Bytes)
    requires GoodNum(x)
    ensures Uleb(EncodeNum(x) + rest, MAX_LEB) == Some((x.value, rest))
    ensures SkipUleb(EncodeNum(x) + rest) == Some(rest)
  {
    DigitsBack(x.value, x.len, rest, MAX_LEB);
  }

  /** These are all numbers it reads: whatever it takes from bytes is such a form. */
  lemma {:induction false} EveryNumber(s: Bytes, left: nat) returns (len: nat)
    requires IsBytes(s) && Uleb(s, left).Some?
    ensures 1 <= len <= left && Uleb(s, left).value.0 < Pow128(len)
    ensures s == EncodeDigits(Uleb(s, left).value.0, len) + Uleb(s, left).value.1
    decreases left
  {
    var c, v := ByteOf(s[0]), Uleb(s, left).value;
    assert s == [Octet(c)] + s[1..];
    if c < 0x80 {
      len := 1;
      assert Pow128(1) == 128 * Pow128(0);
    } else {
      var n := EveryNumber(s[1..], left - 1);
      var w := Uleb(s[1..], left - 1).value;
      len := n + 1;
      assert v.0 == c - 0x80 + 0x80 * w.0 && v.1 == w.1;
      assert v.0 % 0x80 == c - 0x80 && v.0 / 0x80 == w.0;
      SmallerThanPower(v.0, len);
      Assoc([Octet(c)], EncodeDigits(w.0, n), w.1);
    }
  }

  // -- modules -----------------------------------------------------------------

  /** The lowest bit of the flags says whether there is a maximum; the others, that a
      memory is shared or has 64-bit addresses. */
  datatype Limits = Limits(flags: nat, min: Num, max: Option<Num>)

  datatype ImportType =
    | FuncType(index: Num)
    | TableType(element: Bytes, limits: Limits)
    | MemoryType(limits: Limits)
    | GlobalType(value: Bytes, mutability: nat)
    /** An exception tag: an attribute byte, which is 0, and a type index. */
    | TagType(index: Num)

  /** A text, and in how many bytes its length is written. */
  datatype Name = Name(text: string, len: nat)

  datatype Import = Import(mod: Name, field: Name, desc: ImportType)

  datatype Export = Export(name: Name, kind: nat, index: Num)

  /** `countLen` and `sizeLen` say in how many bytes the number of entries and the size of
      the section are written. */
  datatype Section =
    | ImportSection(imports: seq<Import>, countLen: nat, sizeLen: nat)
    | ExportSection(exports: seq<Export>, countLen: nat, sizeLen: nat)
    | Other(id: nat, content: Bytes, sizeLen: nat)

  function NameLength(n: Name): Num {
    Num(|Encode(n.text)|, n.len)
  }

  predicate GoodName(n: Name) {
    GoodNum(NameLength(n))
  }

  predicate GoodLimits(l: Limits) {
    l.flags < 8 && GoodNum(l.min) && (l.max.Some? <==> l.flags % 2 == 1) && (l.max.Some? ==> GoodNum(l.max.value))
  }

  /** A signed LEB128 number of at most five bytes. */
  predicate IsHeapType(h: Bytes) {
    && 1 <= |h| <= 5 && IsBytes(h) && h[|h| - 1] as int < 0x80
    && forall i | 0 <= i < |h| - 1 :: h[i] as int >= 0x80
  }

  /** A value type: one byte, or a marker and a heap type. */
  predicate IsValueType(t: Bytes) {
    if |t| == 1 then IsBytes(t)
    else |t| > 1 && (t[0] as int == 0x63 || t[0] as int == 0x64) && IsHeapType(t[1..])
  }

  predicate GoodType(d: ImportType) {
    match d
    case FuncType(i) => GoodNum(i)
    case TableType(e, l) => IsValueType(e) && GoodLimits(l)
    case MemoryType(l) => GoodLimits(l)
    case GlobalType(v, m) => IsValueType(v) && m < 2
    case TagType(i) => GoodNum(i)
  }

  predicate GoodImport(i: Import) {
    GoodName(i.mod) && GoodName(i.field) && GoodType(i.desc)
  }

  predicate GoodExport(e: Export) {
    GoodName(e.name) && e.kind < 256 && GoodNum(e.index)
  }

  function KindOf(d: ImportType): (k: nat)
    ensures k < 256
  {
    match d
    case FuncType(_) => 0
    case TableType(_, _) => 1
    case MemoryType(_) => 2
    case GlobalType(_, _) => 3
    case TagType(_) => 4
  }

  function EncodeName(n: Name): Bytes {
    EncodeNum(NameLength(n)) + Encode(n.text)
  }

  function EncodeMax(l: Limits): Bytes {
    if l.max.None? then "" else EncodeNum(l.max.value)
  }

  /** The limits behind their flags. */
  function EncodeBounds(l: Limits): Bytes {
    EncodeNum(l.min) + EncodeMax(l)
  }

  function EncodeLimits(l: Limits): Bytes
    requires GoodLimits(l)
  {
    [Octet(l.flags)] + EncodeBounds(l)
  }

  function EncodeType(d: ImportType): Bytes
    requires GoodType(d)
  {
    match d
    case FuncType(i) => EncodeNum(i)
    case TableType(e, l) => e + EncodeLimits(l)
    case MemoryType(l) => EncodeLimits(l)
    case GlobalType(v, m) => v + [Octet(m)]
    case TagType(i) => [Octet(0)] + EncodeNum(i)
  }

  function EncodeImport(i: Import): Bytes
    requires GoodImport(i)
  {
    EncodeName(i.mod) + (EncodeName(i.field) + ([Octet(KindOf(i.desc))] + EncodeType(i.desc)))
  }

  function EncodeExport(e: Export): Bytes
    requires GoodExport(e)
  {
    EncodeName(e.name) + ([Octet(e.kind)] + EncodeNum(e.index))
  }

  predicate GoodImports(l: seq<Import>) {
    forall i | 0 <= i < |l| :: GoodImport(l[i])
  }

  predicate GoodExports(l: seq<Export>) {
    forall i | 0 <= i < |l| :: GoodExport(l[i])
  }

  function EncodeImports(l: seq<Import>): Bytes
    requires GoodImports(l)
  {
    if l == [] then "" else EncodeImport(l[0]) + EncodeImports(l[1..])
  }

  function EncodeExports(l: seq<Export>): Bytes
    requires GoodExports(l)
  {
    if l == [] then "" else EncodeExport(l[0]) + EncodeExports(l[1..])
  }

  predicate GoodList(s: Section) {
    match s
    case ImportSection(l, len, _) => GoodImports(l) && GoodNum(Num(|l|, len))
    case ExportSection(l, len, _) => GoodExports(l) && GoodNum(Num(|l|, len))
    case Other(id, _, _) => id < 256 && id != 2 && id != 7
  }

  function IdOf(s: Section): nat {
    match s case ImportSection(_, _, _) => 2 case ExportSection(_, _, _) => 7 case Other(id, _, _) => id
  }

  function ContentOf(s: Section): Bytes
    requires GoodList(s)
  {
    match s
    case ImportSection(l, len, _) => EncodeNum(Num(|l|, len)) + EncodeImports(l)
    case ExportSection(l, len, _) => EncodeNum(Num(|l|, len)) + EncodeExports(l)
    case Other(_, content, _) => content
  }

  function SizeOf(s: Section): Num
    requires GoodList(s)
  {
    Num(|ContentOf(s)|, s.sizeLen)
  }

  predicate GoodSections(ss: seq<Section>) {
    forall i | 0 <= i < |ss| :: GoodList(ss[i]) && GoodNum(SizeOf(ss[i]))
  }

  function EncodeSections(ss: seq<Section>): Bytes
    requires GoodSections(ss)
  {
    if ss == [] then "" else
      [Octet(IdOf(ss[0]))] + (EncodeNum(SizeOf(ss[0])) + (ContentOf(ss[0]) + EncodeSections(ss[1..])))
  }

  const PREAMBLE: Bytes := [Octet(0), 'a', 's', 'm', Octet(1), Octet(0), Octet(0), Octet(0)]

  function EncodeModule(ss: seq<Section>): Bytes
    requires GoodSections(ss)
  {
    PREAMBLE + EncodeSections(ss)
  }

  // -- what the reader should report ------------------------------------------

  function TextOf(i: Import): string {
    ImportText(i.mod.text, i.field.text)
  }

  function ImportTexts(l: seq<Import>): seq<string> {
    if l == [] then [] else [TextOf(l[0])] + ImportTexts(l[1..])
  }

  function ExportTexts(l: seq<Export>): seq<string> {
    if l == [] then [] else [ExportText(l[0].name.text, l[0].kind)] + ExportTexts(l[1..])
  }

  function AllImports(ss: seq<Section>): seq<string> {
    if ss == [] then [] else (if ss[0].ImportSection? then ImportTexts(ss[0].imports) else []) + AllImports(ss[1..])
  }

  function AllExports(ss: seq<Section>): seq<string> {
    if ss == [] then [] else (if ss[0].ExportSection? then ExportTexts(ss[0].exports) else []) + AllExports(ss[1..])
  }

  // -- what the reader leaves of an import ------------------------------------

  /** What stands between the place where the reader stops and the end of a description: of
      a table or global, the reader takes the type for one byte; a tag it does not know. */
  function Unread(d: ImportType): Bytes
    requires GoodType(d)
  {
    match d
    case TableType(e, l) =>
      if |e| == 1 then ""
      else if |e| == 2 then (if ByteOf(e[1]) % 2 == 1 then EncodeMax(l) else EncodeBounds(l))
      else (if ByteOf(e[1]) % 2 == 1 then EncodeBounds(l) else EncodeLimits(l))
    case GlobalType(v, m) => if |v| == 1 then "" else v[2..] + [Octet(m)]
    case TagType(_) => EncodeType(d)
    case _ => ""
  }

  /** The reader steps over the import exactly. */
  predicate Exact(i: Import) {
    GoodType(i.desc) && Unread(i.desc) == ""
  }

  /** Which imports those are: functions, memories, globals and tables with a type of one
      byte, and, by luck, tables without a maximum whose element type has two bytes, the
      second odd. */
  lemma ExactIff(i: Import)
    requires GoodType(i.desc)
    ensures Exact(i)
       <==> match i.desc
            case FuncType(_) => true
            case TableType(e, l) => |e| == 1 || (|e| == 2 && ByteOf(e[1]) % 2 == 1 && l.max.None?)
            case MemoryType(_) => true
            case GlobalType(v, _) => |v| == 1
            case TagType(_) => false
  {
  }
}
