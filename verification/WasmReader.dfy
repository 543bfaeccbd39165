/** The minimal WebAssembly module reader (plugins/verify-artifacts.py; section 5.5 of the
    WebAssembly core specification). Every exception is `None`. */
module WasmReader {
  import opened Wrappers
  import opened Text
  import opened Utf8
  import opened Sorting

  // -- numbers and names, as functions of the unread bytes --------------------

  const MAX_LEB: nat := 10

  /** The byte a character stands for. */
  function ByteOf(c: char): (n: nat)
    ensures n < 256
  {
    (c as int) % 256
  }

  /** A LEB128 number of at most `left` bytes, and what follows it. */
  function Uleb(s: Bytes, left: nat): (r: Option<(nat, Bytes)>)
    ensures r.Some? ==> |r.value.1| < |s|
  {
    if s == "" || left == 0 then None
    else if ByteOf(s[0]) < 0x80 then Some((ByteOf(s[0]), s[1..]))
    else
      match Uleb(s[1..], left - 1)
      case None => None
      case Some(r) => Some((ByteOf(s[0]) - 0x80 + 0x80 * r.0, r.1))
  }

  function ReadName(s: Bytes): (r: Option<(string, Bytes)>)
    ensures r.Some? ==> |r.value.1| < |s|
  {
    match Uleb(s, MAX_LEB)
    case None => None
    case Some(n) => if n.0 > |n.1| then None else Some((Lossy(n.1[..n.0]), n.1[n.0..]))
  }

  /** What is left after `n` more bytes; stepping past the end leaves nothing. */
  function Drop(s: Bytes, n: nat): (r: Bytes)
    ensures |r| <= |s|
  {
    if n <= |s| then s[n..] else ""
  }

  function ByteAt(s: Bytes): nat
    requires s != ""
  {
    ByteOf(s[0])
  }

  /** Skips a number. */
  function SkipUleb(s: Bytes): Option<Bytes> {
    match Uleb(s, MAX_LEB) case None => None case Some(n) => Some(n.1)
  }

  function SkipLimits(s: Bytes): Option<Bytes> {
    if s == "" then None else
      match SkipUleb(s[1..])
      case None => None
      case Some(t) => if ByteAt(s) % 2 == 1 then SkipUleb(t) else Some(t)
  }

  /** Skips an import's description of the given kind. */
  function SkipDescription(kind: nat, s: Bytes): Option<Bytes> {
    if kind == 0 then SkipUleb(s)
    else if kind == 1 then SkipLimits(Drop(s, 1))
    else if kind == 2 then SkipLimits(s)
    else if kind == 3 then Some(Drop(s, 2))
    else Some(s)
  }

  function ImportText(mod: string, field: string): string {
    mod + "." + field
  }

  /** One import: its text, and what follows it. */
  function ReadImport(s: Bytes): Option<(string, Bytes)> {
    var m :- ReadName(s);
    var f :- ReadName(m.1);
    if f.1 == "" then None else
      match SkipDescription(ByteAt(f.1), f.1[1..])
      case None => None
      case Some(rest) => Some((ImportText(m.0, f.0), rest))
  }

  function ReadImports(s: Bytes, count: nat, imports: seq<string>): Option<seq<string>>
    decreases count
  {
    if count == 0 then Some(imports) else
      match ReadImport(s)
      case None => None
      case Some(r) => ReadImports(r.1, count - 1, imports + [r.0])
  }

  function KindName(k: nat): string {
    if k == 0 then "func" else if k == 1 then "table" else if k == 2 then "memory" else if k == 3 then "global"
       else Decimal(k)
  }

  function ExportText(name: string, kind: nat): string {
    name + " (" + KindName(kind) + ")"
  }

  function ReadExport(s: Bytes): Option<(string, Bytes)> {
    var n :- ReadName(s);
    if n.1 == "" then None else
      match SkipUleb(n.1[1..])
      case None => None
      case Some(rest) => Some((ExportText(n.0, ByteAt(n.1)), rest))
  }

  function ReadExports(s: Bytes, count: nat, exports: seq<string>): Option<seq<string>>
    decreases count
  {
    if count == 0 then Some(exports) else
      match ReadExport(s)
      case None => None
      case Some(r) => ReadExports(r.1, count - 1, exports + [r.0])
  }

  /** The lists after one section that starts with `s`; reading may run past its end. */
  function ReadSection(id: nat, s: Bytes, imports: seq<string>,
                       exports: seq<string>): Option<(seq<string>, seq<string>)> {
    if id == 2 then
      match Uleb(s, MAX_LEB)
      case None => None
      case Some(count) =>
        (match ReadImports(count.1, count.0, imports) case None => None case Some(l) => Some((l, exports)))
    else if id == 7 then
      match Uleb(s, MAX_LEB)
      case None => None
      case Some(count) =>
        (match ReadExports(count.1, count.0, exports) case None => None case Some(l) => Some((imports, l)))
    else Some((imports, exports))
  }

  function ReadSections(s: Bytes, imports: seq<string>, exports: seq<string>): Option<(seq<string>, seq<string>)>
    decreases |s|
  {
    if s == "" then Some((imports, exports)) else
      match Uleb(s[1..], MAX_LEB)
      case None => None
      case Some(size) =>
        if size.0 > |size.1| then None else
          match ReadSection(ByteAt(s), size.1, imports, exports)
          case None => None
          case Some(l) => ReadSections(size.1[size.0..], l.0, l.1)
  }

  /** The sorted imports and exports of a module. */
  function Interface(b: Bytes): Option<(seq<string>, seq<string>)> {
    match ReadSections(Drop(b, 8), [], [])
    case None => None
    case Some(l) => Some((Sort(l.0), Sort(l.1)))
  }

  // -- the reader's loops over indexes ----------------------------------------

  /** The unread bytes at an index that may lie past the end. */
  function At(b: Bytes, i: nat): Bytes {
    Drop(b, i)
  }

  function Pow128(n: nat): nat {
    if n == 0 then 1 else 128 * Pow128(n - 1)
  }

  lemma Product(a: nat, b: nat)
    ensures a * b >= 0
  {
  }

  function Times(a: nat, b: nat): nat {
    Product(a, b);
    a * b
  }

  function Low(c: nat): nat {
    c % 0x80
  }

  /** `v << shift` for a whole number of seven-bit digits. */
  function ShiftLeft(v: nat, shift: nat): nat {
    Times(v, Pow128(shift / 7))
  }

  lemma ShiftIs(v: nat, digits: nat)
    ensures ShiftLeft(v, 7 * digits) == Times(v, Pow128(digits))
  {
  }

  /** A number read so far, in front of the digits still to come. */
  function Plus(val: nat, scale: nat, r: Option<(nat, Bytes)>): Option<(nat, Bytes)> {
    match r case None => None case Some(n) => Some((val + Times(scale, n.0), n.1))
  }

  lemma AtNext(b: Bytes, i: nat)
    requires i < |b|
    ensures At(b, i) != "" && At(b, i)[0] == b[i] && At(b, i)[1..] == At(b, i + 1)
  {
  }

  lemma AtAfter(b: Bytes, i: nat, n: nat)
    ensures At(b, i + n) == Drop(At(b, i), n)
  {
  }

  /** The index form of a result: the index reached stands for the rest. */
  predicate ReachesNumber(b: Bytes, got: Option<(nat, nat)>, want: Option<(nat, Bytes)>) {
    match want case None => got.None? case Some(w) => got.Some? && got.value.0 == w.0 && At(b, got.value.1) == w.1
  }

  predicate ReachesText(b: Bytes, got: Option<(string, nat)>, want: Option<(string, Bytes)>) {
    match want case None => got.None? case Some(w) => got.Some? && got.value.0 == w.0 && At(b, got.value.1) == w.1
  }

  lemma PlusStep(val: nat, scale: nat, low: nat, r: Option<(nat, Bytes)>)
    ensures Plus(val, scale, match r case None => None case Some(n) => Some((low + 0x80 * n.0, n.1)))
         == Plus(val + Times(low, scale), Times(0x80, scale), r)
  {
    if r.Some? {
      Distribute(val, scale, low, r.value.0);
    }
  }

  lemma Distribute(val: nat, scale: nat, low: nat, n: nat)
    ensures val + Times(scale, low + 0x80 * n) == val + Times(low, scale) + Times(Times(0x80, scale), n)
  {
    assert scale * (low + 0x80 * n) == scale * low + (0x80 * scale) * n;
  }

  /** The number in terms of its first byte. */
  lemma UlebUnfold(s: Bytes, left: nat)
    requires s != "" && left > 0
    ensures
      var c := ByteOf(s[0]);
      Uleb(s, left)
      == if c < 0x80 then Some((c, s[1..]))
         else match Uleb(s[1..], left - 1) case None => None case Some(n) => Some((Low(c) + 0x80 * n.0, n.1))
  {
  }

  /** One byte is read: the number is complete, or the rest counts 128 times as much. */
  lemma ReadDigit(b: Bytes, i: nat, val: nat, scale: nat, left: nat)
    requires i < |b| && left > 0
    ensures
      var c := ByteOf(b[i]);
      Plus(val, scale, Uleb(At(b, i), left))
      == if c < 0x80 then Some((val + Times(Low(c), scale), At(b, i + 1)))
         else Plus(val + Times(Low(c), scale), Times(0x80, scale), Uleb(At(b, i + 1), left - 1))
  {
    AtNext(b, i);
    UlebUnfold(At(b, i), left);
    hide Uleb, At;
    PlusStep(val, scale, Low(ByteOf(b[i])), Uleb(At(b, i + 1), left - 1));
  }

  /** So many digits are read, and the rest of the number is still to come. */
  predicate Reading(b: Bytes, start: nat, i: nat, val: nat, digits: nat)
    requires digits <= 10
  {
    Plus(val, Pow128(digits), Uleb(At(b, i), 10 - digits)) == Uleb(At(b, start), MAX_LEB)
  }

  lemma ReadingStarts(b: Bytes, start: nat)
    ensures Reading(b, start, start, 0, 0)
  {
    PlusZero(Uleb(At(b, start), MAX_LEB));
  }

  lemma ReadingEnds(b: Bytes, start: nat, i: nat, val: nat, digits: nat)
    requires digits <= 10 && Reading(b, start, i, val, digits) && (i >= |b| || digits == 10)
    ensures ReachesNumber(b, None, Uleb(At(b, start), MAX_LEB))
  {
    if i >= |b| {
      NothingLeft(b, i, 10 - digits, val, Pow128(digits));
    } else {
      NoneLeft(At(b, i), val, Pow128(digits));
    }
  }

  lemma ReadingStep(b: Bytes, start: nat, i: nat, val: nat, digits: nat)
    requires i < |b| && digits < 10 && Reading(b, start, i, val, digits)
    ensures
      var c := ByteOf(b[i]);
      var more := val + ShiftLeft(Low(c), 7 * digits);
      if c < 0x80 then ReachesNumber(b, Some((more, i + 1)), Uleb(At(b, start), MAX_LEB))
      else Reading(b, start, i + 1, more, digits + 1)
  {
    ReadDigit(b, i, val, Pow128(digits), 10 - digits);
    ShiftIs(Low(ByteOf(b[i])), digits);
    PowNext(digits + 1);
    hide Uleb, Pow128, Plus, Times, Low, ByteOf, ShiftLeft, At;
  }

  /** `_uleb`: the bits of each byte are put above those read so far. */
  method TakeUleb(b: Bytes, start: nat) returns (r: Option<(nat, nat)>)
    ensures ReachesNumber(b, r, Uleb(At(b, start), MAX_LEB))
    ensures r.Some? ==> start < r.value.1 <= |b| && r.value.1 <= start + 10
  {
    hide *;
    var i: nat, val: nat, shift: nat := start, 0, 0;
    ghost var digits: nat := 0;
    ReadingStarts(b, start);
    while true
      invariant shift == 7 * digits && 0 <= digits <= 9 && i == start + digits
      invariant Reading(b, start, i, val, digits)
      decreases 9 - digits
    {
      if i >= |b| {
        ReadingEnds(b, start, i, val, digits);
        return None;
      }
      var c := ByteOf(b[i]);
      ReadingStep(b, start, i, val, digits);
      i := i + 1;
      val := val + ShiftLeft(Low(c), shift);
      if c < 0x80 {
        return Some((val, i));
      }
      shift := shift + 7;
      digits := digits + 1;
      if shift > 63 {
        ReadingEnds(b, start, i, val, digits);
        return None;
      }
    }
  }

  lemma PowNext(n: nat)
    requires n > 0
    ensures Pow128(n) == Times(0x80, Pow128(n - 1))
  {
  }

  lemma NothingLeft(b: Bytes, i: nat, left: nat, val: nat, scale: nat)
    requires i >= |b|
    ensures Plus(val, scale, Uleb(At(b, i), left)) == None
  {
  }

  lemma NoneLeft(s: Bytes, val: nat, scale: nat)
    ensures Plus(val, scale, Uleb(s, 0)) == None
  {
  }

  lemma PlusZero(r: Option<(nat, Bytes)>)
    ensures Plus(0, Pow128(0), r) == r
  {
  }

  method TakeName(b: Bytes, start: nat) returns (r: Option<(string, nat)>)
    ensures ReachesText(b, r, ReadName(At(b, start)))
  {
    var n := TakeUleb(b, start);
    if n.None? {
      return None;
    }
    var i := n.value.1;
    if i + n.value.0 > |b| {
      return None;
    }
    AtAfter(b, i, n.value.0);
    assert b[i..][..n.value.0] == b[i..i + n.value.0];
    return Some((Lossy(b[i..i + n.value.0]), i + n.value.0));
  }

  /** Where the index stands after an import's description. */
  predicate ReachesRest(b: Bytes, got: Option<nat>, want: Option<Bytes>) {
    match want case None => got.None? case Some(w) => got.Some? && At(b, got.value) == w
  }

  method PassUleb(b: Bytes, start: nat) returns (r: Option<nat>)
    ensures ReachesRest(b, r, SkipUleb(At(b, start)))
  {
    var n := TakeUleb(b, start);
    r := if n.None? then None else Some(n.value.1);
  }

  method PassLimits(b: Bytes, start: nat) returns (r: Option<nat>)
    ensures ReachesRest(b, r, SkipLimits(At(b, start)))
  {
    if start >= |b| {
      return None;
    }
    var lim := ByteOf(b[start]);
    AtNext(b, start);
    r := PassUleb(b, start + 1);
    if r.Some? && lim % 2 == 1 {
      r := PassUleb(b, r.value);
    }
  }

  method PassDescription(b: Bytes, kind: nat, start: nat) returns (r: Option<nat>)
    ensures ReachesRest(b, r, SkipDescription(kind, At(b, start)))
  {
    var j := start;
    if kind == 0 {
      r := PassUleb(b, j);
    } else if kind == 1 || kind == 2 {
      if kind == 1 {
        AtAfter(b, j, 1);
        j := j + 1;
      }
      r := PassLimits(b, j);
    } else if kind == 3 {
      AtAfter(b, j, 2);
      r := Some(j + 2);
    } else {
      r := Some(j);
    }
  }

  method TakeImport(b: Bytes, start: nat) returns (r: Option<(string, nat)>)
    ensures ReachesText(b, r, ReadImport(At(b, start)))
  {
    var m := TakeName(b, start);
    if m.None? {
      return None;
    }
    var f := TakeName(b, m.value.1);
    if f.None? || f.value.1 >= |b| {
      return None;
    }
    var j := f.value.1;
    AtNext(b, j);
    var next := PassDescription(b, ByteOf(b[j]), j + 1);
    if next.None? {
      return None;
    }
    return Some((ImportText(m.value.0, f.value.0), next.value));
  }

  method TakeExport(b: Bytes, start: nat) returns (r: Option<(string, nat)>)
    ensures ReachesText(b, r, ReadExport(At(b, start)))
  {
    var n := TakeName(b, start);
    if n.None? || n.value.1 >= |b| {
      return None;
    }
    var j := n.value.1;
    AtNext(b, j);
    var next := PassUleb(b, j + 1);
    if next.None? {
      return None;
    }
    return Some((ExportText(n.value.0, ByteOf(b[j])), next.value));
  }

  lemma ImportsNext(s: Bytes, count: nat, out: seq<string>)
    requires count > 0
    ensures ReadImports(s, count, out)
         == match ReadImport(s) case None => None case Some(r) => ReadImports(r.1, count - 1, out + [r.0])
  {
    hide ReadImport;
  }

  /** `n` entries of an import section, appended to a list. */
  method TakeImportEntries(b: Bytes, start: nat, n: nat, list: seq<string>) returns (r: Option<seq<string>>)
    ensures r == ReadImports(At(b, start), n, list)
  {
    var j, out := start, list;
    for k := 0 to n
      invariant ReadImports(At(b, j), n - k, out) == ReadImports(At(b, start), n, list)
    {
      ImportsNext(At(b, j), n - k, out);
      hide *;
      var entry := TakeImport(b, j);
      if entry.None? {
        StoppedImport(b, j, entry);
        return None;
      }
      ArrivedImport(b, j, entry);
      out := out + [entry.value.0];
      j := entry.value.1;
    }
    return Some(out);
  }

  lemma StoppedImport(b: Bytes, j: nat, entry: Option<(string, nat)>)
    requires ReachesText(b, entry, ReadImport(At(b, j))) && entry.None?
    ensures ReadImport(At(b, j)) == None
  {
    hide ReadImport, At;
  }

  lemma ArrivedImport(b: Bytes, j: nat, entry: Option<(string, nat)>)
    requires ReachesText(b, entry, ReadImport(At(b, j))) && entry.Some?
    ensures ReadImport(At(b, j)) == Some((entry.value.0, At(b, entry.value.1)))
  {
    hide ReadImport, At;
  }

  method TakeImports(b: Bytes, start: nat, list: seq<string>) returns (r: Option<seq<string>>)
    ensures
      var count := Uleb(At(b, start), MAX_LEB);
      r == if count.None? then None else ReadImports(count.value.1, count.value.0, list)
  {
    var count := TakeUleb(b, start);
    if count.None? {
      return None;
    }
    r := TakeImportEntries(b, count.value.1, count.value.0, list);
  }

  lemma ExportsNext(s: Bytes, count: nat, out: seq<string>)
    requires count > 0
    ensures ReadExports(s, count, out)
         == match ReadExport(s) case None => None case Some(r) => ReadExports(r.1, count - 1, out + [r.0])
  {
    hide ReadExport;
  }

  /** `n` entries of an export section, appended to a list. */
  method TakeExportEntries(b: Bytes, start: nat, n: nat, list: seq<string>) returns (r: Option<seq<string>>)
    ensures r == ReadExports(At(b, start), n, list)
  {
    var j, out := start, list;
    for k := 0 to n
      invariant ReadExports(At(b, j), n - k, out) == ReadExports(At(b, start), n, list)
    {
      ExportsNext(At(b, j), n - k, out);
      hide *;
      var entry := TakeExport(b, j);
      if entry.None? {
        StoppedExport(b, j, entry);
        return None;
      }
      ArrivedExport(b, j, entry);
      out := out + [entry.value.0];
      j := entry.value.1;
    }
    return Some(out);
  }

  lemma StoppedExport(b: Bytes, j: nat, entry: Option<(string, nat)>)
    requires ReachesText(b, entry, ReadExport(At(b, j))) && entry.None?
    ensures ReadExport(At(b, j)) == None
  {
    hide ReadExport, At;
  }

  lemma ArrivedExport(b: Bytes, j: nat, entry: Option<(string, nat)>)
    requires ReachesText(b, entry, ReadExport(At(b, j))) && entry.Some?
    ensures ReadExport(At(b, j)) == Some((entry.value.0, At(b, entry.value.1)))
  {
    hide ReadExport, At;
  }

  method TakeExports(b: Bytes, start: nat, list: seq<string>) returns (r: Option<seq<string>>)
    ensures
      var count := Uleb(At(b, start), MAX_LEB);
      r == if count.None? then None else ReadExports(count.value.1, count.value.0, list)
  {
    var count := TakeUleb(b, start);
    if count.None? {
      return None;
    }
    r := TakeExportEntries(b, count.value.1, count.value.0, list);
  }

  lemma SectionsUnfold(b: Bytes, i: nat, imports: seq<string>, exports: seq<string>)
    requires i < |b|
    ensures
      ReadSections(At(b, i), imports, exports)
      == match Uleb(At(b, i + 1), MAX_LEB)
         case None => None
         case Some(size) =>
           if size.0 > |size.1| then None else
             match ReadSection(ByteOf(b[i]), size.1, imports, exports)
             case None => None
             case Some(l) => ReadSections(Drop(size.1, size.0), l.0, l.1)
  {
    AtNext(b, i);
    hide Uleb, ReadSection, At;
  }

  method TakeSection(b: Bytes, id: nat, start: nat, imports: seq<string>, exports: seq<string>)
    returns (r: Option<(seq<string>, seq<string>)>)
    ensures r == ReadSection(id, At(b, start), imports, exports)
  {
    if id == 2 {
      var l := TakeImports(b, start, imports);
      return if l.None? then None else Some((l.value, exports));
    } else if id == 7 {
      var l := TakeExports(b, start, exports);
      return if l.None? then None else Some((imports, l.value));
    } else {
      return Some((imports, exports));
    }
  }

  lemma RestSize(b: Bytes, i: nat)
    requires i <= |b|
    ensures |At(b, i)| == |b| - i
  {
  }

  /** One section: the index behind it and the lists so far. */
  method NextSection(b: Bytes, start: nat, imports: seq<string>, exports: seq<string>)
    returns (r: Option<(nat, seq<string>, seq<string>)>)
    requires start < |b|
    ensures r.None? ==> ReadSections(At(b, start), imports, exports) == None
    ensures r.Some? ==> start < r.value.0 <= |b|
    ensures r.Some?
        ==> ReadSections(At(b, start), imports, exports) == ReadSections(At(b, r.value.0), r.value.1, r.value.2)
  {
    hide *;
    SectionsUnfold(b, start, imports, exports);
    var size := TakeSize(b, start + 1);
    if size.None? {
      return None;
    }
    var i, n := size.value.0, size.value.1;
    var l := TakeSection(b, ByteOf(b[start]), i, imports, exports);
    if l.None? {
      return None;
    }
    return Some((i + n, l.value.0, l.value.1));
  }

  /** A section's size: where its content starts, and how long it is, if it fits. */
  method TakeSize(b: Bytes, start: nat) returns (r: Option<(nat, nat)>)
    ensures
      var u := Uleb(At(b, start), MAX_LEB);
      && (r.None? <==> u.None? || u.value.0 > |u.value.1|)
      && (r.Some? ==> start < r.value.0 && r.value.0 + r.value.1 <= |b| && u.value.0 == r.value.1
                      && u.value.1 == At(b, r.value.0) && Drop(u.value.1, u.value.0) == At(b, r.value.0 + r.value.1))
  {
    var size := TakeUleb(b, start);
    if size.None? {
      return None;
    }
    RestSize(b, size.value.1);
    AtAfter(b, size.value.1, size.value.0);
    if size.value.1 + size.value.0 > |b| {
      return None;
    }
    return Some((size.value.1, size.value.0));
  }

  method CoreInterface(b: Bytes) returns (r: Option<(seq<string>, seq<string>)>)
    ensures r == Interface(b)
  {
    var imports: seq<string>, exports: seq<string> := [], [];
    var i := 8;
    while i < |b|
      invariant ReadSections(At(b, i), imports, exports) == ReadSections(At(b, 8), [], [])
      decreases |b| - i
    {
      hide ReadSections, At;
      var next := NextSection(b, i, imports, exports);
      if next.None? {
        return None;
      }
      i, imports, exports := next.value.0, next.value.1, next.value.2;
    }
    NoSections(b, i, imports, exports);
    return Some((Sort(imports), Sort(exports)));
  }

  lemma NoSections(b: Bytes, i: nat, imports: seq<string>, exports: seq<string>)
    requires i >= |b|
    ensures ReadSections(At(b, i), imports, exports) == Some((imports, exports))
  {
  }

  /** What is reported for an export of each kind. */
  lemma KindsAreNamed(name: string)
    ensures ExportText(name, 0) == name + " (func)" && ExportText(name, 1) == name + " (table)"
    ensures ExportText(name, 2) == name + " (memory)" && ExportText(name, 3) == name + " (global)"
    ensures ExportText(name, 4) == name + " (4)"
  {
    assert Decimal(4) == "4";
    Parens(name, "func");
    Parens(name, "table");
    Parens(name, "memory");
    Parens(name, "global");
    Parens(name, "4");
    assert " (func" + ")" == " (func)" && " (table" + ")" == " (table)" && " (memory" + ")" == " (memory)";
    assert " (global" + ")" == " (global)" && " (4" + ")" == " (4)";
  }

  lemma Parens(name: string, kind: string)
    ensures name + " (" + kind + ")" == name + (" (" + kind + ")")
  {
  }
}
