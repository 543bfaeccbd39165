/** Inline OpenPGP armor inside a text body (crates/mw-crypto/src/mime.rs). */
module InlineArmor {
  import opened Wrappers
  import opened Text

  datatype Kind = SignedMessage | Message | PublicKey

  datatype Segment = Plain(text: string) | Armor(kind: Kind, armored: string)

  function Begin(k: Kind): (r: string)
    ensures r != ""
  {
    match k
    case SignedMessage => "-----BEGIN PGP SIGNED MESSAGE-----"
    case Message => "-----BEGIN PGP MESSAGE-----"
    case PublicKey => "-----BEGIN PGP PUBLIC KEY BLOCK-----"
  }

  function End(k: Kind): (r: string)
    ensures r != ""
  {
    match k
    case SignedMessage => "-----END PGP SIGNATURE-----"
    case Message => "-----END PGP MESSAGE-----"
    case PublicKey => "-----END PGP PUBLIC KEY BLOCK-----"
  }

  predicate StartsLine(text: string, pos: nat)
    requires pos <= |text|
  {
    pos == 0 || text[pos - 1] == '\n'
  }

  /** The first place from `from` on where `marker` starts a line. */
  function FirstLine(text: string, marker: string, from: nat): (r: Option<nat>)
    requires marker != "" && from <= |text|
    ensures r.Some? ==> from <= r.value && MatchesAt(text, marker, r.value) && StartsLine(text, r.value)
    ensures r.Some? ==> forall j | from <= j < r.value && StartsLine(text, j) :: !MatchesAt(text, marker, j)
    ensures r.None? ==> forall j | from <= j <= |text| && StartsLine(text, j) :: !MatchesAt(text, marker, j)
    decreases |text| - from
  {
    match FindFrom(text, marker, from)
    case None => None
    case Some(pos) => if StartsLine(text, pos) then Some(pos) else FirstLine(text, marker, pos + 1)
  }

  function Earlier(a: Option<(nat, Kind)>, pos: Option<nat>, k: Kind): Option<(nat, Kind)> {
    if pos.None? || (a.Some? && a.value.0 <= pos.value) then a else Some((pos.value, k))
  }

  /** The earliest BEGIN line of any kind. */
  function NextBegin(text: string): (r: Option<(nat, Kind)>)
    ensures r.Some? ==> MatchesAt(text, Begin(r.value.1), r.value.0) && StartsLine(text, r.value.0)
  {
    var a := Earlier(None, FirstLine(text, Begin(SignedMessage), 0), SignedMessage);
    var b := Earlier(a, FirstLine(text, Begin(Message), 0), Message);
    Earlier(b, FirstLine(text, Begin(PublicKey), 0), PublicKey)
  }

  /** Drops the line break that ended an armor. */
  function DropBreak(s: string): (r: string)
    ensures |r| <= |s|
  {
    if CrlfAt(s, 0) then s[2..] else if s != "" && s[0] == '\n' then s[1..] else s
  }

  function PlainUnlessEmpty(s: string): seq<Segment> {
    if s == "" then [] else [Plain(s)]
  }

  /** The text cut into armor blocks and the text around them. */
  function Segments(rest: string): seq<Segment>
    decreases |rest|
  {
    match NextBegin(rest)
    case None => PlainUnlessEmpty(rest)
    case Some((start, k)) =>
      match FindFrom(rest, End(k), start)
      case None => [Plain(rest)]
      case Some(endStart) =>
        var end := endStart + |End(k)|;
        PlainUnlessEmpty(rest[..start]) + [Armor(k, rest[start..end])] + Segments(DropBreak(rest[end..]))
  }

  method InlineSegments(text: string) returns (out: seq<Segment>)
    ensures out == Segments(text)
  {
    hide Begin, End, MatchesAt;
    out := [];
    var rest := text;
    while true
      invariant out + Segments(rest) == Segments(text)
      decreases |rest|
    {
      var next := NextBegin(rest);
      if next.None? {
        if rest != "" {
          out := out + [Plain(rest)];
        }
        assert out + [] == out;
        return;
      }
      var (start, k) := next.value;
      var endStart := FindFrom(rest, End(k), start);
      if endStart.None? {
        out := out + [Plain(rest)];
        return;
      }
      MarkerInside(rest, endStart.value, k);
      var end := endStart.value + |End(k)|;
      SegmentsNext(rest, start, k, end, out);
      if start > 0 {
        out := out + [Plain(rest[..start])];
      }
      out := out + [Armor(k, rest[start..end])];
      rest := DropBreak(rest[end..]);
    }
  }

  lemma SegmentsUnfold(rest: string, start: nat, k: Kind, end: nat)
    requires NextBegin(rest) == Some((start, k)) && start <= end <= |rest|
    requires FindFrom(rest, End(k), start) == Some(end - |End(k)|)
    ensures |DropBreak(rest[end..])| < |rest|
    ensures Segments(rest)
         == PlainUnlessEmpty(rest[..start]) + [Armor(k, rest[start..end])] + Segments(DropBreak(rest[end..]))
  {
    EndNotEmpty(k);
    hide Begin, End, MatchesAt, NextBegin, FindFrom, DropBreak, PlainUnlessEmpty, CrlfAt;
  }

  lemma SegmentsNext(rest: string, start: nat, k: Kind, end: nat, out: seq<Segment>)
    requires NextBegin(rest) == Some((start, k)) && start <= end <= |rest|
    requires FindFrom(rest, End(k), start) == Some(end - |End(k)|)
    ensures out + Segments(rest)
         == (if start > 0 then out + [Plain(rest[..start])] else out) + [Armor(k, rest[start..end])]
            + Segments(DropBreak(rest[end..]))
    ensures |DropBreak(rest[end..])| < |rest|
  {
    SegmentsUnfold(rest, start, k, end);
    var head, armor, tail := PlainUnlessEmpty(rest[..start]), [Armor(k, rest[start..end])],
                             Segments(DropBreak(rest[end..]));
    assert out + head == if start > 0 then out + [Plain(rest[..start])] else out;
    hide *;
    Assoc(out, head, armor);
    Assoc(out, head + armor, tail);
  }

  lemma EndNotEmpty(k: Kind)
    ensures |End(k)| > 0
  {
  }

  /** A block from its BEGIN marker to the first END marker behind it. */
  predicate IsArmor(k: Kind, a: string) {
    MatchesAt(a, Begin(k), 0) && FindFrom(a, End(k), 0) == Some(|a| - |End(k)|)
  }

  /** The segments are the text in order, whole, but for one line break after each armor. */
  predicate Covers(text: string, segments: seq<Segment>)
    decreases |segments|
  {
    if segments == [] then text == "" else
      match segments[0]
      case Plain(t) => t != "" && t <= text && Covers(text[|t|..], segments[1..])
      case Armor(k, a) => IsArmor(k, a) && a <= text && Covers(DropBreak(text[|a|..]), segments[1..])
  }

  lemma CutKeepsMatch(s: string, from: nat, to: nat, needle: string, j: nat)
    requires from <= to <= |s|
    ensures MatchesAt(s[from..to], needle, j) <==> from + j + |needle| <= to && MatchesAt(s, needle, from + j)
  {
    var c := s[from..to];
    if MatchesAt(c, needle, j) {
      forall k | 0 <= k < |needle| ensures needle[k] == s[from + j + k] {
        assert needle[k] == c[j + k];
      }
    }
  }

  lemma FindFirst(hay: string, needle: string, i: nat)
    requires MatchesAt(hay, needle, i) && forall j | 0 <= j < i :: !MatchesAt(hay, needle, j)
    ensures FindFrom(hay, needle, 0) == Some(i)
  {
  }

  lemma CutArmorIsArmor(rest: string, start: nat, k: Kind, endStart: nat)
    requires MatchesAt(rest, Begin(k), start) && FindFrom(rest, End(k), start) == Some(endStart)
    requires start + |Begin(k)| <= endStart + |End(k)|
    ensures IsArmor(k, rest[start..endStart + |End(k)|])
  {
    hide Begin, End;
    var to := endStart + |End(k)|;
    CutKeepsMatch(rest, start, to, Begin(k), 0);
    CutKeepsMatch(rest, start, to, End(k), endStart - start);
    forall j | 0 <= j < endStart - start ensures !MatchesAt(rest[start..to], End(k), j) {
      CutKeepsMatch(rest, start, to, End(k), j);
    }
    FindFirst(rest[start..to], End(k), endStart - start);
  }

  lemma CoversPlainThen(s: string, rest: string, segments: seq<Segment>)
    requires Covers(rest, segments)
    ensures Covers(s + rest, PlainUnlessEmpty(s) + segments)
  {
    if s == "" {
      assert s + rest == rest && [] + segments == segments;
    } else {
      assert ([Plain(s)] + segments)[1..] == segments && (s + rest)[|s|..] == rest;
    }
  }

  lemma CoversArmorThen(text: string, k: Kind, a: string, segments: seq<Segment>)
    requires IsArmor(k, a) && a <= text && Covers(DropBreak(text[|a|..]), segments)
    ensures Covers(text, [Armor(k, a)] + segments)
  {
    assert ([Armor(k, a)] + segments)[1..] == segments;
  }

  lemma CoversFromArmor(text: string, start: nat, end: nat, k: Kind, segments: seq<Segment>)
    requires start <= end <= |text| && IsArmor(k, text[start..end]) && Covers(DropBreak(text[end..]), segments)
    ensures Covers(text, PlainUnlessEmpty(text[..start]) + [Armor(k, text[start..end])] + segments)
  {
    hide *;
    var a, here := text[start..end], text[start..];
    TailOfTail(text, start, end);
    CoversArmorThen(here, k, a, segments);
    CoversPlainThen(text[..start], here, [Armor(k, a)] + segments);
    Assoc(PlainUnlessEmpty(text[..start]), [Armor(k, a)], segments);
  }

  lemma TailOfTail(text: string, start: nat, end: nat)
    requires start <= end <= |text|
    ensures text[start..end] <= text[start..] && text[start..][|text[start..end]|..] == text[end..]
    ensures text[..start] + text[start..] == text
  {
  }

  lemma CoversPlainOnly(text: string)
    ensures Covers(text, PlainUnlessEmpty(text))
  {
    CoversPlainThen(text, "", []);
    assert text + "" == text && PlainUnlessEmpty(text) + [] == PlainUnlessEmpty(text);
  }

  /** No byte of a text is lost or moved by the split, except one line break after each
      armor block; every armor block runs from its BEGIN line to its first END marker. */
  lemma {:induction false} SegmentsCover(text: string)
    ensures Covers(text, Segments(text))
    decreases |text|
  {
    hide Begin, End, Covers, IsArmor, MatchesAt;
    var next := NextBegin(text);
    if next.None? {
      CoversPlainOnly(text);
    } else {
      var (start, k) := next.value;
      var endStart := FindFrom(text, End(k), start);
      if endStart.None? {
        MarkerInside(text, start, k);
        CoversPlainOnly(text);
      } else {
        var end := endStart.value + |End(k)|;
        MarkerInside(text, endStart.value, k);
        SegmentsCover(DropBreak(text[end..]));
        MarkersDoNotOverlap(text, start, k, endStart.value);
        CutArmorIsArmor(text, start, k, endStart.value);
        CoversFromArmor(text, start, end, k, Segments(DropBreak(text[end..])));
      }
    }
  }

  lemma MarkerInside(text: string, i: nat, k: Kind)
    ensures MatchesAt(text, Begin(k), i) ==> i + |Begin(k)| <= |text| && text != ""
    ensures MatchesAt(text, End(k), i) ==> i + |End(k)| <= |text|
  {
  }

  /** `EN` occurs in every END marker and in no BEGIN marker. */
  lemma MarkerLetters(k: Kind)
    ensures |End(k)| > 7 && End(k)[5] == 'E' && End(k)[6] == 'N'
  {
  }

  lemma NoEnInBegin(k: Kind, d: nat)
    requires d + 1 < |Begin(k)|
    ensures Begin(k)[d] != 'E' || Begin(k)[d + 1] != 'N'
  {
  }

  /** An END marker cannot lie inside a BEGIN marker. */
  lemma MarkersDoNotOverlap(text: string, start: nat, k: Kind, endStart: nat)
    requires MatchesAt(text, Begin(k), start) && MatchesAt(text, End(k), endStart) && start <= endStart
    ensures start + |Begin(k)| <= endStart + |End(k)|
  {
    MarkerLetters(k);
    hide Begin, End;
    var d := endStart - start;
    assert End(k)[5] == text[endStart + 5] && End(k)[6] == text[endStart + 6];
    if d + 6 < |Begin(k)| {
      NoEnInBegin(k, d + 5);
    }
  }

  // -- which blocks are cut out ------------------------------------------------

  /** A BEGIN line of this kind starts here. */
  predicate BeginsAt(text: string, k: Kind, j: nat) {
    j <= |text| && StartsLine(text, j) && MatchesAt(text, Begin(k), j)
  }

  /** No BEGIN line of any kind starts before `n`. */
  ghost predicate NoBegin(text: string, n: nat) {
    forall k, j: nat | j < n :: !BeginsAt(text, k, j)
  }

  function Letter(k: Kind): char {
    match k case SignedMessage => 'S' case Message => 'M' case PublicKey => 'P'
  }

  lemma BeginLetter(k: Kind)
    ensures |Begin(k)| > 16 && Begin(k)[15] == Letter(k)
  {
  }

  lemma LetterAt(text: string, k: Kind, j: nat)
    requires MatchesAt(text, Begin(k), j)
    ensures j + 15 < |text| && text[j + 15] == Letter(k)
  {
    BeginLetter(k);
    hide Begin;
    assert Begin(k)[15] == text[j + 15];
  }

  /** One place holds at most one kind of BEGIN line. */
  lemma OneBegin(text: string, k: Kind, l: Kind, j: nat)
    requires MatchesAt(text, Begin(k), j) && MatchesAt(text, Begin(l), j)
    ensures k == l
  {
    LetterAt(text, k, j);
    LetterAt(text, l, j);
    hide Begin, MatchesAt;
  }

  lemma FirstLineIs(text: string, k: Kind, start: nat)
    requires start <= |text| && NoBegin(text, start)
    ensures
      var r := FirstLine(text, Begin(k), 0);
      && (BeginsAt(text, k, start) ==> r == Some(start))
      && (!BeginsAt(text, k, start) && r.Some? ==> r.value > start)
  {
    BeginFound(text, k);
    hide Begin, MatchesAt, FirstLine;
  }

  lemma BeginFound(text: string, k: Kind)
    ensures
      var r := FirstLine(text, Begin(k), 0);
      r.Some? ==> r.value <= |text| && BeginsAt(text, k, r.value)
  {
    hide Begin, FirstLine;
    assert FirstLine(text, Begin(k), 0).Some? ==>
             MatchesAt(text, Begin(k), FirstLine(text, Begin(k), 0).value) && |Begin(k)| > 0;
  }

  /** The next BEGIN line is the first one, of whatever kind. */
  lemma NextBeginIs(text: string, k: Kind, start: nat)
    requires NoBegin(text, start) && BeginsAt(text, k, start)
    ensures NextBegin(text) == Some((start, k))
  {
    forall l | l != k ensures !BeginsAt(text, l, start) {
      if BeginsAt(text, l, start) {
        OneBegin(text, k, l, start);
      }
    }
    FirstLineIs(text, SignedMessage, start);
    FirstLineIs(text, Message, start);
    FirstLineIs(text, PublicKey, start);
    hide Begin, MatchesAt, FirstLine, BeginsAt;
  }

  lemma NoNextBegin(text: string)
    requires NoBegin(text, |text| + 1)
    ensures NextBegin(text) == None
  {
    forall k ensures FirstLine(text, Begin(k), 0) == None {
      BeginFound(text, k);
      hide Begin, FirstLine, BeginsAt;
    }
    hide Begin, MatchesAt, FirstLine;
  }

  /** How a block's line ends: with a line break of either form, or with the text going on in
      another way. */
  predicate EndOfBlock(br: string, rest: string) {
    br in {"\r\n", "\n"} || (br == "" && !CrlfAt(rest, 0) && (rest == "" || rest[0] != '\n'))
  }

  lemma DropsBreak(br: string, rest: string)
    requires EndOfBlock(br, rest)
    ensures DropBreak(br + rest) == rest
  {
    if br == "" {
      assert br + rest == rest;
    } else {
      assert (br + rest)[|br|..] == rest;
    }
  }

  lemma EndFound(pre: string, k: Kind, a: string, tail: string)
    requires IsArmor(k, a)
    ensures FindFrom(pre + (a + tail), End(k), |pre|) == Some(|pre| + |a| - |End(k)|)
    ensures |a| >= |End(k)|
  {
    var text := pre + (a + tail);
    var i := |pre| + |a| - |End(k)|;
    hide Begin, End;
    forall j | |pre| <= j <= i ensures MatchesAt(text, End(k), j) <==> MatchesAt(a, End(k), j - |pre|) {
      MatchesAtSuffix(pre, a + tail, End(k), j);
      MatchesAtPrefix(a, tail, End(k), j - |pre|);
    }
    hide MatchesAt, FindFrom;
    FindFromIs(text, End(k), |pre|, i);
  }

  lemma FindFromIs(hay: string, needle: string, from: nat, i: nat)
    requires from <= i && MatchesAt(hay, needle, i) && forall j | from <= j < i :: !MatchesAt(hay, needle, j)
    ensures FindFrom(hay, needle, from) == Some(i)
  {
  }

  /** Every block is cut out: behind text in which no BEGIN line starts, a block from its
      BEGIN line to its first END marker is one segment of its kind, the line break behind it
      goes, and the cutting goes on there. */
  lemma BlockIsCut(pre: string, k: Kind, a: string, br: string, rest: string)
    requires IsArmor(k, a) && (pre == "" || pre[|pre| - 1] == '\n') && EndOfBlock(br, rest)
    requires NoBegin(pre + (a + (br + rest)), |pre|)
    ensures Segments(pre + (a + (br + rest))) == PlainUnlessEmpty(pre) + [Armor(k, a)] + Segments(rest)
  {
    hide *;
    var text, tail := pre + (a + (br + rest)), br + rest;
    BlockBegins(pre, k, a, tail);
    BlockSlices(pre, a, tail);
    NextBeginIs(text, k, |pre|);
    EndFound(pre, k, a, tail);
    SegmentsAt(text, |pre|, k, |pre| + |a|, pre, a, tail);
    DropsBreak(br, rest);
  }

  lemma SegmentsAt(text: string, start: nat, k: Kind, end: nat, pre: string, a: string, tail: string)
    requires NextBegin(text) == Some((start, k)) && start <= end <= |text|
    requires FindFrom(text, End(k), start) == Some(end - |End(k)|)
    requires text[..start] == pre && text[start..end] == a && text[end..] == tail
    ensures Segments(text) == PlainUnlessEmpty(pre) + [Armor(k, a)] + Segments(DropBreak(tail))
  {
    hide *;
    SegmentsUnfold(text, start, k, end);
  }

  lemma BlockSlices(pre: string, a: string, tail: string)
    ensures
      var text, end := pre + (a + tail), |pre| + |a|;
      end <= |text| && text[..|pre|] == pre && text[|pre|..end] == a && text[end..] == tail
  {
  }

  lemma BlockBegins(pre: string, k: Kind, a: string, tail: string)
    requires IsArmor(k, a) && (pre == "" || pre[|pre| - 1] == '\n')
    ensures BeginsAt(pre + (a + tail), k, |pre|)
  {
    hide Begin, End;
    assert |Begin(k)| <= |a|;
    MatchesAtPrefix(a, tail, Begin(k), 0);
    MatchesAtSuffix(pre, a + tail, Begin(k), |pre|);
  }

  /** Text without a BEGIN line is one piece, and so is text whose first BEGIN line has no END
      marker behind it. */
  lemma RestIsPlain(text: string)
    ensures NoBegin(text, |text| + 1) ==> Segments(text) == PlainUnlessEmpty(text)
    ensures forall k, start: nat | NoBegin(text, start) && BeginsAt(text, k, start)
                                   && FindFrom(text, End(k), start) == None :: Segments(text) == [Plain(text)]
  {
    hide Begin, End, MatchesAt, FindFrom, NoBegin, BeginsAt, NextBegin;
    if NoBegin(text, |text| + 1) {
      NoNextBegin(text);
    }
    forall k, start: nat | NoBegin(text, start) && BeginsAt(text, k, start) && FindFrom(text, End(k), start) == None
      ensures Segments(text) == [Plain(text)]
    {
      NextBeginIs(text, k, start);
    }
  }
}
