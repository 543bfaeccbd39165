/** Exactly which sets are published and fetched (scripts/backup-destinations.py). */
module BackupChecks {
  import opened Wrappers
  import opened Text
  import opened Utf8
  import opened BackupNames
  import opened BackupProtocol
  import opened BackupDirectory

  // -- names -------------------------------------------------------------------

  predicate PlainName(n: string) {
    && 1 <= |n| <= 160 && n[0] !in {'.', '_', '-'}
    && forall c | c in n :: 'a' <= c <= 'z' || 'A' <= c <= 'Z' || '0' <= c <= '9' || c in {'.', '_', '-'}
  }

  lemma SafeNameIff(n: string)
    ensures SafeName(n) <==> PlainName(n)
  {
    if PlainName(n) {
      assert forall i | 0 <= i < |n| :: n[i] in n;
    }
  }

  /** An archive is a plain name with one of two endings. */
  lemma ArchiveNameIff(n: string)
    ensures ArchiveName(n) <==> PlainName(n) && |n| >= 8 && n[|n| - 8..] in {".tar.age", ".tar.gpg"}
  {
    SafeNameIff(n);
  }

  predicate Digits(s: string) {
    s != "" && forall c | c in s :: '0' <= c <= '9'
  }

  lemma DigitsIff(s: string)
    ensures s != "" ==> (AllDigits(s) <==> Digits(s))
  {
    if Digits(s) {
      assert forall i | 0 <= i < |s| :: s[i] in s;
    }
  }

  function SnapshotText(date: string, time: string, a: string, b: string, ending: string): string {
    date + "T" + time + "Z-" + a + "-" + b + ending
  }

  /** A snapshot's name: date and time, two numbers, and an archive's ending. */
  ghost predicate IsSnapshotName(n: string) {
    exists date, time, a, b, ending ::
      && Digits(date) && |date| == 8 && Digits(time) && |time| == 6 && Digits(a) && Digits(b)
      && ending in {".tar.age", ".tar.gpg"} && n == SnapshotText(date, time, a, b, ending)
  }

  lemma SnapshotParts(date: string, time: string, a: string, b: string, ending: string)
    requires |date| == 8 && |time| == 6 && |ending| == 8
    ensures
      var n := SnapshotText(date, time, a, b, ending);
      && |n| == 17 + |a| + 1 + |b| + 8 && n[..8] == date && n[8] == 'T' && n[9..15] == time && n[15] == 'Z'
      && n[16] == '-' && n[17..|n| - 8] == a + "-" + b && n[|n| - 8..] == ending
  {
  }

  lemma NumbersSplit(a: string, b: string)
    ensures var m := a + "-" + b; |m| == |a| + 1 + |b| && m[|a|] == '-' && m[..|a|] == a && m[|a| + 1..] == b
  {
  }

  lemma NameIsSnapshot(date: string, time: string, a: string, b: string, ending: string)
    requires Digits(date) && |date| == 8 && Digits(time) && |time| == 6 && Digits(a) && Digits(b)
    requires ending in {".tar.age", ".tar.gpg"}
    ensures Snapshot(SnapshotText(date, time, a, b, ending))
  {
    var n := SnapshotText(date, time, a, b, ending);
    DigitsIff(date);
    DigitsIff(time);
    DigitsIff(a);
    DigitsIff(b);
    SnapshotParts(date, time, a, b, ending);
    NumbersSplit(a, b);
    assert a != "" && b != "";
    hide SnapshotText, Digits, AllDigits;
    var numbers := n[17..|n| - 8];
    assert 0 < |a| < |numbers| - 1 && numbers[|a|] == '-' && numbers[..|a|] == a && numbers[|a| + 1..] == b;
  }

  lemma SnapshotIff(n: string)
    ensures Snapshot(n) <==> IsSnapshotName(n)
  {
    if IsSnapshotName(n) {
      var date, time, a, b, ending :|
        && Digits(date) && |date| == 8 && Digits(time) && |time| == 6 && Digits(a) && Digits(b)
        && ending in {".tar.age", ".tar.gpg"} && n == SnapshotText(date, time, a, b, ending);
      hide *;
      NameIsSnapshot(date, time, a, b, ending);
    }
    if Snapshot(n) {
      SnapshotSplits(n);
    }
  }

  lemma SnapshotSplits(n: string)
    requires Snapshot(n)
    ensures IsSnapshotName(n)
  {
    var numbers := n[17..|n| - 8];
    var d :| 0 < d < |numbers| - 1 && numbers[d] == '-' && AllDigits(numbers[..d]) && AllDigits(numbers[d + 1..]);
    SnapshotEnding(n);
    SliceAll(n);
    DigitsIff(n[..8]);
    DigitsIff(n[9..15]);
    hide *;
    TwoNumbers(numbers, d);
    Regroup(n[..8], n[9..15], numbers[..d], numbers[d + 1..], n[|n| - 8..]);
    NamedBy(n, n[..8], n[9..15], numbers[..d], numbers[d + 1..], n[|n| - 8..]);
  }

  lemma TwoNumbers(m: string, d: nat)
    requires 0 < d < |m| - 1 && m[d] == '-' && AllDigits(m[..d]) && AllDigits(m[d + 1..])
    ensures m == m[..d] + "-" + m[d + 1..] && Digits(m[..d]) && Digits(m[d + 1..])
  {
    DigitsIff(m[..d]);
    DigitsIff(m[d + 1..]);
    assert m == m[..d] + [m[d]] + m[d + 1..];
  }

  lemma NamedBy(n: string, date: string, time: string, a: string, b: string, ending: string)
    requires Digits(date) && |date| == 8 && Digits(time) && |time| == 6 && Digits(a) && Digits(b)
    requires ending in {".tar.age", ".tar.gpg"} && n == SnapshotText(date, time, a, b, ending)
    ensures IsSnapshotName(n)
  {
  }

  lemma SnapshotEnding(n: string)
    requires Snapshot(n)
    ensures n[|n| - 8..] in {".tar.age", ".tar.gpg"}
  {
  }

  lemma SliceAll(n: string)
    requires |n| >= 25 && n[8] == 'T' && n[15] == 'Z' && n[16] == '-'
    ensures n == n[..8] + ("T" + (n[9..15] + ("Z-" + (n[17..|n| - 8] + n[|n| - 8..]))))
  {
    assert "T" == [n[8]] && "Z-" == [n[15], n[16]];
    assert n[15..] == "Z-" + n[17..] && n[17..] == n[17..|n| - 8] + n[|n| - 8..];
    assert n[8..] == "T" + n[9..] && n[9..] == n[9..15] + n[15..];
  }

  lemma Regroup(date: string, time: string, a: string, b: string, ending: string)
    ensures date + ("T" + (time + ("Z-" + ((a + "-" + b) + ending)))) == SnapshotText(date, time, a, b, ending)
  {
  }

  // -- publishing --------------------------------------------------------------

  /** File `i` of the set can be copied: its name is plain, and it is not there or equal. */
  predicate Copyable(k: Codec, dir: Dir, job: Job, i: nat)
    requires ArchiveName(job.name) && i <= 2
  {
    var n := FileName(job.name, i);
    PlainName(n) && (n in dir ==> k.sha(dir[n]) == k.sha(Content(k, job, i)))
  }

  lemma CopiedIff(k: Codec, dir: Dir, job: Job, i: nat)
    requires ArchiveName(job.name) && i <= 2
    ensures Copied(k, dir, FileName(job.name, i), Content(k, job, i)).Some? <==> Copyable(k, dir, job, i)
    ensures Copyable(k, dir, job, i) ==>
      var n, d := FileName(job.name, i), Copied(k, dir, FileName(job.name, i), Content(k, job, i)).value;
      d == if n in dir then dir else dir[n := Content(k, job, i)]
  {
    SafeNameIff(FileName(job.name, i));
  }

  /** The three files have three names. */
  lemma ThreeNames(n: string)
    requires ArchiveName(n)
    ensures FileName(n, 0) != FileName(n, 1) && FileName(n, 0) != FileName(n, 2) && FileName(n, 1) != FileName(n, 2)
  {
    LastCharacter(n, 0);
    LastCharacter(n, 1);
    LastCharacter(n, 2);
  }

  /** The directory with the missing ones of these files. */
  function Completed(k: Codec, dir: Dir, job: Job): Dir
    requires ArchiveName(job.name)
  {
    map n | n in dir.Keys + {FileName(job.name, 0), FileName(job.name, 1), FileName(job.name, 2)} ::
      if n in dir then dir[n]
      else if n == FileName(job.name, 0) then job.archive
      else if n == FileName(job.name, 1) then job.release
      else Content(k, job, 2)
  }

  /** A publication succeeds exactly when the archive's name is one and each of the three
      files is missing or equal; then the missing ones are there, and nothing else
      changed. */
  lemma PublishIff(k: Codec, dir: Dir, job: Job)
    ensures PublishResult(k, dir, job).0 <==>
      ArchiveName(job.name) && Copyable(k, dir, job, 0) && Copyable(k, dir, job, 1) && Copyable(k, dir, job, 2)
    ensures PublishResult(k, dir, job).0 ==> PublishResult(k, dir, job).1 == Completed(k, dir, job)
  {
    if ArchiveName(job.name) {
      ThreeNames(job.name);
      hide SafeName, PlainName, ArchiveName, FileName;
      PublishSteps(k, dir, job);
      CopiedIff(k, dir, job, 0);
      if Copyable(k, dir, job, 0) {
        var d := Copied(k, dir, FileName(job.name, 0), Content(k, job, 0)).value;
        CopiedIff(k, d, job, 1);
        if Copyable(k, d, job, 1) {
          var d2 := Copied(k, d, FileName(job.name, 1), Content(k, job, 1)).value;
          CopiedIff(k, d2, job, 2);
        }
      }
    }
  }

  /** The three copies, one after the other. */
  lemma PublishSteps(k: Codec, dir: Dir, job: Job)
    requires ArchiveName(job.name)
    ensures
      PublishResult(k, dir, job)
      == match Copied(k, dir, FileName(job.name, 0), Content(k, job, 0))
         case None => (false, dir)
         case Some(d) =>
           match Copied(k, d, FileName(job.name, 1), Content(k, job, 1))
           case None => (false, d)
           case Some(d2) =>
             match Copied(k, d2, FileName(job.name, 2), Content(k, job, 2))
             case None => (false, d2)
             case Some(d3) => (true, d3)
  {
    hide Copied, FileName, Content;
    match Copied(k, dir, FileName(job.name, 0), Content(k, job, 0)) {
      case None =>
      case Some(d) =>
        assert PublishedFrom(k, dir, job, 0) == PublishedFrom(k, d, job, 1);
        match Copied(k, d, FileName(job.name, 1), Content(k, job, 1)) {
          case None =>
          case Some(d2) =>
            assert PublishedFrom(k, d, job, 1) == PublishedFrom(k, d2, job, 2);
        }
    }
  }

  // -- fetching ----------------------------------------------------------------

  /** The file that an entry lists is there, with the listed size and digest. */
  predicate Listed(k: Codec, dir: Dir, e: FileEntry) {
    && PlainName(e.name) && e.name in dir && |dir[e.name]| == e.bytes <= 549755813888
    && k.sha(dir[e.name]) == e.sha256
    && |e.sha256| == 64 && forall c | c in e.sha256 :: '0' <= c <= '9' || 'a' <= c <= 'f'
  }

  lemma ListedIff(k: Codec, dir: Dir, e: FileEntry)
    ensures ReadEntry(k, dir, e) == if Listed(k, dir, e) then Some(dir[e.name]) else None
  {
    SafeNameIff(e.name);
    assert MAX_BYTES == 549755813888;
    if forall c | c in e.sha256 :: '0' <= c <= '9' || 'a' <= c <= 'f' {
      assert forall i | 0 <= i < |e.sha256| :: e.sha256[i] in e.sha256;
    }
  }

  /** A fetch succeeds exactly when the manifest lists the archive and the release file, in
      either order, and both are there as listed; it returns them. */
  lemma FetchIff(k: Codec, dir: Dir, name: string)
    ensures
      var marker := MarkerName(name);
      var r := FetchFrom(k, name, dir, dir, dir);
      var files := if marker in dir then k.load(dir[marker]) else None;
      && (r.Some? <==>
            && ArchiveName(name) && PlainName(marker) && marker in dir && |dir[marker]| <= 65536 && files.Some?
            && |files.value| == 2
            && ((files.value[0].name == name && files.value[1].name == ReleaseName(name))
                || (files.value[1].name == name && files.value[0].name == ReleaseName(name)))
            && Listed(k, dir, files.value[0]) && Listed(k, dir, files.value[1]))
      && (r.Some? ==> name in dir && ReleaseName(name) in dir
                      && r.value == Job(name, dir[name], dir[ReleaseName(name)]))
  {
    if ArchiveName(name) {
      var marker := MarkerName(name);
      SafeNameIff(marker);
      hide SafeName, PlainName, MarkerName, ReleaseName, Encrypted;
      if marker in dir && k.load(dir[marker]).Some? && |k.load(dir[marker]).value| == 2 {
        var files := k.load(dir[marker]).value;
        PairIff(files[0].name, files[1].name, name, ReleaseName(name));
        ListedIff(k, dir, files[0]);
        ListedIff(k, dir, files[1]);
        if {files[0].name, files[1].name} == {name, ReleaseName(name)} {
          TwoNames(name, files);
        }
      }
    }
  }

  lemma PairIff(a: string, b: string, x: string, y: string)
    ensures {a, b} == {x, y} <==> (a == x && b == y) || (b == x && a == y)
  {
    if {a, b} == {x, y} {
      assert a in {x, y} && b in {x, y} && x in {a, b} && y in {a, b};
    }
  }
}
