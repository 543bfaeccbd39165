/** A backup destination that is a local directory: publishing, fetching and pruning sets
    (scripts/backup-destinations.py). */
module BackupDirectory {
  import opened Wrappers
  import opened Text
  import opened Utf8
  import opened Sorting
  import opened BackupNames
  import opened RetentionRule
  import opened BackupProtocol

  // -- publishing --------------------------------------------------------------

  /** The directory after a file is copied to it: nothing is ever replaced. */
  function Copied(k: Codec, dir: Dir, name: string, content: Bytes): Option<Dir> {
    if !SafeName(name) then None
    else if name in dir then (if k.sha(dir[name]) == k.sha(content) then Some(dir) else None)
    else Some(dir[name := content])
  }

  /** Whether files `i`.. of the set could be copied, and the directory afterwards. */
  function PublishedFrom(k: Codec, dir: Dir, job: Job, i: nat): (bool, Dir)
    requires ArchiveName(job.name) && i <= 3
    decreases 3 - i
  {
    if i == 3 then (true, dir) else
      match Copied(k, dir, FileName(job.name, i), Content(k, job, i))
      case None => (false, dir)
      case Some(d) => PublishedFrom(k, d, job, i + 1)
  }

  function PublishResult(k: Codec, dir: Dir, job: Job): (bool, Dir) {
    if !ArchiveName(job.name) then (false, dir) else PublishedFrom(k, dir, job, 0)
  }

  // -- fetching ----------------------------------------------------------------

  const MAX_BYTES: nat := 512 * 1024 * 1024 * 1024
  const MAX_MANIFEST: nat := 65536

  function ReadCopy(dir: Dir, name: string, limit: nat): Option<Bytes> {
    if SafeName(name) && name in dir && |dir[name]| <= limit then Some(dir[name]) else None
  }

  function ReadEntry(k: Codec, dir: Dir, e: FileEntry): Option<Bytes> {
    if e.bytes > MAX_BYTES || !IsHexDigest(e.sha256) then None else
      var c :- ReadCopy(dir, e.name, e.bytes);
      if |c| == e.bytes && k.sha(c) == e.sha256 then Some(c) else None
  }

  function ReadManifest(k: Codec, dir: Dir, name: string): Option<seq<FileEntry>>
    requires ArchiveName(name)
  {
    var c :- ReadCopy(dir, MarkerName(name), MAX_MANIFEST);
    var files :- k.load(c);
    if |files| == 2 && {files[0].name, files[1].name} == {name, ReleaseName(name)} then Some(files) else None
  }

  /** What a fetch returns that reads the manifest in one state of the directory and the
      two files in others. */
  function FetchFrom(k: Codec, name: string, dir: Dir, dir1: Dir, dir2: Dir): Option<Job> {
    if !ArchiveName(name) then None else
      var files :- ReadManifest(k, dir, name);
      var first :- ReadEntry(k, dir1, files[0]);
      var second :- ReadEntry(k, dir2, files[1]);
      Some(if files[0].name == name then Job(name, first, second) else Job(name, second, first))
  }

  // -- retention ---------------------------------------------------------------

  /** The directory after a retention run. */
  function Pruned(files: Dir, l: Limits, current: string): Dir {
    files - AllVictims(files.Keys, Removed(files.Keys, l, current))
  }

  function Members(s: seq<string>): set<string> {
    set n | n in s
  }

  lemma MembersAppend(s: seq<string>, x: string)
    ensures Members(s + [x]) == Members(s) + {x}
  {
  }

  lemma MinusTwice(files: Dir, a: set<string>, b: set<string>)
    ensures (files - a) - b == files - (a + b)
  {
  }

  lemma ListIsVictims(names: set<string>, n: string)
    requires |n| >= 8
    ensures Members(PruneList(names, n)) == Victims(names, n)
  {
  }

  lemma VictimsAppend(names: set<string>, gone: set<string>, n: string)
    requires |n| >= 8
    ensures AllVictims(names, gone + {n}) == AllVictims(names, gone) + Victims(names, n)
  {
  }

  predicate Distinct(s: seq<string>) {
    forall i, j | 0 <= i < j < |s| :: s[i] != s[j]
  }

  function Reversed(s: seq<string>): (r: seq<string>)
    ensures |r| == |s| && forall i | 0 <= i < |s| :: r[i] == s[|s| - 1 - i]
  {
    seq(|s|, i requires 0 <= i < |s| => s[|s| - 1 - i])
  }

  class Directory {
    const k: Codec
    var files: Dir

    constructor (k: Codec, files: Dir)
      ensures this.k == k && this.files == files
    {
      this.k := k;
      this.files := files;
    }

    /** `copy_file`; `tmp` is the unused temporary name it is given. */
    method CopyFile(name: string, content: Bytes, tmp: string) returns (ok: bool)
      requires IsTemp(tmp) && tmp !in files && tmp != name
      modifies this
      ensures
        var r := Copied(k, old(files), name, content);
        ok == r.Some? && files == r.GetOr(old(files))
    {
      if !SafeName(name) {
        return false;
      }
      if name in files {
        return k.sha(files[name]) == k.sha(content);
      }
      files := files[tmp := ""];
      files := files[tmp := content];
      ok := k.sha(files[tmp]) == k.sha(content) && name !in files;
      if ok {
        files := files[name := files[tmp]];
      }
      files := files - {tmp};
    }

    /** `publish`, with one unused temporary name. */
    method Publish(name: string, archive: Bytes, release: Option<Bytes>, tmp: string) returns (ok: bool)
      requires IsTemp(tmp) && tmp !in files
      modifies this
      ensures
        var r := if release.Some? then PublishResult(k, old(files), Job(name, archive, release.value))
                 else (false, old(files));
        ok == r.0 && files == r.1
    {
      if !ArchiveName(name) || release.None? {
        return false;
      }
      var job := Job(name, archive, release.value);
      NotTemp(name);
      for i := 0 to 3
        invariant tmp !in files && PublishedFrom(k, files, job, i) == PublishedFrom(k, old(files), job, 0)
      {
        var copied := CopyFile(FileName(name, i), Content(k, job, i), tmp);
        if !copied {
          return false;
        }
      }
      return true;
    }

    /** `fetch`, up to publishing the fetched files. */
    method Fetch(name: string) returns (r: Option<Job>)
      ensures r == FetchFrom(k, name, files, files, files)
    {
      if !ArchiveName(name) {
        return None;
      }
      var listed := ReadManifest(k, files, name);
      if listed.None? {
        return None;
      }
      var entries := listed.value;
      var work: map<string, Bytes> := map[];
      for i := 0 to |entries|
        invariant i >= 1 ==> ReadEntry(k, files, entries[0]).Some?
        invariant i >= 2 ==> ReadEntry(k, files, entries[1]).Some?
        invariant forall j | 0 <= j < i ::
          entries[j].name in work && Some(work[entries[j].name]) == ReadEntry(k, files, entries[j])
      {
        var e := entries[i];
        var content := ReadEntry(k, files, e);
        if content.None? {
          return None;
        }
        TwoNames(name, entries);
        work := work[e.name := content.value];
      }
      TwoNames(name, entries);
      return Some(Job(name, work[name], work[ReleaseName(name)]));
    }

    /** `fetch`: the verified files are published in the output directory, which may be this
        one; `tmp` is an unused temporary name there. */
    method FetchInto(name: string, output: Directory, tmp: string) returns (ok: bool)
      requires IsTemp(tmp) && tmp !in output.files
      modifies output
      ensures
        var job := FetchFrom(k, name, old(files), old(files), old(files));
        var r := if job.Some? then PublishResult(output.k, old(output.files), job.value)
                 else (false, old(output.files));
        ok == r.0 && output.files == r.1
    {
      var job := Fetch(name);
      if job.None? {
        return false;
      }
      ok := output.Publish(name, job.value.archive, Some(job.value.release), tmp);
    }

    /** The victims of one snapshot, one after the other. */
    method Unlink(victims: seq<string>)
      modifies this
      ensures files == old(files) - Members(victims)
    {
      for i := 0 to |victims|
        invariant files == old(files) - Members(victims[..i])
      {
        assert victims[..i + 1] == victims[..i] + [victims[i]];
        MembersAppend(victims[..i], victims[i]);
        files := files - {victims[i]};
      }
      assert victims[..|victims|] == victims;
    }

    method ListNames() returns (names: seq<string>)
      ensures Distinct(names) && Members(names) == files.Keys
    {
      names := [];
      var rest := files.Keys;
      while rest != {}
        invariant Distinct(names) && Members(names) + rest == files.Keys
        invariant forall n | n in names :: n !in rest
        decreases |rest|
      {
        var n :| n in rest;
        names := names + [n];
        rest := rest - {n};
      }
    }

    /** `retention`: removes the sets and returns their names. */
    method Retention(current: string, l: Limits) returns (removed: seq<string>)
      modifies this
      ensures Members(removed) == Removed(old(files).Keys, l, current)
      ensures files == Pruned(old(files), l, current)
    {
      removed := [];
      if l.keep.None? && l.cutoff.None? {
        assert Removed(files.Keys, l, current) == {};
        assert AllVictims(files.Keys, {}) == {};
        return;
      }
      var listed := ListNames();
      var names := Members(listed);
      var complete := Ranked(listed, names);
      var position := 0;
      while position < |complete|
        invariant position <= |complete|
        invariant Members(removed) == Removed(names, l, current) * Members(complete[..position])
        invariant files == old(files) - AllVictims(names, Members(removed))
      {
        hide AllVictims, Removed, Members, Victims, IsRanking;
        var name := complete[position];
        position := position + 1;
        RankedStep(names, l, current, complete, position - 1);
        var stamp := Stamp(name);
        if name == current || position <= l.keep.GetOr(7) || (l.cutoff.Some? && Le(l.cutoff.value, stamp)) {
          continue;
        }
        Unlink(PruneList(names, name));
        ListIsVictims(names, name);
        MinusTwice(old(files), AllVictims(names, Members(removed)), Victims(names, name));
        VictimsAppend(names, Members(removed), name);
        MembersAppend(removed, name);
        removed := removed + [name];
      }
      assert complete[..|complete|] == complete;
    }

    /** The complete snapshots among the listed names, newest first. */
    method Ranked(listed: seq<string>, names: set<string>) returns (r: seq<string>)
      requires Members(listed) == names && Distinct(listed)
      ensures IsRanking(r, names)
    {
      var found: seq<string> := [];
      for i := 0 to |listed|
        invariant Distinct(found)
        invariant forall n :: n in found <==> n in listed[..i] && CompleteSnapshot(names, n)
      {
        assert listed[..i + 1] == listed[..i] + [listed[i]] && listed[i] in Members(listed);
        assert listed[i] !in listed[..i];
        if Snapshot(listed[i]) && MarkerName(listed[i]) in names {
          found := found + [listed[i]];
        }
      }
      assert listed[..|listed|] == listed;
      SortResult(found);
      r := Reversed(Sort(found));
      RankingOf(found, names);
    }
  }

  lemma TwoNames(name: string, entries: seq<FileEntry>)
    requires ArchiveName(name) && |entries| == 2 && {entries[0].name, entries[1].name} == {name, ReleaseName(name)}
    ensures name != ReleaseName(name) && entries[0].name != entries[1].name
    ensures entries[0].name == name ==> entries[1].name == ReleaseName(name)
    ensures entries[0].name != name ==> entries[0].name == ReleaseName(name) && entries[1].name == name
  {
    LastCharacter(name, 0);
    LastCharacter(name, 1);
    assert name in {entries[0].name, entries[1].name} && ReleaseName(name) in {entries[0].name, entries[1].name};
    assert entries[0].name in {name, ReleaseName(name)};
  }

  /** All complete snapshots, each once, newest first. */
  predicate IsRanking(r: seq<string>, names: set<string>) {
    && Distinct(r) && Members(r) == CompleteSnapshots(names)
    && forall i, j | 0 <= i < j < |r| :: Le(r[j], r[i])
  }

  lemma RankingOf(found: seq<string>, names: set<string>)
    requires Distinct(found) && Members(found) == CompleteSnapshots(names)
    ensures IsRanking(Reversed(Sort(found)), names)
  {
    var s := Sort(found);
    SortResult(found);
    DistinctSort(found, s);
    SameMembers(found, s);
    assert Members(found) == Members(s);
    ReversedMembers(s);
    hide Sort, CompleteSnapshots, Le;
  }

  lemma ReversedMembers(s: seq<string>)
    ensures Members(Reversed(s)) == Members(s)
  {
    forall n | n in s ensures n in Reversed(s) {
      var i :| 0 <= i < |s| && s[i] == n;
      assert Reversed(s)[|s| - 1 - i] == n;
    }
  }

  lemma DistinctSort(a: seq<string>, b: seq<string>)
    requires multiset(a) == multiset(b) && Distinct(a)
    ensures Distinct(b)
  {
    forall i, j | 0 <= i < j < |b| ensures b[i] != b[j] {
      if b[i] == b[j] {
        assert multiset(b)[b[i]] >= 2 by {
          assert b == b[..i] + [b[i]] + b[i + 1..j] + [b[j]] + b[j + 1..];
        }
        OnceOnly(a, b[i]);
      }
    }
  }

  lemma {:induction false} OnceOnly(a: seq<string>, x: string)
    requires Distinct(a)
    ensures multiset(a)[x] <= 1
    decreases |a|
  {
    if a != [] {
      var front, last := a[..|a| - 1], a[|a| - 1];
      assert a == front + [last];
      OnceOnly(front, x);
      if x == last {
        assert x !in front;
      }
    }
  }

  /** The next snapshot of the ranking is to be removed exactly if none of the reasons to
      keep it applies. */
  lemma RankedStep(names: set<string>, l: Limits, current: string, r: seq<string>, i: nat)
    requires IsRanking(r, names) && i < |r| && (l.keep.Some? || l.cutoff.Some?)
    ensures |r[i]| >= 28 && Snapshot(r[i])
    ensures
      var keep := r[i] == current || i + 1 <= KeepCount(l) || (l.cutoff.Some? && Le(l.cutoff.value, Stamp(r[i])));
      Removed(names, l, current) * Members(r[..i + 1])
      == Removed(names, l, current) * Members(r[..i]) + if keep then {} else {r[i]}
  {
    RankIsNewer(names, r, i);
    assert r[..i + 1] == r[..i] + [r[i]];
    MembersAppend(r[..i], r[i]);
    assert r[i] in Removed(names, l, current) <==> ToRemove(names, l, current, r[i]);
    hide IsRanking, Snapshot, Removed, Members, Newer, Le;
  }

  /** In a ranking, the snapshots before position `i` are exactly the newer ones. */
  lemma RankIsNewer(names: set<string>, r: seq<string>, i: nat)
    requires IsRanking(r, names) && i < |r|
    ensures |Newer(names, r[i])| == i && CompleteSnapshot(names, r[i])
  {
    var before := Members(r[..i]);
    assert r[i] in Members(r);
    forall m | m in Newer(names, r[i]) ensures m in before {
      NewerComesFirst(names, r, i, m);
    }
    forall m | m in before ensures m in Newer(names, r[i]) {
      FirstIsNewer(names, r, i, m);
    }
    assert before == Newer(names, r[i]);
    PrefixSize(r, i);
  }

  lemma NewerComesFirst(names: set<string>, r: seq<string>, i: nat, m: string)
    requires IsRanking(r, names) && i < |r| && m in Newer(names, r[i])
    ensures m in r[..i]
  {
    assert m in Members(r);
    var j :| 0 <= j < |r| && r[j] == m;
    LeTotal(m, r[i]);
    if j < i {
      assert r[..i][j] == m;
    }
  }

  lemma FirstIsNewer(names: set<string>, r: seq<string>, i: nat, m: string)
    requires IsRanking(r, names) && i < |r| && m in r[..i]
    ensures m in Newer(names, r[i])
  {
    var j :| 0 <= j < i && r[..i][j] == m;
    assert r[j] == m && m in Members(r);
  }

  lemma {:induction false} PrefixSize(r: seq<string>, i: nat)
    requires Distinct(r) && i <= |r|
    ensures |Members(r[..i])| == i
    decreases i
  {
    if i == 0 {
      assert Members(r[..0]) == {};
    } else {
      PrefixSize(r, i - 1);
      NotBefore(r, i - 1);
      var front := r[..i - 1];
      assert r[..i] == front + [r[i - 1]];
      hide Members, Distinct;
      MembersAppend(front, r[i - 1]);
    }
  }

  lemma NotBefore(r: seq<string>, i: nat)
    requires Distinct(r) && i < |r|
    ensures r[i] !in Members(r[..i])
  {
  }

  // -- what stays --------------------------------------------------------------

  /** The newest `keep` complete snapshots and the current one keep archive and manifest,
      and their release file unless a snapshot with the same stem goes. */
  lemma NewestSurvive(files: Dir, l: Limits, current: string, r: seq<string>, i: nat)
    requires IsRanking(r, files.Keys) && i < |r| && (i < KeepCount(l) || r[i] == current)
    ensures var after := Pruned(files, l, current);
      && |r[i]| >= 8
      && r[i] in after && after[r[i]] == files[r[i]]
      && MarkerName(r[i]) in after && after[MarkerName(r[i])] == files[MarkerName(r[i])]
      && (ReleaseName(r[i]) in files && !StemRemoved(files.Keys, l, current, r[i]) ==>
            ReleaseName(r[i]) in after && after[ReleaseName(r[i])] == files[ReleaseName(r[i])])
  {
    var n := r[i];
    RankIsNewer(files.Keys, r, i);
    KeptSetLosesIff(files.Keys, l, current, n);
    KeptFilesStay(files.Keys, l, current, n);
  }

  /** A kept set can lose its release file only. */
  lemma KeptFilesStay(names: set<string>, l: Limits, current: string, n: string)
    requires n in CompleteSnapshots(names) && n !in Removed(names, l, current)
    ensures n !in AllVictims(names, Removed(names, l, current))
    ensures MarkerName(n) !in AllVictims(names, Removed(names, l, current))
  {
    forall m | m in Removed(names, l, current) ensures n !in Victims(names, m) && MarkerName(n) !in Victims(names, m) {
      if n in Victims(names, m) {
        KeptFileGoes(names, n, 0, m);
      }
      if MarkerName(n) in Victims(names, m) {
        KeptFileGoes(names, n, 2, m);
      }
    }
  }

  // -- a fetch returns what was published -------------------------------------

  lemma ManifestEntries(k: Codec, dir: Dir, job: Job)
    requires Good(k) && Complete(k, dir, job)
    ensures ReadManifest(k, dir, job.name)
         == if SafeName(MarkerName(job.name)) && |k.dump(ManifestOf(k, job))| <= MAX_MANIFEST
            then Some(ManifestOf(k, job)) else None
  {
    assert k.load(k.dump(ManifestOf(k, job))) == Some(ManifestOf(k, job));
    assert FileName(job.name, 2) == MarkerName(job.name);
  }

  /** A fetch that succeeds returns exactly the bytes of one publication, whatever happens
      to the directory between its reads. */
  lemma FetchIsExact(k: Codec, names: set<string>, overlap: bool, actions: seq<Action>, s: System, name: string,
                     dir1: Dir, dir2: Dir)
    requires Good(k) && Safe(names, overlap) && Reaches(k, names, overlap, Init(map[]), actions, s)
    requires FetchFrom(k, name, s.dir, dir1, dir2).Some?
    ensures FetchFrom(k, name, s.dir, dir1, dir2).value in s.published
  {
    ManifestMeansComplete(k, names, overlap, actions, s, name);
    var job :| job in s.published && job.name == name && Complete(k, s.dir, job);
    hide *;
    FetchReturns(k, s.dir, dir1, dir2, job);
  }

  lemma FetchReturns(k: Codec, dir: Dir, dir1: Dir, dir2: Dir, job: Job)
    requires Good(k) && Complete(k, dir, job) && FetchFrom(k, job.name, dir, dir1, dir2).Some?
    ensures FetchFrom(k, job.name, dir, dir1, dir2).value == job
  {
    ManifestEntries(k, dir, job);
    hide Complete, ReadManifest, ReadCopy, IsHexDigest, ArchiveName;
    var r := FetchFrom(k, job.name, dir, dir1, dir2).value;
    assert k.sha(r.archive) == k.sha(job.archive) && k.sha(r.release) == k.sha(job.release);
  }

  lemma SafeParts(n: string)
    requires ArchiveName(n)
    ensures SafeName(MarkerName(n)) <==> |n| <= 146
    ensures |n| <= 146 ==> SafeName(ReleaseName(n))
  {
    StemNotEmpty(n);
    SafeSuffix(n, ".complete.json");
    SafeSuffix(Stem(n), ".release.env");
  }

  predicate SafeTail(t: string) {
    forall i | 0 <= i < |t| :: IsAlnum(t[i]) || t[i] == '.' || t[i] == '_' || t[i] == '-'
  }

  lemma SafeSuffix(n: string, suffix: string)
    requires n != "" && |n| <= 160 && IsAlnum(n[0]) && SafeTail(n) && SafeTail(suffix)
    ensures SafeName(n + suffix) <==> |n| + |suffix| <= 160
  {
    assert SafeTail(n + suffix);
  }

  lemma FetchOfComplete(k: Codec, dir: Dir, job: Job)
    requires Good(k) && Complete(k, dir, job)
    ensures FetchFrom(k, job.name, dir, dir, dir)
         == if |job.name| <= 146 && |k.dump(ManifestOf(k, job))| <= MAX_MANIFEST
               && |job.archive| <= MAX_BYTES && |job.release| <= MAX_BYTES
            then Some(job) else None
  {
    ManifestEntries(k, dir, job);
    SafeParts(job.name);
    assert FileName(job.name, 0) == job.name && FileName(job.name, 1) == ReleaseName(job.name);
  }

  /** In every run, whatever overlaps, a complete set can be fetched exactly when its three
      files are within the fetch limits. */
  lemma CompleteSetIsFetchedIff(k: Codec, names: set<string>, overlap: bool, actions: seq<Action>, s: System, job: Job)
    requires Good(k) && Reaches(k, names, overlap, Init(map[]), actions, s) && Complete(k, s.dir, job)
    ensures FetchFrom(k, job.name, s.dir, s.dir, s.dir)
         == if |k.dump(ManifestOf(k, job))| <= MAX_MANIFEST && |job.archive| <= MAX_BYTES && |job.release| <= MAX_BYTES
            then Some(job) else None
  {
    assert FileName(job.name, 2) == MarkerName(job.name);
    ReachedMarkersAreShort(k, names, overlap, actions, s, job.name);
    FetchOfComplete(k, s.dir, job);
  }

  lemma CopiedHolds(k: Codec, dir: Dir, job: Job, i: nat)
    requires Good(k) && ArchiveName(job.name) && i <= 2
    ensures
      var r := Copied(k, dir, FileName(job.name, i), Content(k, job, i));
      r.Some?
      ==> Holds(k, r.value, job, i) && forall j: nat | j <= 2 && Holds(k, dir, job, j) :: Holds(k, r.value, job, j)
  {
  }

  /** A publication that succeeds leaves a complete set, in any directory. */
  lemma PublishedIsComplete(k: Codec, dir: Dir, job: Job)
    requires Good(k) && PublishResult(k, dir, job).0
    ensures Complete(k, PublishResult(k, dir, job).1, job)
  {
    CopiedHolds(k, dir, job, 0);
    var d1 := Copied(k, dir, FileName(job.name, 0), Content(k, job, 0)).value;
    assert PublishedFrom(k, dir, job, 0) == PublishedFrom(k, d1, job, 1);
    CopiedHolds(k, d1, job, 1);
    var d2 := Copied(k, d1, FileName(job.name, 1), Content(k, job, 1)).value;
    assert PublishedFrom(k, d1, job, 1) == PublishedFrom(k, d2, job, 2);
    CopiedHolds(k, d2, job, 2);
    assert PublishedFrom(k, d2, job, 2)
        == PublishedFrom(k, Copied(k, d2, FileName(job.name, 2), Content(k, job, 2)).value, job, 3);
  }

  // -- the steps of one publication, taken alone ------------------------------

  /** `n` steps of one publication that nothing interferes with. */
  function Alone(k: Codec, dir: Dir, p: Option<Proc>, tmp: string, n: nat): (Dir, Option<Proc>)
    decreases n
  {
    if n == 0 || p.None? || !p.value.Publishing? || !ArchiveName(p.value.job.name) || p.value.at > 2 then (dir, p) else
      var q := p.value;
      var r := CopyStep(k, dir, q.job, q.at, q.phase, tmp, Content(k, q.job, q.at));
      Alone(k, r.0, r.1, tmp, n - 1)
  }

  lemma {:induction false} AloneAdds(k: Codec, dir: Dir, p: Option<Proc>, tmp: string, n: nat, m: nat)
    ensures Alone(k, dir, p, tmp, n + m) == Alone(k, Alone(k, dir, p, tmp, n).0, Alone(k, dir, p, tmp, n).1, tmp, m)
    decreases n
  {
    if n > 0 && p.Some? && p.value.Publishing? && ArchiveName(p.value.job.name) && p.value.at <= 2 {
      var q := p.value;
      var r := CopyStep(k, dir, q.job, q.at, q.phase, tmp, Content(k, q.job, q.at));
      AloneAdds(k, r.0, r.1, tmp, n - 1, m);
    }
  }

  /** Taken alone, the steps of one copy do what copying the file does. */
  lemma CopyAlone(k: Codec, dir: Dir, job: Job, at: nat, tmp: string)
    requires ArchiveName(job.name) && at <= 2 && IsTemp(tmp) && tmp !in dir
    ensures
      var target := FileName(job.name, at);
      var r := Copied(k, dir, target, Content(k, job, at));
      Alone(k, dir, Some(Publishing(job, at, Checking)), tmp, if SafeName(target) && target !in dir then 5 else 1)
      == if r.Some? then (r.value, Some(NextFile(job, at))) else (dir, None)
  {
    NotTemp(job.name);
    var target, content := FileName(job.name, at), Content(k, job, at);
    if SafeName(target) && target !in dir {
      var d1 := dir[tmp := ""];
      var d2 := d1[tmp := content];
      var d3 := d2[target := content];
      AloneStep(k, dir, job, at, Checking, tmp, 4);
      AloneStep(k, d1, job, at, Writing(tmp), tmp, 3);
      AloneStep(k, d2, job, at, Written(tmp), tmp, 2);
      AloneStep(k, d2, job, at, Verified(tmp), tmp, 1);
      AloneStep(k, d3, job, at, Cleaning(tmp, true), tmp, 0);
      assert d3 - {tmp} == dir[target := content];
    } else {
      AloneStep(k, dir, job, at, Checking, tmp, 0);
    }
  }

  lemma AloneStep(k: Codec, dir: Dir, job: Job, at: nat, phase: Phase, tmp: string, n: nat)
    requires ArchiveName(job.name) && at <= 2
    ensures
      var r := CopyStep(k, dir, job, at, phase, tmp, Content(k, job, at));
      Alone(k, dir, Some(Publishing(job, at, phase)), tmp, n + 1) == Alone(k, r.0, r.1, tmp, n)
  {
  }

  /** What is left of a publication, and the directory, when nothing interferes with it. */
  function PublishEnd(k: Codec, dir: Dir, job: Job, at: nat): (Dir, Option<Proc>)
    requires ArchiveName(job.name) && at <= 3
  {
    var r := PublishedFrom(k, dir, job, at);
    (r.1, if r.0 then Some(Finished(job.name)) else None)
  }

  /** Taken alone, the steps of a publication end as the publication does. */
  lemma {:induction false} PublishAlone(k: Codec, dir: Dir, job: Job, at: nat, tmp: string)
    requires ArchiveName(job.name) && at <= 2 && IsTemp(tmp) && tmp !in dir
    ensures exists n :: Alone(k, dir, Some(Publishing(job, at, Checking)), tmp, n) == PublishEnd(k, dir, job, at)
    decreases 3 - at
  {
    var target := FileName(job.name, at);
    var n := if SafeName(target) && target !in dir then 5 else 1;
    var r := Copied(k, dir, target, Content(k, job, at));
    CopyAlone(k, dir, job, at, tmp);
    NotTemp(job.name);
    if r.Some? && at < 2 {
      PublishAlone(k, r.value, job, at + 1, tmp);
      var m :| Alone(k, r.value, Some(Publishing(job, at + 1, Checking)), tmp, m)
            == PublishEnd(k, r.value, job, at + 1);
      AloneAdds(k, dir, Some(Publishing(job, at, Checking)), tmp, n, m);
    } else {
      assert r.Some? ==> PublishedFrom(k, dir, job, at) == PublishedFrom(k, r.value, job, 3);
    }
  }
}
