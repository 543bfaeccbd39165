/** Which files a retention run removes from a listing of a backup destination
    (scripts/backup-destinations.py), and what stays. */
module RetentionRule {
  import opened Wrappers
  import opened Sorting
  import opened BackupNames

  /** The configured limits: how many sets to keep, and the stamp before which sets are
      old; the stamp is given exactly when a number of days is configured. */
  datatype Limits = Limits(keep: Option<nat>, cutoff: Option<string>)

  function KeepCount(l: Limits): nat {
    l.keep.GetOr(7)
  }

  predicate CompleteSnapshot(names: set<string>, n: string) {
    n in names && Snapshot(n) && MarkerName(n) in names
  }

  function CompleteSnapshots(names: set<string>): set<string> {
    set n | n in names && CompleteSnapshot(names, n)
  }

  /** The complete snapshots whose names come after `n`'s. */
  function Newer(names: set<string>, n: string): set<string> {
    set m | m in CompleteSnapshots(names) && m != n && Le(n, m)
  }

  predicate Old(l: Limits, n: string)
    requires Snapshot(n)
  {
    l.cutoff.None? || !Le(l.cutoff.value, Stamp(n))
  }

  /** What is to be removed: complete, not the current one, with at least `keep` newer
      ones, and older than the cutoff if there is one. */
  predicate ToRemove(names: set<string>, l: Limits, current: string, n: string) {
    && (l.keep.Some? || l.cutoff.Some?)
    && CompleteSnapshot(names, n) && n != current && |Newer(names, n)| >= KeepCount(l) && Old(l, n)
  }

  function Removed(names: set<string>, l: Limits, current: string): set<string> {
    set n | n in names && ToRemove(names, l, current, n)
  }

  /** The files that go with one snapshot, as far as they were listed: the manifest first. */
  function PruneList(names: set<string>, n: string): seq<string>
    requires |n| >= 8
  {
    (if MarkerName(n) in names then [MarkerName(n)] else [])
    + (if n in names then [n] else [])
    + (if ReleaseName(n) in names then [ReleaseName(n)] else [])
  }

  function Victims(names: set<string>, n: string): set<string>
    requires |n| >= 8
  {
    {MarkerName(n), n, ReleaseName(n)} * names
  }

  function AllVictims(names: set<string>, gone: set<string>): set<string> {
    set n, v | n in gone && |n| >= 8 && v in Victims(names, n) :: v
  }

  /** Which snapshots a run removes: complete ones with at least as many newer complete ones
      as are to be kept, seven where no number is configured, and from before the cutoff;
      never the current one, and none at all where no limit is configured. */
  lemma RemovedIff(names: set<string>, l: Limits, current: string, n: string)
    ensures n in Removed(names, l, current) <==>
      && n in names && Snapshot(n) && MarkerName(n) in names && n != current
      && !(l.keep.None? && l.cutoff.None?)
      && |set m | m in names && Snapshot(m) && MarkerName(m) in names && m != n && Le(n, m)|
         >= (if l.keep.Some? then l.keep.value else 7)
      && (l.cutoff.Some? ==> !Le(l.cutoff.value, Stamp(n)))
  {
    assert Newer(names, n) == set m | m in names && Snapshot(m) && MarkerName(m) in names && m != n && Le(n, m);
    hide Le, MarkerName;
  }

  // -- what stays --------------------------------------------------------------

  /** With a cutoff, everything made at or after it survives. */
  lemma RecentSurvive(names: set<string>, l: Limits, current: string, n: string)
    requires Snapshot(n) && l.cutoff.Some? && GoodStamp(l.cutoff.value)
    requires StampValue(l.cutoff.value) <= StampValue(Stamp(n))
    ensures n !in Removed(names, l, current)
  {
    SnapshotStamp(n);
    StampOrder(l.cutoff.value, Stamp(n));
  }

  /** Only files of removed snapshots go. */
  lemma OnlyRemovedSetsLose(names: set<string>, l: Limits, current: string, f: string)
    requires f in AllVictims(names, Removed(names, l, current))
    ensures exists n ::
              n in Removed(names, l, current) && |n| >= 8 && (f == n || f == MarkerName(n) || f == ReleaseName(n))
  {
  }

  /** The snapshot's set loses one of its files. */
  predicate LosesFile(names: set<string>, l: Limits, current: string, n: string)
    requires |n| >= 8
  {
    exists i: nat :: i <= 2 && FileName(n, i) in AllVictims(names, Removed(names, l, current))
  }

  /** A snapshot with this stem is removed. */
  predicate StemRemoved(names: set<string>, l: Limits, current: string, n: string)
    requires |n| >= 8
  {
    exists m :: m in Removed(names, l, current) && |m| >= 8 && Stem(m) == Stem(n)
  }

  /** A kept complete set loses a file exactly when its release file was listed and a
      snapshot with the same stem is removed; the file it loses is the release file. */
  lemma KeptSetLosesIff(names: set<string>, l: Limits, current: string, n: string)
    requires n in CompleteSnapshots(names) && n !in Removed(names, l, current)
    ensures |n| >= 8
    ensures LosesFile(names, l, current, n) <==> ReleaseName(n) in names && StemRemoved(names, l, current, n)
    ensures LosesFile(names, l, current, n) <==> ReleaseName(n) in AllVictims(names, Removed(names, l, current))
  {
    assert FileName(n, 1) == ReleaseName(n);
    forall i: nat, m | i <= 2 && m in Removed(names, l, current) && FileName(n, i) in Victims(names, m)
      ensures i == 1 && Stem(m) == Stem(n)
    {
      KeptFileGoes(names, n, i, m);
    }
    if ReleaseName(n) in names && StemRemoved(names, l, current, n) {
      var m :| m in Removed(names, l, current) && |m| >= 8 && Stem(m) == Stem(n);
      assert ReleaseName(n) in Victims(names, m);
    }
  }

  lemma KeptFileGoes(names: set<string>, n: string, i: nat, m: string)
    requires Snapshot(n) && Snapshot(m) && n != m && i <= 2 && FileName(n, i) in Victims(names, m)
    ensures i == 1 && Stem(m) == Stem(n)
  {
    NamesApart(n, i, m, 0);
    NamesApart(n, i, m, 1);
    NamesApart(n, i, m, 2);
  }

  /** No two of the names share a stem, and so a release file. */
  predicate DistinctStems(names: set<string>) {
    forall n, m | n in names && m in names && |n| >= 8 && |m| >= 8 && Stem(n) == Stem(m) :: n == m
  }

  /** With distinct stems every complete set that is not removed keeps its three files. */
  lemma KeptSetsStayWhole(names: set<string>, l: Limits, current: string, n: string)
    requires DistinctStems(CompleteSnapshots(names)) && n in CompleteSnapshots(names)
          && n !in Removed(names, l, current)
    ensures |n| >= 8 && !LosesFile(names, l, current, n)
  {
    KeptSetLosesIff(names, l, current, n);
    assert forall m | m in Removed(names, l, current) :: m in CompleteSnapshots(names);
  }

  /** Two encryptions of one snapshot: keeping only the newer one takes its release file. */
  lemma SharedStemLosesRelease(names: set<string>, stem: string)
    requires CompleteSnapshot(names, stem + ".tar.age") && CompleteSnapshot(names, stem + ".tar.gpg")
    requires ReleaseName(stem + ".tar.gpg") in names
    ensures
      var g := stem + ".tar.gpg";
      var l := Limits(Some(1), None);
      g !in Removed(names, l, g) && LosesFile(names, l, g, g)
  {
    var a, g, l := stem + ".tar.age", stem + ".tar.gpg", Limits(Some(1), None);
    SharedStemOrder(stem);
    OneNewer(names, a, g);
    SameStem(stem);
    KeptSetLosesIff(names, l, g, g);
    hide CompleteSnapshot, Le, Removed, LosesFile;
    assert StemRemoved(names, l, g, g);
  }

  lemma SharedStemOrder(stem: string)
    ensures Le(stem + ".tar.age", stem + ".tar.gpg") && stem + ".tar.age" != stem + ".tar.gpg"
  {
    LeOfParts(stem, ".tar.age", stem, ".tar.gpg");
    AgeBeforeGpg();
    var a, g := stem + ".tar.age", stem + ".tar.gpg";
    assert a[|a| - 1] == 'e' && g[|g| - 1] == 'g';
  }

  /** Keeping one set removes every other complete snapshot that is older than it. */
  lemma OneNewer(names: set<string>, a: string, g: string)
    requires CompleteSnapshot(names, a) && CompleteSnapshot(names, g) && a != g && Le(a, g)
    ensures ToRemove(names, Limits(Some(1), None), g, a)
    ensures a in Removed(names, Limits(Some(1), None), g) && g !in Removed(names, Limits(Some(1), None), g)
  {
    assert g in Newer(names, a);
  }

  lemma SameStem(stem: string)
    ensures Stem(stem + ".tar.age") == stem && Stem(stem + ".tar.gpg") == stem
  {
    assert (stem + ".tar.age")[..|stem|] == stem == (stem + ".tar.gpg")[..|stem|];
  }

  lemma AgeBeforeGpg()
    ensures Le(".tar.age", ".tar.gpg") && ".tar.age" != ".tar.gpg"
  {
    LeOfParts(".tar.", "age", ".tar.", "gpg");
    assert ".tar." + "age" == ".tar.age" && ".tar." + "gpg" == ".tar.gpg";
    assert ".tar.age"[5] == 'a' && ".tar.gpg"[5] == 'g';
  }
}
