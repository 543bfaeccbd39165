/** When a destination is crash-safe: runs that leave a manifest without its files, and the
    exact condition under which no run does (scripts/backup-destinations.py). */
module BackupSafety {
  import opened Wrappers
  import opened Utf8
  import opened Sorting
  import opened BackupNames
  import opened RetentionRule
  import opened BackupProtocol
  import opened BackupDirectory

  // -- runs, one action after the other ---------------------------------------

  /** Some run from an empty directory ends with this directory and these processes. */
  ghost predicate Reachable(k: Codec, names: set<string>, overlap: bool, dir: Dir, procs: map<nat, Proc>) {
    exists actions, s :: Reaches(k, names, overlap, Init(map[]), actions, s) && s.dir == dir && s.procs == procs
  }

  lemma {:induction false} OneMore(k: Codec, names: set<string>, overlap: bool, s: System, actions: seq<Action>,
                                   s': System, a: Action)
    requires Reaches(k, names, overlap, s, actions, s') && Allowed(names, overlap, s', a)
    ensures Reaches(k, names, overlap, s, actions + [a], Apply(k, names, overlap, s', a))
    decreases |actions|
  {
    if actions == [] {
      assert ([] + [a])[1..] == [];
    } else {
      hide Allowed, Apply;
      OneMore(k, names, overlap, Apply(k, names, overlap, s, actions[0]), actions[1..], s', a);
      assert (actions + [a])[0] == actions[0] && (actions + [a])[1..] == actions[1..] + [a];
    }
  }

  lemma InitReachable(k: Codec, names: set<string>, overlap: bool)
    ensures Reachable(k, names, overlap, map[], map[])
  {
    assert Reaches(k, names, overlap, Init(map[]), [], Init(map[]));
  }

  lemma Publishes(k: Codec, names: set<string>, overlap: bool, dir: Dir, procs: map<nat, Proc>, pid: nat, job: Job)
    requires Reachable(k, names, overlap, dir, procs) && pid !in procs && job.name in names && ArchiveName(job.name)
    requires overlap || forall q | q in procs :: !procs[q].Prunes(job.name)
    ensures Reachable(k, names, overlap, dir, procs[pid := Publishing(job, 0, Checking)])
  {
    var actions, s :| Reaches(k, names, overlap, Init(map[]), actions, s) && s.dir == dir && s.procs == procs;
    OneMore(k, names, overlap, Init(map[]), actions, s, StartPublish(pid, job));
  }

  /** A retention run whose listing is the directory as it is. */
  lemma Lists(k: Codec, names: set<string>, overlap: bool, dir: Dir, procs: map<nat, Proc>, pid: nat, l: Limits)
    requires Reachable(k, names, overlap, dir, procs) && pid in procs && procs[pid].Finished? && Configured(l)
    ensures Reachable(k, names, overlap, dir,
                      procs[pid := Retaining(procs[pid].name, l, dir.Keys, procs[pid].name, [])])
  {
    var actions, s :| Reaches(k, names, overlap, Init(map[]), actions, s) && s.dir == dir && s.procs == procs;
    OneMore(k, names, overlap, Init(map[]), actions, s, StartRetention(pid, l, dir.Keys));
  }

  lemma StartsPrune(k: Codec, names: set<string>, overlap: bool, dir: Dir, procs: map<nat, Proc>, pid: nat, n: string)
    requires Reachable(k, names, overlap, dir, procs) && pid in procs && procs[pid].Retaining? && procs[pid].todo == []
    requires ToRemove(procs[pid].listing, procs[pid].limits, procs[pid].current, n)
    requires overlap || forall q | q in procs :: !procs[q].Publishes(n)
    ensures Reachable(k, names, overlap, dir,
                      procs[pid := procs[pid].(name := n, todo := PruneList(procs[pid].listing, n))])
  {
    var actions, s :| Reaches(k, names, overlap, Init(map[]), actions, s) && s.dir == dir && s.procs == procs;
    OneMore(k, names, overlap, Init(map[]), actions, s, Prune(pid, n));
  }

  lemma Unlinks(k: Codec, names: set<string>, overlap: bool, dir: Dir, procs: map<nat, Proc>, pid: nat)
    requires Reachable(k, names, overlap, dir, procs) && pid in procs && procs[pid].Retaining? && procs[pid].todo != []
    ensures Reachable(k, names, overlap, dir - {procs[pid].todo[0]},
                      procs[pid := procs[pid].(todo := procs[pid].todo[1..])])
  {
    var actions, s :| Reaches(k, names, overlap, Init(map[]), actions, s) && s.dir == dir && s.procs == procs;
    OneMore(k, names, overlap, Init(map[]), actions, s, Advance(pid, "", ""));
  }

  lemma Copies(k: Codec, names: set<string>, overlap: bool, dir: Dir, procs: map<nat, Proc>, pid: nat, tmp: string,
               bytes: Bytes)
    requires Reachable(k, names, overlap, dir, procs) && pid in procs && procs[pid].Publishing?
          && WellFormed(names, procs[pid])
    requires procs[pid].phase.Checking? ==> IsTemp(tmp) && tmp !in dir
    ensures
      var p := procs[pid];
      var r := CopyStep(k, dir, p.job, p.at, p.phase, tmp, bytes);
      Reachable(k, names, overlap, r.0, WithProc(procs, pid, r.1))
  {
    var actions, s :| Reaches(k, names, overlap, Init(map[]), actions, s) && s.dir == dir && s.procs == procs;
    OneMore(k, names, overlap, Init(map[]), actions, s, Advance(pid, tmp, bytes));
  }

  // -- what a process does alone is a run -------------------------------------

  /** The process holds no temporary file but this one, which is new while it checks. */
  predicate OwnTemp(dir: Dir, p: Proc, tmp: string) {
    p.Publishing? ==> if p.phase.Checking? then tmp !in dir else p.phase.tmp == tmp
  }

  lemma StepKeepsOwnTemp(k: Codec, names: set<string>, dir: Dir, p: Proc, tmp: string, bytes: Bytes)
    requires p.Publishing? && WellFormed(names, p) && IsTemp(tmp) && OwnTemp(dir, p, tmp)
    ensures
      var r := CopyStep(k, dir, p.job, p.at, p.phase, tmp, bytes);
      r.1.Some? ==> WellFormed(names, r.1.value) && OwnTemp(r.0, r.1.value, tmp)
  {
  }

  /** Steps taken alone, while the other processes stand still, are a run. */
  lemma {:induction false} AloneRuns(k: Codec, names: set<string>, overlap: bool, dir: Dir, procs: map<nat, Proc>,
                                     pid: nat, tmp: string, n: nat)
    requires Reachable(k, names, overlap, dir, procs) && pid in procs && WellFormed(names, procs[pid])
    requires IsTemp(tmp) && OwnTemp(dir, procs[pid], tmp)
    ensures
      var r := Alone(k, dir, Some(procs[pid]), tmp, n);
      Reachable(k, names, overlap, r.0, WithProc(procs, pid, r.1))
    decreases n
  {
    hide *;
    var p := procs[pid];
    if n == 0 || !p.Publishing? {
      AloneStill(k, dir, procs, pid, tmp, n);
    } else {
      var r := StepRuns(k, names, overlap, dir, procs, pid, tmp, n);
      if r.1.Some? {
        AloneRuns(k, names, overlap, r.0, procs[pid := r.1.value], pid, tmp, n - 1);
        LastWrite(procs, pid, r.1.value, Alone(k, r.0, r.1, tmp, n - 1).1);
      }
    }
  }

  lemma AloneStill(k: Codec, dir: Dir, procs: map<nat, Proc>, pid: nat, tmp: string, n: nat)
    requires pid in procs && (n == 0 || !procs[pid].Publishing?)
    ensures Alone(k, dir, Some(procs[pid]), tmp, n) == (dir, Some(procs[pid]))
         && WithProc(procs, pid, Some(procs[pid])) == procs
  {
    assert procs[pid := procs[pid]] == procs;
  }

  lemma StepRuns(k: Codec, names: set<string>, overlap: bool, dir: Dir, procs: map<nat, Proc>, pid: nat, tmp: string,
                 n: nat)
    returns (r: (Dir, Option<Proc>))
    requires Reachable(k, names, overlap, dir, procs) && pid in procs && WellFormed(names, procs[pid])
    requires IsTemp(tmp) && OwnTemp(dir, procs[pid], tmp) && n > 0 && procs[pid].Publishing?
    ensures Alone(k, dir, Some(procs[pid]), tmp, n) == Alone(k, r.0, r.1, tmp, n - 1)
    ensures r.1.Some?
        ==> && WellFormed(names, r.1.value) && OwnTemp(r.0, r.1.value, tmp)
            && Reachable(k, names, overlap, r.0, procs[pid := r.1.value])
    ensures r.1.None?
        ==> Reachable(k, names, overlap, r.0, WithProc(procs, pid, None)) && Alone(k, r.0, r.1, tmp, n - 1) == r
  {
    var p := procs[pid];
    var bytes := Content(k, p.job, p.at);
    r := CopyStep(k, dir, p.job, p.at, p.phase, tmp, bytes);
    Copies(k, names, overlap, dir, procs, pid, tmp, bytes);
    StepKeepsOwnTemp(k, names, dir, p, tmp, bytes);
    AloneStep(k, dir, p.job, p.at, p.phase, tmp, n - 1);
    hide CopyStep, OwnTemp, Reachable, IsTemp, Content, ArchiveName;
  }

  lemma LastWrite(procs: map<nat, Proc>, pid: nat, p: Proc, q: Option<Proc>)
    ensures WithProc(procs[pid := p], pid, q) == WithProc(procs, pid, q)
  {
  }

  /** A publication that runs alone is a run, and ends as the publication does. */
  lemma PublishRuns(k: Codec, names: set<string>, overlap: bool, dir: Dir, procs: map<nat, Proc>, pid: nat, job: Job,
                    tmp: string)
    requires Reachable(k, names, overlap, dir, procs) && pid !in procs && job.name in names && ArchiveName(job.name)
    requires overlap || forall q | q in procs :: !procs[q].Prunes(job.name)
    requires IsTemp(tmp) && tmp !in dir
    ensures var e := PublishEnd(k, dir, job, 0); Reachable(k, names, overlap, e.0, WithProc(procs, pid, e.1))
  {
    var start := Publishing(job, 0, Checking);
    Publishes(k, names, overlap, dir, procs, pid, job);
    PublishAlone(k, dir, job, 0, tmp);
    var n :| Alone(k, dir, Some(start), tmp, n) == PublishEnd(k, dir, job, 0);
    AloneRuns(k, names, overlap, dir, procs[pid := start], pid, tmp, n);
    LastWrite(procs, pid, start, PublishEnd(k, dir, job, 0).1);
  }

  /** A prune that goes on to its end. */
  lemma {:induction false} PruneRuns(k: Codec, names: set<string>, overlap: bool, dir: Dir, procs: map<nat, Proc>,
                                     pid: nat)
    requires Reachable(k, names, overlap, dir, procs) && pid in procs && procs[pid].Retaining?
    ensures Reachable(k, names, overlap, dir - Members(procs[pid].todo), procs[pid := procs[pid].(todo := [])])
    decreases |if pid in procs && procs[pid].Retaining? then procs[pid].todo else []|
  {
    var p := procs[pid];
    if p.todo == [] {
      assert dir - Members([]) == dir && procs[pid := p] == procs;
    } else {
      var q := p.(todo := p.todo[1..]);
      Unlinks(k, names, overlap, dir, procs, pid);
      hide Reachable;
      PruneRuns(k, names, overlap, dir - {p.todo[0]}, procs[pid := q], pid);
      assert procs[pid := q][pid := q.(todo := [])] == procs[pid := p.(todo := [])];
      RestMembers(dir, p.todo);
    }
  }

  lemma RestMembers(dir: Dir, todo: seq<string>)
    requires todo != []
    ensures dir - {todo[0]} - Members(todo[1..]) == dir - Members(todo)
  {
    assert todo == [todo[0]] + todo[1..];
    assert forall x :: x in todo <==> x == todo[0] || x in todo[1..];
  }

  // -- two archives, published one after the other ----------------------------

  /** The job of an archive whose files are empty. */
  function Blank(n: string): Job {
    Job(n, "", "")
  }

  /** What a publication of it leaves. */
  function SetFiles(k: Codec, n: string): Dir
    requires ArchiveName(n)
  {
    map[n := "", ReleaseName(n) := "", MarkerName(n) := Content(k, Blank(n), 2)]
  }

  lemma BlankPublished(k: Codec, dir: Dir, n: string)
    requires ArchiveName(n) && |n| <= 146 && n !in dir && MarkerName(n) !in dir
          && (ReleaseName(n) in dir ==> dir[ReleaseName(n)] == "")
    ensures PublishEnd(k, dir, Blank(n), 0) == (dir + SetFiles(k, n), Some(Finished(n)))
  {
    var job := Blank(n);
    SafeParts(n);
    NamesApart(n, 0, n, 1);
    NamesApart(n, 0, n, 2);
    NamesApart(n, 1, n, 2);
    BlankCopies(k, dir, n);
    var d1 := dir[n := ""];
    var d2 := d1[ReleaseName(n) := ""];
    var d3 := d2[MarkerName(n) := Content(k, job, 2)];
    hide Copied, SafeName;
    assert PublishedFrom(k, dir, job, 0) == PublishedFrom(k, d1, job, 1);
    assert PublishedFrom(k, d1, job, 1) == PublishedFrom(k, d2, job, 2);
    assert PublishedFrom(k, d2, job, 2) == PublishedFrom(k, d3, job, 3);
    assert d3 == dir + SetFiles(k, n);
  }

  lemma BlankCopies(k: Codec, dir: Dir, n: string)
    requires ArchiveName(n) && |n| <= 146 && n !in dir && MarkerName(n) !in dir
          && (ReleaseName(n) in dir ==> dir[ReleaseName(n)] == "")
    ensures
      var job := Blank(n);
      var d1 := dir[n := ""];
      var d2 := d1[ReleaseName(n) := ""];
      && Copied(k, dir, FileName(n, 0), Content(k, job, 0)) == Some(d1)
      && Copied(k, d1, FileName(n, 1), Content(k, job, 1)) == Some(d2)
      && Copied(k, d2, FileName(n, 2), Content(k, job, 2)) == Some(d2[MarkerName(n) := Content(k, job, 2)])
  {
    SafeParts(n);
    NamesApart(n, 0, n, 1);
    NamesApart(n, 0, n, 2);
    NamesApart(n, 1, n, 2);
    var d1 := dir[n := ""];
    if ReleaseName(n) in dir {
      assert d1[ReleaseName(n) := ""] == d1;
    }
  }

  /** Keeps one set. */
  const KEEP_ONE := Limits(Some(1), None)

  function BothFiles(k: Codec, n: string, m: string): Dir
    requires ArchiveName(n) && ArchiveName(m)
  {
    SetFiles(k, n) + SetFiles(k, m)
  }

  /** The retention run of `m`'s publication, which listed both sets. */
  function Retainer(k: Codec, n: string, m: string, name: string, todo: seq<string>): Proc
    requires ArchiveName(n) && ArchiveName(m)
  {
    Retaining(m, KEEP_ONE, BothFiles(k, n, m).Keys, name, todo)
  }

  lemma BothHold(k: Codec, n: string, m: string)
    requires ArchiveName(n) && ArchiveName(m) && n != m
    ensures m !in SetFiles(k, n) && MarkerName(m) !in SetFiles(k, n)
    ensures ReleaseName(m) in SetFiles(k, n) ==> SetFiles(k, n)[ReleaseName(m)] == ""
    ensures forall i: nat | i <= 2 :: Holds(k, BothFiles(k, n, m), Blank(n), i)
    ensures !IsTemp(n) && !IsTemp(MarkerName(n)) && !IsTemp(ReleaseName(n))
  {
    TwoSets(n, m);
    TwoSets(m, n);
    NotTemp(n);
    FirstHolds(k, n, m);
    hide ArchiveName, IsTemp, MarkerName, ReleaseName, Holds, Content, BothFiles;
  }

  lemma FirstHolds(k: Codec, n: string, m: string)
    requires ArchiveName(n) && ArchiveName(m) && n != m
    ensures forall i: nat | i <= 2 :: Holds(k, BothFiles(k, n, m), Blank(n), i)
  {
    TwoSets(n, m);
    TwoSets(m, n);
    hide ArchiveName, MarkerName, ReleaseName;
  }

  /** Which file names of two sets differ. */
  lemma TwoSets(n: string, m: string)
    requires ArchiveName(n) && ArchiveName(m) && n != m
    ensures n != ReleaseName(n) && n != MarkerName(n) && ReleaseName(n) != MarkerName(n)
    ensures n != ReleaseName(m) && n != MarkerName(m) && ReleaseName(n) != MarkerName(m)
         && MarkerName(n) != MarkerName(m)
  {
    NamesApart(n, 0, n, 1);
    NamesApart(n, 0, n, 2);
    NamesApart(n, 1, n, 2);
    NamesApart(n, 0, m, 1);
    NamesApart(n, 0, m, 2);
    NamesApart(n, 1, m, 2);
    NamesApart(n, 2, m, 2);
    hide Encrypted, SafeName, MarkerName, ReleaseName;
  }

  /** Two archives are published, and the second one's retention lists both. */
  lemma TwoPublished(k: Codec, names: set<string>, overlap: bool, n: string, m: string)
    requires n in Prunable(names) && m in Prunable(names) && n != m
    ensures Reachable(k, names, overlap, BothFiles(k, n, m), Listed(k, n, m))
  {
    hide Reachable, PublishEnd, SafeName, Snapshot;
    InitReachable(k, names, overlap);
    BlankPublished(k, map[], n);
    PublishRuns(k, names, overlap, map[], map[], 0, Blank(n), ".");
    assert map[] + SetFiles(k, n) == SetFiles(k, n);
    var first: map<nat, Proc> := map[0 := Finished(n)];
    assert WithProc(map[], 0, Some(Finished(n))) == first;
    BothHold(k, n, m);
    BlankPublished(k, SetFiles(k, n), m);
    PublishRuns(k, names, overlap, SetFiles(k, n), first, 1, Blank(m), ".");
    var second := first[1 := Finished(m)];
    Lists(k, names, overlap, BothFiles(k, n, m), second, 1, KEEP_ONE);
    assert second[1 := Retainer(k, n, m, m, [])] == Listed(k, n, m);
  }

  /** The older one is to be removed, with all three files. */
  lemma OlderGoes(k: Codec, n: string, m: string)
    requires ArchiveName(n) && ArchiveName(m) && Snapshot(n) && Snapshot(m) && n != m && Le(n, m)
    ensures ToRemove(BothFiles(k, n, m).Keys, KEEP_ONE, m, n)
    ensures PruneList(BothFiles(k, n, m).Keys, n) == [MarkerName(n), n, ReleaseName(n)]
  {
    OneNewer(BothFiles(k, n, m).Keys, n, m);
  }

  function Listed(k: Codec, n: string, m: string): map<nat, Proc>
    requires ArchiveName(n) && ArchiveName(m)
  {
    map[0 := Finished(n), 1 := Retainer(k, n, m, m, [])]
  }

  lemma ListedThenStarted(k: Codec, n: string, m: string)
    requires ArchiveName(n) && ArchiveName(m)
    ensures
      var procs := Listed(k, n, m);
      && 1 in procs && procs[1].Retaining? && procs[1].todo == [] && procs[1].limits == KEEP_ONE
      && procs[1].current == m
      && procs[1].listing == BothFiles(k, n, m).Keys && (forall q | q in procs :: !procs[q].Publishes(n))
      && procs[1 := procs[1].(name := n, todo := [MarkerName(n), n, ReleaseName(n)])] == Started(k, n, m)
  {
  }

  lemma PruneBegins(k: Codec, names: set<string>, overlap: bool, n: string, m: string)
    requires n in Prunable(names) && m in Prunable(names) && n != m && Le(n, m)
    ensures Reachable(k, names, overlap, BothFiles(k, n, m), Started(k, n, m))
  {
    TwoPublished(k, names, overlap, n, m);
    OlderGoes(k, n, m);
    ListedThenStarted(k, n, m);
    hide *;
    StartsPrune(k, names, overlap, BothFiles(k, n, m), Listed(k, n, m), 1, n);
  }

  function Started(k: Codec, n: string, m: string): map<nat, Proc>
    requires ArchiveName(n) && ArchiveName(m)
  {
    map[0 := Finished(n), 1 := Retainer(k, n, m, n, [MarkerName(n), n, ReleaseName(n)])]
  }

  /** A run that ends with a manifest whose release file is gone: two archives with one
      stem are published, and the retention of the second removes the first. */
  lemma SharedStemRun(k: Codec, names: set<string>, overlap: bool, n: string, m: string)
    requires n in Prunable(names) && m in Prunable(names) && n != m && Le(n, m) && Stem(n) == Stem(m)
    ensures exists actions, s ::
              Reaches(k, names, overlap, Init(map[]), actions, s) && MarkerName(m) in s.dir
              && ReleaseName(m) !in s.dir
  {
    var procs, todo := Started(k, n, m), [MarkerName(n), n, ReleaseName(n)];
    PruneBegins(k, names, overlap, n, m);
    PruneRuns(k, names, overlap, BothFiles(k, n, m), procs, 1);
    BothHold(k, m, n);
    var dir := BothFiles(k, n, m) - Members(todo);
    assert Reachable(k, names, overlap, dir, procs[1 := procs[1].(todo := [])]);
    NamesApart(m, 2, n, 1);
    NamesApart(m, 2, n, 2);
    assert MarkerName(m) in dir && ReleaseName(m) !in dir;
  }

  /** A publication passes over a file that is there already. */
  lemma Rechecks(k: Codec, names: set<string>, overlap: bool, dir: Dir, procs: map<nat, Proc>, pid: nat, job: Job,
                 at: nat)
    requires at < 2 && job.name in names && ArchiveName(job.name) && Holds(k, dir, job, at)
          && SafeName(FileName(job.name, at))
    requires Reachable(k, names, overlap, dir, procs[pid := Publishing(job, at, Checking)]) && "." !in dir
    ensures Reachable(k, names, overlap, dir, procs[pid := Publishing(job, at + 1, Checking)])
  {
    hide Reachable;
    Copies(k, names, overlap, dir, procs[pid := Publishing(job, at, Checking)], pid, ".", "");
    assert CopyStep(k, dir, job, at, Checking, ".", "") == (dir, Some(Publishing(job, at + 1, Checking)));
    LastWrite(procs, pid, Publishing(job, at, Checking), Some(Publishing(job, at + 1, Checking)));
  }

  /** The second publication of `n` finds the first two files. */
  lemma SecondPublication(k: Codec, names: set<string>, n: string, m: string)
    requires n in Prunable(names) && m in Prunable(names) && n != m && Le(n, m)
    ensures "." !in BothFiles(k, n, m)
    ensures Reachable(k, names, true, BothFiles(k, n, m), Started(k, n, m)[2 := Publishing(Blank(n), 2, Checking)])
  {
    PruneBegins(k, names, true, n, m);
    FirstTwoThere(k, n, m);
    assert Blank(n).name == n && n in names;
    hide *;
    PassesOver(k, names, BothFiles(k, n, m), Started(k, n, m), 2, Blank(n));
  }

  lemma PassesOver(k: Codec, names: set<string>, dir: Dir, procs: map<nat, Proc>, pid: nat, job: Job)
    requires job.name in names && ArchiveName(job.name) && Holds(k, dir, job, 0) && Holds(k, dir, job, 1)
    requires SafeName(FileName(job.name, 0)) && SafeName(FileName(job.name, 1)) && "." !in dir
    requires Reachable(k, names, true, dir, procs) && pid !in procs
    ensures Reachable(k, names, true, dir, procs[pid := Publishing(job, 2, Checking)])
  {
    hide *;
    Publishes(k, names, true, dir, procs, pid, job);
    Rechecks(k, names, true, dir, procs, pid, job, 0);
    Rechecks(k, names, true, dir, procs, pid, job, 1);
  }

  lemma FirstTwoThere(k: Codec, n: string, m: string)
    requires ArchiveName(n) && ArchiveName(m) && n != m && |n| <= 146
    ensures var dir, job := BothFiles(k, n, m), Blank(n);
      && "." !in dir && Holds(k, dir, job, 0) && Holds(k, dir, job, 1)
      && SafeName(FileName(n, 0)) && SafeName(FileName(n, 1)) && 2 !in Started(k, n, m)
  {
    BothHold(k, n, m);
    BothHold(k, m, n);
    SafeParts(n);
    hide Encrypted, SafeName, Content;
    assert FileName(n, 0) == n && FileName(n, 1) == ReleaseName(n);
  }

  /** A run that ends with a manifest whose archive is gone: the archive is published,
      its prune starts, a second publication finds the archive and the release file, the
      prune removes all three files, and the second publication writes the manifest. */
  lemma OverlapRun(k: Codec, names: set<string>, n: string, m: string)
    requires n in Prunable(names) && m in Prunable(names) && n != m && Le(n, m)
    ensures exists actions, s ::
              Reaches(k, names, true, Init(map[]), actions, s) && MarkerName(n) in s.dir && n !in s.dir
  {
    var job, todo := Blank(n), [MarkerName(n), n, ReleaseName(n)];
    var procs := Started(k, n, m)[2 := Publishing(job, 2, Checking)];
    SecondPublication(k, names, n, m);
    PruneRuns(k, names, true, BothFiles(k, n, m), procs, 1);
    var dir, procs1 := BothFiles(k, n, m) - Members(todo), procs[1 := Retainer(k, n, m, n, [])];
    assert procs1 == procs[1 := procs[1].(todo := [])];
    WritesManifest(k, names, dir, procs1, n);
  }

  /** The manifest of a publication that has checked the first two files. */
  lemma WritesManifest(k: Codec, names: set<string>, dir: Dir, procs: map<nat, Proc>, n: string)
    requires n in names && ArchiveName(n) && |n| <= 146 && n !in dir && MarkerName(n) !in dir && "." !in dir
    requires 2 in procs && procs[2] == Publishing(Blank(n), 2, Checking) && Reachable(k, names, true, dir, procs)
    ensures exists actions, s ::
              Reaches(k, names, true, Init(map[]), actions, s) && MarkerName(n) in s.dir && n !in s.dir
  {
    SafeParts(n);
    assert FileName(n, 2) == MarkerName(n);
    CopyAlone(k, dir, Blank(n), 2, ".");
    AloneRuns(k, names, true, dir, procs, 2, ".", 5);
    NamesApart(n, 0, n, 2);
    var after := dir[MarkerName(n) := Content(k, Blank(n), 2)];
    assert Copied(k, dir, MarkerName(n), Content(k, Blank(n), 2)) == Some(after);
    assert Reachable(k, names, true, after, WithProc(procs, 2, Some(Finished(n))));
  }

  /** Crash safety, exactly: every state of every run is sound if and only if at most one
      archive can be pruned, or publications and prunes of one archive never overlap and no
      two archives that can be pruned share a stem. */
  lemma SafeIff(k: Codec, names: set<string>, overlap: bool)
    requires Good(k)
    ensures Safe(names, overlap)
       <==> forall actions, s | Reaches(k, names, overlap, Init(map[]), actions, s) :: AllSound(k, s)
  {
    if Safe(names, overlap) {
      hide *;
      forall actions, s | Reaches(k, names, overlap, Init(map[]), actions, s) ensures AllSound(k, s) {
        SafeRunsAreSound(k, names, overlap, actions, s);
      }
    } else {
      var n, m := UnsafePair(names, overlap);
      hide *;
      UnsafeRun(k, names, overlap, n, m);
    }
  }

  lemma SafeRunsAreSound(k: Codec, names: set<string>, overlap: bool, actions: seq<Action>, s: System)
    requires Good(k) && Safe(names, overlap) && Reaches(k, names, overlap, Init(map[]), actions, s)
    ensures AllSound(k, s)
  {
    RunKeepsInv(k, names, overlap, Init(map[]), actions, s);
  }

  /** Two archives that break the condition, the older one first. */
  lemma UnsafePair(names: set<string>, overlap: bool) returns (n: string, m: string)
    requires !Safe(names, overlap)
    ensures n in Prunable(names) && m in Prunable(names) && n != m && Le(n, m)
    ensures overlap || (|n| >= 8 && |m| >= 8 && Stem(n) == Stem(m))
  {
    n, m :| n in Prunable(names) && m in Prunable(names) && n != m && (overlap || Stem(n) == Stem(m));
    LeTotal(n, m);
    if !Le(n, m) {
      n, m := m, n;
    }
  }

  lemma UnsafeRun(k: Codec, names: set<string>, overlap: bool, n: string, m: string)
    requires n in Prunable(names) && m in Prunable(names) && n != m && Le(n, m)
    requires overlap || (|n| >= 8 && |m| >= 8 && Stem(n) == Stem(m))
    ensures exists actions, s :: Reaches(k, names, overlap, Init(map[]), actions, s) && !AllSound(k, s)
  {
    if overlap {
      OverlapRun(k, names, n, m);
      var actions, s :| Reaches(k, names, true, Init(map[]), actions, s) && MarkerName(n) in s.dir && n !in s.dir;
      assert FileName(n, 0) == n;
      assert !Sound(k, s, n);
    } else {
      SharedStemRun(k, names, overlap, n, m);
      var actions, s :| Reaches(k, names, overlap, Init(map[]), actions, s) && MarkerName(m) in s.dir
                     && ReleaseName(m) !in s.dir;
      assert FileName(m, 1) == ReleaseName(m);
      assert !Sound(k, s, m);
    }
  }
}
