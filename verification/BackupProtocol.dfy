/** Publishing, pruning and fetching backup sets on a local or NFS directory, one file
    operation at a time, with any interleaving and a crash anywhere
    (scripts/backup-destinations.py). */
module BackupProtocol {
  import opened Wrappers
  import opened Utf8
  import opened BackupNames
  import opened RetentionRule

  type Dir = map<string, Bytes>

  datatype FileEntry = FileEntry(name: string, bytes: nat, sha256: string)

  /** The digest function, and the manifest's JSON text. */
  datatype Codec = Codec(sha: Bytes -> string, dump: seq<FileEntry> -> Bytes, load: Bytes -> Option<seq<FileEntry>>)

  predicate IsHexDigest(s: string) {
    |s| == 64 && forall i | 0 <= i < |s| :: 'a' <= s[i] <= 'f' || '0' <= s[i] <= '9'
  }

  /** Digests are hexadecimal and tell contents apart, and a manifest reads back. */
  ghost predicate Good(k: Codec) {
    && (forall a :: IsHexDigest(k.sha(a)))
    && (forall a, b :: k.sha(a) == k.sha(b) ==> a == b)
    && (forall m :: k.load(k.dump(m)) == Some(m))
  }

  /** What one publication copies. */
  datatype Job = Job(name: string, archive: Bytes, release: Bytes)

  function EntryOf(k: Codec, name: string, content: Bytes): FileEntry {
    FileEntry(name, |content|, k.sha(content))
  }

  function ManifestOf(k: Codec, j: Job): seq<FileEntry>
    requires ArchiveName(j.name)
  {
    [EntryOf(k, j.name, j.archive), EntryOf(k, ReleaseName(j.name), j.release)]
  }

  /** The content of file `i` of the set. */
  function Content(k: Codec, j: Job, i: nat): Bytes
    requires ArchiveName(j.name) && i <= 2
  {
    if i == 0 then j.archive else if i == 1 then j.release else k.dump(ManifestOf(k, j))
  }

  // -- processes ---------------------------------------------------------------

  /** Where a copy stands: before it looks at the target, with a temporary file being
      written, written, checked, or about to be removed. */
  datatype Phase =
    | Checking
    | Writing(tmp: string)
    | Written(tmp: string)
    | Verified(tmp: string)
    | Cleaning(tmp: string, ok: bool)
  {
    predicate HasTemp() {
      !Checking?
    }
  }

  datatype Proc =
    | Publishing(job: Job, at: nat, phase: Phase)
    /** The publication of `name` succeeded; retention may follow. */
    | Finished(name: string)
    /** Pruning after the publication of `current`, with what was listed: `todo` is left of
        the files of `name`. */
    | Retaining(current: string, limits: Limits, listing: set<string>, name: string, todo: seq<string>)
  {
    predicate Prunes(n: string) {
      Retaining? && todo != [] && name == n
    }

    predicate Publishes(n: string) {
      Publishing? && job.name == n
    }
  }

  /** The directory, the processes, the jobs published so far, and every name that was in
      the directory before. */
  datatype System = System(dir: Dir, procs: map<nat, Proc>, published: set<Job>, past: set<string>)

  datatype Action =
    | StartPublish(pid: nat, job: Job)
    | StartRetention(pid: nat, limits: Limits, listing: set<string>)
    | Prune(pid: nat, name: string)
    /** The next file operation of a process; `tmp` is the temporary name it would pick,
        `bytes` what its copy would leave there. */
    | Advance(pid: nat, tmp: string, bytes: Bytes)
    /** The process ends: it is done, it failed, or it crashed. */
    | Stop(pid: nat)

  predicate IsTemp(n: string) {
    n != "" && n[0] == '.'
  }

  /** What a publication does next: the directory, and what is left of the process. */
  function CopyStep(k: Codec, dir: Dir, job: Job, at: nat, phase: Phase, tmp: string, bytes: Bytes): (Dir, Option<Proc>)
    requires ArchiveName(job.name) && at <= 2
  {
    var target, content := FileName(job.name, at), Content(k, job, at);
    match phase
    case Checking =>
      if !SafeName(target) then (dir, None)
      else if target in dir then (dir, if k.sha(dir[target]) == k.sha(content) then Some(NextFile(job, at)) else None)
      else (dir[tmp := ""], Some(Publishing(job, at, Writing(tmp))))
    case Writing(t) => (dir[t := bytes], Some(Publishing(job, at, Written(t))))
    case Written(t) =>
      if t in dir && k.sha(dir[t]) == k.sha(content) then (dir, Some(Publishing(job, at, Verified(t))))
      else (dir, Some(Publishing(job, at, Cleaning(t, false))))
    case Verified(t) =>
      if target !in dir && t in dir then (dir[target := dir[t]], Some(Publishing(job, at, Cleaning(t, true))))
      else (dir, Some(Publishing(job, at, Cleaning(t, false))))
    case Cleaning(t, ok) => (dir - {t}, if ok then Some(NextFile(job, at)) else None)
  }

  function NextFile(job: Job, at: nat): Proc {
    if at >= 2 then Finished(job.name) else Publishing(job, at + 1, Checking)
  }

  function PruneStep(dir: Dir, p: Proc): (Dir, Option<Proc>)
    requires p.Retaining? && p.todo != []
  {
    (dir - {p.todo[0]}, Some(p.(todo := p.todo[1..])))
  }

  function WithProc(procs: map<nat, Proc>, pid: nat, p: Option<Proc>): map<nat, Proc> {
    match p case None => procs - {pid} case Some(q) => procs[pid := q]
  }

  predicate WellFormed(names: set<string>, p: Proc) {
    p.Publishing? ==> p.job.name in names && ArchiveName(p.job.name) && p.at <= 2
  }

  /** The configuration admits only numbers of sets from one on. */
  predicate Configured(l: Limits) {
    l.keep.Some? ==> l.keep.value >= 1
  }

  /** The steps the environment may take. Archives come from `names`, a listing reports
      names that are or were there, and temporary names are new. Without `overlap` no
      archive is published and pruned at the same time. */
  predicate Allowed(names: set<string>, overlap: bool, s: System, a: Action) {
    match a
    case StartPublish(pid, job) =>
      && pid !in s.procs && job.name in names && ArchiveName(job.name)
      && (overlap || forall q | q in s.procs :: !s.procs[q].Prunes(job.name))
    case StartRetention(pid, limits, listing) =>
      && pid in s.procs && s.procs[pid].Finished? && Configured(limits) && listing <= s.past + s.dir.Keys
    case Prune(pid, name) =>
      && pid in s.procs && s.procs[pid].Retaining? && s.procs[pid].todo == []
      && ToRemove(s.procs[pid].listing, s.procs[pid].limits, s.procs[pid].current, name)
      && (overlap || forall q | q in s.procs :: !s.procs[q].Publishes(name))
    case Advance(pid, tmp, _) =>
      && pid in s.procs && WellFormed(names, s.procs[pid])
      && var p := s.procs[pid];
         if p.Publishing? then p.phase.Checking? ==> IsTemp(tmp) && tmp !in s.dir else p.Retaining? && p.todo != []
    case Stop(pid) => pid in s.procs
  }

  function ProcStep(k: Codec, names: set<string>, dir: Dir, p: Proc, tmp: string, bytes: Bytes): (Dir, Option<Proc>)
    requires WellFormed(names, p) && (p.Publishing? || (p.Retaining? && p.todo != []))
  {
    if p.Publishing? then CopyStep(k, dir, p.job, p.at, p.phase, tmp, bytes) else PruneStep(dir, p)
  }

  function Apply(k: Codec, names: set<string>, overlap: bool, s: System, a: Action): System
    requires Allowed(names, overlap, s, a)
  {
    match a
    case StartPublish(pid, job) =>
      s.(procs := s.procs[pid := Publishing(job, 0, Checking)], published := s.published + {job})
    case StartRetention(pid, limits, listing) =>
      var current := s.procs[pid].name;
      s.(procs := s.procs[pid := Retaining(current, limits, listing, current, [])])
    case Prune(pid, name) =>
      var p := s.procs[pid];
      s.(procs := s.procs[pid := p.(name := name, todo := PruneList(p.listing, name))])
    case Advance(pid, tmp, bytes) =>
      var r := ProcStep(k, names, s.dir, s.procs[pid], tmp, bytes);
      s.(dir := r.0, procs := WithProc(s.procs, pid, r.1), past := s.past + s.dir.Keys)
    case Stop(pid) => s.(procs := s.procs - {pid})
  }

  // -- which names can be in the directory ------------------------------------

  /** A temporary file, or a file of a set with a name that can be written. */
  predicate Known(names: set<string>, f: string) {
    IsTemp(f) || (SafeName(f) && exists n, i: nat :: n in names && ArchiveName(n) && i <= 2 && f == FileName(n, i))
  }

  predicate ProcKnown(names: set<string>, p: Proc) {
    && WellFormed(names, p)
    && (p.Publishing? && p.phase.HasTemp() ==> IsTemp(p.phase.tmp) && SafeName(FileName(p.job.name, p.at)))
    && (p.Retaining? ==> Configured(p.limits) && forall f | f in p.listing :: Known(names, f))
  }

  predicate AllKnown(names: set<string>, s: System) {
    && (forall f | f in s.dir :: Known(names, f)) && (forall f | f in s.past :: Known(names, f))
    && forall p | p in s.procs :: ProcKnown(names, s.procs[p])
  }

  lemma FileKnown(names: set<string>, n: string, i: nat)
    requires n in names && ArchiveName(n) && i <= 2 && SafeName(FileName(n, i))
    ensures Known(names, FileName(n, i))
  {
  }

  lemma CopyStepKnown(k: Codec, names: set<string>, dir: Dir, p: Proc, tmp: string, bytes: Bytes)
    requires p.Publishing? && ProcKnown(names, p) && (p.phase.Checking? ==> IsTemp(tmp))
    requires forall f | f in dir :: Known(names, f)
    ensures
      var r := CopyStep(k, dir, p.job, p.at, p.phase, tmp, bytes);
      (forall f | f in r.0 :: Known(names, f)) && (r.1.Some? ==> ProcKnown(names, r.1.value))
  {
    if p.phase.HasTemp() {
      FileKnown(names, p.job.name, p.at);
    }
    hide SafeName, ArchiveName, FileName, Content;
  }

  lemma ActionKeepsKnown(k: Codec, names: set<string>, overlap: bool, s: System, a: Action)
    requires AllKnown(names, s) && Allowed(names, overlap, s, a)
    ensures AllKnown(names, Apply(k, names, overlap, s, a))
  {
    if a.Advance? {
      var p := s.procs[a.pid];
      assert ProcKnown(names, p);
      if p.Publishing? {
        CopyStepKnown(k, names, s.dir, p, a.tmp, a.bytes);
      }
      hide Known, CopyStep;
    } else {
      hide Known;
    }
  }

  // -- what every step keeps --------------------------------------------------

  /** File `i` of the job's set is there with its content. */
  predicate Holds(k: Codec, dir: Dir, job: Job, i: nat)
    requires ArchiveName(job.name) && i <= 2
  {
    FileName(job.name, i) in dir && dir[FileName(job.name, i)] == Content(k, job, i)
  }

  /** The set of one published job is complete. */
  predicate Complete(k: Codec, dir: Dir, job: Job) {
    ArchiveName(job.name) && Holds(k, dir, job, 0) && Holds(k, dir, job, 1) && Holds(k, dir, job, 2)
  }

  /** A manifest that is there belongs to a complete set of some published job. */
  predicate Sound(k: Codec, s: System, name: string) {
    MarkerName(name) in s.dir ==> exists job :: job in s.published && job.name == name && Complete(k, s.dir, job)
  }

  /** What retention can ever remove: snapshots whose manifest has a name that can be
      written. */
  function Prunable(names: set<string>): set<string> {
    set n | n in names && ArchiveName(n) && Snapshot(n) && |n| <= 146
  }

  predicate AtMostOne(names: set<string>) {
    forall n, m | n in names && m in names :: n == m
  }

  /** The exact condition for crash safety. */
  predicate Safe(names: set<string>, overlap: bool) {
    if overlap then AtMostOne(Prunable(names)) else DistinctStems(Prunable(names))
  }

  predicate PhaseSound(k: Codec, dir: Dir, job: Job, at: nat, phase: Phase)
    requires ArchiveName(job.name) && at <= 2
  {
    && (phase.HasTemp() ==> IsTemp(phase.tmp) && phase.tmp in dir)
    && (phase.Verified? ==> dir[phase.tmp] == Content(k, job, at))
    && (phase.Cleaning? && phase.ok ==> Holds(k, dir, job, at))
  }

  /** Files of the set are left to remove, and if its manifest is still there, it is next. */
  predicate TodoSound(dir: Dir, name: string, todo: seq<string>)
    requires |name| >= 8
  {
    && (forall f | f in todo :: f == MarkerName(name) || f == name || f == ReleaseName(name))
    && (todo != [] && MarkerName(name) in dir ==> todo[0] == MarkerName(name))
  }

  predicate ProcSound(k: Codec, names: set<string>, overlap: bool, dir: Dir, published: set<Job>, p: Proc) {
    && WellFormed(names, p)
    && match p
       case Publishing(job, at, phase) =>
         && job in published && (at >= 1 ==> Holds(k, dir, job, 0)) && (at >= 2 ==> Holds(k, dir, job, 1))
         && PhaseSound(k, dir, job, at, phase)
       case Finished(_) => true
       case Retaining(_, _, _, name, todo) =>
         todo != [] ==> !overlap && name in Prunable(names) && TodoSound(dir, name, todo)
  }

  /** No two processes hold one temporary file, and none prunes what another publishes. */
  predicate Apart(p: Proc, q: Proc) {
    && (p.Publishing? && q.Publishing? && p.phase.HasTemp() && q.phase.HasTemp() ==> p.phase.tmp != q.phase.tmp)
    && (p.Publishing? ==> !q.Prunes(p.job.name))
    && (q.Publishing? ==> !p.Prunes(q.job.name))
  }

  ghost predicate AllSound(k: Codec, s: System) {
    forall n | ArchiveName(n) :: Sound(k, s, n)
  }

  ghost predicate Inv(k: Codec, names: set<string>, overlap: bool, s: System) {
    && AllSound(k, s) && AllKnown(names, s)
    && (forall p | p in s.procs :: ProcSound(k, names, overlap, s.dir, s.published, s.procs[p]))
    && (forall p, q | p in s.procs && q in s.procs && p != q :: Apart(s.procs[p], s.procs[q]))
  }

  // -- a change of the directory that no set notices --------------------------

  /** The two directories agree on the files of this set. */
  predicate SameSet(dir: Dir, dir': Dir, n: string)
    requires ArchiveName(n)
  {
    forall i: nat | i <= 2 ::
      (FileName(n, i) in dir <==> FileName(n, i) in dir')
      && (FileName(n, i) in dir ==> dir[FileName(n, i)] == dir'[FileName(n, i)])
  }

  lemma SameSetHolds(k: Codec, dir: Dir, dir': Dir, job: Job, i: nat)
    requires ArchiveName(job.name) && SameSet(dir, dir', job.name) && i <= 2
    ensures Holds(k, dir, job, i) <==> Holds(k, dir', job, i)
  {
  }

  lemma SameSetSound(k: Codec, s: System, s': System, n: string)
    requires ArchiveName(n) && SameSet(s.dir, s'.dir, n) && s.published <= s'.published && Sound(k, s, n)
    ensures Sound(k, s', n)
  {
    assert FileName(n, 2) == MarkerName(n);
    if MarkerName(n) in s'.dir {
      var job :| job in s.published && job.name == n && Complete(k, s.dir, job);
      SameSetHolds(k, s.dir, s'.dir, job, 0);
      SameSetHolds(k, s.dir, s'.dir, job, 1);
      SameSetHolds(k, s.dir, s'.dir, job, 2);
    }
  }

  lemma NotTemp(n: string)
    requires ArchiveName(n)
    ensures !IsTemp(FileName(n, 0)) && !IsTemp(FileName(n, 1)) && !IsTemp(FileName(n, 2))
  {
    FirstCharacter(n, 0);
    FirstCharacter(n, 1);
    FirstCharacter(n, 2);
  }

  /** Temporary files are in no set. */
  lemma TempIsOutside(dir: Dir, tmp: string, bytes: Bytes, n: string)
    requires ArchiveName(n) && IsTemp(tmp)
    ensures SameSet(dir, dir[tmp := bytes], n) && SameSet(dir, dir - {tmp}, n)
  {
    NotTemp(n);
    forall i: nat | i <= 2 ensures FileName(n, i) != tmp {
      assert i == 0 || i == 1 || i == 2;
    }
  }

  /** The set a process works on. */
  function SetOf(p: Proc): string {
    match p case Publishing(job, _, _) => job.name case Finished(n) => n case Retaining(_, _, _, n, _) => n
  }

  predicate Busy(p: Proc) {
    p.Publishing? || (p.Retaining? && p.todo != [])
  }

  lemma BusyArchive(k: Codec, names: set<string>, overlap: bool, dir: Dir, published: set<Job>, p: Proc)
    requires ProcSound(k, names, overlap, dir, published, p) && Busy(p)
    ensures ArchiveName(SetOf(p)) && SetOf(p) in names
  {
  }

  /** A process notices neither a change outside its set nor one of another's temporary
      file. */
  lemma UnchangedProc(k: Codec, names: set<string>, overlap: bool, dir: Dir, dir': Dir, published: set<Job>, p: Proc)
    requires ProcSound(k, names, overlap, dir, published, p)
    requires Busy(p) ==> ArchiveName(SetOf(p)) && SameSet(dir, dir', SetOf(p))
    requires p.Publishing? && p.phase.HasTemp() && p.phase.tmp in dir
         ==> p.phase.tmp in dir' && dir'[p.phase.tmp] == dir[p.phase.tmp]
    ensures ProcSound(k, names, overlap, dir', published, p)
  {
    match p {
      case Publishing(job, at, phase) =>
        SameSetHolds(k, dir, dir', job, 0);
        SameSetHolds(k, dir, dir', job, 1);
        SameSetHolds(k, dir, dir', job, at);
      case Finished(_) =>
      case Retaining(_, _, _, name, todo) =>
        if todo != [] {
          assert FileName(name, 2) == MarkerName(name);
        }
    }
  }

  // -- the steps, one kind at a time ------------------------------------------

  /** The process `pid` takes its step and every other one stands still. */
  predicate Steps(s: System, s': System, pid: nat, dir': Dir, p': Option<Proc>) {
    pid in s.procs && s' == s.(dir := dir', procs := WithProc(s.procs, pid, p'), past := s.past + s.dir.Keys)
  }

  /** A step that keeps every set and every other process sound keeps the invariant. */
  lemma StepKeepsInv(k: Codec, names: set<string>, overlap: bool, s: System, s': System, pid: nat, dir': Dir,
                     p': Option<Proc>)
    requires Inv(k, names, overlap, s) && Steps(s, s', pid, dir', p') && AllSound(k, s') && AllKnown(names, s')
    requires forall q | q in s.procs && q != pid :: ProcSound(k, names, overlap, dir', s.published, s.procs[q])
    requires p'.Some? ==> ProcSound(k, names, overlap, dir', s.published, p'.value)
    requires p'.Some?
         ==> forall q | q in s.procs && q != pid :: Apart(p'.value, s.procs[q]) && Apart(s.procs[q], p'.value)
    ensures Inv(k, names, overlap, s')
  {
    hide Sound, ProcSound, Apart, AllKnown;
    forall p, q | p in s'.procs && q in s'.procs && p != q ensures Apart(s'.procs[p], s'.procs[q]) {
      assert p != pid && q != pid ==> Apart(s.procs[p], s.procs[q]);
    }
  }

  /** The temporary file of another process is not the one this process touches. */
  lemma OthersKeepTemps(k: Codec, names: set<string>, overlap: bool, s: System, pid: nat, q: nat, dir': Dir,
                        tmp: string, bytes: Bytes)
    requires Inv(k, names, overlap, s) && pid in s.procs && q in s.procs && q != pid && IsTemp(tmp)
    requires dir' == s.dir[tmp := bytes] || dir' == s.dir - {tmp}
    requires tmp !in s.dir
          || (s.procs[pid].Publishing? && s.procs[pid].phase.HasTemp() && s.procs[pid].phase.tmp == tmp)
    ensures ProcSound(k, names, overlap, dir', s.published, s.procs[q])
  {
    var p := s.procs[q];
    assert Apart(s.procs[pid], p);
    assert ProcSound(k, names, overlap, s.dir, s.published, p);
    if Busy(p) {
      BusyArchive(k, names, overlap, s.dir, s.published, p);
      TempIsOutside(s.dir, tmp, bytes, SetOf(p));
    }
    UnchangedProc(k, names, overlap, s.dir, dir', s.published, p);
  }

  lemma SetsKeepSound(k: Codec, s: System, s': System, tmp: string, bytes: Bytes)
    requires AllSound(k, s) && IsTemp(tmp) && s'.published == s.published
    requires s'.dir == s.dir[tmp := bytes] || s'.dir == s.dir - {tmp} || s'.dir == s.dir
    ensures AllSound(k, s')
  {
    forall n | ArchiveName(n) ensures Sound(k, s', n) {
      TempIsOutside(s.dir, tmp, bytes, n);
      SameSetSound(k, s, s', n);
    }
  }

  /** A step that touches at most one temporary file, its own or a new one. */
  lemma TempStep(k: Codec, names: set<string>, overlap: bool, s: System, s': System, pid: nat, dir': Dir,
                 p': Option<Proc>, tmp: string, bytes: Bytes)
    requires Inv(k, names, overlap, s) && Steps(s, s', pid, dir', p') && AllKnown(names, s')
          && s.procs[pid].Publishing? && IsTemp(tmp)
    requires dir' == s.dir[tmp := bytes] || dir' == s.dir - {tmp} || dir' == s.dir
    requires tmp !in s.dir || (s.procs[pid].phase.HasTemp() && s.procs[pid].phase.tmp == tmp)
    requires p'.Some?
         ==> Continues(s.procs[pid], p'.value, tmp) && ProcSound(k, names, overlap, dir', s.published, p'.value)
    ensures Inv(k, names, overlap, s')
  {
    SetsKeepSound(k, s, s', tmp, bytes);
    forall q | q in s.procs && q != pid ensures ProcSound(k, names, overlap, dir', s.published, s.procs[q]) {
      if dir' != s.dir {
        OthersKeepTemps(k, names, overlap, s, pid, q, dir', tmp, bytes);
      }
    }
    if p'.Some? {
      forall q | q in s.procs && q != pid ensures Apart(p'.value, s.procs[q]) && Apart(s.procs[q], p'.value) {
        NewTempApart(k, names, overlap, s, pid, q, p'.value, tmp);
      }
    }
    hide Sound, ProcSound, Apart, AllKnown;
    StepKeepsInv(k, names, overlap, s, s', pid, dir', p');
  }

  /** What a publication becomes that holds at most this temporary file. */
  predicate Continues(p: Proc, p': Proc, tmp: string)
    requires p.Publishing?
  {
    p'.Finished? || (p'.Publishing? && p'.job == p.job && (p'.phase.HasTemp() ==> p'.phase.tmp == tmp))
  }

  lemma NewTempApart(k: Codec, names: set<string>, overlap: bool, s: System, pid: nat, q: nat, p': Proc, tmp: string)
    requires Inv(k, names, overlap, s) && pid in s.procs && q in s.procs && q != pid
    requires s.procs[pid].Publishing? && Continues(s.procs[pid], p', tmp)
    requires tmp !in s.dir || (s.procs[pid].phase.HasTemp() && s.procs[pid].phase.tmp == tmp)
    ensures Apart(p', s.procs[q]) && Apart(s.procs[q], p')
  {
    assert Apart(s.procs[pid], s.procs[q]) && Apart(s.procs[q], s.procs[pid]);
    assert ProcSound(k, names, overlap, s.dir, s.published, s.procs[q]);
  }

  // -- linking a verified copy ------------------------------------------------

  /** Linking a verified copy under its final name. */
  lemma LinkStep(k: Codec, names: set<string>, overlap: bool, s: System, s': System, pid: nat, job: Job, at: nat,
                 t: string)
    requires Inv(k, names, overlap, s) && pid in s.procs && at <= 2 && AllKnown(names, s')
    requires s.procs[pid] == Publishing(job, at, Verified(t)) && ArchiveName(job.name)
          && FileName(job.name, at) !in s.dir
    requires Steps(s, s', pid, s.dir[FileName(job.name, at) := Content(k, job, at)],
                   Some(Publishing(job, at, Cleaning(t, true))))
    ensures Inv(k, names, overlap, s')
  {
    var target, content := FileName(job.name, at), Content(k, job, at);
    var dir' := s.dir[target := content];
    var p' := Publishing(job, at, Cleaning(t, true));
    assert ProcSound(k, names, overlap, s.dir, s.published, s.procs[pid]);
    LinkedSelf(k, names, overlap, s.dir, s.published, job, at, t);
    forall n | ArchiveName(n) ensures Sound(k, s', n) {
      LinkedSets(k, s, s', job, at, n);
    }
    forall q | q in s.procs && q != pid ensures ProcSound(k, names, overlap, dir', s.published, s.procs[q]) {
      assert Apart(s.procs[pid], s.procs[q]);
      LinkedOther(k, names, overlap, s, job, at, s.procs[q]);
    }
    forall q | q in s.procs && q != pid ensures Apart(p', s.procs[q]) && Apart(s.procs[q], p') {
      assert Apart(s.procs[pid], s.procs[q]) && Apart(s.procs[q], s.procs[pid]);
    }
    hide Sound, ProcSound, Apart, AllKnown;
    StepKeepsInv(k, names, overlap, s, s', pid, dir', Some(p'));
  }

  lemma LinkedSelf(k: Codec, names: set<string>, overlap: bool, dir: Dir, published: set<Job>, job: Job, at: nat,
                   t: string)
    requires ProcSound(k, names, overlap, dir, published, Publishing(job, at, Verified(t)))
          && FileName(job.name, at) !in dir
    ensures ProcSound(k, names, overlap, dir[FileName(job.name, at) := Content(k, job, at)], published,
                      Publishing(job, at, Cleaning(t, true)))
  {
    LastCharacter(job.name, at);
  }

  /** Only the manifest's link can make a set look complete, and then it is. */
  lemma LinkedSets(k: Codec, s: System, s': System, job: Job, at: nat, n: string)
    requires ArchiveName(n) && at <= 2 && ArchiveName(job.name)
    requires Sound(k, s, n) && job in s.published && s'.published == s.published
    requires FileName(job.name, at) !in s.dir && s'.dir == s.dir[FileName(job.name, at) := Content(k, job, at)]
    requires (at >= 1 ==> Holds(k, s.dir, job, 0)) && (at >= 2 ==> Holds(k, s.dir, job, 1))
    ensures Sound(k, s', n)
  {
    NamesApart(n, 2, job.name, at);
    assert FileName(n, 2) == MarkerName(n);
    if MarkerName(n) in s.dir {
      var other :| other in s.published && other.name == n && Complete(k, s.dir, other);
      assert Complete(k, s'.dir, other);
    } else if MarkerName(n) in s'.dir {
      assert Complete(k, s'.dir, job);
    }
  }

  lemma LinkedOther(k: Codec, names: set<string>, overlap: bool, s: System, job: Job, at: nat, q: Proc)
    requires at <= 2 && ArchiveName(job.name)
    requires ProcSound(k, names, overlap, s.dir, s.published, q) && FileName(job.name, at) !in s.dir
          && !q.Prunes(job.name)
    ensures ProcSound(k, names, overlap, s.dir[FileName(job.name, at) := Content(k, job, at)], s.published, q)
  {
    if q.Retaining? && q.todo != [] {
      NamesApart(q.name, 2, job.name, at);
      assert FileName(q.name, 2) == MarkerName(q.name);
    }
  }

  // -- removing a file of a prune ---------------------------------------------

  /** A file of a set that can be pruned belongs to no other set. */
  lemma PrunedFile(names: set<string>, m: string, i: nat, n: string, j: nat)
    requires DistinctStems(Prunable(names)) && m in Prunable(names) && n in names && ArchiveName(n) && i <= 2 && j <= 2
    requires FileName(m, i) == FileName(n, j)
    ensures m == n && i == j
  {
    NamesApart(m, i, n, j);
    if m != n {
      SameStemSnapshot(m, n);
    }
  }

  lemma OtherSetKept(names: set<string>, dir: Dir, m: string, i: nat, n: string)
    requires DistinctStems(Prunable(names)) && m in Prunable(names) && n in names && ArchiveName(n) && n != m && i <= 2
    ensures SameSet(dir, dir - {FileName(m, i)}, n)
  {
    forall j: nat | j <= 2 ensures FileName(n, j) != FileName(m, i) {
      if FileName(n, j) == FileName(m, i) {
        PrunedFile(names, m, i, n, j);
      }
    }
  }

  /** Removing the next file of a prune. */
  lemma UnlinkStep(k: Codec, names: set<string>, overlap: bool, s: System, s': System, pid: nat)
    requires Safe(names, overlap) && Inv(k, names, overlap, s) && pid in s.procs && AllKnown(names, s')
    requires s.procs[pid].Retaining? && s.procs[pid].todo != []
    requires Steps(s, s', pid, PruneStep(s.dir, s.procs[pid]).0, PruneStep(s.dir, s.procs[pid]).1)
    ensures Inv(k, names, overlap, s')
  {
    var p := s.procs[pid];
    var dir', p' := PruneStep(s.dir, p).0, p.(todo := p.todo[1..]);
    assert ProcSound(k, names, overlap, s.dir, s.published, p);
    var i := NextPruned(k, names, overlap, s.dir, s.published, p);
    PrunedSelf(k, names, overlap, s.dir, s.published, p);
    PrunedOthers(k, names, overlap, s, pid, i);
    hide FileName, TodoSound, Prunable, AllKnown, Sound, Safe, DistinctStems, MarkerName, PruneStep, ProcSound, Apart;
    forall n | ArchiveName(n) ensures Sound(k, s', n) {
      PrunedSets(k, names, s, s', p, i, n);
    }
    PruningApart(s, pid, p');
    StepKeepsInv(k, names, overlap, s, s', pid, dir', Some(p'));
  }

  /** Which file of the set is next. */
  lemma NextPruned(k: Codec, names: set<string>, overlap: bool, dir: Dir, published: set<Job>, p: Proc) returns (i: nat)
    requires Safe(names, overlap) && ProcSound(k, names, overlap, dir, published, p) && p.Retaining? && p.todo != []
    ensures DistinctStems(Prunable(names)) && p.name in Prunable(names) && TodoSound(dir, p.name, p.todo)
    ensures i <= 2 && p.todo[0] == FileName(p.name, i)
         && PruneStep(dir, p) == (dir - {FileName(p.name, i)}, Some(p.(todo := p.todo[1..])))
  {
    assert p.todo[0] in p.todo;
    i := if p.todo[0] == p.name then 0 else if p.todo[0] == ReleaseName(p.name) then 1 else 2;
  }

  lemma PrunedOthers(k: Codec, names: set<string>, overlap: bool, s: System, pid: nat, i: nat)
    requires DistinctStems(Prunable(names)) && Inv(k, names, overlap, s) && pid in s.procs && i <= 2
    requires s.procs[pid].Retaining? && s.procs[pid].todo != [] && s.procs[pid].name in Prunable(names)
    ensures forall q | q in s.procs && q != pid ::
      ProcSound(k, names, overlap, s.dir - {FileName(s.procs[pid].name, i)}, s.published, s.procs[q])
  {
    var p := s.procs[pid];
    forall q | q in s.procs && q != pid
      ensures ProcSound(k, names, overlap, s.dir - {FileName(p.name, i)}, s.published, s.procs[q])
    {
      assert Apart(s.procs[q], p);
      PrunedOther(k, names, overlap, s, p, i, s.procs[q]);
    }
  }

  /** A prune that goes on disturbs nobody it did not disturb before. */
  lemma PruningApart(s: System, pid: nat, p': Proc)
    requires pid in s.procs && s.procs[pid].Retaining? && s.procs[pid].todo != [] && p'.Retaining?
          && p'.name == s.procs[pid].name
    requires forall p, q | p in s.procs && q in s.procs && p != q :: Apart(s.procs[p], s.procs[q])
    ensures forall q | q in s.procs && q != pid :: Apart(p', s.procs[q]) && Apart(s.procs[q], p')
  {
    forall q | q in s.procs && q != pid ensures Apart(p', s.procs[q]) && Apart(s.procs[q], p') {
      assert Apart(s.procs[pid], s.procs[q]) && Apart(s.procs[q], s.procs[pid]);
    }
  }

  lemma PrunedSelf(k: Codec, names: set<string>, overlap: bool, dir: Dir, published: set<Job>, p: Proc)
    requires p.Retaining? && p.todo != [] && ProcSound(k, names, overlap, dir, published, p)
    ensures ProcSound(k, names, overlap, dir - {p.todo[0]}, published, p.(todo := p.todo[1..]))
  {
    assert forall f | f in p.todo[1..] :: f in p.todo;
  }

  /** A manifest that is still there is not of the set that is pruned. */
  lemma PrunedSets(k: Codec, names: set<string>, s: System, s': System, p: Proc, i: nat, n: string)
    requires DistinctStems(Prunable(names)) && p.Retaining? && p.todo != [] && p.name in Prunable(names) && i <= 2
          && ArchiveName(n)
    requires p.todo[0] == FileName(p.name, i) && TodoSound(s.dir, p.name, p.todo) && AllKnown(names, s)
    requires Sound(k, s, n) && s'.published == s.published && s'.dir == s.dir - {p.todo[0]}
    ensures Sound(k, s', n)
  {
    if MarkerName(n) in s'.dir {
      assert n != p.name;
      MarkerKnown(names, s, n);
      OtherSetKept(names, s.dir, p.name, i, n);
      SameSetSound(k, s, s', n);
    }
  }

  /** Manifests stand only for archives that may be published, and with short names: a
      longer name makes a manifest name that cannot be written. */
  lemma MarkerKnown(names: set<string>, s: System, n: string)
    requires ArchiveName(n) && MarkerName(n) in s.dir && AllKnown(names, s)
    ensures n in names && |n| <= 146
  {
    KnownMarker(names, n);
  }

  lemma KnownMarker(names: set<string>, n: string)
    requires Encrypted(n) && !IsTemp(MarkerName(n)) && Known(names, MarkerName(n))
    ensures n in names && |n| <= 146
  {
    var m, i: nat :| m in names && ArchiveName(m) && i <= 2 && MarkerName(n) == FileName(m, i);
    NamesApart(n, 2, m, i);
    assert FileName(n, 2) == MarkerName(n);
  }

  lemma PrunedOther(k: Codec, names: set<string>, overlap: bool, s: System, p: Proc, i: nat, q: Proc)
    requires DistinctStems(Prunable(names)) && p.Retaining? && p.todo != [] && p.name in Prunable(names) && i <= 2
    requires ProcSound(k, names, overlap, s.dir, s.published, q) && !q.Publishes(p.name)
    ensures ProcSound(k, names, overlap, s.dir - {FileName(p.name, i)}, s.published, q)
  {
    if Busy(q) {
      BusyArchive(k, names, overlap, s.dir, s.published, q);
      if SetOf(q) != p.name {
        OtherSetKept(names, s.dir, p.name, i, SetOf(q));
        NotTemp(p.name);
        UnchangedProc(k, names, overlap, s.dir, s.dir - {FileName(p.name, i)}, s.published, q);
      }
    }
  }

  // -- every action ------------------------------------------------------------

  lemma PublishAdvance(k: Codec, names: set<string>, overlap: bool, s: System, a: Action)
    requires Good(k) && Inv(k, names, overlap, s) && Allowed(names, overlap, s, a)
    requires a.Advance? && s.procs[a.pid].Publishing?
    ensures Inv(k, names, overlap, Apply(k, names, overlap, s, a))
  {
    var p := s.procs[a.pid];
    var r := CopyStep(k, s.dir, p.job, p.at, p.phase, a.tmp, a.bytes);
    var s' := Apply(k, names, overlap, s, a);
    assert ProcSound(k, names, overlap, s.dir, s.published, p);
    ActionKeepsKnown(k, names, overlap, s, a);
    if p.phase.Verified? && FileName(p.job.name, p.at) !in s.dir {
      hide Inv, AllKnown;
      LinkStep(k, names, overlap, s, s', a.pid, p.job, p.at, p.phase.tmp);
    } else {
      CopyStepSound(k, names, overlap, s.dir, s.published, p, a.tmp, a.bytes);
      var tmp := if p.phase.HasTemp() then p.phase.tmp else a.tmp;
      hide Inv, ProcSound, AllKnown;
      TempStep(k, names, overlap, s, s', a.pid, r.0, r.1, tmp, if p.phase.Checking? then "" else a.bytes);
    }
  }

  /** What is left of a publication after a step that links nothing is sound. */
  lemma CopyStepSound(k: Codec, names: set<string>, overlap: bool, dir: Dir, published: set<Job>, p: Proc,
                      tmp: string, bytes: Bytes)
    requires Good(k) && p.Publishing? && ProcSound(k, names, overlap, dir, published, p)
    requires p.phase.Checking? ==> IsTemp(tmp) && tmp !in dir
    requires !(p.phase.Verified? && FileName(p.job.name, p.at) !in dir)
    ensures
      var r := CopyStep(k, dir, p.job, p.at, p.phase, tmp, bytes);
      var own := if p.phase.HasTemp() then p.phase.tmp else tmp;
      && (r.0 == dir[own := if p.phase.Checking? then "" else bytes] || r.0 == dir - {own} || r.0 == dir)
      && (r.1.Some? ==> Continues(p, r.1.value, own) && ProcSound(k, names, overlap, r.0, published, r.1.value))
  {
    NotTemp(p.job.name);
    var job, at, own := p.job, p.at, if p.phase.HasTemp() then p.phase.tmp else tmp;
    match p.phase {
      case Checking => CheckedSound(k, dir, job, at, tmp);
      case Writing(t) => TempKeepsFiles(k, dir, job, own, bytes);
      case Written(t) =>
        assert t in dir && k.sha(dir[t]) == k.sha(Content(k, job, at)) ==> dir[t] == Content(k, job, at);
      case Verified(_) =>
      case Cleaning(_, _) => TempKeepsFiles(k, dir, job, own, bytes);
    }
    hide Good, Content, FileName, SafeName, IsTemp;
  }

  /** A file of the set with the right digest has the right content. */
  lemma CheckedSound(k: Codec, dir: Dir, job: Job, at: nat, tmp: string)
    requires Good(k) && ArchiveName(job.name) && at <= 2 && IsTemp(tmp)
    ensures FileName(job.name, at) in dir && k.sha(dir[FileName(job.name, at)]) == k.sha(Content(k, job, at))
        ==> Holds(k, dir, job, at)
    ensures forall i: nat | i <= 2 && Holds(k, dir, job, i) :: Holds(k, dir[tmp := ""], job, i)
  {
    NotTemp(job.name);
  }

  lemma TempKeepsFiles(k: Codec, dir: Dir, job: Job, tmp: string, bytes: Bytes)
    requires ArchiveName(job.name) && IsTemp(tmp)
    ensures forall i: nat | i <= 2 && Holds(k, dir, job, i) ::
              Holds(k, dir[tmp := bytes], job, i) && Holds(k, dir - {tmp}, job, i)
  {
    NotTemp(job.name);
  }

  /** Starting, listing and ending change no file. */
  lemma StartKeepsInv(k: Codec, names: set<string>, overlap: bool, s: System, a: Action)
    requires Inv(k, names, overlap, s) && Allowed(names, overlap, s, a) && !a.Advance? && !a.Prune?
    ensures Inv(k, names, overlap, Apply(k, names, overlap, s, a))
  {
    var s' := Apply(k, names, overlap, s, a);
    ActionKeepsKnown(k, names, overlap, s, a);
    forall n | ArchiveName(n) ensures Sound(k, s', n) {
      SameSetSound(k, s, s', n);
    }
    forall p | p in s'.procs ensures ProcSound(k, names, overlap, s'.dir, s'.published, s'.procs[p]) {
      if p != a.pid {
        assert ProcSound(k, names, overlap, s.dir, s.published, s.procs[p]);
      }
    }
    hide Sound, ProcSound, AllKnown;
    forall p, q | p in s'.procs && q in s'.procs && p != q ensures Apart(s'.procs[p], s'.procs[q]) {
      assert p != a.pid && q != a.pid ==> Apart(s.procs[p], s.procs[q]);
    }
  }

  /** What retention decides to remove was published under a name it can remove, and
      another such archive is newer. */
  lemma PrunedIsPrunable(names: set<string>, p: Proc, n: string)
    requires p.Retaining? && ProcKnown(names, p) && ToRemove(p.listing, p.limits, p.current, n)
    ensures n in Prunable(names) && !AtMostOne(Prunable(names))
  {
    var newer := Newer(p.listing, n);
    assert newer != {};
    var m :| m in newer;
    ListedSnapshot(names, p.listing, n);
    ListedSnapshot(names, p.listing, m);
  }

  lemma ListedSnapshot(names: set<string>, listing: set<string>, n: string)
    requires CompleteSnapshot(listing, n) && forall f | f in listing :: Known(names, f)
    ensures n in Prunable(names)
  {
    SnapshotStart(n);
    KnownMarker(names, n);
    var m, i: nat :| m in names && ArchiveName(m) && i <= 2 && n == FileName(m, i);
    NamesApart(n, 0, m, i);
    assert FileName(n, 0) == n;
  }

  lemma SnapshotStart(n: string)
    requires Snapshot(n)
    ensures !IsTemp(n) && !IsTemp(MarkerName(n))
  {
    assert '0' <= n[..8][0] <= '9';
  }

  lemma PruneKeepsInv(k: Codec, names: set<string>, overlap: bool, s: System, a: Action)
    requires Safe(names, overlap) && Inv(k, names, overlap, s) && Allowed(names, overlap, s, a) && a.Prune?
    ensures Inv(k, names, overlap, Apply(k, names, overlap, s, a))
  {
    var s' := Apply(k, names, overlap, s, a);
    var p' := s'.procs[a.pid];
    ActionKeepsKnown(k, names, overlap, s, a);
    assert ProcKnown(names, s.procs[a.pid]);
    PruneStarts(k, names, overlap, s.dir, s.published, s.procs[a.pid], a.name);
    hide Sound, ProcSound, AllKnown, Prunable, ToRemove, Safe, Apart, PruneList, Complete;
    forall n | ArchiveName(n) ensures Sound(k, s', n) {
      SameSetSound(k, s, s', n);
    }
    StartedApart(names, s, a, p');
    forall x, y | x in s'.procs && y in s'.procs && x != y ensures Apart(s'.procs[x], s'.procs[y]) {
      assert x != a.pid && y != a.pid ==> Apart(s.procs[x], s.procs[y]);
    }
  }

  lemma PruneStarts(k: Codec, names: set<string>, overlap: bool, dir: Dir, published: set<Job>, p: Proc, n: string)
    requires Safe(names, overlap) && p.Retaining? && ProcKnown(names, p) && ToRemove(p.listing, p.limits, p.current, n)
    ensures !overlap && ProcSound(k, names, overlap, dir, published, p.(name := n, todo := PruneList(p.listing, n)))
  {
    PrunedIsPrunable(names, p, n);
    ListIsSound(p.listing, n, dir);
    hide Prunable, AtMostOne, DistinctStems, TodoSound, PruneList, ToRemove, CompleteSnapshot, ProcKnown;
  }

  lemma ListIsSound(listing: set<string>, n: string, dir: Dir)
    requires |n| >= 8 && MarkerName(n) in listing
    ensures TodoSound(dir, n, PruneList(listing, n))
  {
  }

  lemma StartedApart(names: set<string>, s: System, a: Action, p': Proc)
    requires Allowed(names, false, s, a) && a.Prune? && p'.Retaining? && p'.name == a.name
    ensures forall q | q in s.procs :: q != a.pid ==> Apart(p', s.procs[q]) && Apart(s.procs[q], p')
  {
  }

  lemma ActionKeepsInv(k: Codec, names: set<string>, overlap: bool, s: System, a: Action)
    requires Good(k) && Safe(names, overlap) && Inv(k, names, overlap, s) && Allowed(names, overlap, s, a)
    ensures Inv(k, names, overlap, Apply(k, names, overlap, s, a))
  {
    if a.Prune? {
      PruneKeepsInv(k, names, overlap, s, a);
    } else if !a.Advance? {
      StartKeepsInv(k, names, overlap, s, a);
    } else if s.procs[a.pid].Publishing? {
      PublishAdvance(k, names, overlap, s, a);
    } else {
      ActionKeepsKnown(k, names, overlap, s, a);
      hide Inv, Good, Safe, AllKnown, PruneStep;
      UnlinkStep(k, names, overlap, s, Apply(k, names, overlap, s, a), a.pid);
    }
  }

  // -- runs --------------------------------------------------------------------

  function Init(dir: Dir): System {
    System(dir, map[], {}, {})
  }

  /** A run: every action is allowed in the state the ones before it leave. */
  ghost predicate Reaches(k: Codec, names: set<string>, overlap: bool, s: System, actions: seq<Action>, s': System)
    decreases |actions|
  {
    if actions == [] then s' == s
    else
      && Allowed(names, overlap, s, actions[0])
      && Reaches(k, names, overlap, Apply(k, names, overlap, s, actions[0]), actions[1..], s')
  }

  lemma {:induction false} RunKeepsInv(k: Codec, names: set<string>, overlap: bool, s: System, actions: seq<Action>,
                                       s': System)
    requires Good(k) && Safe(names, overlap) && Inv(k, names, overlap, s) && Reaches(k, names, overlap, s, actions, s')
    ensures Inv(k, names, overlap, s')
    decreases |actions|
  {
    if actions != [] {
      ActionKeepsInv(k, names, overlap, s, actions[0]);
      hide Inv, Good, Safe;
      RunKeepsInv(k, names, overlap, Apply(k, names, overlap, s, actions[0]), actions[1..], s');
    }
  }

  lemma {:induction false} RunKeepsKnown(k: Codec, names: set<string>, overlap: bool, s: System, actions: seq<Action>,
                                         s': System)
    requires AllKnown(names, s) && Reaches(k, names, overlap, s, actions, s')
    ensures AllKnown(names, s')
    decreases |actions|
  {
    if actions != [] {
      ActionKeepsKnown(k, names, overlap, s, actions[0]);
      hide AllKnown;
      RunKeepsKnown(k, names, overlap, Apply(k, names, overlap, s, actions[0]), actions[1..], s');
    }
  }

  /** In every run, safe or not, a manifest stands only for an archive that was to be
      published, whose name leaves room for the manifest's. */
  lemma ReachedMarkersAreShort(k: Codec, names: set<string>, overlap: bool, actions: seq<Action>, s: System, n: string)
    requires Reaches(k, names, overlap, Init(map[]), actions, s) && ArchiveName(n) && MarkerName(n) in s.dir
    ensures n in names && |n| <= 146
  {
    RunKeepsKnown(k, names, overlap, Init(map[]), actions, s);
    MarkerKnown(names, s, n);
  }

  /** Crash-safe sets: under the exact condition, in every state reachable from an empty
      directory by any interleaving of publications and prunes, with crashes anywhere, a
      manifest that is there means that its archive and release file are there with the
      recorded content. */
  lemma ManifestMeansComplete(k: Codec, names: set<string>, overlap: bool, actions: seq<Action>, s: System,
                              name: string)
    requires Good(k) && Safe(names, overlap) && Reaches(k, names, overlap, Init(map[]), actions, s)
    requires ArchiveName(name) && MarkerName(name) in s.dir
    ensures exists job :: job in s.published && job.name == name && Complete(k, s.dir, job)
  {
    RunKeepsInv(k, names, overlap, Init(map[]), actions, s);
    assert Sound(k, s, name);
  }
}
