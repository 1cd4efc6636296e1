/**
 * One cycle of the directory scanner (ClamScanner.Start): the decision the
 * walk callback takes for each visited entry, the bookkeeping of the waiter
 * that receives each submitted file's verdict, the four per-cycle counters,
 * and the removal of infected files (ClamScanner.Clean). The "files" and
 * "viruses" buckets are maps and the directory tree is the set of paths on disk.
 */
module Scanner {
  import opened Wrappers
  import opened Wire
  import opened Worker

  /** One entry visited by the walk: its path, whether it is a directory, its size and its modification time as a string. */
  datatype Entry = Entry(path: string, isDir: bool, size: int, modTime: string)

  /** A submitted file and the modification time the walk observed for it. */
  datatype Job = Job(path: string, modTime: string)

  function JobOf(e: Entry): Job
  {
    Job(e.path, e.modTime)
  }

  /** What the walk callback does with an entry. */
  datatype Decision =
    | Ignore          // a directory: neither counted nor submitted
    | SkipLarge       // over the size ceiling: counted as skipped
    | Abort           // the quit flag is set: the walk ends with END
    | SkipUnchanged   // its "files" record equals its modification time: counted as skipped
    | Submit          // handed to the scan queue

  /** The "files" bucket holds exactly the entry's current modification time. */
  predicate Recorded(files: map<string, string>, e: Entry)
  {
    e.path in files && files[e.path] == e.modTime
  }

  /** A file that a walk without the quit flag submits. */
  predicate Eligible(files: map<string, string>, ceiling: int, e: Entry)
  {
    !e.isDir && e.size <= ceiling && !Recorded(files, e)
  }

  /**
   * The walk callback: directories first, then the size ceiling, then the
   * quit flag, then the "files" record. The size check precedes the quit
   * check, so a large file is skipped whatever the flag and the record say.
   */
  function Decide(files: map<string, string>, ceiling: int, quit: bool, e: Entry): (d: Decision)
    ensures e.isDir ==> d == Ignore
    ensures !e.isDir && e.size > ceiling ==> d == SkipLarge
    ensures d == Abort <==> quit && !e.isDir && e.size <= ceiling
    ensures d == Submit <==> !quit && Eligible(files, ceiling, e)
    ensures d == SkipUnchanged <==> !quit && !e.isDir && e.size <= ceiling && Recorded(files, e)
  {
    if e.isDir then Ignore
    else if e.size > ceiling then SkipLarge
    else if quit then Abort
    else if e.path in files && files[e.path] == e.modTime then SkipUnchanged
    else Submit
  }

  /** What a walk over a sequence of entries does: the jobs it submits in order, how many files it skips, and whether it ends with END. */
  datatype WalkOutcome = WalkOutcome(jobs: seq<Job>, skipped: nat, aborted: bool)

  /** The walk from the `i`-th entry on, with the "files" bucket and the quit flag as they are. */
  function TraverseFrom(files: map<string, string>, ceiling: int, quit: bool, entries: seq<Entry>, i: nat): WalkOutcome
    requires i <= |entries|
    decreases |entries| - i
  {
    if i == |entries| then WalkOutcome([], 0, false)
    else
      match Decide(files, ceiling, quit, entries[i])
      case Abort => WalkOutcome([], 0, true)
      case Ignore => TraverseFrom(files, ceiling, quit, entries, i + 1)
      case Submit =>
        var rest := TraverseFrom(files, ceiling, quit, entries, i + 1);
        rest.(jobs := [JobOf(entries[i])] + rest.jobs)
      case _ =>
        var rest := TraverseFrom(files, ceiling, quit, entries, i + 1);
        rest.(skipped := rest.skipped + 1)
  }

  /** A whole walk. */
  function Traverse(files: map<string, string>, ceiling: int, quit: bool, entries: seq<Entry>): WalkOutcome
  {
    TraverseFrom(files, ceiling, quit, entries, 0)
  }

  /**
   * One entry visited without END: with the counters it moved from the
   * `0` values to the `1` values, the rest of the walk is what it was before.
   */
  lemma TraverseVisit(files: map<string, string>, ceiling: int, quit: bool, entries: seq<Entry>, i: nat,
                      skipped0: nat, skipped1: nat, submitted0: seq<Job>, submitted1: seq<Job>, waiting0: nat, waiting1: nat)
    requires i < |entries|
    requires var d := Decide(files, ceiling, quit, entries[i]);
      d != Abort &&
      skipped1 == skipped0 + (if d == SkipLarge || d == SkipUnchanged then 1 else 0) &&
      submitted1 == submitted0 + (if d == Submit then [JobOf(entries[i])] else []) &&
      waiting1 == waiting0 + (if d == Submit then 1 else 0)
    ensures var w := TraverseFrom(files, ceiling, quit, entries, i);
      var rest := TraverseFrom(files, ceiling, quit, entries, i + 1);
      rest.aborted == w.aborted &&
      skipped1 + rest.skipped == skipped0 + w.skipped &&
      submitted1 + rest.jobs == submitted0 + w.jobs &&
      waiting1 + |rest.jobs| == waiting0 + |w.jobs|
  {
    var rest := TraverseFrom(files, ceiling, quit, entries, i + 1);
    if Decide(files, ceiling, quit, entries[i]) == Submit {
      assert submitted1 + rest.jobs == submitted0 + ([JobOf(entries[i])] + rest.jobs);
    }
  }

  /** The number of regular files from the `i`-th entry on. */
  function RegularFrom(entries: seq<Entry>, i: nat): nat
    requires i <= |entries|
    decreases |entries| - i
  {
    if i == |entries| then 0
    else (if entries[i].isDir then 0 else 1) + RegularFrom(entries, i + 1)
  }

  /** `job` is the job of an eligible entry from the `i`-th on. */
  ghost predicate FromEligible(files: map<string, string>, ceiling: int, entries: seq<Entry>, i: nat, job: Job)
  {
    exists k :: i <= k < |entries| && Eligible(files, ceiling, entries[k]) && job == JobOf(entries[k])
  }

  /** Every submitted job is the job of an eligible entry, and nothing is submitted while the quit flag is set. */
  lemma {:induction false} TraverseSubmitsOnlyEligible(files: map<string, string>, ceiling: int, quit: bool, entries: seq<Entry>, i: nat)
    requires i <= |entries|
    ensures var w := TraverseFrom(files, ceiling, quit, entries, i);
      (quit ==> w.jobs == []) &&
      forall job :: job in w.jobs ==> FromEligible(files, ceiling, entries, i, job)
    decreases |entries| - i
  {
    if i < |entries| {
      var w := TraverseFrom(files, ceiling, quit, entries, i);
      var rest := TraverseFrom(files, ceiling, quit, entries, i + 1);
      TraverseSubmitsOnlyEligible(files, ceiling, quit, entries, i + 1);
      var d := Decide(files, ceiling, quit, entries[i]);
      if d != Abort {
        forall job | job in w.jobs
          ensures FromEligible(files, ceiling, entries, i, job)
        {
          if d == Submit && job == JobOf(entries[i]) {
            assert Eligible(files, ceiling, entries[i]);
          } else {
            assert job in rest.jobs;
            assert FromEligible(files, ceiling, entries, i + 1, job);
            var k :| i + 1 <= k < |entries| && Eligible(files, ceiling, entries[k]) && job == JobOf(entries[k]);
          }
        }
      }
    }
  }

  /** Without the quit flag, the walk never aborts and submits every eligible entry. */
  lemma {:induction false} TraverseSubmitsAllEligible(files: map<string, string>, ceiling: int, entries: seq<Entry>, i: nat)
    requires i <= |entries|
    ensures var w := TraverseFrom(files, ceiling, false, entries, i);
      !w.aborted &&
      forall k :: i <= k < |entries| && Eligible(files, ceiling, entries[k]) ==> JobOf(entries[k]) in w.jobs
    decreases |entries| - i
  {
    if i < |entries| {
      TraverseSubmitsAllEligible(files, ceiling, entries, i + 1);
      var rest := TraverseFrom(files, ceiling, false, entries, i + 1);
      var w := TraverseFrom(files, ceiling, false, entries, i);
      if Decide(files, ceiling, false, entries[i]) == Submit {
        assert w.jobs == [JobOf(entries[i])] + rest.jobs;
      } else {
        assert w.jobs == rest.jobs;
      }
    }
  }

  /** Without the quit flag, every regular file is either skipped or submitted. */
  lemma {:induction false} TraverseCountsEveryFile(files: map<string, string>, ceiling: int, entries: seq<Entry>, i: nat)
    requires i <= |entries|
    ensures var w := TraverseFrom(files, ceiling, false, entries, i);
      w.skipped + |w.jobs| == RegularFrom(entries, i)
    decreases |entries| - i
  {
    if i < |entries| {
      TraverseCountsEveryFile(files, ceiling, entries, i + 1);
    }
  }

  /**
   * With the quit flag set, nothing is submitted and the walk ends with END
   * exactly when it meets a file within the size ceiling; when it meets none,
   * every regular file is counted as skipped.
   */
  lemma {:induction false} QuitAborts(files: map<string, string>, ceiling: int, entries: seq<Entry>, i: nat)
    requires i <= |entries|
    ensures var w := TraverseFrom(files, ceiling, true, entries, i);
      w.jobs == [] &&
      (w.aborted <==> exists k :: i <= k < |entries| && !entries[k].isDir && entries[k].size <= ceiling) &&
      (!w.aborted ==> w.skipped == RegularFrom(entries, i))
    decreases |entries| - i
  {
    if i < |entries| {
      QuitAborts(files, ceiling, entries, i + 1);
      if !entries[i].isDir && entries[i].size <= ceiling {
        assert TraverseFrom(files, ceiling, true, entries, i).aborted;
      } else {
        var w := TraverseFrom(files, ceiling, true, entries, i);
        var rest := TraverseFrom(files, ceiling, true, entries, i + 1);
        assert w.jobs == rest.jobs && w.aborted == rest.aborted;
        if w.aborted {
          var k :| i + 1 <= k < |entries| && !entries[k].isDir && entries[k].size <= ceiling;
        }
      }
    }
  }

  /** No two entries of the walk share a path. */
  predicate DistinctPaths(entries: seq<Entry>)
  {
    forall a, b :: 0 <= a < b < |entries| ==> entries[a].path != entries[b].path
  }

  /** No two jobs share a path. */
  predicate DistinctJobs(jobs: seq<Job>)
  {
    forall a, b :: 0 <= a < b < |jobs| ==> jobs[a].path != jobs[b].path
  }

  /** In a walk that visits each path once, each path is submitted at most once. */
  lemma {:induction false} TraverseDistinct(files: map<string, string>, ceiling: int, quit: bool, entries: seq<Entry>, i: nat)
    requires i <= |entries| && DistinctPaths(entries)
    ensures DistinctJobs(TraverseFrom(files, ceiling, quit, entries, i).jobs)
    decreases |entries| - i
  {
    if i < |entries| {
      TraverseDistinct(files, ceiling, quit, entries, i + 1);
      var w := TraverseFrom(files, ceiling, quit, entries, i);
      var rest := TraverseFrom(files, ceiling, quit, entries, i + 1);
      if Decide(files, ceiling, quit, entries[i]) == Submit {
        TraverseSubmitsOnlyEligible(files, ceiling, quit, entries, i + 1);
        forall a, b | 0 <= a < b < |w.jobs|
          ensures w.jobs[a].path != w.jobs[b].path
        {
          assert w.jobs[b] == rest.jobs[b - 1];
          if a == 0 {
            assert rest.jobs[b - 1] in rest.jobs;
            assert FromEligible(files, ceiling, entries, i + 1, rest.jobs[b - 1]);
            var k :| i + 1 <= k < |entries| && Eligible(files, ceiling, entries[k]) && rest.jobs[b - 1] == JobOf(entries[k]);
            assert w.jobs[0] == JobOf(entries[i]);
            assert entries[i].path != entries[k].path;
          } else {
            assert w.jobs[a] == rest.jobs[a - 1];
          }
        }
      } else if Decide(files, ceiling, quit, entries[i]) != Abort {
        assert w.jobs == rest.jobs;
      }
    }
  }

  /** An MD5 digest. */
  type Digest = d: seq<byte> | |d| == 16 witness [0, 0, 0, 0, 0, 0, 0, 0, 0, 0, 0, 0, 0, 0, 0, 0]

  /** The persistent state a verdict changes: the two buckets and the paths on disk. */
  datatype Store = Store(files: map<string, string>, viruses: map<string, Digest>, disk: set<string>)

  /**
   * What the waiter does with a verdict. OK records the modification time
   * the walk observed; ERR changes nothing; FOUND records the file's digest
   * when hashing succeeds (`hash`, None when it fails), leaves the "files"
   * bucket alone and removes the file.
   */
  function Apply(s: Store, job: Job, verdict: ClamResult, hash: Option<Digest>): (t: Store)
    ensures t.disk <= s.disk
    ensures t.files.Keys <= s.files.Keys + {job.path}
  {
    match verdict
    case ClamOK => s.(files := s.files[job.path := job.modTime])
    case ClamERR => s
    case ClamFOUND =>
      var viruses := if hash.Some? then s.viruses[job.path := hash.value] else s.viruses;
      Store(s.files, viruses, s.disk - {job.path})
  }

  /** The effect of each verdict on the store, key by key. */
  lemma VerdictEffects(s: Store, job: Job, verdict: ClamResult, hash: Option<Digest>)
    ensures var t := Apply(s, job, verdict, hash);
      (verdict == ClamOK ==>
        t.files == s.files[job.path := job.modTime] && t.viruses == s.viruses && t.disk == s.disk) &&
      (verdict == ClamERR ==> t == s) &&
      (verdict == ClamFOUND ==>
        t.files == s.files && job.path !in t.disk && t.disk + {job.path} >= s.disk &&
        (forall p :: p != job.path ==> (p in t.disk <==> p in s.disk)) &&
        (hash.Some? ==> t.viruses == s.viruses[job.path := hash.value]) &&
        (hash.None? ==> t.viruses == s.viruses))
  {
  }

  /** Dedup idempotence: after an OK verdict, a walk that sees the same modification time does not submit the file again. */
  lemma CleanFileNotResubmitted(s: Store, job: Job, hash: Option<Digest>, ceiling: int, quit: bool, entries: seq<Entry>)
    ensures job !in Traverse(Apply(s, job, ClamOK, hash).files, ceiling, quit, entries).jobs
  {
    var files := Apply(s, job, ClamOK, hash).files;
    TraverseSubmitsOnlyEligible(files, ceiling, quit, entries, 0);
    assert !FromEligible(files, ceiling, entries, 0, job);
  }

  /**
   * Invalidation on change: after an OK verdict, a walk without the quit flag
   * that sees the file, within the ceiling, with a different modification
   * time submits it again.
   */
  lemma TouchedFileResubmitted(s: Store, job: Job, hash: Option<Digest>, ceiling: int, entries: seq<Entry>, k: nat)
    requires k < |entries|
    requires entries[k].path == job.path && entries[k].modTime != job.modTime
    requires !entries[k].isDir && entries[k].size <= ceiling
    ensures JobOf(entries[k]) in Traverse(Apply(s, job, ClamOK, hash).files, ceiling, false, entries).jobs
  {
    TraverseSubmitsAllEligible(Apply(s, job, ClamOK, hash).files, ceiling, entries, 0);
  }

  /** A job that a walk submitted was not recorded with its modification time when the walk ran. */
  lemma SubmittedWasUnrecorded(files: map<string, string>, ceiling: int, quit: bool, entries: seq<Entry>, job: Job)
    requires job in Traverse(files, ceiling, quit, entries).jobs
    ensures !(job.path in files && files[job.path] == job.modTime)
  {
    TraverseSubmitsOnlyEligible(files, ceiling, quit, entries, 0);
    assert FromEligible(files, ceiling, entries, 0, job);
  }

  /**
   * Errored files are retried: after an ERR verdict for a job of one walk,
   * a later walk without the quit flag that finds the file unchanged and
   * within the ceiling submits it again.
   */
  lemma ErroredFileRetried(s: Store, prev: seq<Entry>, quit: bool, job: Job, hash: Option<Digest>, ceiling: int, entries: seq<Entry>, k: nat)
    requires job in Traverse(s.files, ceiling, quit, prev).jobs
    requires k < |entries| && !entries[k].isDir && entries[k].size <= ceiling && JobOf(entries[k]) == job
    ensures job in Traverse(Apply(s, job, ClamERR, hash).files, ceiling, false, entries).jobs
  {
    SubmittedWasUnrecorded(s.files, ceiling, quit, prev, job);
    TraverseSubmitsAllEligible(s.files, ceiling, entries, 0);
  }

  /**
   * A deleted infected file that is recreated is rescanned: after a FOUND
   * verdict for a job of one walk, a later walk without the quit flag that
   * finds the file again within the ceiling, even with the same modification
   * time, submits it, since FOUND writes no "files" record.
   */
  lemma InfectedRecreatedRescanned(s: Store, prev: seq<Entry>, quit: bool, job: Job, hash: Option<Digest>, ceiling: int, entries: seq<Entry>, k: nat)
    requires job in Traverse(s.files, ceiling, quit, prev).jobs
    requires k < |entries| && !entries[k].isDir && entries[k].size <= ceiling && JobOf(entries[k]) == job
    ensures job.path !in Apply(s, job, ClamFOUND, hash).disk
    ensures job in Traverse(Apply(s, job, ClamFOUND, hash).files, ceiling, false, entries).jobs
  {
    SubmittedWasUnrecorded(s.files, ceiling, quit, prev, job);
    TraverseSubmitsAllEligible(Apply(s, job, ClamFOUND, hash).files, ceiling, entries, 0);
  }

  /**
   * FOUND does not clear an older "files" record: a file recreated with the
   * modification time of an earlier clean scan is not submitted, whatever its content.
   */
  lemma InfectedStaleRecordTrusted(s: Store, job: Job, hash: Option<Digest>, ceiling: int, quit: bool, entries: seq<Entry>, e: Entry)
    requires e.path == job.path && e.path in s.files && s.files[e.path] == e.modTime
    ensures JobOf(e) !in Traverse(Apply(s, job, ClamFOUND, hash).files, ceiling, quit, entries).jobs
  {
    var files := Apply(s, job, ClamFOUND, hash).files;
    TraverseSubmitsOnlyEligible(files, ceiling, quit, entries, 0);
    assert !FromEligible(files, ceiling, entries, 0, JobOf(e));
  }

  /**
   * The scanner's state across one cycle: the quit flag, the two buckets,
   * the paths on disk, the four counters, the jobs submitted this cycle and
   * those whose waiter has not yet run (the wait group).
   */
  class ClamScanner {
    const size: int
    var quit: bool
    var files: map<string, string>
    var viruses: map<string, Digest>
    var disk: set<string>
    var skipped: nat
    var okFiles: nat
    var errored: nat
    var found: nat
    var submitted: seq<Job>
    var waiting: nat

    /** Each submitted job is either still awaited or counted by exactly one verdict counter. */
    ghost predicate Valid()
      reads this
    {
      |submitted| == waiting + okFiles + errored + found
    }

    function Persisted(): Store
      reads this
    {
      Store(files, viruses, disk)
    }

    constructor (size: int, files: map<string, string>, viruses: map<string, Digest>, disk: set<string>)
      ensures Valid() && !quit
      ensures this.size == size && Persisted() == Store(files, viruses, disk)
      ensures skipped == okFiles == errored == found == 0 && submitted == [] && waiting == 0
    {
      this.size := size;
      quit := false;
      this.files := files;
      this.viruses := viruses;
      this.disk := disk;
      skipped, okFiles, errored, found := 0, 0, 0, 0;
      submitted, waiting := [], 0;
    }

    /** The start of a cycle, once the previous cycle's waiters have all run: fresh counters. */
    method BeginCycle()
      requires Valid() && waiting == 0
      modifies this
      ensures Valid() && quit == old(quit) && Persisted() == old(Persisted())
      ensures skipped == okFiles == errored == found == 0 && submitted == [] && waiting == 0
    {
      skipped, okFiles, errored, found := 0, 0, 0, 0;
      submitted := [];
    }

    /** The atomic store of the quit flag by Stop. */
    method RequestStop()
      modifies this`quit
      ensures quit
    {
      quit := true;
    }

    /** The walk callback for one entry; `stop` is the END return. */
    method VisitEntry(e: Entry) returns (stop: bool)
      requires Valid()
      modifies this`skipped, this`submitted, this`waiting
      ensures Valid()
      ensures var d := Decide(files, size, quit, e);
        stop == (d == Abort) &&
        skipped == old(skipped) + (if d == SkipLarge || d == SkipUnchanged then 1 else 0) &&
        submitted == old(submitted) + (if d == Submit then [JobOf(e)] else []) &&
        waiting == old(waiting) + (if d == Submit then 1 else 0)
    {
      if e.isDir {
        return false;
      }
      if e.size > size {
        skipped := skipped + 1;
        return false;
      }
      if quit {
        return true;
      }
      var known := e.path in files && files[e.path] == e.modTime;
      if known {
        skipped := skipped + 1;
      } else {
        var job := Job(e.path, e.modTime);
        submitted := submitted + [job];
        waiting := waiting + 1;
      }
      return false;
    }

    /** filepath.Walk over `entries` with this callback; `aborted` is the END result. */
    method Walk(entries: seq<Entry>) returns (aborted: bool)
      requires Valid()
      modifies this`skipped, this`submitted, this`waiting
      ensures Valid()
      ensures var w := Traverse(files, size, quit, entries);
        aborted == w.aborted &&
        skipped == old(skipped) + w.skipped &&
        submitted == old(submitted) + w.jobs &&
        waiting == old(waiting) + |w.jobs|
    {
      ghost var bucket, ceiling, stopping := files, size, quit;
      ghost var whole := Traverse(bucket, ceiling, stopping, entries);
      var i := 0;
      while i < |entries|
        invariant 0 <= i <= |entries|
        invariant Valid() && files == bucket && size == ceiling && quit == stopping
        invariant var rest := TraverseFrom(bucket, ceiling, stopping, entries, i);
          rest.aborted == whole.aborted &&
          skipped + rest.skipped == old(skipped) + whole.skipped &&
          submitted + rest.jobs == old(submitted) + whole.jobs &&
          waiting + |rest.jobs| == old(waiting) + |whole.jobs|
      {
        ghost var skipped0, submitted0, waiting0 := skipped, submitted, waiting;
        var stop := VisitEntry(entries[i]);
        if stop {
          return true;
        }
        TraverseVisit(bucket, ceiling, stopping, entries, i, skipped0, skipped, submitted0, submitted, waiting0, waiting);
        i := i + 1;
      }
      return false;
    }

    /** Clean: remove an infected file from disk. */
    method Clean(path: string)
      modifies this`disk
      ensures disk == old(disk) - {path}
    {
      disk := disk - {path};
    }

    /**
     * The waiter of a submitted job, receiving its verdict: the matching
     * counter goes up by one and the store changes as Apply says.
     */
    method HandleVerdict(job: Job, verdict: ClamResult, hash: Option<Digest>)
      requires Valid() && job in submitted && waiting > 0
      modifies this`waiting, this`okFiles, this`errored, this`found, this`files, this`viruses, this`disk
      ensures Valid()
      ensures waiting == old(waiting) - 1
      ensures Persisted() == Apply(old(Persisted()), job, verdict, hash)
      ensures okFiles == old(okFiles) + (if verdict == ClamOK then 1 else 0)
      ensures errored == old(errored) + (if verdict == ClamERR then 1 else 0)
      ensures found == old(found) + (if verdict == ClamFOUND then 1 else 0)
    {
      waiting := waiting - 1;
      match verdict {
        case ClamOK =>
          okFiles := okFiles + 1;
          files := files[job.path := job.modTime];
        case ClamERR =>
          errored := errored + 1;
        case ClamFOUND =>
          found := found + 1;
          if hash.Some? {
            viruses := viruses[job.path := hash.value];
          }
          Clean(job.path);
      }
    }
  }

  /** Once every waiter of the cycle has run, the three verdict counters add up to the number of submissions. */
  lemma DrainedCounts(c: ClamScanner)
    requires c.Valid() && c.waiting == 0
    ensures c.okFiles + c.errored + c.found == |c.submitted|
  {
  }
}
