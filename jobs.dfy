/** The external-job scheduler of `DataManager`, as functions on its three job lists:
    the per-kind success predicate, reaping of exited jobs and activation of pending ones. */
module Jobs {
  import opened Wrappers
  import opened Seqs

  type Pid = nat

  /** The job kinds the scheduler classifies; any other tag has no success predicate.
      `OtherKind(name)` stands only for a tag other than `robocopy`, `unrealpak` and `archive`,
      which are always written with their own constructors. */
  datatype Kind = Robocopy | UnrealPak | Archive | OtherKind(name: string)

  /** What `Popen.poll()` reports: still running, or the exit code. */
  datatype Status = Running | Exited(code: int)

  /** The command a process runs (the command lines themselves are not modelled). */
  datatype Command = PackUpack | CopyUpack | ArchivePack | CopyPackStruct | CopyContentToEngine

  /** An abstract process handle. */
  datatype Process = Process(pid: Pid, command: Command)

  /** An entry of `activeJobs` or `failedJobs`: a started process and its kind. */
  datatype Job = Job(process: Process, kind: Kind)

  /** An entry of `pendingJobs`: a deferred start, its kind and the kinds it waits on. */
  datatype PendingJob = PendingJob(start: Command, kind: Kind, waitsOn: set<Kind>)

  /** `_isSuccessExitCode`: `None` for a kind it does not know. */
  function ExitCodeVerdict(code: int, kind: Kind): (r: Option<bool>)
    ensures r.None? <==> kind.OtherKind?
    ensures r == Some(true) <==> (kind == Robocopy && code <= 7) || ((kind == UnrealPak || kind == Archive) && code == 0)
  {
    match kind
    case Robocopy => Some(code <= 7)
    case UnrealPak => Some(code == 0)
    case Archive => Some(code == 0)
    case OtherKind(_) => None
  }

  /** The boundaries of the success predicate. */
  lemma ExitCodeBoundaries()
    ensures ExitCodeVerdict(7, Robocopy) == Some(true)
    ensures ExitCodeVerdict(8, Robocopy) == Some(false)
    ensures ExitCodeVerdict(1, UnrealPak) == Some(false)
    ensures ExitCodeVerdict(0, Archive) == Some(true)
    ensures ExitCodeVerdict(0, OtherKind("zip")) == None
  {
  }

  /** `not _isSuccessExitCode(...)`: a `None` verdict counts as a failure. */
  predicate IsFailedExit(code: int, kind: Kind) {
    ExitCodeVerdict(code, kind) != Some(true)
  }

  predicate IsRunning(status: Pid -> Status, j: Job) {
    status(j.process.pid).Running?
  }

  predicate HasFailed(status: Pid -> Status, j: Job) {
    status(j.process.pid).Exited? && IsFailedExit(status(j.process.pid).code, j.kind)
  }

  /** The active jobs a poll keeps. */
  function Survivors(jobs: seq<Job>, status: Pid -> Status): seq<Job> {
    Filter(jobs, j => IsRunning(status, j))
  }

  /** The active jobs a poll removes. */
  function Reaped(jobs: seq<Job>, status: Pid -> Status): seq<Job> {
    Filter(jobs, j => !IsRunning(status, j))
  }

  /** The reaped jobs of a scan grow by its last job exactly when that job has exited. */
  lemma ReapedSnoc(jobs: seq<Job>, status: Pid -> Status)
    requires jobs != []
    ensures var j := jobs[|jobs| - 1];
            Reaped(jobs, status) == Reaped(jobs[..|jobs| - 1], status) + (if IsRunning(status, j) then [] else [j])
  {
  }

  /** The jobs a poll appends to `failedJobs`. */
  function NewFailures(jobs: seq<Job>, status: Pid -> Status): seq<Job> {
    Filter(jobs, j => HasFailed(status, j))
  }

  /** Reaping keeps exactly the running jobs, removes exactly the exited ones, records exactly
      the exited ones whose exit code fails their kind's predicate, and keeps the scan order. */
  lemma ReapClassifies(jobs: seq<Job>, status: Pid -> Status)
    ensures Interleaving(jobs, Survivors(jobs, status), Reaped(jobs, status))
    ensures |Survivors(jobs, status)| + |Reaped(jobs, status)| == |jobs|
    ensures forall j :: j in jobs ==> (j in Survivors(jobs, status) <==> IsRunning(status, j))
    ensures forall j :: j in jobs ==> (j in NewFailures(jobs, status) <==> HasFailed(status, j))
    ensures forall j :: j in NewFailures(jobs, status) ==> j in Reaped(jobs, status)
  {
    var running := (j: Job) => IsRunning(status, j);
    FilterInterleaving(jobs, running, j => !IsRunning(status, j));
    InterleavingMultiset(jobs, Survivors(jobs, status), Reaped(jobs, status));
    forall j | j in jobs
      ensures j in Survivors(jobs, status) <==> IsRunning(status, j)
      ensures j in NewFailures(jobs, status) <==> HasFailed(status, j)
    {
      if IsRunning(status, j) {
        FilterComplete(jobs, running, j);
      }
      if HasFailed(status, j) {
        FilterComplete(jobs, j => HasFailed(status, j), j);
      }
    }
    forall j | j in NewFailures(jobs, status)
      ensures j in Reaped(jobs, status)
    {
      FilterComplete(jobs, j => !IsRunning(status, j), j);
    }
  }

  /** No two jobs share a pid. */
  predicate DistinctPids(jobs: seq<Job>) {
    forall i, j :: 0 <= i < |jobs| && 0 <= j < |jobs| && jobs[i].process.pid == jobs[j].process.pid ==> i == j
  }

  /** Every pid was handed out before `next`. */
  predicate PidsBelow(jobs: seq<Job>, next: Pid) {
    forall i :: 0 <= i < |jobs| ==> jobs[i].process.pid < next
  }

  /** Keeping some of the jobs keeps their pids distinct and below the bound. */
  lemma {:induction false} FilterKeepsPids(jobs: seq<Job>, keep: Job -> bool, next: Pid)
    requires DistinctPids(jobs) && PidsBelow(jobs, next)
    ensures DistinctPids(Filter(jobs, keep)) && PidsBelow(Filter(jobs, keep), next)
    decreases |jobs|
  {
    if jobs != [] {
      var init := jobs[..|jobs| - 1];
      var last := jobs[|jobs| - 1];
      assert DistinctPids(init) && PidsBelow(init, next);
      FilterKeepsPids(init, keep, next);
      var f := Filter(init, keep);
      forall i | 0 <= i < |f|
        ensures f[i].process.pid != last.process.pid
      {
        assert f[i] in init;
        var k :| 0 <= k < |init| && init[k] == f[i];
        assert jobs[k] == f[i];
      }
    }
  }

  /** A poll keeps the pids of the surviving jobs distinct and below the next pid. */
  lemma SurvivorsKeepPids(jobs: seq<Job>, status: Pid -> Status, next: Pid)
    requires DistinctPids(jobs) && PidsBelow(jobs, next)
    ensures DistinctPids(Survivors(jobs, status)) && PidsBelow(Survivors(jobs, status), next)
  {
    FilterKeepsPids(jobs, j => IsRunning(status, j), next);
  }

  /** A poll of a single job keeps it exactly when it is still running. */
  lemma SurvivorsSingle(j: Job, status: Pid -> Status)
    ensures IsRunning(status, j) ==> Survivors([j], status) == [j] && KindsOf([j]) == {j.kind}
    ensures !IsRunning(status, j) ==> Survivors([j], status) == [] && KindsOf([]) == {}
  {
    assert [j][..0] == [];
  }

  /** The set of kinds in a job list (`activeJobTypes`). */
  function KindsOf(jobs: seq<Job>): set<Kind> {
    set j | j in jobs :: j.kind
  }

  function PendingKinds(pending: seq<PendingJob>): set<Kind> {
    set p | p in pending :: p.kind
  }

  /** The state of one `pollPendingJobs` scan: the active kinds so far, the jobs started and
      the jobs left waiting. */
  datatype Activation = Activation(kinds: set<Kind>, started: seq<PendingJob>, waiting: seq<PendingJob>)

  /** The scan of `pollPendingJobs` over `pending`, from the active kinds `kinds`: a job starts
      when its wait-set is disjoint from the kinds active at that moment, which include the
      kinds started earlier in the same scan. */
  function Activate(kinds: set<Kind>, pending: seq<PendingJob>): Activation
    decreases |pending|
  {
    if pending == [] then Activation(kinds, [], [])
    else
      var a := Activate(kinds, pending[..|pending| - 1]);
      var p := pending[|pending| - 1];
      if p.waitsOn !! a.kinds then Activation(a.kinds + {p.kind}, a.started + [p], a.waiting)
      else Activation(a.kinds, a.started, a.waiting + [p])
  }

  /** The active kinds after a scan are those before it plus those it started. */
  lemma {:induction false} ActivateKinds(kinds: set<Kind>, pending: seq<PendingJob>)
    ensures Activate(kinds, pending).kinds == kinds + PendingKinds(Activate(kinds, pending).started)
    decreases |pending|
  {
    if pending != [] {
      ActivateKinds(kinds, pending[..|pending| - 1]);
    }
  }

  /** A scan splits the pending list into the started jobs and the waiting jobs, both in
      pending order. */
  lemma {:induction false} ActivateSplits(kinds: set<Kind>, pending: seq<PendingJob>)
    ensures Interleaving(pending, Activate(kinds, pending).started, Activate(kinds, pending).waiting)
    ensures |Activate(kinds, pending).started| + |Activate(kinds, pending).waiting| == |pending|
    decreases |pending|
  {
    if pending != [] {
      ActivateSplits(kinds, pending[..|pending| - 1]);
    }
    InterleavingMultiset(pending, Activate(kinds, pending).started, Activate(kinds, pending).waiting);
  }

  /** Every started job's wait-set is disjoint from the kinds active before the scan and the kinds
      of the jobs started before it; every job left waiting is blocked by a kind active at the
      end of the scan. */
  lemma {:induction false} ActivateDecisions(kinds: set<Kind>, pending: seq<PendingJob>)
    ensures var a := Activate(kinds, pending);
      forall i :: 0 <= i < |a.started| ==> a.started[i].waitsOn !! (kinds + PendingKinds(a.started[..i]))
    ensures var a := Activate(kinds, pending);
      forall p :: p in a.waiting ==> !(p.waitsOn !! a.kinds)
    ensures kinds <= Activate(kinds, pending).kinds
    decreases |pending|
  {
    if pending != [] {
      var init := pending[..|pending| - 1];
      ActivateDecisions(kinds, init);
      ActivateKinds(kinds, init);
      var b := Activate(kinds, init);
      var a := Activate(kinds, pending);
      if a.started != b.started {
        assert a.started == b.started + [pending[|pending| - 1]];
        assert a.started[..|b.started|] == b.started;
        forall i | 0 <= i < |b.started|
          ensures a.started[..i] == b.started[..i]
        {
        }
      }
    }
  }

  /** When every pending job is blocked, a scan starts nothing and changes nothing. */
  lemma {:induction false} ActivateAllBlocked(kinds: set<Kind>, pending: seq<PendingJob>)
    requires forall p :: p in pending ==> !(p.waitsOn !! kinds)
    ensures Activate(kinds, pending) == Activation(kinds, [], pending)
    decreases |pending|
  {
    if pending != [] {
      ActivateAllBlocked(kinds, pending[..|pending| - 1]);
      assert pending == pending[..|pending| - 1] + [pending[|pending| - 1]];
    }
  }

  /** A second scan straight after the first, with no job having exited in between, starts
      nothing: one poll starts every job that is eligible. */
  lemma ActivateSettles(kinds: set<Kind>, pending: seq<PendingJob>)
    ensures var a := Activate(kinds, pending);
      Activate(a.kinds, a.waiting) == Activation(a.kinds, [], a.waiting)
  {
    ActivateDecisions(kinds, pending);
    var a := Activate(kinds, pending);
    ActivateAllBlocked(a.kinds, a.waiting);
  }

  /** The scan of a prefix of the pending list is a prefix of the scan of the whole list. */
  lemma {:induction false} ActivatePrefix(kinds: set<Kind>, pending: seq<PendingJob>, i: nat)
    requires i <= |pending|
    ensures Activate(kinds, pending[..i]).started <= Activate(kinds, pending).started
    ensures Activate(kinds, pending[..i]).waiting <= Activate(kinds, pending).waiting
    decreases |pending|
  {
    if i < |pending| {
      var init := pending[..|pending| - 1];
      assert init[..i] == pending[..i];
      ActivatePrefix(kinds, init, i);
    } else {
      assert pending[..i] == pending;
    }
  }

  /** The scan takes the head of the pending list first: a head free to start is started and
      its kind joins the kinds the rest is scanned from; a blocked head stays first in line. */
  lemma {:induction false} ActivateCons(kinds: set<Kind>, p: PendingJob, rest: seq<PendingJob>)
    ensures p.waitsOn !! kinds ==>
      var a := Activate(kinds + {p.kind}, rest);
      Activate(kinds, [p] + rest) == Activation(a.kinds, [p] + a.started, a.waiting)
    ensures !(p.waitsOn !! kinds) ==>
      var a := Activate(kinds, rest);
      Activate(kinds, [p] + rest) == Activation(a.kinds, a.started, [p] + a.waiting)
    decreases |rest|
  {
    if rest == [] {
      assert ([p] + rest)[..0] == [];
    } else {
      var init := rest[..|rest| - 1];
      assert ([p] + rest)[..|[p] + rest| - 1] == [p] + init;
      ActivateCons(kinds, p, init);
    }
  }

  /** The first pending job starts exactly when its wait-set is disjoint from the active kinds. */
  lemma FirstPendingJob(kinds: set<Kind>, pending: seq<PendingJob>)
    requires pending != []
    ensures pending[0].waitsOn !! kinds ==>
      Activate(kinds, pending).started != [] && Activate(kinds, pending).started[0] == pending[0]
    ensures !(pending[0].waitsOn !! kinds) ==>
      Activate(kinds, pending).waiting != [] && Activate(kinds, pending).waiting[0] == pending[0]
  {
    ActivatePrefix(kinds, pending, 1);
    assert pending[..1][..0] == [];
  }

  /** Pairs each started job with a fresh pid, handed out in order from `firstPid`. */
  function Launch(started: seq<PendingJob>, firstPid: Pid): (r: seq<Job>)
    ensures |r| == |started|
    ensures forall i :: 0 <= i < |r| ==> r[i] == Job(Process(firstPid + i, started[i].start), started[i].kind)
    decreases |started|
  {
    if started == [] then []
    else
      var last := started[|started| - 1];
      Launch(started[..|started| - 1], firstPid) + [Job(Process(firstPid + |started| - 1, last.start), last.kind)]
  }

  /** A poll reaps before it activates; active plus pending never grows across a poll. */
  lemma PollNeverGrows(active: seq<Job>, pending: seq<PendingJob>, status: Pid -> Status)
    ensures var survivors := Survivors(active, status);
      var a := Activate(KindsOf(survivors), pending);
      |survivors| + |a.started| + |a.waiting| <= |active| + |pending|
  {
    ReapClassifies(active, status);
    ActivateSplits(KindsOf(Survivors(active, status)), pending);
  }

  function KindSeq(jobs: seq<Job>): (r: seq<Kind>)
    ensures |r| == |jobs|
    ensures forall i :: 0 <= i < |jobs| ==> r[i] == jobs[i].kind
  {
    seq(|jobs|, i requires 0 <= i < |jobs| => jobs[i].kind)
  }

  /** `getFailedJobTypes`: `None` when nothing failed, else each failed kind once. */
  function FailedKinds(failed: seq<Job>): (r: Option<seq<Kind>>)
    ensures r.None? <==> failed == []
    ensures r.Some? ==> NoDuplicates(r.value) && 1 <= |r.value| <= |failed|
    ensures r.Some? ==> forall k :: k in r.value <==> k in KindsOf(failed)
  {
    if failed == [] then None
    else
      var d := Dedup(KindSeq(failed));
      assert failed[0].kind in d;
      forall k | k in KindsOf(failed)
        ensures k in d
      {
        var j :| j in failed && j.kind == k;
        var i :| 0 <= i < |failed| && failed[i] == j;
        assert KindSeq(failed)[i] == k;
      }
      Some(d)
  }
}
