/** `DataManager`: the state of one pack build. It holds the pack metadata, the staging
    registry, the generated texts, the three job lists of the external-job scheduler, the
    per-process output buffers and the cleanup actions, and updates them in place. */
module Manager {
  import opened Wrappers
  import opened Seqs
  import Paths
  import opened Jobs
  import opened Buffers
  import opened Layout
  import opened PackMeta

  /** The host functions the manager relies on: `os.path.exists`, `sanitize_filename` (with `_`
      as replacement), `os.path.abspath`, `os.path.normpath` and `os.path.relpath`. */
  datatype Host = Host(pathExists: string -> bool, sanitize: string -> string,
                       abspath: string -> string, normpath: string -> string,
                       relpath: (string, string) -> string)

  /** A registered cleanup action: remove the temporary directory, rewrite the exported
      response file, or delete the `.upack` file left in the engine's `FeaturePacks`. */
  datatype CleanupAction = RemoveTmpDir(dir: string) | UpdateExportedResponseFile | UnlinkUpack(path: string)

  /** Why an operation raises. */
  datatype ManagerError =
    | PackerNotFound             // no UnrealPak path could be determined
    | NoCleanName                // the pack has no clean name to name its folder after
    | FolderExists               // the pack folder to make is the temporary directory itself
    | MissingItem(key: string)   // a fixed key has no pattern in the layout
    | BadName(error: NameError)  // a pattern could not be turned into a name
    | NotStaged                  // a registry entry or the temporary directory is not there yet
    | NoOutputPath               // the output path is unset
    | NoAssetsPath               // the assets path is unset
    | NotASet                    // the asset types were replaced by a list, which has no add/update
    | ActionFailed(action: CleanupAction)  // a cleanup action raised

  const TmpPrefix := "unrealPackGen_tmp_"

  /** What `_generatePackingCmdData` builds its batch script from: the UnrealPak path, the
      response and `.upack` file names and the engine directory (the script text itself is not
      modelled). */
  datatype PackingCmd = PackingCmd(packer: string, responseName: string, upackName: string, engineDir: string)

  /** The pending jobs `createPack` queues after the copy of the `.upack`: the archive and
      the export of the pack structure, each when asked for. */
  function Exports(compressed: bool, structure: bool): seq<PendingJob> {
    (if compressed then [PendingJob(ArchivePack, Archive, {Robocopy, UnrealPak})] else []) +
    (if structure then [PendingJob(CopyPackStruct, Robocopy, {Robocopy, UnrealPak})] else [])
  }

  /** The copy of the built `.upack` out of the engine, which waits on UnrealPak. */
  const CopyUpackJob := PendingJob(CopyUpack, Robocopy, {UnrealPak})

  /** The schedule `createPack(compressed, structure, install = false)` hands a manager with
      no jobs: UnrealPak active with pid `n`, and the `.upack` copy followed by the exports
      pending. Each step is one `pollJobs`: reap with a status oracle, then activate from the
      survivors' kinds. While UnrealPak runs, nothing starts. The first poll after it exits
      starts only the copy, with pid `n + 1`: the exports wait on the copy's kind. The first
      poll after the copy exits starts every export and leaves nothing pending. The exit codes
      are arbitrary: a job waits for the kinds it names to stop running, not to succeed. */
  lemma CreatePackSchedule(compressed: bool, structure: bool, n: Pid,
                           status1: Pid -> Status, status2: Pid -> Status)
    requires status2(n + 1).Exited?
    ensures var active0 := [Job(Process(n, PackUpack), UnrealPak)];
            var pending0 := [CopyUpackJob] + Exports(compressed, structure);
            var s1 := Survivors(active0, status1);
            var a1 := Activate(KindsOf(s1), pending0);
            status1(n).Running? ==> s1 == active0 && a1.started == [] && a1.waiting == pending0
    ensures var active0 := [Job(Process(n, PackUpack), UnrealPak)];
            var pending0 := [CopyUpackJob] + Exports(compressed, structure);
            var s1 := Survivors(active0, status1);
            var a1 := Activate(KindsOf(s1), pending0);
            var active1 := s1 + Launch(a1.started, n + 1);
            var s2 := Survivors(active1, status2);
            var a2 := Activate(KindsOf(s2), a1.waiting);
            status1(n).Exited? ==>
              s1 == [] && a1.started == [CopyUpackJob] && a1.waiting == Exports(compressed, structure) &&
              active1 == [Job(Process(n + 1, CopyUpack), Robocopy)] &&
              s2 == [] && a2.started == Exports(compressed, structure) && a2.waiting == []
  {
    SurvivorsSingle(Job(Process(n, PackUpack), UnrealPak), status1);
    if status1(n).Running? {
      ActivateAllBlocked({UnrealPak}, [CopyUpackJob] + Exports(compressed, structure));
    } else {
      FirstPollStartsCopy(compressed, structure);
      SurvivorsSingle(Job(Process(n + 1, CopyUpack), Robocopy), status2);
      ExportsStart(compressed, structure);
    }
  }

  /** From no active kinds, the scan over the queue `createPack` builds starts only the copy. */
  lemma FirstPollStartsCopy(compressed: bool, structure: bool)
    ensures Activate({}, [CopyUpackJob] + Exports(compressed, structure)) ==
            Activation({Robocopy}, [CopyUpackJob], Exports(compressed, structure))
  {
    var none: set<Kind> := {};
    assert CopyUpackJob.waitsOn !! none;
    assert none + {CopyUpackJob.kind} == {Robocopy};
    ExportsBlocked(compressed, structure, {Robocopy});
    ActivateCons(none, CopyUpackJob, Exports(compressed, structure));
  }

  /** Every export waits on the copy's kind, so none starts while a copy is active. */
  lemma ExportsBlocked(compressed: bool, structure: bool, kinds: set<Kind>)
    requires Robocopy in kinds
    ensures Activate(kinds, Exports(compressed, structure)) == Activation(kinds, [], Exports(compressed, structure))
  {
    ActivateAllBlocked(kinds, Exports(compressed, structure));
  }

  /** From no active kinds, the scan starts every export and leaves none waiting: the archive
      does not wait on its own kind, and the structure copy does not wait on the archive's. */
  lemma ExportsStart(compressed: bool, structure: bool)
    ensures Activate({}, Exports(compressed, structure)).started == Exports(compressed, structure)
    ensures Activate({}, Exports(compressed, structure)).waiting == []
  {
    var archive := PendingJob(ArchivePack, Archive, {Robocopy, UnrealPak});
    var copy := PendingJob(CopyPackStruct, Robocopy, {Robocopy, UnrealPak});
    var none: set<Kind> := {};
    assert archive.waitsOn !! none && copy.waitsOn !! none + {Archive};
    if compressed && structure {
      assert Exports(compressed, structure) == [archive] + [copy];
      ActivateCons(none, archive, [copy]);
      ActivateCons(none + {Archive}, copy, []);
    } else if compressed {
      ActivateCons(none, archive, []);
    } else if structure {
      ActivateCons(none, copy, []);
    }
  }

  /** The action that raises when the cleanup list is drained from the end: the highest index
      whose action fails, or `None` when none fails. */
  function Raising(funcs: seq<CleanupAction>, fails: CleanupAction -> bool): (r: Option<nat>)
    ensures r.None? <==> forall i :: 0 <= i < |funcs| ==> !fails(funcs[i])
    ensures r.Some? ==> r.value < |funcs| && fails(funcs[r.value]) &&
                        forall i :: r.value < i < |funcs| ==> !fails(funcs[i])
    decreases |funcs|
  {
    if funcs == [] then None
    else if fails(funcs[|funcs| - 1]) then Some(|funcs| - 1)
    else Raising(funcs[..|funcs| - 1], fails)
  }

  /** The actions still registered after a drain: none, or those below the one that raised. */
  function DrainLeft(funcs: seq<CleanupAction>, fails: CleanupAction -> bool): seq<CleanupAction> {
    match Raising(funcs, fails)
    case None => []
    case Some(j) => funcs[..j]
  }

  /** The actions a drain runs, in the order it runs them. The one that raised was popped
      before it ran, so it is among them. */
  function DrainRun(funcs: seq<CleanupAction>, fails: CleanupAction -> bool): seq<CleanupAction> {
    match Raising(funcs, fails)
    case None => Reverse(funcs)
    case Some(j) => Reverse(funcs[j..])
  }

  /** A drain loses nothing and runs nothing twice: what is left, followed by what ran in
      registration order, is the registered list. */
  lemma DrainSplits(funcs: seq<CleanupAction>, fails: CleanupAction -> bool)
    ensures DrainLeft(funcs, fails) + Reverse(DrainRun(funcs, fails)) == funcs
  {
    match Raising(funcs, fails)
    case None =>
      ReverseReverse(funcs);
    case Some(j) =>
      ReverseReverse(funcs[j..]);
      assert funcs[..j] + funcs[j..] == funcs;
  }

  /** `cleanup` and then `__del__`, whatever actions raise: each registered action runs at
      most once over the two drains, and an action that raised is not run again. What is
      left after both, followed by everything that ran in registration order, is the
      registered list. */
  lemma {:induction false} CleanupThenFinalize(funcs: seq<CleanupAction>, fails1: CleanupAction -> bool,
                                               fails2: CleanupAction -> bool)
    ensures var left1 := DrainLeft(funcs, fails1);
            DrainLeft(left1, fails2) + Reverse(DrainRun(funcs, fails1) + DrainRun(left1, fails2)) == funcs
  {
    var left1 := DrainLeft(funcs, fails1);
    var run1, run2 := DrainRun(funcs, fails1), DrainRun(left1, fails2);
    DrainSplits(funcs, fails1);
    DrainSplits(left1, fails2);
    ReverseAppend(run1, run2);
    assert DrainLeft(left1, fails2) + (Reverse(run2) + Reverse(run1)) ==
           (DrainLeft(left1, fails2) + Reverse(run2)) + Reverse(run1);
  }

  /** A failing action with no failing action above it is the one that raises. */
  lemma RaisingAt(funcs: seq<CleanupAction>, fails: CleanupAction -> bool, j: nat)
    requires j < |funcs| && fails(funcs[j])
    requires forall i :: j < i < |funcs| ==> !fails(funcs[i])
    ensures Raising(funcs, fails) == Some(j)
  {
    var r := Raising(funcs, fails);
    assert r.Some?;
    assert !(r.value < j) && !(j < r.value);
  }

  /** Every active job has its own pid, handed out before `next`. */
  predicate JobsValid(jobs: seq<Job>, next: Pid) {
    DistinctPids(jobs) && PidsBelow(jobs, next)
  }

  /** The registry's key list matches its dict, and a staged entry lies in a temporary pack
      folder. */
  ghost predicate StagingValid(reg: Registry, tmpDir: Option<string>, tmpPackPath: Option<string>) {
    reg.Valid() && (forall k :: IsSet(reg.at, k) ==> tmpDir.Some? && tmpPackPath.Some?)
  }

  class DataManager {
    const host: Host
    const basePath: string
    /** The pack layout and the asset-type table, as loaded from their JSON files. */
    const layout: seq<Entry>
    const assetTypeTable: map<string, string>
    const packerPath: string
    const ueDir: string

    var packInfo: PackInfo
    var tmpDir: Option<string>
    var tmpPackPath: Option<string>
    var tmpFilePaths: Registry
    var manifestData: Option<Manifest>
    var configData: Option<string>
    var responseData: Option<string>
    var packingCmdData: Option<PackingCmd>

    var activeJobs: seq<Job>
    var failedJobs: seq<Job>
    var pendingJobs: seq<PendingJob>
    var jobStdout: OutputBuffers
    /** Everything written to the console so far. */
    var console: string

    var onCleanupFuncs: seq<CleanupAction>
    /** The cleanup actions run so far, in the order they ran. */
    var cleanupLog: seq<CleanupAction>
    /** The next pid the operating system hands out. */
    var nextPid: Pid
    /** The directories created on disk so far. */
    ghost var createdDirs: set<string>

    /** Every active job has its own pid, handed out before `nextPid`; the registry's key list
        matches its dict; the clean name is set exactly when the name is; a staged registry
        entry lies in a temporary pack folder. */
    ghost predicate Valid()
      reads this`activeJobs, this`nextPid, this`tmpFilePaths, this`packInfo, this`tmpDir, this`tmpPackPath
    {
      JobsValid(activeJobs, nextPid) && StagingValid(tmpFilePaths, tmpDir, tmpPackPath) &&
      (packInfo.name.Some? <==> packInfo.cleanName.Some?)
    }

    /** The registry holds a converted (or recorded) location for `key`. */
    predicate Staged(key: string)
      reads this`tmpFilePaths
    {
      IsSet(tmpFilePaths.at, key)
    }

    function StagedAt(key: string): Location
      reads this`tmpFilePaths
      requires Staged(key)
    {
      tmpFilePaths.at[key].value
    }

    /** The state right after `__init__`, once the UnrealPak path is known. */
    constructor (host: Host, basePath: string, layout: seq<Entry>, table: map<string, string>,
                 packerPath: string, ueDir: string)
      ensures Valid()
      ensures this.host == host && this.basePath == basePath && this.layout == layout
      ensures assetTypeTable == table && this.packerPath == packerPath && this.ueDir == ueDir
      ensures packInfo == InitialInfo() && tmpDir == None && tmpPackPath == None
      ensures tmpFilePaths == Registry([], map[])
      ensures manifestData == None && configData == None && responseData == None && packingCmdData == None
      ensures activeJobs == [] && failedJobs == [] && pendingJobs == [] && jobStdout == map[]
      ensures onCleanupFuncs == [] && cleanupLog == [] && console == [] && createdDirs == {}
    {
      this.host := host;
      this.basePath := basePath;
      this.layout := layout;
      assetTypeTable := table;
      this.packerPath := packerPath;
      this.ueDir := ueDir;
      packInfo := InitialInfo();
      tmpDir := None;
      tmpPackPath := None;
      tmpFilePaths := Registry([], map[]);
      manifestData := None;
      configData := None;
      responseData := None;
      packingCmdData := None;
      activeJobs := [];
      failedJobs := [];
      pendingJobs := [];
      jobStdout := map[];
      console := [];
      onCleanupFuncs := [];
      cleanupLog := [];
      nextPid := 0;
      createdDirs := {};
    }

    /** `__init__`: a given UnrealPak path is used when it exists, and the engine directory is
        four levels above it; without one, the engine lookup's result is used (`found`, the
        engine directory and UnrealPak path it reports, if any). Raises when neither gives a
        path. */
    static method Open(host: Host, basePath: string, layout: seq<Entry>, table: map<string, string>,
                       packerPath: Option<string>, found: Option<(string, string)>)
      returns (r: Result<DataManager, ManagerError>)
      ensures r.Success? <==>
                (packerPath.Some? && host.pathExists(host.abspath(packerPath.value))) ||
                (packerPath.None? && found.Some?)
      ensures r.Failure? ==> r.error == PackerNotFound
      ensures r.Success? ==> fresh(r.value) && r.value.Valid() && r.value.activeJobs == [] &&
                             r.value.pendingJobs == [] && r.value.packInfo == InitialInfo()
      ensures r.Success? && packerPath.Some? ==>
                r.value.packerPath == host.abspath(packerPath.value) &&
                r.value.ueDir == host.abspath(Paths.Join(packerPath.value, "../../../../"))
      ensures r.Success? && packerPath.None? ==>
                r.value.ueDir == found.value.0 && r.value.packerPath == found.value.1
    {
      var packer: Option<string> := None;
      var engine := "";
      if packerPath.Some? {
        if host.pathExists(host.abspath(packerPath.value)) {
          packer := Some(host.abspath(packerPath.value));
          engine := host.abspath(Paths.Join(packerPath.value, "../../../../"));
        }
      } else if found.Some? {
        engine := found.value.0;
        packer := Some(found.value.1);
      }
      if packer.None? {
        return Failure(PackerNotFound);
      }
      var m := new DataManager(host, basePath, layout, table, packer.value, engine);
      return Success(m);
    }

    /** Starts a process (`Popen`): the operating system hands out the next pid. */
    method StartProcess(command: Command) returns (p: Process)
      modifies this`nextPid
      ensures p == Process(old(nextPid), command) && nextPid == old(nextPid) + 1
    {
      p := Process(nextPid, command);
      nextPid := nextPid + 1;
    }

    //--- subprocess output

    /** `writeJobOutToStream`: the text read from the process's pipe is appended to its
        buffer, which is created on the first write. */
    method WriteJobOutToStream(proc: Process, text: string)
      modifies this`jobStdout
      ensures jobStdout == WriteOut(old(jobStdout), proc.pid, text)
    {
      var stored := if proc.pid in jobStdout then jobStdout[proc.pid] else None;
      if stored.None? {
        jobStdout := jobStdout[proc.pid := Some("")];
      }
      jobStdout := jobStdout[proc.pid := Some(jobStdout[proc.pid].value + text)];
    }

    /** `writeStoredJobOutToConsole`: the buffer's text (read from the pipe, `text`, when there
        is no buffer) is written to the console, and the buffer is closed when asked. */
    method WriteStoredJobOutToConsole(proc: Process, closeOnComplete: bool, text: string)
      modifies this`jobStdout, this`console
      ensures console == old(console) + (if proc.pid in old(jobStdout) && old(jobStdout)[proc.pid].Some?
                                         then old(jobStdout)[proc.pid].value else text)
      ensures closeOnComplete ==> jobStdout == old(jobStdout)[proc.pid := None]
      ensures !closeOnComplete ==>
                jobStdout == if proc.pid in old(jobStdout) && old(jobStdout)[proc.pid].Some?
                             then old(jobStdout) else WriteOut(old(jobStdout), proc.pid, text)
    {
      var stored := if proc.pid in jobStdout then jobStdout[proc.pid] else None;
      if stored.None? {
        WriteJobOutToStream(proc, text);
      }
      console := console + jobStdout[proc.pid].value;
      if closeOnComplete {
        jobStdout := jobStdout[proc.pid := None];
      }
    }

    //--- scheduler

    /** One turn of the reaping scan: the job's pipe output is stored; if it has exited it is
        recorded as failed when its exit code fails its kind's predicate, and its buffer is
        flushed to the console (unless `noStdOut`) and closed. */
    method ReapJob(job: Job, noStdOut: bool, status: Pid -> Status, output: Pid -> string)
      modifies this`failedJobs, this`jobStdout, this`console
      ensures failedJobs == old(failedJobs) + if HasFailed(status, job) then [job] else []
      ensures jobStdout == ReapOne(old(jobStdout), job, status, output)
      ensures noStdOut || IsRunning(status, job) ==> console == old(console)
      ensures !noStdOut && !IsRunning(status, job) ==>
                console == old(console) + (Held(old(jobStdout), job.process.pid) + output(job.process.pid))
    {
      WriteJobOutToStream(job.process, output(job.process.pid));
      var exit := status(job.process.pid);
      if exit.Exited? {
        if IsFailedExit(exit.code, job.kind) {
          failedJobs := failedJobs + [job];
        }
        if noStdOut {
          jobStdout := jobStdout[job.process.pid := None];
        } else {
          WriteStoredJobOutToConsole(job.process, true, "");
        }
      }
    }

    /** Turn `i` of the scan of `pollActiveJobs`: job `i` is reaped and its slot cleared if it
        has exited, which carries the scan's state from `jobs[..i]` to `jobs[..i + 1]`. */
    method ScanOne(jobs: seq<Job>, i: int, noStdOut: bool, status: Pid -> Status, output: Pid -> string,
                   slots: seq<Option<Job>>, ghost b: OutputBuffers, ghost failed0: seq<Job>, ghost console0: string)
      returns (slots': seq<Option<Job>>)
      requires 0 <= i < |jobs| && |slots| == |jobs|
      requires forall k :: i <= k < |jobs| ==> slots[k] == Some(jobs[k])
      requires Compact(slots[..i]) == Survivors(jobs[..i], status)
      requires failedJobs == failed0 + NewFailures(jobs[..i], status)
      requires jobStdout == ReapBuffers(b, jobs[..i], status, output)
      requires noStdOut ==> console == console0
      requires !noStdOut ==> console == console0 + Flushed(b, jobs[..i], status, output)
      modifies this`failedJobs, this`jobStdout, this`console
      ensures |slots'| == |jobs| && forall k :: i + 1 <= k < |jobs| ==> slots'[k] == Some(jobs[k])
      ensures Compact(slots'[..i + 1]) == Survivors(jobs[..i + 1], status)
      ensures failedJobs == failed0 + NewFailures(jobs[..i + 1], status)
      ensures jobStdout == ReapBuffers(b, jobs[..i + 1], status, output)
      ensures noStdOut ==> console == console0
      ensures !noStdOut ==> console == console0 + Flushed(b, jobs[..i + 1], status, output)
    {
      var job := jobs[i];
      slots' := if IsRunning(status, job) then slots else slots[i := None];
      ReapJob(job, noStdOut, status, output);
      assert slots'[..i] == slots[..i];
      CompactStep(slots', i);
      SurvivorsStep(jobs, i, status);
      NewFailuresStep(jobs, i, status);
      AppendAssoc(failed0, NewFailures(jobs[..i], status), if HasFailed(status, job) then [job] else []);
      ReapBuffersStep(b, jobs, i, status, output);
      if !noStdOut {
        FlushedStep(b, jobs, i, status, output);
        var prior := Flushed(b, jobs[..i], status, output);
        if IsRunning(status, job) {
          assert prior + "" == prior;
        } else {
          AppendAssoc(console0, prior, Held(old(jobStdout), job.process.pid) + output(job.process.pid));
        }
      }
    }

    /** The scan of `pollActiveJobs` over `jobs`: each job is reaped in turn, and the slot of
        each job that has exited is overwritten with `None`; what is left, compacted, is the
        jobs still running. */
    method ReapScan(jobs: seq<Job>, noStdOut: bool, status: Pid -> Status, output: Pid -> string)
      returns (slots: seq<Option<Job>>)
      modifies this`failedJobs, this`jobStdout, this`console
      ensures Compact(slots) == Survivors(jobs, status)
      ensures failedJobs == old(failedJobs) + NewFailures(jobs, status)
      ensures jobStdout == ReapBuffers(old(jobStdout), jobs, status, output)
      ensures noStdOut ==> console == old(console)
      ensures !noStdOut ==> console == old(console) + Flushed(old(jobStdout), jobs, status, output)
    {
      slots := Wrap(jobs);
      var i := 0;
      while i < |jobs|
        invariant 0 <= i <= |jobs| && |slots| == |jobs|
        invariant forall k :: i <= k < |jobs| ==> slots[k] == Some(jobs[k])
        invariant Compact(slots[..i]) == Survivors(jobs[..i], status)
        invariant failedJobs == old(failedJobs) + NewFailures(jobs[..i], status)
        invariant jobStdout == ReapBuffers(old(jobStdout), jobs[..i], status, output)
        invariant noStdOut ==> console == old(console)
        invariant !noStdOut ==> console == old(console) + Flushed(old(jobStdout), jobs[..i], status, output)
      {
        slots := ScanOne(jobs, i, noStdOut, status, output, slots, old(jobStdout), old(failedJobs), old(console));
        i := i + 1;
      }
      assert jobs[..i] == jobs && slots[..i] == slots;
    }

    /** `pollActiveJobs`: each active job's pipe output is stored; each job that has exited is
        removed, recorded as failed when its exit code fails its kind's predicate, and has its
        buffer flushed to the console (unless `noStdOut`) and closed. `status` and `output` are
        what `poll()` and the pipe report for each pid during this scan. */
    method PollActiveJobs(noStdOut: bool, status: Pid -> Status, output: Pid -> string) returns (count: nat)
      requires Valid()
      modifies this`activeJobs, this`failedJobs, this`jobStdout, this`console
      ensures Valid()
      ensures activeJobs == Survivors(old(activeJobs), status)
      ensures failedJobs == old(failedJobs) + NewFailures(old(activeJobs), status)
      ensures jobStdout == ReapBuffers(old(jobStdout), old(activeJobs), status, output)
      ensures noStdOut ==> console == old(console)
      ensures !noStdOut ==> console == old(console) + Flushed(old(jobStdout), old(activeJobs), status, output)
      ensures count == |activeJobs|
    {
      var slots := ReapScan(activeJobs, noStdOut, status, output);
      SurvivorsKeepPids(activeJobs, status, nextPid);
      activeJobs := Compact(slots);
      count := |activeJobs|;
    }

    /** The kinds of the active jobs (`activeJobTypes`). */
    method ActiveKinds() returns (kinds: set<Kind>)
      ensures kinds == KindsOf(activeJobs)
    {
      kinds := {};
      var i := 0;
      while i < |activeJobs|
        invariant 0 <= i <= |activeJobs|
        invariant kinds == KindsOf(activeJobs[..i])
      {
        KindsOfStep(activeJobs, i);
        kinds := kinds + {activeJobs[i].kind};
        i := i + 1;
      }
      assert activeJobs[..i] == activeJobs;
    }

    /** Turn `i` of the scan of `pollPendingJobs`: pending job `i` is started, its kind added to
        the active kinds and its slot cleared when its wait-set is disjoint from the kinds
        active at that moment; this carries the scan from `pending[..i]` to `pending[..i + 1]`. */
    method ActivateOne(pending: seq<PendingJob>, i: int, ghost kinds0: set<Kind>, slots: seq<Option<PendingJob>>,
                       kinds: set<Kind>, ghost active0: seq<Job>, ghost pid0: Pid)
      returns (slots': seq<Option<PendingJob>>, kinds': set<Kind>)
      requires 0 <= i < |pending| && |slots| == |pending|
      requires forall k :: i <= k < |pending| ==> slots[k] == Some(pending[k])
      requires var a := Activate(kinds0, pending[..i]);
               kinds == a.kinds && Compact(slots[..i]) == a.waiting &&
               activeJobs == active0 + Launch(a.started, pid0) && nextPid == pid0 + |a.started|
      requires DistinctPids(activeJobs) && PidsBelow(activeJobs, nextPid)
      modifies this`activeJobs, this`nextPid
      ensures |slots'| == |pending| && forall k :: i + 1 <= k < |pending| ==> slots'[k] == Some(pending[k])
      ensures var a := Activate(kinds0, pending[..i + 1]);
              kinds' == a.kinds && Compact(slots'[..i + 1]) == a.waiting &&
              activeJobs == active0 + Launch(a.started, pid0) && nextPid == pid0 + |a.started|
      ensures DistinctPids(activeJobs) && PidsBelow(activeJobs, nextPid)
    {
      var job := pending[i];
      ActivateStep(kinds0, pending, i);
      ghost var a := Activate(kinds0, pending[..i]);
      if job.waitsOn !! kinds {
        LaunchSnoc(a.started, job, pid0, nextPid);
        var p := StartProcess(job.start);
        FreshPidKeepsDistinct(activeJobs, Job(p, job.kind), old(nextPid));
        AppendAssoc(active0, Launch(a.started, pid0), [Job(p, job.kind)]);
        activeJobs := activeJobs + [Job(p, job.kind)];
        kinds' := kinds + {job.kind};
        slots' := slots[i := None];
      } else {
        kinds' := kinds;
        slots' := slots;
      }
      assert slots'[..i] == slots[..i];
      CompactStep(slots', i);
    }

    /** The scan of `pollPendingJobs` over `pending`, starting from the active kinds `kinds0`:
        each job that starts has its slot overwritten with `None`; what is left, compacted, is
        the jobs still waiting. */
    method ActivateScan(pending: seq<PendingJob>, kinds0: set<Kind>) returns (slots: seq<Option<PendingJob>>)
      requires DistinctPids(activeJobs) && PidsBelow(activeJobs, nextPid)
      modifies this`activeJobs, this`nextPid
      ensures var a := Activate(kinds0, pending);
              Compact(slots) == a.waiting &&
              activeJobs == old(activeJobs) + Launch(a.started, old(nextPid)) && nextPid == old(nextPid) + |a.started|
      ensures DistinctPids(activeJobs) && PidsBelow(activeJobs, nextPid)
    {
      var kinds := kinds0;
      slots := Wrap(pending);
      var i := 0;
      assert pending[..0] == [] && slots[..0] == [];
      assert activeJobs == old(activeJobs) + [];
      while i < |pending|
        invariant 0 <= i <= |pending| && |slots| == |pending|
        invariant forall k :: i <= k < |pending| ==> slots[k] == Some(pending[k])
        invariant var a := Activate(kinds0, pending[..i]);
                  kinds == a.kinds && Compact(slots[..i]) == a.waiting &&
                  activeJobs == old(activeJobs) + Launch(a.started, old(nextPid)) &&
                  nextPid == old(nextPid) + |a.started|
        invariant DistinctPids(activeJobs) && PidsBelow(activeJobs, nextPid)
      {
        slots, kinds := ActivateOne(pending, i, kinds0, slots, kinds, old(activeJobs), old(nextPid));
        i := i + 1;
      }
      assert pending[..i] == pending && slots[..i] == slots;
    }

    /** `pollPendingJobs`: each pending job, in order, is started when its wait-set is disjoint
        from the kinds active at that moment, which include the kinds it started earlier in the
        same scan; started jobs are appended to the active jobs with fresh pids, the rest stay
        pending in order. */
    method PollPendingJobs() returns (count: nat)
      requires Valid()
      modifies this`activeJobs, this`pendingJobs, this`nextPid
      ensures Valid()
      ensures var a := Activate(KindsOf(old(activeJobs)), old(pendingJobs));
              activeJobs == old(activeJobs) + Launch(a.started, old(nextPid)) &&
              pendingJobs == a.waiting && nextPid == old(nextPid) + |a.started|
      ensures count == |pendingJobs|
    {
      var kinds := ActiveKinds();
      var slots := ActivateScan(pendingJobs, kinds);
      pendingJobs := Compact(slots);
      count := |pendingJobs|;
    }

    /** `pollJobs`: reaps the active jobs, then starts the pending jobs that no longer wait on an
        active kind, and returns the two counts; their sum never exceeds the number of jobs
        before the call. */
    method PollJobs(noStdOut: bool, status: Pid -> Status, output: Pid -> string)
      returns (activeCount: nat, pendingCount: nat)
      requires Valid()
      modifies this`activeJobs, this`pendingJobs, this`nextPid, this`failedJobs, this`jobStdout, this`console
      ensures Valid()
      ensures var survivors := Survivors(old(activeJobs), status);
              var a := Activate(KindsOf(survivors), old(pendingJobs));
              activeJobs == survivors + Launch(a.started, old(nextPid)) && pendingJobs == a.waiting &&
              nextPid == old(nextPid) + |a.started|
      ensures failedJobs == old(failedJobs) + NewFailures(old(activeJobs), status)
      ensures jobStdout == ReapBuffers(old(jobStdout), old(activeJobs), status, output)
      ensures noStdOut ==> console == old(console)
      ensures !noStdOut ==> console == old(console) + Flushed(old(jobStdout), old(activeJobs), status, output)
      ensures activeCount == |activeJobs| && pendingCount == |pendingJobs|
      ensures activeCount + pendingCount <= |old(activeJobs)| + |old(pendingJobs)|
    {
      var _ := PollActiveJobs(noStdOut, status, output);
      var _ := PollPendingJobs();
      activeCount, pendingCount := |activeJobs|, |pendingJobs|;
      PollNeverGrows(old(activeJobs), old(pendingJobs), status);
    }

    /** `getActiveJobCount` and `getPendingJobCount`. */
    function ActiveJobCount(): (n: nat)
      reads this
      ensures n == 0 <==> activeJobs == []
    {
      |activeJobs|
    }

    function PendingJobCount(): (n: nat)
      reads this
      ensures n == 0 <==> pendingJobs == []
    {
      |pendingJobs|
    }

    //--- pack metadata

    /** `setPackInfo`: the pack info as `SetInfo` computes it from the arguments. */
    method SetPackInfo(a: InfoArgs)
      requires Valid()
      modifies this`packInfo
      ensures Valid()
      ensures packInfo == SetInfo(old(packInfo), a, host.pathExists, host.sanitize)
    {
      packInfo := SetInfo(packInfo, a, host.pathExists, host.sanitize);
    }

    /** `addAssetTypes`: the types are added to the set; once `setPackInfo` has replaced the set
        by a list, the call raises and changes nothing. */
    method AddAssetTypes(types: seq<string>) returns (r: Outcome<ManagerError>)
      modifies this`packInfo
      ensures old(packInfo).assetTypes.AsList? ==> r == Fail(NotASet) && packInfo == old(packInfo)
      ensures old(packInfo).assetTypes.AsSet? ==>
                r == Pass &&
                packInfo == old(packInfo).(assetTypes := AsSet(old(packInfo).assetTypes.types + set t | t in types))
    {
      match packInfo.assetTypes
      case AsList(_) =>
        return Fail(NotASet);
      case AsSet(known) =>
        packInfo := packInfo.(assetTypes := AsSet(known + set t | t in types));
        return Pass;
    }

    /** The inner loop of `InferAssetTypes` over the filenames of one directory: a typed asset
        adds its type, raising at once when the types are a list (`isList`); an untyped asset is
        reported. */
    method InferDirectory(filenames: seq<string>, isList: bool) returns (found: set<string>, unknown: seq<string>, ok: bool)
      ensures ok <==> !(isList && KnownTypes(filenames, assetTypeTable) != {})
      ensures ok ==> found == KnownTypes(filenames, assetTypeTable) && unknown == UnknownFiles(filenames, assetTypeTable)
    {
      found, unknown := {}, [];
      var i := 0;
      while i < |filenames|
        invariant 0 <= i <= |filenames|
        invariant found == KnownTypes(filenames[..i], assetTypeTable)
        invariant unknown == UnknownFiles(filenames[..i], assetTypeTable)
        invariant isList ==> found == {}
      {
        var f := filenames[i];
        InferStep(filenames, i, assetTypeTable);
        match Classify(f, assetTypeTable) {
          case NotAnAsset =>
          case Known(t) =>
            if isList {
              KnownTypesGrow(filenames, i + 1, assetTypeTable);
              return found, unknown, false;
            }
            found := found + {t};
          case Unknown =>
            unknown := unknown + [f];
        }
        i := i + 1;
      }
      assert filenames[..i] == filenames;
      ok := true;
    }

    /** `InferAssetTypes` over the listing of the assets folder (`walk`: the filenames of each
        directory, in `os.walk` order): the types of the typed assets are added to the set and
        the untyped assets are returned, `None` when there are none. Raises when no assets path
        is set, and at the first typed asset once the types are a list. */
    method InferAssetTypes(walk: seq<seq<string>>) returns (r: Result<Option<seq<string>>, ManagerError>)
      modifies this`packInfo
      ensures old(packInfo).assetsPath.None? ==> r == Failure(NoAssetsPath) && packInfo == old(packInfo)
      ensures old(packInfo).assetsPath.Some? ==>
                var files := Flatten(walk);
                var unknown := UnknownFiles(files, assetTypeTable);
                var found := KnownTypes(files, assetTypeTable);
                (old(packInfo).assetTypes.AsList? && found != {} ==> r == Failure(NotASet) && packInfo == old(packInfo)) &&
                (!(old(packInfo).assetTypes.AsList? && found != {}) ==>
                   r == Success(if unknown == [] then None else Some(unknown)) &&
                   packInfo == old(packInfo).(assetTypes := AddTypes(old(packInfo).assetTypes, found)))
    {
      if packInfo.assetsPath.None? {
        return Failure(NoAssetsPath);
      }
      var isList := packInfo.assetTypes.AsList?;
      var found: set<string> := {};
      var unknown: seq<string> := [];
      var d := 0;
      while d < |walk|
        invariant 0 <= d <= |walk|
        invariant found == KnownTypes(Flatten(walk[..d]), assetTypeTable)
        invariant unknown == UnknownFiles(Flatten(walk[..d]), assetTypeTable)
        invariant isList ==> found == {}
        invariant packInfo == old(packInfo)
      {
        ghost var before := Flatten(walk[..d]);
        FlattenStep(walk, d);
        KnownTypesAppend(before, walk[d], assetTypeTable);
        FilterAppend(before, walk[d], f => Classify(f, assetTypeTable).Unknown?);
        var more, moreUnknown, ok := InferDirectory(walk[d], isList);
        if !ok {
          KnownTypesPrefix(walk, d + 1, assetTypeTable);
          return Failure(NotASet);
        }
        found, unknown := found + more, unknown + moreUnknown;
        d := d + 1;
      }
      assert walk[..d] == walk;
      packInfo := packInfo.(assetTypes := AddTypes(packInfo.assetTypes, found));
      return Success(if unknown == [] then None else Some(unknown));
    }

    //--- staging

    /** The name `TemporaryDirectory` gives the temporary directory in the engine directory;
        `suffix` stands for its random part. */
    function TmpDirName(suffix: string): string {
      Paths.Join(ueDir, TmpPrefix + suffix)
    }

    /** What the conversion loop reads from the pack info and the host. */
    function StagingNow(): Staging
      reads this`packInfo
    {
      Staging(layout, packInfo.cleanName, packInfo.assetsPath, packInfo.thumbPath, packInfo.scrShotPath,
              host.abspath, host.normpath)
    }

    /** `generatePackFileStruct`: the registry is reset to the eight unset fixed keys, a new
        temporary directory is made in the engine directory (its removal registered for
        cleanup) with a pack folder named after the clean name, the layout is walked into it,
        every key is checked to be set, and every pattern is turned into a name; the asset
        folder's directory is created last. Raises when there is no clean name, when the clean
        name is empty (the folder to make is then the temporary directory, which exists), when
        the layout lacks a fixed key, or when a pattern cannot be formatted. */
    method GeneratePackFileStruct(suffix: string) returns (r: Outcome<ManagerError>)
      requires Valid()
      modifies this`tmpFilePaths, this`tmpDir, this`tmpPackPath, this`onCleanupFuncs, this`createdDirs
      ensures Valid()
      ensures tmpDir == Some(TmpDirName(suffix))
      ensures onCleanupFuncs == old(onCleanupFuncs) + [RemoveTmpDir(TmpDirName(suffix))]
      ensures packInfo.cleanName.None? ==>
                r == Fail(NoCleanName) && tmpFilePaths == InitialRegistry() && tmpPackPath == old(tmpPackPath) &&
                createdDirs == old(createdDirs) + {TmpDirName(suffix)}
      ensures packInfo.cleanName == Some("") ==>
                r == Fail(FolderExists) && tmpFilePaths == InitialRegistry() &&
                tmpPackPath == Some(Paths.Join(TmpDirName(suffix), "")) &&
                createdDirs == old(createdDirs) + {TmpDirName(suffix)}
      ensures packInfo.cleanName.Some? && packInfo.cleanName.value != "" ==>
                var pack := Paths.Join(TmpDirName(suffix), packInfo.cleanName.value);
                var st := StageRegistry(layout, pack, StagingNow());
                tmpPackPath == Some(pack) && tmpFilePaths == st.0 &&
                r == StageOutcome(st, {TmpDirName(suffix), pack} + Dirs(layout, pack)) &&
                createdDirs == old(createdDirs) + {TmpDirName(suffix)} +
                               ({pack} + Dirs(layout, pack) + (if r.Pass? then AssetDirs(st) else {}))
      ensures r.Pass? ==> FixedSet(tmpFilePaths.at) && StagedAt(AssetFolder).name == ""
      ensures r.Fail? ==> r.error.NoCleanName? || r.error.FolderExists? || r.error.MissingItem? || r.error.BadName?
    {
      var dir := TmpDirName(suffix);
      ResetStaging(dir);
      if packInfo.cleanName.None? {
        return Fail(NoCleanName);
      }
      if packInfo.cleanName.value == "" {
        tmpPackPath := Some(Paths.Join(dir, ""));
        return Fail(FolderExists);
      }
      r := StagePack(Paths.Join(dir, packInfo.cleanName.value));
    }

    /** The start of `generatePackFileStruct`: the registry is reset to the unset fixed keys and
        the temporary directory `dir` is made, its removal registered for cleanup. */
    method ResetStaging(dir: string)
      requires Valid()
      modifies this`tmpFilePaths, this`tmpDir, this`onCleanupFuncs, this`createdDirs
      ensures Valid()
      ensures tmpFilePaths == InitialRegistry() && tmpDir == Some(dir)
      ensures createdDirs == old(createdDirs) + {dir}
      ensures onCleanupFuncs == old(onCleanupFuncs) + [RemoveTmpDir(dir)]
    {
      tmpFilePaths := InitialRegistry();
      tmpDir := Some(dir);
      createdDirs := createdDirs + {dir};
      onCleanupFuncs := onCleanupFuncs + [RemoveTmpDir(dir)];
    }

    /** The rest of `generatePackFileStruct` once the temporary directory exists: the pack
        folder `pack` is made, the layout staged into it and, on success, the asset folder's
        directory made. Making that directory raises when the staging has already made it:
        the temporary directory, the pack folder or one of the layout's folders. */
    method StagePack(pack: string) returns (r: Outcome<ManagerError>)
      requires Valid() && tmpDir.Some?
      modifies this`tmpFilePaths, this`tmpPackPath, this`createdDirs
      ensures Valid()
      ensures var st := StageRegistry(layout, pack, StagingNow());
              tmpPackPath == Some(pack) && tmpFilePaths == st.0 &&
              r == StageOutcome(st, {tmpDir.value, pack} + Dirs(layout, pack)) &&
              createdDirs == old(createdDirs) + ({pack} + Dirs(layout, pack) + (if r.Pass? then AssetDirs(st) else {}))
    {
      var st := StageInto(pack);
      r := MakeStagedDirs(pack, st);
    }

    /** The pack folder `pack` becomes the pack path and the layout is staged into it. */
    method StageInto(pack: string) returns (st: (Registry, Option<ManagerError>))
      requires Valid() && tmpDir.Some?
      modifies this`tmpFilePaths, this`tmpPackPath
      ensures Valid()
      ensures st == StageRegistry(layout, pack, StagingNow())
      ensures tmpPackPath == Some(pack) && tmpFilePaths == st.0
    {
      tmpPackPath := Some(pack);
      var reg, error := StageLayout(layout, pack, StagingNow());
      tmpFilePaths := reg;
      st := (reg, error);
    }

    /** The directories of a staging: the pack folder and the layout's folders are made, then
        the asset folder's directory unless it is one of them or the temporary directory. */
    method MakeStagedDirs(pack: string, st: (Registry, Option<ManagerError>)) returns (r: Outcome<ManagerError>)
      requires tmpDir.Some?
      modifies this`createdDirs
      ensures r == StageOutcome(st, {tmpDir.value, pack} + Dirs(layout, pack))
      ensures createdDirs == old(createdDirs) + ({pack} + Dirs(layout, pack) + (if r.Pass? then AssetDirs(st) else {}))
    {
      r := StageOutcome(st, {tmpDir.value, pack} + Dirs(layout, pack));
      createdDirs := createdDirs + ({pack} + Dirs(layout, pack) + (if r.Pass? then AssetDirs(st) else {}));
    }

    //--- file data

    /** The manifest built from the pack info and the staged thumbnail and screenshot names. */
    function StagedManifest(order: seq<string>): Manifest
      reads this`packInfo, this`tmpFilePaths
      requires Staged(ThumbnailFile) && Staged(ScreenshotFile)
    {
      MakeManifest(packInfo, order, StagedAt(ThumbnailFile).name, StagedAt(ScreenshotFile).name)
    }

    /** The response text for the staged config, thumbnail and manifest entries, relative to
        the directory above UnrealPak. */
    function StagedResponse(): string
      reads this`tmpFilePaths
      requires Staged(ConfigFile) && Staged(ThumbnailFile) && Staged(ManifestFile)
    {
      ResponseText(StagedAt(ConfigFile).dir, StagedAt(ThumbnailFile).dir,
                   Paths.Join(StagedAt(ManifestFile).dir, StagedAt(ManifestFile).name),
                   PackerParent(), host.relpath)
    }

    /** What the packing script is built from, for the staged response and `.upack` names. */
    function StagedPackingCmd(): PackingCmd
      reads this`tmpFilePaths
      requires Staged(ResponseFile) && Staged(UpackFile)
    {
      PackingCmd(packerPath, StagedAt(ResponseFile).name, StagedAt(UpackFile).name, ueDir)
    }

    /** `_generateManifestData`: raises unless the thumbnail and screenshot names are staged. */
    method GenerateManifestData(order: seq<string>) returns (r: Outcome<ManagerError>)
      requires IsOrderOf(order, packInfo.assetTypes)
      requires Valid()
      modifies this`manifestData
      ensures Valid()
      ensures Staged(ThumbnailFile) && Staged(ScreenshotFile) ==>
                r == Pass &&
                manifestData == Some(StagedManifest(order))
      ensures !(Staged(ThumbnailFile) && Staged(ScreenshotFile)) ==> r == Fail(NotStaged) && manifestData == old(manifestData)
    {
      if !Staged(ThumbnailFile) || !Staged(ScreenshotFile) {
        return Fail(NotStaged);
      }
      manifestData := Some(StagedManifest(order));
      return Pass;
    }

    /** `_generateConfigData`. */
    method GenerateConfigData()
      requires Valid()
      modifies this`configData
      ensures Valid()
      ensures configData == Some(ConfigText(packInfo.cleanName))
    {
      configData := Some(ConfigText(packInfo.cleanName));
    }

    /** The directory above UnrealPak, which the response file's paths are relative to. */
    function PackerParent(): string {
      Paths.Join(packerPath, "../")
    }

    /** `_generateResponseData`: raises unless the config, thumbnail and manifest entries are
        staged. */
    method GenerateResponseData() returns (r: Outcome<ManagerError>)
      requires Valid()
      modifies this`responseData
      ensures Valid()
      ensures Staged(ConfigFile) && Staged(ThumbnailFile) && Staged(ManifestFile) ==>
                r == Pass &&
                responseData == Some(StagedResponse())
      ensures !(Staged(ConfigFile) && Staged(ThumbnailFile) && Staged(ManifestFile)) ==>
                r == Fail(NotStaged) && responseData == old(responseData)
    {
      if !Staged(ConfigFile) || !Staged(ThumbnailFile) || !Staged(ManifestFile) {
        return Fail(NotStaged);
      }
      responseData := Some(StagedResponse());
      return Pass;
    }

    /** `_generatePackingCmdData`: raises unless the response and `.upack` names are staged. */
    method GeneratePackingCmdData() returns (r: Outcome<ManagerError>)
      requires Valid()
      modifies this`packingCmdData
      ensures Valid()
      ensures Staged(ResponseFile) && Staged(UpackFile) ==>
                r == Pass &&
                packingCmdData == Some(StagedPackingCmd())
      ensures !(Staged(ResponseFile) && Staged(UpackFile)) ==> r == Fail(NotStaged) && packingCmdData == old(packingCmdData)
    {
      if !Staged(ResponseFile) || !Staged(UpackFile) {
        return Fail(NotStaged);
      }
      packingCmdData := Some(StagedPackingCmd());
      return Pass;
    }

    /** `generateFileData`: the pack structure, then the manifest, config and response texts.
        Once the structure is staged, the texts cannot fail. */
    method GenerateFileData(suffix: string, order: seq<string>) returns (r: Outcome<ManagerError>)
      requires Valid() && IsOrderOf(order, packInfo.assetTypes)
      modifies this`tmpFilePaths, this`tmpDir, this`tmpPackPath, this`onCleanupFuncs, this`createdDirs
      modifies this`manifestData, this`configData, this`responseData
      ensures Valid()
      ensures r.Fail? ==> r.error.NoCleanName? || r.error.FolderExists? || r.error.MissingItem? || r.error.BadName?
      ensures r.Pass? ==>
                FixedSet(tmpFilePaths.at) &&
                manifestData == Some(StagedManifest(order)) &&
                configData == Some(ConfigText(packInfo.cleanName)) &&
                responseData == Some(StagedResponse())
    {
      r := GeneratePackFileStruct(suffix);
      if r.Fail? {
        return;
      }
      r := GenerateTexts(order);
    }

    /** The text steps of `generateFileData`, once the staging has succeeded. */
    method GenerateTexts(order: seq<string>) returns (r: Outcome<ManagerError>)
      requires Valid() && IsOrderOf(order, packInfo.assetTypes)
      requires FixedSet(tmpFilePaths.at)
      modifies this`manifestData, this`configData, this`responseData
      ensures Valid()
      ensures r == Pass
      ensures manifestData == Some(StagedManifest(order))
      ensures configData == Some(ConfigText(packInfo.cleanName))
      ensures responseData == Some(StagedResponse())
    {
      r := GenerateManifestData(order);
      GenerateConfigData();
      r := GenerateResponseData();
    }

    /** What `writeDataToTmpPack` needs staged: the entries of the texts it still has to
        generate, the four files it writes, the images it was given and the asset folder. */
    predicate WriteReady()
      reads this`manifestData, this`responseData, this`packingCmdData, this`tmpFilePaths, this`packInfo
    {
      GenerateReady() && FilesReady()
    }

    /** What generating the missing texts needs staged. */
    predicate GenerateReady()
      reads this`manifestData, this`responseData, this`packingCmdData, this`tmpFilePaths
    {
      ManifestReady() && ResponseReady() && PackingCmdReady()
    }

    /** The manifest is generated already, or the images it names are staged. */
    predicate ManifestReady()
      reads this`manifestData, this`tmpFilePaths
    {
      manifestData.Some? || (Staged(ThumbnailFile) && Staged(ScreenshotFile))
    }

    /** The response text is generated already, or the entries it names are staged. */
    predicate ResponseReady()
      reads this`responseData, this`tmpFilePaths
    {
      responseData.Some? || (Staged(ConfigFile) && Staged(ThumbnailFile) && Staged(ManifestFile))
    }

    /** The packing script data is generated already, or the names it uses are staged. */
    predicate PackingCmdReady()
      reads this`packingCmdData, this`tmpFilePaths
    {
      packingCmdData.Some? || (Staged(ResponseFile) && Staged(UpackFile))
    }

    /** What the writes and copies of `writeDataToTmpPack` need staged: the four files it
        writes, the images it was given and the asset folder. */
    predicate FilesReady()
      reads this`packInfo, this`tmpFilePaths
    {
      Staged(ManifestFile) && Staged(ConfigFile) && Staged(ResponseFile) && Staged(PackingCmdFile) &&
      (packInfo.thumbPath != "" ==> Staged(ThumbnailFile)) &&
      (packInfo.scrShotPath != "" ==> Staged(ScreenshotFile)) &&
      Staged(AssetFolder)
    }

    /** The first part of `writeDataToTmpPack`: each text not generated yet is generated,
        stopping at the first that raises. */
    method GenerateMissingData(order: seq<string>) returns (r: Outcome<ManagerError>)
      requires Valid() && IsOrderOf(order, packInfo.assetTypes)
      modifies this`manifestData, this`configData, this`responseData, this`packingCmdData
      ensures Valid()
      ensures r.Pass? <==> old(GenerateReady())
      ensures r.Fail? ==> r.error == NotStaged
      ensures r.Pass? ==> manifestData.Some? && configData.Some? && responseData.Some? && packingCmdData.Some?
      ensures manifestData == old(manifestData) ||
              (old(manifestData).None? && Staged(ThumbnailFile) && Staged(ScreenshotFile) &&
               manifestData == Some(StagedManifest(order)))
      ensures configData == old(configData) ||
              (old(configData).None? && configData == Some(ConfigText(packInfo.cleanName)))
      ensures responseData == old(responseData) ||
              (old(responseData).None? && Staged(ConfigFile) && Staged(ThumbnailFile) && Staged(ManifestFile) &&
               responseData == Some(StagedResponse()))
      ensures packingCmdData == old(packingCmdData) ||
              (old(packingCmdData).None? && Staged(ResponseFile) && Staged(UpackFile) &&
               packingCmdData == Some(StagedPackingCmd()))
    {
      r := FillDocuments(order);
      if r.Fail? {
        return;
      }
      r := FillScripts();
    }

    /** The manifest, then the config text, each unless generated already. */
    method FillDocuments(order: seq<string>) returns (r: Outcome<ManagerError>)
      requires Valid() && IsOrderOf(order, packInfo.assetTypes)
      modifies this`manifestData, this`configData
      ensures Valid()
      ensures r.Pass? <==> old(ManifestReady())
      ensures r.Fail? ==> r.error == NotStaged
      ensures r.Pass? ==> manifestData.Some? && configData.Some?
      ensures manifestData == old(manifestData) ||
              (old(manifestData).None? && Staged(ThumbnailFile) && Staged(ScreenshotFile) &&
               manifestData == Some(StagedManifest(order)))
      ensures configData == old(configData) ||
              (old(configData).None? && configData == Some(ConfigText(packInfo.cleanName)))
    {
      r := Pass;
      if manifestData.None? {
        r := GenerateManifestData(order);
        if r.Fail? {
          return;
        }
      }
      if configData.None? {
        GenerateConfigData();
      }
    }

    /** The response text, then the packing script data, each unless generated already. */
    method FillScripts() returns (r: Outcome<ManagerError>)
      requires Valid()
      modifies this`responseData, this`packingCmdData
      ensures Valid()
      ensures r.Pass? <==> old(ResponseReady()) && old(PackingCmdReady())
      ensures r.Fail? ==> r.error == NotStaged
      ensures r.Pass? ==> responseData.Some? && packingCmdData.Some?
      ensures responseData == old(responseData) ||
              (old(responseData).None? && Staged(ConfigFile) && Staged(ThumbnailFile) && Staged(ManifestFile) &&
               responseData == Some(StagedResponse()))
      ensures packingCmdData == old(packingCmdData) ||
              (old(packingCmdData).None? && Staged(ResponseFile) && Staged(UpackFile) &&
               packingCmdData == Some(StagedPackingCmd()))
    {
      r := Pass;
      if responseData.None? {
        r := GenerateResponseData();
        if r.Fail? {
          return;
        }
      }
      if packingCmdData.None? {
        r := GeneratePackingCmdData();
      }
    }

    /** `writeDataToTmpPack`: each text not generated yet is generated, then the files are
        written (the writes and copies themselves are not modelled). Raises unless everything
        it uses is staged, and raises at the copy of the assets when the assets path is unset;
        a text it generated before raising stays generated. */
    method WriteDataToTmpPack(order: seq<string>) returns (r: Outcome<ManagerError>)
      requires Valid() && IsOrderOf(order, packInfo.assetTypes)
      modifies this`manifestData, this`configData, this`responseData, this`packingCmdData
      ensures Valid()
      ensures r.Pass? <==> old(WriteReady()) && packInfo.assetsPath.Some?
      ensures r == Fail(NoAssetsPath) <==> old(WriteReady()) && packInfo.assetsPath.None?
      ensures r.Fail? ==> r.error == NotStaged || r.error == NoAssetsPath
      ensures r.Pass? ==> manifestData.Some? && configData.Some? && responseData.Some? && packingCmdData.Some?
      ensures manifestData == old(manifestData) ||
              (old(manifestData).None? && Staged(ThumbnailFile) && Staged(ScreenshotFile) &&
               manifestData == Some(StagedManifest(order)))
      ensures configData == old(configData) ||
              (old(configData).None? && configData == Some(ConfigText(packInfo.cleanName)))
      ensures responseData == old(responseData) ||
              (old(responseData).None? && Staged(ConfigFile) && Staged(ThumbnailFile) && Staged(ManifestFile) &&
               responseData == Some(StagedResponse()))
      ensures packingCmdData == old(packingCmdData) ||
              (old(packingCmdData).None? && Staged(ResponseFile) && Staged(UpackFile) &&
               packingCmdData == Some(StagedPackingCmd()))
    {
      r := GenerateMissingData(order);
      if r.Fail? {
        return;
      }
      if !FilesReady() {
        return Fail(NotStaged);
      }
      if packInfo.assetsPath.None? {
        return Fail(NoAssetsPath);
      }
    }

    //--- pack creation

    /** `generateUpack`: UnrealPak is started at once to build the `.upack` in the engine's
        `FeaturePacks`, and the copy of that file back into the pack folder is queued to wait
        on it. Raises, before starting anything, unless the response and `.upack` entries are
        staged. */
    method GenerateUpack() returns (r: Outcome<ManagerError>)
      requires Valid()
      modifies this`activeJobs, this`pendingJobs, this`nextPid
      ensures Valid()
      ensures !(Staged(ResponseFile) && Staged(UpackFile)) ==>
                r == Fail(NotStaged) && activeJobs == old(activeJobs) && pendingJobs == old(pendingJobs) &&
                nextPid == old(nextPid)
      ensures Staged(ResponseFile) && Staged(UpackFile) ==>
                r == Pass && activeJobs == old(activeJobs) + [Job(Process(old(nextPid), PackUpack), UnrealPak)] &&
                pendingJobs == old(pendingJobs) + [CopyUpackJob] &&
                nextPid == old(nextPid) + 1
    {
      if !Staged(ResponseFile) || !Staged(UpackFile) {
        return Fail(NotStaged);
      }
      var p := StartProcess(PackUpack);
      FreshPidKeepsDistinct(activeJobs, Job(p, UnrealPak), old(nextPid));
      activeJobs := activeJobs + [Job(p, UnrealPak)];
      pendingJobs := pendingJobs + [CopyUpackJob];
      return Pass;
    }

    /** `exportCompressedPack`: the archive of the pack's `ZipContent` into the output path is
        queued to wait on every copy and on UnrealPak. Raises without an output path. */
    method ExportCompressedPack() returns (r: Outcome<ManagerError>)
      modifies this`pendingJobs
      ensures packInfo.outputPath.None? ==> r == Fail(NoOutputPath) && pendingJobs == old(pendingJobs)
      ensures packInfo.outputPath.Some? ==>
                r == Pass && pendingJobs == old(pendingJobs) + [PendingJob(ArchivePack, Archive, {Robocopy, UnrealPak})]
    {
      if packInfo.outputPath.None? {
        return Fail(NoOutputPath);
      }
      pendingJobs := pendingJobs + [PendingJob(ArchivePack, Archive, {Robocopy, UnrealPak})];
      return Pass;
    }

    /** `exportPackStruct`: the rewrite of the exported response file is registered for
        cleanup first; then the copy of the temporary directory to the output path is queued
        to wait on every copy and on UnrealPak. Raises, after registering, without a temporary
        directory. */
    method ExportPackStruct() returns (r: Outcome<ManagerError>)
      modifies this`pendingJobs, this`onCleanupFuncs
      ensures onCleanupFuncs == old(onCleanupFuncs) + [UpdateExportedResponseFile]
      ensures tmpDir.None? ==> r == Fail(NotStaged) && pendingJobs == old(pendingJobs)
      ensures tmpDir.Some? ==>
                r == Pass && pendingJobs == old(pendingJobs) + [PendingJob(CopyPackStruct, Robocopy, {Robocopy, UnrealPak})]
    {
      onCleanupFuncs := onCleanupFuncs + [UpdateExportedResponseFile];
      if tmpDir.None? {
        return Fail(NotStaged);
      }
      pendingJobs := pendingJobs + [PendingJob(CopyPackStruct, Robocopy, {Robocopy, UnrealPak})];
      return Pass;
    }

    /** `exportContentToEngine`: the copy of the pack's `Samples` folder into the engine is
        started at once. Raises unless the asset folder is staged in a temporary directory. */
    method ExportContentToEngine() returns (r: Outcome<ManagerError>)
      requires Valid()
      modifies this`activeJobs, this`nextPid
      ensures Valid()
      ensures !(Staged(AssetFolder) && tmpDir.Some?) ==>
                r == Fail(NotStaged) && activeJobs == old(activeJobs) && nextPid == old(nextPid)
      ensures Staged(AssetFolder) && tmpDir.Some? ==>
                r == Pass && activeJobs == old(activeJobs) + [Job(Process(old(nextPid), CopyContentToEngine), Robocopy)] &&
                nextPid == old(nextPid) + 1
    {
      if !Staged(AssetFolder) || tmpDir.None? {
        return Fail(NotStaged);
      }
      var p := StartProcess(CopyContentToEngine);
      FreshPidKeepsDistinct(activeJobs, Job(p, Robocopy), old(nextPid));
      activeJobs := activeJobs + [Job(p, Robocopy)];
      return Pass;
    }

    /** Where the built `.upack` lies in the engine: `FeaturePacks` under the engine
        directory. */
    function UpackPath(): string
      reads this
      requires Staged(UpackFile)
    {
      Paths.Join(Paths.Join(ueDir, "FeaturePacks"), StagedAt(UpackFile).name)
    }

    /** The queueing part of the export half of `createPack`: the archive and the structure
        export are queued when asked for. Fails, before the structure export, when an archive
        is asked for without an output path, and, after registering the response rewrite, when
        the structure export finds no temporary directory. */
    method QueueExports(compressed: bool, structure: bool) returns (r: Outcome<ManagerError>)
      modifies this`pendingJobs, this`onCleanupFuncs
      ensures compressed && packInfo.outputPath.None? ==>
                r == Fail(NoOutputPath) && pendingJobs == old(pendingJobs) && onCleanupFuncs == old(onCleanupFuncs)
      ensures !(compressed && packInfo.outputPath.None?) && structure && tmpDir.None? ==>
                r == Fail(NotStaged) && pendingJobs == old(pendingJobs) + Exports(compressed, false) &&
                onCleanupFuncs == old(onCleanupFuncs) + [UpdateExportedResponseFile]
      ensures !(compressed && packInfo.outputPath.None?) && !(structure && tmpDir.None?) ==>
                r == Pass && pendingJobs == old(pendingJobs) + Exports(compressed, structure) &&
                onCleanupFuncs == old(onCleanupFuncs) + (if structure then [UpdateExportedResponseFile] else [])
    {
      r := Pass;
      if compressed {
        r := ExportCompressedPack();
        if r.Fail? {
          return;
        }
      }
      if structure {
        r := ExportPackStruct();
        if r.Fail? {
          return;
        }
      }
      assert pendingJobs == old(pendingJobs) + Exports(compressed, structure) by {
        AppendAssoc(old(pendingJobs), if compressed then [PendingJob(ArchivePack, Archive, {Robocopy, UnrealPak})] else [],
                    if structure then [PendingJob(CopyPackStruct, Robocopy, {Robocopy, UnrealPak})] else []);
      }
      r := Pass;
    }

    /** The export half of `createPack`, once the `.upack` is under way: the exports are
        queued, then the content is copied into the engine or the deletion of the `.upack` from
        the engine is registered for cleanup. */
    method ExportPack(compressed: bool, structure: bool, install: bool) returns (r: Outcome<ManagerError>)
      requires Valid() && Staged(AssetFolder) && Staged(UpackFile)
      modifies this`activeJobs, this`pendingJobs, this`nextPid, this`onCleanupFuncs
      ensures Valid()
      ensures compressed && packInfo.outputPath.None? ==>
                r == Fail(NoOutputPath) && activeJobs == old(activeJobs) && pendingJobs == old(pendingJobs) &&
                nextPid == old(nextPid) && onCleanupFuncs == old(onCleanupFuncs)
      ensures !(compressed && packInfo.outputPath.None?) ==>
                r == Pass &&
                activeJobs == old(activeJobs) + (if install then [Job(Process(old(nextPid), CopyContentToEngine), Robocopy)] else []) &&
                pendingJobs == old(pendingJobs) + Exports(compressed, structure) &&
                nextPid == old(nextPid) + (if install then 1 else 0) &&
                onCleanupFuncs == old(onCleanupFuncs) + (if structure then [UpdateExportedResponseFile] else []) +
                                  (if install then [] else [UnlinkUpack(UpackPath())])
    {
      r := QueueExports(compressed, structure);
      if r.Fail? {
        return;
      }
      if install {
        r := ExportContentToEngine();
      } else {
        onCleanupFuncs := onCleanupFuncs + [UnlinkUpack(UpackPath())];
      }
      r := Pass;
    }

    /** The second half of `createPack`, once the pack data are written: UnrealPak is started
        and the copy of its `.upack` queued, then the pack is exported. */
    method PackAndExport(compressed: bool, structure: bool, install: bool) returns (r: Outcome<ManagerError>)
      requires Valid() && Staged(AssetFolder)
      modifies this`activeJobs, this`pendingJobs, this`nextPid, this`onCleanupFuncs
      ensures Valid()
      ensures !(Staged(ResponseFile) && Staged(UpackFile)) ==>
                r == Fail(NotStaged) && activeJobs == old(activeJobs) && pendingJobs == old(pendingJobs) &&
                nextPid == old(nextPid) && onCleanupFuncs == old(onCleanupFuncs)
      ensures Staged(ResponseFile) && Staged(UpackFile) && compressed && packInfo.outputPath.None? ==>
                r == Fail(NoOutputPath) &&
                activeJobs == old(activeJobs) + [Job(Process(old(nextPid), PackUpack), UnrealPak)] &&
                pendingJobs == old(pendingJobs) + [CopyUpackJob] &&
                nextPid == old(nextPid) + 1 && onCleanupFuncs == old(onCleanupFuncs)
      ensures Staged(ResponseFile) && Staged(UpackFile) && !(compressed && packInfo.outputPath.None?) ==>
                r == Pass &&
                activeJobs == old(activeJobs) + [Job(Process(old(nextPid), PackUpack), UnrealPak)] +
                              (if install then [Job(Process(old(nextPid) + 1, CopyContentToEngine), Robocopy)] else []) &&
                pendingJobs == old(pendingJobs) + [CopyUpackJob] + Exports(compressed, structure) &&
                nextPid == old(nextPid) + (if install then 2 else 1) &&
                onCleanupFuncs == old(onCleanupFuncs) + (if structure then [UpdateExportedResponseFile] else []) +
                                  (if install then [] else [UnlinkUpack(UpackPath())])
    {
      r := GenerateUpack();
      if r.Fail? {
        return;
      }
      r := ExportPack(compressed, structure, install);
    }

    /** `createPack`: writes the pack data, starts UnrealPak and queues the copy of its
        `.upack`, then queues the archive and the structure export when asked for, and either
        starts the copy of the content into the engine or registers the deletion of the
        `.upack` from the engine for cleanup. */
    method CreatePack(order: seq<string>, compressed: bool, structure: bool, install: bool)
      returns (r: Outcome<ManagerError>)
      requires Valid() && IsOrderOf(order, packInfo.assetTypes)
      modifies this`manifestData, this`configData, this`responseData, this`packingCmdData
      modifies this`activeJobs, this`pendingJobs, this`nextPid, this`onCleanupFuncs
      ensures Valid()
      ensures !(old(WriteReady()) && packInfo.assetsPath.Some? && Staged(UpackFile)) ==>
                r.Fail? && activeJobs == old(activeJobs) && pendingJobs == old(pendingJobs) &&
                nextPid == old(nextPid) && onCleanupFuncs == old(onCleanupFuncs)
      ensures r == Fail(NoAssetsPath) <==> old(WriteReady()) && packInfo.assetsPath.None?
      ensures !old(WriteReady()) || (packInfo.assetsPath.Some? && !Staged(UpackFile)) ==> r == Fail(NotStaged)
      ensures old(WriteReady()) && packInfo.assetsPath.Some? && Staged(UpackFile) && compressed && packInfo.outputPath.None? ==>
                r == Fail(NoOutputPath) &&
                activeJobs == old(activeJobs) + [Job(Process(old(nextPid), PackUpack), UnrealPak)] &&
                pendingJobs == old(pendingJobs) + [CopyUpackJob] &&
                nextPid == old(nextPid) + 1 && onCleanupFuncs == old(onCleanupFuncs)
      ensures old(WriteReady()) && packInfo.assetsPath.Some? && Staged(UpackFile) && !(compressed && packInfo.outputPath.None?) ==>
                r == Pass &&
                activeJobs == old(activeJobs) + [Job(Process(old(nextPid), PackUpack), UnrealPak)] +
                              (if install then [Job(Process(old(nextPid) + 1, CopyContentToEngine), Robocopy)] else []) &&
                pendingJobs == old(pendingJobs) + [CopyUpackJob] + Exports(compressed, structure) &&
                nextPid == old(nextPid) + (if install then 2 else 1) &&
                onCleanupFuncs == old(onCleanupFuncs) + (if structure then [UpdateExportedResponseFile] else []) +
                                  (if install then [] else [UnlinkUpack(UpackPath())])
    {
      r := WriteDataToTmpPack(order);
      if r.Fail? {
        return;
      }
      r := PackAndExport(compressed, structure, install);
    }

    /** `updateExportedResponseFile`, on the text of the exported response file: the path of
        the pack folder relative to UnrealPak's parent is replaced by the absolute directory of
        the exported file. Raises unless the response entry, the temporary directory, the
        output path and the pack folder are all set. */
    function ExportedResponse(text: string): (r: Result<string, ManagerError>)
      reads this
      ensures r.Success? <==> Staged(ResponseFile) && tmpDir.Some? && packInfo.outputPath.Some? && tmpPackPath.Some?
      ensures r.Failure? ==> r.error == NotStaged || r.error == NoOutputPath
      ensures r.Success? ==> r.value == RewriteResponse(text, host.relpath(tmpPackPath.value, PackerParent()), ExportedResponseDir())
    {
      if !Staged(ResponseFile) || tmpDir.None? then Failure(NotStaged)
      else if packInfo.outputPath.None? then Failure(NoOutputPath)
      else if tmpPackPath.None? then Failure(NotStaged)
      else Success(RewriteResponse(text, host.relpath(tmpPackPath.value, PackerParent()), ExportedResponseDir()))
    }

    /** The directory of the exported response file: its place under the temporary directory,
        moved to the output path. */
    function ExportedResponseDir(): string
      reads this
    {
      if Staged(ResponseFile) && tmpDir.Some? && packInfo.outputPath.Some? then
        var loc := StagedAt(ResponseFile);
        var file := Paths.Join(Paths.Join(packInfo.outputPath.value, host.relpath(loc.dir, tmpDir.value)), loc.name);
        host.abspath(Paths.Join(file, "../"))
      else ""
    }

    //--- cleanup

    /** `cleanup`: the registered actions are popped and run last first, until none is left.
        `fails` says which actions raise. An action is popped before it runs, so one that
        raises is no longer registered; the drain stops there and the actions below it stay
        registered. */
    method Cleanup(fails: CleanupAction -> bool) returns (r: Outcome<ManagerError>)
      modifies this`onCleanupFuncs, this`cleanupLog
      ensures r.Pass? <==> Raising(old(onCleanupFuncs), fails).None?
      ensures r.Fail? ==> r.error == ActionFailed(old(onCleanupFuncs)[Raising(old(onCleanupFuncs), fails).value])
      ensures onCleanupFuncs == DrainLeft(old(onCleanupFuncs), fails)
      ensures cleanupLog == old(cleanupLog) + DrainRun(old(onCleanupFuncs), fails)
    {
      ghost var funcs := onCleanupFuncs;
      assert funcs[|funcs|..] == [];
      while |onCleanupFuncs| > 0
        invariant |onCleanupFuncs| <= |funcs| && onCleanupFuncs == funcs[..|onCleanupFuncs|]
        invariant cleanupLog == old(cleanupLog) + Reverse(funcs[|onCleanupFuncs|..])
        invariant forall i :: |onCleanupFuncs| <= i < |funcs| ==> !fails(funcs[i])
        decreases |onCleanupFuncs|
      {
        var n := |onCleanupFuncs|;
        var action := onCleanupFuncs[n - 1];
        onCleanupFuncs := onCleanupFuncs[..n - 1];
        ReverseSuffixStep(funcs, n);
        AppendAssoc(old(cleanupLog), Reverse(funcs[n..]), [action]);
        cleanupLog := cleanupLog + [action];
        if fails(action) {
          RaisingAt(funcs, fails, n - 1);
          return Fail(ActionFailed(action));
        }
      }
      assert funcs[0..] == funcs;
      return Pass;
    }

    /** `__del__`: runs the cleanup again, on whatever is still registered. */
    method Finalize(fails: CleanupAction -> bool) returns (r: Outcome<ManagerError>)
      modifies this`onCleanupFuncs, this`cleanupLog
      ensures r.Pass? <==> Raising(old(onCleanupFuncs), fails).None?
      ensures r.Fail? ==> r.error == ActionFailed(old(onCleanupFuncs)[Raising(old(onCleanupFuncs), fails).value])
      ensures onCleanupFuncs == DrainLeft(old(onCleanupFuncs), fails)
      ensures cleanupLog == old(cleanupLog) + DrainRun(old(onCleanupFuncs), fails)
    {
      r := Cleanup(fails);
    }
  }

  /** `_recursiveCreateDir` on the registry `reg`: each object is walked in turn as a
      directory named after its key, each string records `(base, pattern)` under its key. */
  method WalkLayout(entries: seq<Entry>, base: string, reg: Registry) returns (reg': Registry)
    requires reg.Valid()
    ensures reg' == Walk(reg, entries, base)
    decreases entries
  {
    reg' := reg;
    var i := 0;
    while i < |entries|
      invariant 0 <= i <= |entries|
      invariant reg' == Walk(reg, entries[..i], base)
    {
      var e := entries[i];
      assert entries[..i + 1][..i] == entries[..i];
      match e.value {
        case Folder(children) =>
          reg' := WalkLayout(children, Paths.Join(base, e.name), reg');
        case Pattern(p) =>
          reg' := Put(reg', e.name, Location(base, p));
        case Null =>
        case Scalar =>
      }
      i := i + 1;
    }
    assert entries[..i] == entries;
  }

  /** The check loop of `generatePackFileStruct`: the first key, in registry order, that the
      walk left unset. */
  method CheckRegistry(reg: Registry) returns (missing: Option<string>)
    requires reg.Valid()
    ensures missing == FirstMissing(reg.keys, reg.at)
  {
    var i := 0;
    while i < |reg.keys|
      invariant 0 <= i <= |reg.keys|
      invariant FirstMissing(reg.keys, reg.at) == FirstMissing(reg.keys[i..], reg.at)
    {
      if reg.at[reg.keys[i]].None? {
        return Some(reg.keys[i]);
      }
      assert reg.keys[i..][1..] == reg.keys[i + 1..];
      i := i + 1;
    }
    return None;
  }

  /** The conversion loop of `generatePackFileStruct` on the registry `reg`: each key, in
      registry order, has its pattern turned into a name, until the first error; the keys
      converted before the error keep their names. */
  method ConvertPatterns(reg: Registry, s: Staging) returns (reg': Registry, error: Option<NameError>)
    requires forall k :: k in reg.keys ==> k in reg.at && reg.at[k].Some?
    ensures var res := ResolveKeys(reg.keys, reg.at, s);
            reg' == Registry(reg.keys, res.at) && error == res.error
  {
    var at := reg.at;
    var i := 0;
    assert reg.keys[..0] == [];
    while i < |reg.keys|
      invariant 0 <= i <= |reg.keys|
      invariant var res := ResolveKeys(reg.keys[..i], reg.at, s);
                at == res.at && res.error.None?
      invariant forall k :: k in reg.keys ==> k in at && at[k].Some?
    {
      var k := reg.keys[i];
      ResolveKeysStep(reg.keys, reg.at, s, i);
      match Resolve(k, at[k].value, s) {
        case Failure(e) =>
          ResolveKeysStops(reg.keys, reg.at, s, i + 1);
          return Registry(reg.keys, at), Some(e);
        case Success(l) =>
          at := at[k := Some(l)];
      }
      i := i + 1;
    }
    assert reg.keys[..i] == reg.keys;
    return Registry(reg.keys, at), None;
  }

  /** What `generatePackFileStruct` stages under the pack folder `pack`: the registry after
      the walk of the layout, the check and the conversion, with the error that stopped it. On
      success every fixed key is staged and the asset folder has an empty name; a failure is
      a fixed key the layout lacks or a pattern that cannot be turned into a name. */
  function StageRegistry(layout: seq<Entry>, pack: string, s: Staging): (r: (Registry, Option<ManagerError>))
    ensures r.0.Valid()
    ensures r.1.None? ==>
              FixedSet(r.0.at) && r.0.at[AssetFolder].value.name == ""
    ensures r.1.Some? ==> (r.1.value.MissingItem? && r.1.value.key in FixedKeys) || r.1.value.BadName?
  {
    var reg := Walk(InitialRegistry(), layout, pack);
    match FirstMissing(reg.keys, reg.at)
    case Some(k) =>
      MissingFixedKey(layout, pack);
      (reg, Some(MissingItem(k)))
    case None =>
      var res := ResolveKeys(reg.keys, reg.at, s);
      if res.error.Some? then (Registry(reg.keys, res.at), Some(BadName(res.error.value)))
      else
        FixedKeysStaged(reg, s);
        (Registry(reg.keys, res.at), None)
  }

  /** The directory `os.makedirs` is asked for at the end of a staging whose walk, check and
      conversion passed: the asset folder's directory. */
  function AssetDir(st: (Registry, Option<ManagerError>)): Option<string> {
    if st.1.None? && AssetFolder in st.0.at && st.0.at[AssetFolder].Some? then Some(st.0.at[AssetFolder].value.dir) else None
  }

  function AssetDirs(st: (Registry, Option<ManagerError>)): set<string> {
    if AssetDir(st).Some? then {AssetDir(st).value} else {}
  }

  /** How the staging ends, given the directories `made` before the asset folder's: the error
      of the walk, check or conversion; else `FolderExists` when the asset folder's directory
      is among `made`, as `os.makedirs` raises on an existing directory; else success. */
  function StageOutcome(st: (Registry, Option<ManagerError>), made: set<string>): (r: Outcome<ManagerError>)
    ensures r.Pass? <==> st.1.None? && (AssetDir(st).None? || AssetDir(st).value !in made)
    ensures st.1.None? ==> (r == Fail(FolderExists) <==> AssetDir(st).Some? && AssetDir(st).value in made)
    ensures st.1.Some? ==> r == Fail(st.1.value)
  {
    if st.1.Some? then Fail(st.1.value)
    else if AssetDir(st).Some? && AssetDir(st).value in made then Fail(FolderExists)
    else Pass
  }

  /** The staging steps of `generatePackFileStruct` run on a registry value. */
  method StageLayout(layout: seq<Entry>, pack: string, s: Staging) returns (reg: Registry, error: Option<ManagerError>)
    ensures (reg, error) == StageRegistry(layout, pack, s)
  {
    reg := WalkLayout(layout, pack, InitialRegistry());
    var missing := CheckRegistry(reg);
    if missing.Some? {
      return reg, Some(MissingItem(missing.value));
    }
    var nameError;
    reg, nameError := ConvertPatterns(reg, s);
    error := if nameError.Some? then Some(BadName(nameError.value)) else None;
  }

  /** After a check and a conversion that both pass, every fixed key is staged and the asset
      folder has an empty name. */
  lemma FixedKeysStaged(reg: Registry, s: Staging)
    requires reg.Valid() && FixedKeys <= reg.keys
    requires forall k :: k in reg.keys ==> k in reg.at && reg.at[k].Some?
    requires ResolveKeys(reg.keys, reg.at, s).error.None?
    ensures var r := ResolveKeys(reg.keys, reg.at, s).at;
            FixedSet(r) && r[AssetFolder].value.name == ""
  {
    FixedKeysIn(reg.keys);
    StagedSpecialKeys(reg.keys, reg.at, s);
  }

  /** One more file of the inference scan. */
  lemma InferStep(files: seq<string>, i: int, table: map<string, string>)
    requires 0 <= i < |files|
    ensures KnownTypes(files[..i + 1], table) ==
              KnownTypes(files[..i], table) + match Classify(files[i], table) case Known(t) => {t} case _ => {}
    ensures UnknownFiles(files[..i + 1], table) ==
              UnknownFiles(files[..i], table) + if Classify(files[i], table).Unknown? then [files[i]] else []
  {
    assert files[..i + 1][..i] == files[..i];
  }

  lemma FlattenStep<T>(ss: seq<seq<T>>, d: int)
    requires 0 <= d < |ss|
    ensures Flatten(ss[..d + 1]) == Flatten(ss[..d]) + ss[d]
  {
    assert ss[..d + 1][..d] == ss[..d];
  }

  /** The types of a concatenation are the types of its parts. */
  lemma {:induction false} KnownTypesAppend(a: seq<string>, b: seq<string>, table: map<string, string>)
    ensures KnownTypes(a + b, table) == KnownTypes(a, table) + KnownTypes(b, table)
    decreases |b|
  {
    if b == [] {
      assert a + b == a;
    } else {
      assert (a + b)[..|a + b| - 1] == a + b[..|b| - 1];
      KnownTypesAppend(a, b[..|b| - 1], table);
    }
  }

  /** A type found in a prefix of the file list is found in the whole list. */
  lemma KnownTypesGrow(files: seq<string>, n: int, table: map<string, string>)
    requires 0 <= n <= |files|
    ensures KnownTypes(files[..n], table) <= KnownTypes(files, table)
  {
    assert files == files[..n] + files[n..];
    KnownTypesAppend(files[..n], files[n..], table);
  }

  /** A type found in the first directories of a listing is found in the whole listing. */
  lemma {:induction false} KnownTypesPrefix(walk: seq<seq<string>>, n: int, table: map<string, string>)
    requires 0 <= n <= |walk|
    ensures KnownTypes(Flatten(walk[..n]), table) <= KnownTypes(Flatten(walk), table)
    decreases |walk|
  {
    if n < |walk| {
      var init := walk[..|walk| - 1];
      assert init[..n] == walk[..n];
      KnownTypesPrefix(init, n, table);
      KnownTypesAppend(Flatten(init), walk[|walk| - 1], table);
    } else {
      assert walk[..n] == walk;
    }
  }

  /** One more element of a slot list adds its value, if any, to the compacted list. */
  lemma CompactStep<T>(slots: seq<Option<T>>, i: int)
    requires 0 <= i < |slots|
    ensures Compact(slots[..i + 1]) == Compact(slots[..i]) + if slots[i].Some? then [slots[i].value] else []
  {
    assert slots[..i + 1] == slots[..i] + [slots[i]];
    CompactAppend(slots[..i], [slots[i]]);
  }

  /** One more job of the reaping scan: how each of its results grows. */
  lemma SurvivorsStep(jobs: seq<Job>, i: int, status: Pid -> Status)
    requires 0 <= i < |jobs|
    ensures Survivors(jobs[..i + 1], status) == Survivors(jobs[..i], status) + if IsRunning(status, jobs[i]) then [jobs[i]] else []
  {
    assert jobs[..i + 1][..i] == jobs[..i];
  }

  lemma NewFailuresStep(jobs: seq<Job>, i: int, status: Pid -> Status)
    requires 0 <= i < |jobs|
    ensures NewFailures(jobs[..i + 1], status) == NewFailures(jobs[..i], status) + if HasFailed(status, jobs[i]) then [jobs[i]] else []
  {
    assert jobs[..i + 1][..i] == jobs[..i];
  }

  lemma ReapBuffersStep(b: OutputBuffers, jobs: seq<Job>, i: int, status: Pid -> Status, output: Pid -> string)
    requires 0 <= i < |jobs|
    ensures ReapBuffers(b, jobs[..i + 1], status, output) == ReapOne(ReapBuffers(b, jobs[..i], status, output), jobs[i], status, output)
  {
    assert jobs[..i + 1][..i] == jobs[..i];
  }

  lemma FlushedStep(b: OutputBuffers, jobs: seq<Job>, i: int, status: Pid -> Status, output: Pid -> string)
    requires 0 <= i < |jobs|
    ensures Flushed(b, jobs[..i + 1], status, output) ==
              Flushed(b, jobs[..i], status, output) +
              if IsRunning(status, jobs[i]) then ""
              else Held(ReapBuffers(b, jobs[..i], status, output), jobs[i].process.pid) + output(jobs[i].process.pid)
  {
    assert jobs[..i + 1][..i] == jobs[..i];
  }

  /** The kinds of a prefix grow by the kind of the next job. */
  lemma KindsOfStep(jobs: seq<Job>, i: int)
    requires 0 <= i < |jobs|
    ensures KindsOf(jobs[..i + 1]) == KindsOf(jobs[..i]) + {jobs[i].kind}
  {
    assert jobs[..i + 1] == jobs[..i] + [jobs[i]];
  }

  /** One more pending job of the activation scan. */
  lemma ActivateStep(kinds: set<Kind>, pending: seq<PendingJob>, i: int)
    requires 0 <= i < |pending|
    ensures var a := Activate(kinds, pending[..i]);
            var p := pending[i];
            Activate(kinds, pending[..i + 1]) ==
              if p.waitsOn !! a.kinds then Activation(a.kinds + {p.kind}, a.started + [p], a.waiting)
              else Activation(a.kinds, a.started, a.waiting + [p])
  {
    assert pending[..i + 1][..i] == pending[..i];
  }

  /** Launching one more job gives it the next pid. */
  lemma LaunchSnoc(started: seq<PendingJob>, p: PendingJob, firstPid: Pid, next: Pid)
    requires next == firstPid + |started|
    ensures Launch(started + [p], firstPid) == Launch(started, firstPid) + [Job(Process(next, p.start), p.kind)]
  {
    assert (started + [p])[..|started|] == started;
  }

  /** A job with a pid handed out after every active one keeps the pids distinct. */
  lemma FreshPidKeepsDistinct(jobs: seq<Job>, j: Job, next: Pid)
    requires DistinctPids(jobs) && PidsBelow(jobs, next) && j.process.pid == next
    ensures DistinctPids(jobs + [j]) && PidsBelow(jobs + [j], next + 1)
  {
  }
}
