/** The per-process output buffers of `DataManager` (`jobStdout`): a map from pid to an
    append-only text buffer, `None` once the buffer has been closed. */
module Buffers {
  import opened Wrappers
  import opened Seqs
  import opened Jobs

  type OutputBuffers = map<Pid, Option<string>>

  /** The text held for `pid`; a missing or closed buffer is replaced by a new, empty one. */
  function Held(b: OutputBuffers, pid: Pid): string {
    if pid in b && b[pid].Some? then b[pid].value else ""
  }

  /** `writeJobOutToStream`: the pipe's text appended to the pid's buffer, created on first
      write. */
  function WriteOut(b: OutputBuffers, pid: Pid, text: string): (r: OutputBuffers)
    ensures pid in r && r[pid].Some? && Held(r, pid) == Held(b, pid) + text
    ensures forall q :: q != pid ==> (q in r <==> q in b) && (q in b ==> r[q] == b[q])
  {
    b[pid := Some(Held(b, pid) + text)]
  }

  /** What the reaping scan does to the buffer of one active job: its output so far is stored,
      and the buffer is closed once the job has exited. */
  function ReapOne(b: OutputBuffers, j: Job, status: Pid -> Status, output: Pid -> string): OutputBuffers {
    var w := WriteOut(b, j.process.pid, output(j.process.pid));
    if IsRunning(status, j) then w else w[j.process.pid := None]
  }

  /** The buffers after the reaping scan over `jobs`, in order. */
  function ReapBuffers(b: OutputBuffers, jobs: seq<Job>, status: Pid -> Status, output: Pid -> string): OutputBuffers
    decreases |jobs|
  {
    if jobs == [] then b
    else ReapOne(ReapBuffers(b, jobs[..|jobs| - 1], status, output), jobs[|jobs| - 1], status, output)
  }

  /** The text the reaping scan writes to the console: the full buffer of each exited job, in
      scan order. */
  function Flushed(b: OutputBuffers, jobs: seq<Job>, status: Pid -> Status, output: Pid -> string): string
    decreases |jobs|
  {
    if jobs == [] then ""
    else
      var init := jobs[..|jobs| - 1];
      var j := jobs[|jobs| - 1];
      Flushed(b, init, status, output) +
      (if IsRunning(status, j) then ""
       else Held(ReapBuffers(b, init, status, output), j.process.pid) + output(j.process.pid))
  }

  /** Reference definition: each job's stored text followed by its new output, concatenated. */
  function AllOutput(b: OutputBuffers, jobs: seq<Job>, output: Pid -> string): string
    decreases |jobs|
  {
    if jobs == [] then ""
    else
      var j := jobs[|jobs| - 1];
      AllOutput(b, jobs[..|jobs| - 1], output) + Held(b, j.process.pid) + output(j.process.pid)
  }

  predicate PidIn(jobs: seq<Job>, pid: Pid) {
    exists i :: 0 <= i < |jobs| && jobs[i].process.pid == pid
  }

  /** The scan leaves the buffer of a pid that none of its jobs has alone. */
  lemma {:induction false} ReapBuffersOther(b: OutputBuffers, jobs: seq<Job>, status: Pid -> Status,
                                            output: Pid -> string, q: Pid)
    requires !PidIn(jobs, q)
    ensures var r := ReapBuffers(b, jobs, status, output);
            (q in r <==> q in b) && (q in b ==> r[q] == b[q])
    decreases |jobs|
  {
    if jobs != [] {
      var init := jobs[..|jobs| - 1];
      ReapBuffersOther(b, init, status, output, q);
      assert jobs[|jobs| - 1].process.pid != q;
    }
  }

  /** With distinct pids, the scan leaves a running job's buffer holding everything it has
      written so far and closes an exited job's buffer. */
  lemma {:induction false} ReapBuffersAt(b: OutputBuffers, jobs: seq<Job>, status: Pid -> Status,
                                         output: Pid -> string, i: int)
    requires DistinctPids(jobs) && 0 <= i < |jobs|
    ensures var r := ReapBuffers(b, jobs, status, output);
            var p := jobs[i].process.pid;
            p in r && r[p] == if IsRunning(status, jobs[i]) then Some(Held(b, p) + output(p)) else None
    decreases |jobs|
  {
    var init := jobs[..|jobs| - 1];
    var p := jobs[i].process.pid;
    if i == |jobs| - 1 {
      ReapBuffersOther(b, init, status, output, p);
    } else {
      assert DistinctPids(init);
      ReapBuffersAt(b, init, status, output, i);
      assert jobs[|jobs| - 1].process.pid != p;
    }
  }

  lemma AllOutputSnoc(b: OutputBuffers, jobs: seq<Job>, j: Job, output: Pid -> string)
    ensures AllOutput(b, jobs + [j], output) == AllOutput(b, jobs, output) + (Held(b, j.process.pid) + output(j.process.pid))
  {
    assert (jobs + [j])[..|jobs|] == jobs;
    var a, h, o := AllOutput(b, jobs, output), Held(b, j.process.pid), output(j.process.pid);
    assert (a + h) + o == a + (h + o);
  }

  /** With distinct pids, the jobs before the last have distinct pids and the last job's pid
      is not used by any of them. */
  lemma LastPidFresh(jobs: seq<Job>)
    requires DistinctPids(jobs) && jobs != []
    ensures DistinctPids(jobs[..|jobs| - 1])
    ensures !PidIn(jobs[..|jobs| - 1], jobs[|jobs| - 1].process.pid)
  {
    var init := jobs[..|jobs| - 1];
    forall k | 0 <= k < |init|
      ensures init[k].process.pid != jobs[|jobs| - 1].process.pid
    {
      assert init[k] == jobs[k];
    }
  }

  /** A scan's console text grows by the last job's stored text and new output when it has
      exited, provided no earlier job shares its pid. */
  lemma FlushedSnoc(b: OutputBuffers, jobs: seq<Job>, status: Pid -> Status, output: Pid -> string)
    requires jobs != [] && !PidIn(jobs[..|jobs| - 1], jobs[|jobs| - 1].process.pid)
    ensures var j := jobs[|jobs| - 1];
            Flushed(b, jobs, status, output)
            == Flushed(b, jobs[..|jobs| - 1], status, output)
               + (if IsRunning(status, j) then "" else Held(b, j.process.pid) + output(j.process.pid))
  {
    ReapBuffersOther(b, jobs[..|jobs| - 1], status, output, jobs[|jobs| - 1].process.pid);
  }

  /** With distinct pids, the console text of a scan is, job by job in scan order, the stored
      text and new output of exactly the jobs the scan reaps. */
  lemma {:induction false} FlushedIsReapedOutput(b: OutputBuffers, jobs: seq<Job>, status: Pid -> Status, output: Pid -> string)
    requires DistinctPids(jobs)
    ensures Flushed(b, jobs, status, output) == AllOutput(b, Reaped(jobs, status), output)
    decreases |jobs|
  {
    if jobs != [] {
      var init := jobs[..|jobs| - 1];
      var j := jobs[|jobs| - 1];
      LastPidFresh(jobs);
      FlushedIsReapedOutput(b, init, status, output);
      FlushedSnoc(b, jobs, status, output);
      ReapedSnoc(jobs, status);
      var prior := Flushed(b, init, status, output);
      if !IsRunning(status, j) {
        assert Reaped(jobs, status) == Reaped(init, status) + [j];
        AllOutputSnoc(b, Reaped(init, status), j, output);
      } else {
        assert Flushed(b, jobs, status, output) == prior + "" == prior;
        assert Reaped(jobs, status) == Reaped(init, status) + [] == Reaped(init, status);
      }
    }
  }
}
