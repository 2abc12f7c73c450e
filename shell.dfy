/**
 * The shell-session state of execute.c (the globals `job_q`, `pid_queue`,
 * `job_number` and `booted`) and the operations that change it: the reaper
 * pass, the job listing, one stage launch and the top-level `run_script`.
 *
 * The OS is replaced by inputs: `fork` by the pid it returns (`forked[i]`
 * for stage `i`), the non-blocking `waitpid` by the set `running` of pids
 * still running, and the blocking `waitpid` by removing the pid.
 */
module Shell {
  import opened Jobs
  import opened Command
  import opened Dispatch
  import opened Pipeline
  import opened Reaper

  /** What the parent side of one `create_process` call did: the pid it recorded and the plans of both sides. */
  datatype Launch = Launch(pid: Pid, wiring: Wiring, child: ChildAction, parent: ParentAction)

  /** How `run_script` ended. */
  datatype Outcome =
    | NoCommands            // `holders == NULL`
    | ExitShell             // `[EXIT, EOC]`: `end_main_loop`
    | Foreground(waited: seq<Pid>)   // every pid waited for, in this order
    | Background(job: Job)  // the job appended to the table
    | Underflow             // `peek_back` on an empty pid queue: a background script with no stage

  /** One more step of `run_jobs`' loop: the listing of a prefix extended by one job. */
  lemma ListNext(jobs: seq<Job>, k: nat)
    requires k < |jobs|
    ensures jobs[..k + 1] == jobs[..k] + [jobs[k]]
    ensures ListNotices(jobs[..k + 1]) == ListNotices(jobs[..k]) + [Listed(jobs[k].jobId, jobs[k].pid, jobs[k].cmd)]
  {
    assert jobs[..k + 1][..k] == jobs[..k];
  }

  /** One more step of the reaper's inner loop. */
  lemma StillRunningNext(q: seq<Pid>, k: nat, running: set<Pid>)
    requires k < |q|
    ensures StillRunning(q[..k + 1], running) ==
            StillRunning(q[..k], running) + (if q[k] in running then [q[k]] else [])
  {
    assert q[..k + 1][..k] == q[..k];
  }

  /** One more step of the reaper's outer loop. */
  lemma ReapNext(jobs: seq<Job>, k: nat, running: set<Pid>)
    requires k < |jobs| && AllNonEmpty(jobs)
    ensures AllNonEmpty(jobs[..k]) && AllNonEmpty(jobs[..k + 1])
    ensures ReapTable(jobs[..k + 1], running) ==
            ReapTable(jobs[..k], running) + (if Finished(jobs[k], running) then [] else [ReapJob(jobs[k], running)])
    ensures CompletionNotices(jobs[..k + 1], running) ==
            CompletionNotices(jobs[..k], running)
              + (if Finished(jobs[k], running) then [Completed(jobs[k].jobId, jobs[k].pidQueue[0], jobs[k].cmd)] else [])
  {
    assert jobs[..k + 1][..k] == jobs[..k];
  }

  /**
   * The inner loop of `check_jobs_bg_status` (execute.c:80-94): pops every
   * pid of a job's queue once, pushing back exactly those the oracle
   * reports still running; returns the pid that was at the front before
   * the loop (`peek_front`, which needs the queue non-empty).
   */
  method KeepRunning(pq: Deque<Pid>, running: set<Pid>) returns (frontProcess: Pid)
    requires pq.items != []
    modifies pq
    ensures frontProcess == old(pq.items)[0]
    ensures pq.items == StillRunning(old(pq.items), running)
  {
    ghost var q := pq.items;
    var numOfProcesses := pq.Length();
    frontProcess := pq.PeekFront();
    var processNum := 0;
    while processNum < numOfProcesses
      invariant 0 <= processNum <= numOfProcesses == |q|
      invariant pq.items == q[processNum..] + StillRunning(q[..processNum], running)
    {
      ghost var kept := StillRunning(q[..processNum], running);
      ghost var rest := q[processNum + 1..];
      assert q[processNum..] == [q[processNum]] + rest;
      var current := pq.PopFront();
      assert current == q[processNum] && pq.items == rest + kept;
      StillRunningNext(q, processNum, running);
      if current in running {
        pq.PushBack(current);
        assert pq.items == rest + (kept + [current]);
      } else {
        assert kept + [] == kept;
      }
      processNum := processNum + 1;
    }
    assert q[..numOfProcesses] == q;
  }

  /**
   * What `run_script` needs of a non-NULL holder array: an `EOC` marker, a
   * forked pid for every stage before it, and no pipe input into stage 0
   * (for which C would read slot `(0 - 1) % 2 == -1`).
   */
  predicate ScriptReady(hs: seq<Holder>, forked: seq<Pid>)
  {
    Terminated(hs) && StageCount(hs) <= |forked| &&
    (StageCount(hs) > 0 ==> !hs[0].flags.pipeIn)
  }

  /** The launch `create_process` reports for stage `k`. */
  function StageLaunch(hs: seq<Holder>, forked: seq<Pid>, k: nat): Launch
    requires ScriptReady(hs, forked) && k < StageCount(hs)
  {
    Launch(forked[k], StagePlan(hs[k], k), ChildRunCommand(hs[k].cmd), ParentRunCommand(hs[k].cmd))
  }

  /** One launch per stage before `EOC`, in stage order. */
  predicate LaunchesMatch(launches: seq<Launch>, hs: seq<Holder>, forked: seq<Pid>)
    requires ScriptReady(hs, forked)
  {
    |launches| == StageCount(hs) &&
    forall k :: 0 <= k < StageCount(hs) ==> launches[k] == StageLaunch(hs, forked, k)
  }

  /**
   * The effect of `run_script` on a non-NULL, EOC-terminated array, from
   * the table `jobs` and counter `next` it starts with to the table,
   * counter, pid queue, notices, launches and outcome it ends with.
   */
  ghost predicate RunEffect(hs: seq<Holder>, running: set<Pid>, forked: seq<Pid>, cmdText: string,
                            jobs: seq<Job>, next: int,
                            jobs': seq<Job>, next': int, pids': seq<Pid>,
                            notices: seq<Notice>, launches: seq<Launch>, outcome: Outcome)
    requires ScriptReady(hs, forked) && AllNonEmpty(jobs)
  {
    var n := StageCount(hs);
    var reaped, completed := ReapTable(jobs, running), CompletionNotices(jobs, running);
    if IsExitScript(hs) then
      outcome == ExitShell && launches == [] && pids' == [] &&
      jobs' == reaped && notices == completed && next' == next
    else
      LaunchesMatch(launches, hs, forked) &&
      if !hs[0].flags.background then
        outcome == Foreground(forked[..n]) && pids' == [] &&
        jobs' == reaped && notices == completed && next' == next
      else
        next' == next + 1 &&
        if n == 0 then
          outcome == Underflow && jobs' == reaped && notices == completed
        else
          var job := Job(next, forked[..n], forked[n - 1], cmdText);
          outcome == Background(job) && pids' == forked[..n] &&
          jobs' == reaped + [job] && notices == completed + [Started(next, forked[n - 1], cmdText)]
  }

  /** A script that is exactly `[EXIT, EOC]`. */
  predicate IsExitScript(hs: seq<Holder>)
  {
    |hs| >= 2 && hs[0].cmd.ExitCmd? && hs[1].cmd.EocCmd?
  }

  class Session {
    /** `job_q`: the background jobs, oldest first. */
    var jobQ: Deque<Job>
    /** `pid_queue`: the pids of the current invocation, in fork order. */
    var pidQueue: Deque<Pid>
    /** `job_number`: the id the next background job gets. */
    var jobNumber: int
    /** `booted`: whether the job table has been created. */
    var booted: bool

    /** The session invariant: the job table invariant for the next id, and an untouched table before it is created. */
    ghost predicate Valid()
      reads this, jobQ
    {
      jobNumber >= 1 &&
      TableInvariant(jobQ.items, jobNumber) &&
      (!booted ==> jobQ.items == [])
    }

    /** The state at shell start: `job_number = 1`, `booted = false`, zero-initialised (empty) queues. */
    constructor ()
      ensures Valid()
      ensures jobNumber == 1 && !booted
      ensures jobQ.items == [] && pidQueue.items == []
      ensures fresh(jobQ) && fresh(pidQueue)
    {
      jobQ := new Deque<Job>();
      pidQueue := new Deque<Pid>();
      jobNumber := 1;
      booted := false;
    }

    /**
     * `check_jobs_bg_status`: one pass over the jobs present at its start.
     * Each job's queue is rotated once, keeping exactly the pids still
     * running; the job is re-appended iff its queue is still non-empty, and
     * otherwise announced as completed.
     */
    method CheckJobsBgStatus(running: set<Pid>) returns (completed: seq<Notice>)
      requires Valid()
      modifies jobQ
      ensures Valid()
      ensures jobQ.items == ReapTable(old(jobQ.items), running)
      ensures completed == CompletionNotices(old(jobQ.items), running)
    {
      ghost var jobs := jobQ.items;
      assert AllNonEmpty(jobs);
      completed := [];
      var numOfJobs := jobQ.Length();
      var jobNum := 0;
      while jobNum < numOfJobs
        invariant 0 <= jobNum <= numOfJobs == |jobs|
        invariant AllNonEmpty(jobs)
        invariant jobQ.items == jobs[jobNum..] + ReapTable(jobs[..jobNum], running)
        invariant completed == CompletionNotices(jobs[..jobNum], running)
      {
        ghost var rt := ReapTable(jobs[..jobNum], running);
        ghost var j := jobs[jobNum];
        assert jobQ.items == [j] + (jobs[jobNum + 1..] + rt);
        assert j.pidQueue != [];
        var notice := ReapFront(running);
        completed := completed + notice;
        ReapNext(jobs, jobNum, running);
        jobNum := jobNum + 1;
      }
      assert jobs[..numOfJobs] == jobs;
      ReapKeepsInvariant(jobs, jobNumber, running);
    }

    /**
     * One iteration of the reaper loop (execute.c:77-101): pops the front
     * job, keeps the pids of its queue that are still running, and either
     * re-appends it or, when its queue is empty, announces its completion
     * with the pid that was at the front of its queue.
     */
    method ReapFront(running: set<Pid>) returns (completed: seq<Notice>)
      requires jobQ.items != [] && jobQ.items[0].pidQueue != []
      modifies jobQ
      ensures var j := old(jobQ.items)[0];
        jobQ.items == old(jobQ.items)[1..] + (if Finished(j, running) then [] else [ReapJob(j, running)]) &&
        completed == (if Finished(j, running) then [Completed(j.jobId, j.pidQueue[0], j.cmd)] else [])
    {
      var selected := jobQ.PopFront();
      // the local copy `selected_job.pid_queue`
      var pq := new Deque<Pid>.Of(selected.pidQueue);
      var frontProcess := KeepRunning(pq, running);
      selected := selected.(pidQueue := pq.items);
      var empty := pq.IsEmpty();
      if empty {
        completed := [Completed(selected.jobId, frontProcess, selected.cmd)];
      } else {
        completed := [];
        jobQ.PushBack(selected);
      }
    }

    /**
     * `run_jobs`: lists every job in table order and leaves the table as it
     * was, in content and order. The shell reaches it only through
     * `child_run_command`, so it runs on the forked child's copy of the table.
     */
    method RunJobs() returns (listed: seq<Notice>)
      requires Valid()
      modifies jobQ
      ensures Valid()
      ensures jobQ.items == old(jobQ.items)
      ensures listed == ListNotices(old(jobQ.items))
    {
      ghost var jobs := jobQ.items;
      listed := [];
      var numberOfJobs := jobQ.Length();
      var jobNum := 0;
      while jobNum < numberOfJobs
        invariant 0 <= jobNum <= numberOfJobs == |jobs|
        invariant jobQ.items == jobs[jobNum..] + jobs[..jobNum]
        invariant listed == ListNotices(jobs[..jobNum])
      {
        var j := jobs[jobNum];
        assert jobs[jobNum..] == [j] + jobs[jobNum + 1..];
        var selected := jobQ.PopFront();
        assert selected == j;
        assert jobQ.items == jobs[jobNum + 1..] + jobs[..jobNum];
        listed := listed + [Listed(selected.jobId, selected.pid, selected.cmd)];
        jobQ.PushBack(selected);
        ListNext(jobs, jobNum);
        assert jobQ.items == jobs[jobNum + 1..] + jobs[..jobNum + 1];
        jobNum := jobNum + 1;
      }
      assert jobs[..numberOfJobs] == jobs && jobs[numberOfJobs..] == [];
    }

    /**
     * `create_process`, parent side: records the forked pid at the back of
     * the invocation's pid queue and returns what both sides of the fork do.
     */
    method CreateProcess(h: Holder, i: nat, childPid: Pid) returns (launch: Launch)
      requires h.flags.pipeIn ==> i >= 1
      modifies pidQueue
      ensures pidQueue.items == old(pidQueue.items) + [childPid]
      ensures launch == Launch(childPid, StagePlan(h, i), ChildRunCommand(h.cmd), ParentRunCommand(h.cmd))
    {
      var wiring := StagePlan(h, i);
      pidQueue.PushBack(childPid);
      launch := Launch(childPid, wiring, ChildRunCommand(h.cmd), ParentRunCommand(h.cmd));
    }

    /**
     * `run_script`, parent side. Creates the job table on the first call
     * only and always starts a fresh, empty pid queue, before the NULL
     * check; a non-NULL array is then run by `RunCommands`.
     */
    method RunScript(holders: Option<seq<Holder>>, running: set<Pid>, forked: seq<Pid>, cmdText: string)
      returns (notices: seq<Notice>, launches: seq<Launch>, outcome: Outcome)
      requires Valid()
      requires holders.Some? ==> ScriptReady(holders.value, forked)
      modifies this, jobQ
      ensures Valid() && booted
      ensures old(booted) ==> jobQ == old(jobQ)
      ensures !old(booted) ==> fresh(jobQ)
      ensures fresh(pidQueue)
      ensures holders.None? ==>
        outcome == NoCommands && notices == [] && launches == [] &&
        jobQ.items == old(jobQ.items) && jobNumber == old(jobNumber) && pidQueue.items == []
      ensures holders.Some? ==>
        RunEffect(holders.value, running, forked, cmdText, old(jobQ.items), old(jobNumber),
                  jobQ.items, jobNumber, pidQueue.items, notices, launches, outcome)
    {
      if !booted {
        jobQ := new Deque<Job>();
        booted := true;
      }
      pidQueue := new Deque<Pid>();
      if holders.None? {
        notices, launches, outcome := [], [], NoCommands;
      } else {
        notices, launches, outcome := RunCommands(holders.value, running, forked, cmdText);
      }
    }

    /**
     * The rest of `run_script` for a non-NULL array: the reaper first, then
     * `[EXIT, EOC]` ends the shell without launching anything; otherwise
     * each stage before `EOC` is launched in order, recording one pid each.
     * A foreground script then waits for every pid in fork order; a
     * background one becomes a job with the next id, the last forked pid
     * and the command text, appended to the table.
     */
    method RunCommands(hs: seq<Holder>, running: set<Pid>, forked: seq<Pid>, cmdText: string)
      returns (notices: seq<Notice>, launches: seq<Launch>, outcome: Outcome)
      requires Valid() && booted
      requires ScriptReady(hs, forked)
      requires pidQueue.items == []
      modifies this`jobNumber, jobQ, pidQueue
      ensures Valid()
      ensures RunEffect(hs, running, forked, cmdText, old(jobQ.items), old(jobNumber),
                        jobQ.items, jobNumber, pidQueue.items, notices, launches, outcome)
    {
      notices := CheckJobsBgStatus(running);
      if IsExitScript(hs) {
        launches, outcome := [], ExitShell;
      } else {
        launches := LaunchStages(hs, forked);
        if !hs[0].flags.background {
          var waited := WaitForeground();
          outcome := Foreground(waited);
        } else {
          var started;
          outcome, started := StartBackgroundJob(cmdText);
          notices := notices + started;
        }
      }
    }

    /** The stage loop of `run_script`: one `create_process` per stage before `EOC`, in order. */
    method LaunchStages(hs: seq<Holder>, forked: seq<Pid>) returns (launches: seq<Launch>)
      requires ScriptReady(hs, forked)
      modifies pidQueue
      ensures pidQueue.items == old(pidQueue.items) + forked[..StageCount(hs)]
      ensures LaunchesMatch(launches, hs, forked)
    {
      ghost var before := pidQueue.items;
      ghost var n := StageCount(hs);
      launches := [];
      var i := 0;
      while !hs[i].cmd.EocCmd?
        invariant 0 <= i <= n
        invariant pidQueue.items == before + forked[..i]
        invariant |launches| == i
        invariant forall k :: 0 <= k < i ==> launches[k] == StageLaunch(hs, forked, k)
        decreases n - i
      {
        var launch := CreateProcess(hs[i], i, forked[i]);
        launches := launches + [launch];
        assert forked[..i + 1] == forked[..i] + [forked[i]];
        i := i + 1;
      }
    }

    /** The foreground wait of `run_script`: removes every pid, oldest first, until the queue is empty. */
    method WaitForeground() returns (waited: seq<Pid>)
      modifies pidQueue
      ensures waited == old(pidQueue.items)
      ensures pidQueue.items == []
    {
      waited := [];
      var empty := pidQueue.IsEmpty();
      while !empty
        invariant waited + pidQueue.items == old(pidQueue.items)
        invariant empty <==> pidQueue.items == []
        decreases |pidQueue.items|
      {
        var current := pidQueue.PopFront();
        waited := waited + [current];
        empty := pidQueue.IsEmpty();
      }
      assert waited + [] == waited;
    }

    /**
     * The background branch of `run_script`: takes the next id, then builds
     * the job from the pid queue with the last pid as its representative and
     * appends it to the table; the id is taken even when `peek_back` then
     * fails on an empty queue.
     */
    method StartBackgroundJob(cmdText: string) returns (outcome: Outcome, started: seq<Notice>)
      requires Valid() && booted
      modifies this`jobNumber, jobQ
      ensures Valid()
      ensures jobNumber == old(jobNumber) + 1
      ensures old(pidQueue.items) == [] ==> outcome == Underflow && started == [] && jobQ.items == old(jobQ.items)
      ensures old(pidQueue.items) != [] ==>
        var job := Job(old(jobNumber), pidQueue.items, pidQueue.items[|pidQueue.items| - 1], cmdText);
        outcome == Background(job) &&
        jobQ.items == old(jobQ.items) + [job] &&
        started == [Started(job.jobId, job.pid, cmdText)]
    {
      var jobId := jobNumber;
      jobNumber := jobNumber + 1;
      var empty := pidQueue.IsEmpty();
      if empty {
        // C's `peek_back` on an empty queue; the model returns `Underflow`
        outcome, started := Underflow, [];
        return;
      }
      var pid := pidQueue.PeekBack();
      var job := Job(jobId, pidQueue.items, pid, cmdText);
      AppendKeepsInvariant(jobQ.items, jobId, job.pidQueue, pid, cmdText);
      jobQ.PushBack(job);
      outcome, started := Background(job), [Started(jobId, pid, cmdText)];
    }
  }
}
