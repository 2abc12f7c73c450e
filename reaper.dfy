/**
 * The specification of the job-table passes of execute.c:
 * `check_jobs_bg_status` (the reaper) and `run_jobs` (the listing), as
 * functions of the table and of the non-blocking-wait oracle, and the
 * properties they have.
 *
 * The oracle: `running` is the set of pids for which `waitpid(pid, ..,
 * WNOHANG)` returns 0 (still running) during the pass.
 */
module Reaper {
  import opened Jobs

  /** The three notices printed through `print_job`: start, completion and listing. */
  datatype Notice =
    | Started(jobId: int, pid: Pid, cmd: string)
    | Completed(jobId: int, pid: Pid, cmd: string)
    | Listed(jobId: int, pid: Pid, cmd: string)

  /** The pids of `q` the oracle reports still running, in queue order. */
  function StillRunning(q: seq<Pid>, running: set<Pid>): seq<Pid>
  {
    if q == [] then []
    else
      var p := q[|q| - 1];
      StillRunning(q[..|q| - 1], running) + (if p in running then [p] else [])
  }

  /** A job is retired by a pass when none of its pids is still running. */
  predicate Finished(j: Job, running: set<Pid>)
  {
    StillRunning(j.pidQueue, running) == []
  }

  /** The job after one pass over its queue: finished pids dropped, everything else as it was. */
  function ReapJob(j: Job, running: set<Pid>): Job
  {
    j.(pidQueue := StillRunning(j.pidQueue, running))
  }

  /** Every job has a non-empty pid queue (what makes the reaper's `peek_front` safe). */
  predicate AllNonEmpty(jobs: seq<Job>)
  {
    forall k :: 0 <= k < |jobs| ==> jobs[k].pidQueue != []
  }

  /** The table after a reaper pass: unfinished jobs, reaped, in their original order. */
  function ReapTable(jobs: seq<Job>, running: set<Pid>): seq<Job>
  {
    if jobs == [] then []
    else
      var j := jobs[|jobs| - 1];
      ReapTable(jobs[..|jobs| - 1], running) + (if Finished(j, running) then [] else [ReapJob(j, running)])
  }

  /** The completion notices of a pass: one per finished job, carrying the pid at the front of its queue when the pass began. */
  function CompletionNotices(jobs: seq<Job>, running: set<Pid>): seq<Notice>
    requires AllNonEmpty(jobs)
  {
    if jobs == [] then []
    else
      var j := jobs[|jobs| - 1];
      CompletionNotices(jobs[..|jobs| - 1], running)
        + (if Finished(j, running) then [Completed(j.jobId, j.pidQueue[0], j.cmd)] else [])
  }

  /** The listing `run_jobs` prints: one line per job, in table order, with the stored representative pid. */
  function ListNotices(jobs: seq<Job>): seq<Notice>
  {
    if jobs == [] then []
    else
      var j := jobs[|jobs| - 1];
      ListNotices(jobs[..|jobs| - 1]) + [Listed(j.jobId, j.pid, j.cmd)]
  }

  /** The listing has one line per job, the `k`-th for the `k`-th job. */
  lemma {:induction false} ListNoticesAt(jobs: seq<Job>)
    ensures |ListNotices(jobs)| == |jobs|
    ensures forall k :: 0 <= k < |jobs| ==> ListNotices(jobs)[k] == Listed(jobs[k].jobId, jobs[k].pid, jobs[k].cmd)
  {
    if jobs != [] {
      ListNoticesAt(jobs[..|jobs| - 1]);
    }
  }

  /** The ids of a sequence of jobs, in order. */
  function Ids(jobs: seq<Job>): (r: seq<int>)
    ensures |r| == |jobs|
  {
    if jobs == [] then [] else Ids(jobs[..|jobs| - 1]) + [jobs[|jobs| - 1].jobId]
  }

  /** The job ids a sequence of notices carries, in order. */
  function NoticeIds(ns: seq<Notice>): (r: seq<int>)
    ensures |r| == |ns|
  {
    if ns == [] then [] else NoticeIds(ns[..|ns| - 1]) + [ns[|ns| - 1].jobId]
  }

  /** `a` is `b` with some elements left out, the rest in their original order. */
  ghost predicate Subsequence<T>(a: seq<T>, b: seq<T>)
    decreases |b|
  {
    a == [] ||
    (b != [] &&
     ((a[|a| - 1] == b[|b| - 1] && Subsequence(a[..|a| - 1], b[..|b| - 1])) ||
      Subsequence(a, b[..|b| - 1])))
  }

  // ---------------------------------------------------------------------
  // One job's queue
  // ---------------------------------------------------------------------

  /** A pid is kept iff it was in the queue and the oracle reports it still running. */
  lemma {:induction false} StillRunningMembers(q: seq<Pid>, running: set<Pid>, p: Pid)
    ensures p in StillRunning(q, running) <==> p in q && p in running
  {
    if q != [] {
      StillRunningMembers(q[..|q| - 1], running, p);
      assert q == q[..|q| - 1] + [q[|q| - 1]];
    }
  }

  /** Kept pids stay in their original relative order. */
  lemma {:induction false} StillRunningInOrder(q: seq<Pid>, running: set<Pid>)
    ensures Subsequence(StillRunning(q, running), q)
  {
    if q != [] {
      var init, p := q[..|q| - 1], q[|q| - 1];
      StillRunningInOrder(init, running);
      var kept := StillRunning(init, running);
      if p in running {
        var a := kept + [p];
        assert a[|a| - 1] == p && a[..|a| - 1] == kept;
        assert StillRunning(q, running) == a;
      } else {
        assert StillRunning(q, running) == kept + [] == kept;
      }
    }
  }

  /** A second pass with the same oracle keeps every pid the first one kept. */
  lemma {:induction false} StillRunningIdempotent(q: seq<Pid>, running: set<Pid>)
    ensures StillRunning(StillRunning(q, running), running) == StillRunning(q, running)
  {
    if q != [] {
      var init, p := q[..|q| - 1], q[|q| - 1];
      StillRunningIdempotent(init, running);
      var kept := StillRunning(init, running);
      if p in running {
        var a := kept + [p];
        assert a[|a| - 1] == p && a[..|a| - 1] == kept;
        assert StillRunning(q, running) == a;
      } else {
        assert StillRunning(q, running) == kept + [] == kept;
      }
    }
  }

  // ---------------------------------------------------------------------
  // The whole table
  // ---------------------------------------------------------------------

  /** A job survives the pass iff it is an unfinished job of the table, reaped. */
  lemma {:induction false} ReapTableMembers(jobs: seq<Job>, running: set<Pid>, x: Job)
    ensures x in ReapTable(jobs, running) <==>
            exists j :: j in jobs && !Finished(j, running) && x == ReapJob(j, running)
  {
    if jobs != [] {
      var init := jobs[..|jobs| - 1];
      var last := jobs[|jobs| - 1];
      ReapTableMembers(init, running, x);
      assert jobs == init + [last];
      if x in ReapTable(jobs, running) && x !in ReapTable(init, running) {
        assert last in jobs && !Finished(last, running) && x == ReapJob(last, running);
      }
      if j :| j in jobs && !Finished(j, running) && x == ReapJob(j, running) {
        if j != last {
          assert j in init;
        }
      }
    }
  }

  /** Surviving jobs keep their relative order. */
  lemma {:induction false} ReapTableInOrder(jobs: seq<Job>, running: set<Pid>)
    ensures Subsequence(Ids(ReapTable(jobs, running)), Ids(jobs))
  {
    if jobs != [] {
      var init, last := jobs[..|jobs| - 1], jobs[|jobs| - 1];
      ReapTableInOrder(init, running);
      var rt := ReapTable(init, running);
      var kept := Ids(rt);
      var b := Ids(jobs);
      assert b == Ids(init) + [last.jobId];
      assert b[..|b| - 1] == Ids(init);
      if Finished(last, running) {
        assert ReapTable(jobs, running) == rt + [] == rt;
      } else {
        var a := Ids(rt + [ReapJob(last, running)]);
        assert a == kept + [last.jobId];
        assert a[|a| - 1] == b[|b| - 1] && a[..|a| - 1] == kept;
      }
    }
  }

  /**
   * A pass handles exactly the jobs present at its start: each job's id goes
   * either to the new table or to one completion notice, never both.
   */
  lemma {:induction false} ReapAccountsForEveryJob(jobs: seq<Job>, running: set<Pid>)
    requires AllNonEmpty(jobs)
    ensures multiset(Ids(ReapTable(jobs, running))) + multiset(NoticeIds(CompletionNotices(jobs, running)))
            == multiset(Ids(jobs))
  {
    if jobs != [] {
      var init, last := jobs[..|jobs| - 1], jobs[|jobs| - 1];
      assert AllNonEmpty(init);
      ReapAccountsForEveryJob(init, running);
      assert Ids(jobs) == Ids(init) + [last.jobId];
      var rt, cn := ReapTable(init, running), CompletionNotices(init, running);
      var before := multiset(Ids(rt)) + multiset(NoticeIds(cn));
      assert multiset(Ids(jobs)) == before + multiset{last.jobId};
      if Finished(last, running) {
        var c := Completed(last.jobId, last.pidQueue[0], last.cmd);
        assert ReapTable(jobs, running) == rt + [] == rt;
        assert CompletionNotices(jobs, running) == cn + [c];
        assert (cn + [c])[..|cn|] == cn;
        assert NoticeIds(cn + [c]) == NoticeIds(cn) + [last.jobId];
      } else {
        var rj := ReapJob(last, running);
        assert ReapTable(jobs, running) == rt + [rj];
        assert CompletionNotices(jobs, running) == cn + [] == cn;
        assert (rt + [rj])[..|rt|] == rt;
        assert Ids(rt + [rj]) == Ids(rt) + [last.jobId];
      }
    }
  }

  /** In particular the pass re-appends or retires exactly as many jobs as it counted at its start. */
  lemma ReapCount(jobs: seq<Job>, running: set<Pid>)
    requires AllNonEmpty(jobs)
    ensures |ReapTable(jobs, running)| + |CompletionNotices(jobs, running)| == |jobs|
  {
    ReapAccountsForEveryJob(jobs, running);
    var a, b := Ids(ReapTable(jobs, running)), NoticeIds(CompletionNotices(jobs, running));
    assert |multiset(a) + multiset(b)| == |multiset(Ids(jobs))|;
  }

  /** A notice is a completion of a finished job, with its id, command and pre-pass front pid. */
  lemma {:induction false} CompletionNoticeMembers(jobs: seq<Job>, running: set<Pid>, n: Notice)
    requires AllNonEmpty(jobs)
    ensures n in CompletionNotices(jobs, running) <==>
            exists j :: j in jobs && Finished(j, running) && n == Completed(j.jobId, j.pidQueue[0], j.cmd)
  {
    if jobs != [] {
      var init := jobs[..|jobs| - 1];
      var last := jobs[|jobs| - 1];
      CompletionNoticeMembers(init, running, n);
      assert jobs == init + [last];
      if j :| j in jobs && Finished(j, running) && n == Completed(j.jobId, j.pidQueue[0], j.cmd) {
        if j != last {
          assert j in init;
        }
      }
    }
  }

  /** A second pass with the same oracle retires nothing and changes nothing. */
  lemma {:induction false} ReapIdempotent(jobs: seq<Job>, running: set<Pid>)
    ensures ReapTable(ReapTable(jobs, running), running) == ReapTable(jobs, running)
    ensures AllNonEmpty(ReapTable(jobs, running))
    ensures CompletionNotices(ReapTable(jobs, running), running) == []
  {
    if jobs != [] {
      var init, last := jobs[..|jobs| - 1], jobs[|jobs| - 1];
      ReapIdempotent(init, running);
      var rt := ReapTable(init, running);
      if Finished(last, running) {
        assert ReapTable(jobs, running) == rt + [] == rt;
      } else {
        var rj := ReapJob(last, running);
        var t := rt + [rj];
        assert ReapTable(jobs, running) == t;
        StillRunningIdempotent(last.pidQueue, running);
        assert !Finished(rj, running) && ReapJob(rj, running) == rj;
        assert t[..|t| - 1] == rt && t[|t| - 1] == rj;
        assert ReapTable(t, running) == rt + [rj];
        assert CompletionNotices(t, running) == CompletionNotices(rt, running) + [];
      }
    }
  }

  /** A finished job's completion notice carries its front pid; its listing line carries its stored pid. */
  lemma CompletionCarriesFrontPid(j: Job, running: set<Pid>)
    requires j.pidQueue != [] && Finished(j, running)
    ensures CompletionNotices([j], running) == [Completed(j.jobId, j.pidQueue[0], j.cmd)]
    ensures ListNotices([j]) == [Listed(j.jobId, j.pid, j.cmd)]
  {
    assert [j][..0] == [];
  }

  /** The example that separates the completion notice from the listing: the notice shows the front pid, not the stored one. */
  lemma CompletionShowsFrontPid()
    ensures var j := Job(1, [100, 101], 101, "sleep 1 | cat");
            CompletionNotices([j], {}) == [Completed(1, 100, "sleep 1 | cat")] &&
            ListNotices([j]) == [Listed(1, 101, "sleep 1 | cat")]
  {
    var j := Job(1, [100, 101], 101, "sleep 1 | cat");
    assert [j][..0] == [];
    assert [100, 101][..1] == [100];
    assert [100] [..0] == [];
  }

  // ---------------------------------------------------------------------
  // The table invariant
  // ---------------------------------------------------------------------

  /**
   * What holds of the job table between operations, for a shell whose next
   * job id is `next`: every queue is non-empty, ids are positive, below
   * `next` and strictly increasing in table order.
   */
  predicate TableInvariant(jobs: seq<Job>, next: int)
  {
    AllNonEmpty(jobs) &&
    (forall k :: 0 <= k < |jobs| ==> 1 <= jobs[k].jobId < next) &&
    (forall i, k :: 0 <= i < k < |jobs| ==> jobs[i].jobId < jobs[k].jobId)
  }

  /** A reaper pass keeps the table invariant. */
  lemma {:induction false} ReapKeepsInvariant(jobs: seq<Job>, next: int, running: set<Pid>)
    requires TableInvariant(jobs, next)
    ensures TableInvariant(ReapTable(jobs, running), next)
  {
    if jobs != [] {
      var init := jobs[..|jobs| - 1];
      var last := jobs[|jobs| - 1];
      assert TableInvariant(init, next);
      ReapKeepsInvariant(init, next, running);
      var rt := ReapTable(init, running);
      if Finished(last, running) {
        assert ReapTable(jobs, running) == rt + [] == rt;
      } else {
        var rj := ReapJob(last, running);
        assert ReapTable(jobs, running) == rt + [rj];
        assert forall k :: 0 <= k < |init| ==> init[k].jobId < last.jobId by {
          forall k | 0 <= k < |init| ensures init[k].jobId < last.jobId {
            assert init[k] == jobs[k];
          }
        }
        ReapTableIdsBelow(init, running, last.jobId);
        assert rj.pidQueue != [] && rj.jobId == last.jobId;
      }
    }
  }

  /** A pass never introduces an id: a bound on every id of the table bounds every id after the pass. */
  lemma {:induction false} ReapTableIdsBelow(jobs: seq<Job>, running: set<Pid>, bound: int)
    requires forall k :: 0 <= k < |jobs| ==> jobs[k].jobId < bound
    ensures forall k :: 0 <= k < |ReapTable(jobs, running)| ==> ReapTable(jobs, running)[k].jobId < bound
  {
    if jobs != [] {
      var init, last := jobs[..|jobs| - 1], jobs[|jobs| - 1];
      assert forall k :: 0 <= k < |init| ==> init[k] == jobs[k];
      ReapTableIdsBelow(init, running, bound);
      var rt := ReapTable(init, running);
      if Finished(last, running) {
        assert ReapTable(jobs, running) == rt + [] == rt;
      } else {
        assert ReapTable(jobs, running) == rt + [ReapJob(last, running)];
      }
    }
  }

  /** Appending a job with the next id and a non-empty queue keeps the invariant for the incremented counter. */
  lemma AppendKeepsInvariant(jobs: seq<Job>, next: int, q: seq<Pid>, pid: Pid, cmd: string)
    requires TableInvariant(jobs, next)
    requires next >= 1 && q != []
    ensures TableInvariant(jobs + [Job(next, q, pid, cmd)], next + 1)
  {
  }

  /**
   * Under the invariant (distinct ids), a job is retired by a pass iff it is
   * finished, and then it produces exactly one completion notice; otherwise
   * it stays in the table and produces none.
   */
  lemma RetiredExactlyOnce(jobs: seq<Job>, next: int, running: set<Pid>, k: nat)
    requires TableInvariant(jobs, next)
    requires k < |jobs|
    ensures jobs[k].jobId in Ids(ReapTable(jobs, running)) <==> !Finished(jobs[k], running)
    ensures multiset(NoticeIds(CompletionNotices(jobs, running)))[jobs[k].jobId] ==
            if Finished(jobs[k], running) then 1 else 0
  {
    var j := jobs[k];
    var id := j.jobId;
    var rt := ReapTable(jobs, running);
    var cn := CompletionNotices(jobs, running);
    ReapAccountsForEveryJob(jobs, running);
    IdOccursOnce(jobs, next, k);
    var kept, noticed := multiset(Ids(rt)), multiset(NoticeIds(cn));
    assert kept[id] + noticed[id] == 1;
    if Finished(j, running) {
      FinishedIsNoticed(jobs, running, k);
      assert id in noticed;
      assert kept[id] == 0;
      assert id !in Ids(rt);
    } else {
      SurvivorIsKept(jobs, running, k);
      assert id in kept;
      assert noticed[id] == 0;
    }
  }

  /** Under the invariant each job's id occurs once in the table. */
  lemma IdOccursOnce(jobs: seq<Job>, next: int, k: nat)
    requires TableInvariant(jobs, next) && k < |jobs|
    ensures multiset(Ids(jobs))[jobs[k].jobId] == 1
  {
    forall i | 0 <= i < |jobs| ensures Ids(jobs)[i] == jobs[i].jobId {
      IdsAt(jobs, i);
    }
    DistinctCount(Ids(jobs), k);
  }

  lemma FinishedIsNoticed(jobs: seq<Job>, running: set<Pid>, k: nat)
    requires AllNonEmpty(jobs) && k < |jobs| && Finished(jobs[k], running)
    ensures jobs[k].jobId in NoticeIds(CompletionNotices(jobs, running))
  {
    var j := jobs[k];
    var cn := CompletionNotices(jobs, running);
    CompletionNoticeMembers(jobs, running, Completed(j.jobId, j.pidQueue[0], j.cmd));
    var i :| 0 <= i < |cn| && cn[i] == Completed(j.jobId, j.pidQueue[0], j.cmd);
    NoticeIdsAt(cn, i);
  }

  lemma SurvivorIsKept(jobs: seq<Job>, running: set<Pid>, k: nat)
    requires k < |jobs| && !Finished(jobs[k], running)
    ensures jobs[k].jobId in Ids(ReapTable(jobs, running))
  {
    var rt := ReapTable(jobs, running);
    ReapTableMembers(jobs, running, ReapJob(jobs[k], running));
    var i :| 0 <= i < |rt| && rt[i] == ReapJob(jobs[k], running);
    IdsAt(rt, i);
  }

  lemma {:induction false} IdsAt(jobs: seq<Job>, k: nat)
    requires k < |jobs|
    ensures Ids(jobs)[k] == jobs[k].jobId
  {
    if k < |jobs| - 1 {
      IdsAt(jobs[..|jobs| - 1], k);
    }
  }

  lemma {:induction false} NoticeIdsAt(ns: seq<Notice>, k: nat)
    requires k < |ns|
    ensures NoticeIds(ns)[k] == ns[k].jobId
  {
    if k < |ns| - 1 {
      NoticeIdsAt(ns[..|ns| - 1], k);
    }
  }

  /** In a strictly increasing sequence each element occurs once. */
  lemma {:induction false} DistinctCount(s: seq<int>, k: nat)
    requires forall i, j :: 0 <= i < j < |s| ==> s[i] < s[j]
    requires k < |s|
    ensures multiset(s)[s[k]] == 1
  {
    var init := s[..|s| - 1];
    assert s == init + [s[|s| - 1]];
    if k == |s| - 1 {
      assert s[k] !in init;
      assert multiset(init)[s[k]] == 0;
    } else {
      DistinctCount(init, k);
      assert init[k] == s[k];
    }
  }
}
