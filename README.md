# Quash job control, modelled in Dafny

This project models the job-control bookkeeping of the Quash shell
(`execute.c`, over the deques declared in `jobs.c`). Each call of
`run_script` launches one process per pipeline stage and records the pid of
each. It then either waits for all of them (foreground) or turns them into
a background job in the job table. Before launching anything, a reaper pass
polls every background job and retires the jobs whose processes have all
exited.

The operating system is replaced by inputs:

- `fork` becomes the pid it returns, `forked[i]` for stage `i`;
- `waitpid(pid, .., WNOHANG) == 0` ("still running") becomes membership in
  a set `running` that is fixed for one pass;
- the blocking `waitpid` becomes removing the pid from the queue;
- `get_command_string()` becomes a `cmdText` parameter;
- `end_main_loop()` becomes the outcome `ExitShell`.

Modules, one per source component:

- `Jobs` (`jobs.dfy`): the `Job` record and a `Deque<T>` class over a
  sequence. This class serves as both `process_queue` and `job_queue`.
- `Command` (`command.dfy`): descriptor types as the parser supplies them.
  The parser's header is not part of this model.
- `Builtins` (`builtins.dfy`): the text `run_echo` prints and the
  unset-target guard of `run_cd`.
- `Dispatch` (`dispatch.dfy`): the child and parent dispatch tables.
- `Pipeline` (`pipeline.dfy`): pipe-slot parity and redirect precedence in
  `create_process`.
- `Reaper` (`reaper.dfy`): the reaper pass and the listing as functions,
  with their properties.
- `Shell` (`shell.dfy`): class `Session`, which holds the globals `job_q`,
  `pid_queue`, `job_number` and `booted`, with the imperative operations.
  Each operation is proved against the `Reaper` functions.

Behaviour of the code that is easy to misread, and that the model
reproduces:

- The completion notice prints the pid that was at the front of the job's
  queue when the pass began (execute.c:82, 98), not the stored
  representative pid. The listing prints the stored pid (execute.c:233).
  `CompletionShowsFrontPid` shows one job on which the two differ.
- `run_echo` prints a space after every argument, including the last one,
  and then a newline. It does not separate arguments with single spaces.
- `run_script` checks for a NULL array before it runs the reaper
  (execute.c:414-417), so a NULL call does not reap.
- `run_kill` has its whole body commented out. The parent table therefore
  routes `KILL` to an action that changes nothing.

## Model

| member | source | states |
|---|---|---|
| Jobs.Deque.constructor | jobs.c:3-4 | a new queue is empty |
| Jobs.Deque.PushBack | jobs.c:3-4 | appends at the back; the rest of the queue is unchanged |
| Jobs.Deque.PopFront | jobs.c:3-4 | returns the oldest element and removes exactly it; needs a non-empty queue |
| Jobs.Deque.PeekFront | jobs.c:3-4 | returns the oldest element and removes nothing |
| Jobs.Deque.PeekBack | jobs.c:3-4 | returns the newest element and removes nothing |
| Jobs.Deque.Length | jobs.c:3-4 | the number of elements |
| Jobs.Deque.IsEmpty | jobs.c:3-4 | true iff the length is 0 |
| Command.StageCount | execute.c:428-429 | the index of the first `EOC`; every holder before it is a stage |
| Builtins.RunEcho | execute.c:142-153 | the loop's output equals `EchoOutput`: each argument followed by a space, then a newline |
| Builtins.EchoOutputShape | execute.c:146-149 | the output length is the argument lengths plus one per argument plus one; the last character is a newline, and a space comes before it when there are arguments |
| Builtins.SplitWords | execute.c:146-149 | splitting the printed words at spaces gives back the arguments, when no argument contains a space |
| Builtins.RunCd | execute.c:164-177 | an unset target is an error and changes nothing; a set target is the directory passed to `chdir` |
| Dispatch.ChildRunCommand | execute.c:255-285 | acts exactly on GENERIC, ECHO, PWD and JOBS, passing the command's own arguments |
| Dispatch.ParentRunCommand | execute.c:298-325 | acts exactly on EXPORT, CD and KILL, passing the command's own fields |
| Dispatch.DispatchPartition | execute.c:258-324 | the two tables' sets are disjoint; EXIT and EOC are exactly the types neither table acts on |
| Pipeline.StagePlan | execute.c:342-397 | a `p_out` stage creates its pipe in slot `i % 2`, its child writes that slot, and the parent closes its write end; a `p_in` stage reads slot `(i - 1) % 2`; an input or output redirect overrides the pipe on its stream; `r_app` selects append over truncate; a stage never reads the slot it creates |
| Pipeline.AdjacentStagesShareAPipe | execute.c:353-371 | for piped, unredirected neighbours, stage `i + 1` reads the slot stage `i` writes, and the pipe stage `i + 1` creates goes to the other slot |
| Reaper.StillRunningMembers | execute.c:85-94 | a pid is kept iff it was in the queue and the oracle reports it still running |
| Reaper.StillRunningInOrder | execute.c:85-94 | kept pids keep their original relative order |
| Reaper.StillRunningIdempotent | execute.c:85-94 | a second pass with the same oracle drops nothing more |
| Reaper.ReapTableMembers | execute.c:96-101 | a job is in the new table iff it is an unfinished job of the old table, with its queue reaped |
| Reaper.ReapTableInOrder | execute.c:75-101 | surviving jobs keep their relative order |
| Reaper.ReapAccountsForEveryJob | execute.c:71-102 | the ids of the new table plus those of the completion notices are, as a multiset, the ids of the old table |
| Reaper.ReapCount | execute.c:71-75 | the pass re-appends or retires exactly as many jobs as it counted at its start |
| Reaper.CompletionNoticeMembers | execute.c:82-98 | a completion notice belongs to a finished job and carries its id, its command and the pid at the front of its queue before the pass |
| Reaper.CompletionCarriesFrontPid | execute.c:82-98 | for every finished job with a non-empty queue, its completion notice carries its id, its command and the front pid of its queue, while its listing line carries the stored pid |
| Reaper.CompletionShowsFrontPid | execute.c:82-98 | on a job whose front pid differs from its stored pid, the completion notice shows the front pid and the listing shows the stored one |
| Reaper.RetiredExactlyOnce | execute.c:96-101 | when ids are distinct, a job leaves the table iff it is finished, and then it produces exactly one completion notice |
| Reaper.ReapIdempotent | execute.c:60-103 | a second pass with the same oracle changes nothing and retires nothing |
| Reaper.ListNoticesAt | execute.c:230-235 | the listing has one line per job, in table order, with the job's stored pid |
| Reaper.ReapKeepsInvariant | execute.c:96-101 | a pass preserves the table invariant: non-empty queues, and ids positive, below `job_number` and strictly increasing |
| Reaper.ReapTableIdsBelow | execute.c:96-101 | a pass introduces no new id: any bound on the ids before the pass bounds every id after it |
| Reaper.AppendKeepsInvariant | execute.c:445-456 | appending a job that has a non-empty queue and id `job_number` preserves the invariant once the counter is incremented |
| Shell.Session.constructor | execute.c:19-28 | the start-up state: `job_number` is 1, `booted` is false, and both queues are empty |
| Shell.KeepRunning | execute.c:80-94 | the inner reaper loop leaves exactly the still-running pids, in order, and returns the pre-pass front pid |
| Shell.Session.ReapFront | execute.c:77-101 | the front job is re-appended with its reaped queue, or dropped with one completion notice |
| Shell.Session.CheckJobsBgStatus | execute.c:60-103 | the new table is `ReapTable` of the old, the notices are `CompletionNotices` of the old, and the session invariant holds |
| Shell.Session.RunJobs | execute.c:227-238 | the table is identical afterwards, in content and order, and the listing is `ListNotices` of it |
| Shell.Session.CreateProcess | execute.c:342-402 | appends the forked pid to `pid_queue` and reports the stage's wiring and both dispatch actions |
| Shell.Session.LaunchStages | execute.c:425-429 | one launch per stage before `EOC`, in stage order; `pid_queue` gains exactly the forked pids, in fork order |
| Shell.Session.WaitForeground | execute.c:431-440 | removes every pid, in fork order, until the queue is empty |
| Shell.Session.StartBackgroundJob | execute.c:441-459 | the job gets id `job_number`, the counter rises by exactly 1, the job's pid is the back of `pid_queue`, and the job is appended at the back of the table with one start notice; an empty queue fails fast |
| Shell.Session.RunCommands | execute.c:416-459 | reaps first; `[EXIT, EOC]` launches nothing; otherwise it launches every stage, then waits (foreground: table and counter unchanged) or appends one job (background) |
| Shell.Session.RunScript | execute.c:405-415 | creates the job table on the first call only, always starts a fresh empty `pid_queue` before the NULL check, and does nothing else for NULL |

## Left out

- Process and descriptor plumbing is not modelled: `fork`, `execvp`, `dup2`, `pipe`, `close` and `fopen`. Only the slot and flag arithmetic is kept. A failed `fork` is not modelled either, so every pid comes from `forked`.
- The real `waitpid` and signal delivery are concurrency. One oracle set stands in for a whole pass. Each pid is polled once per pass, so any combination of results can be expressed this way.
- `get_current_directory`, `lookup_env`, `run_export` and `run_pwd` are left out, and so is the `chdir`/`getcwd`/`setenv` half of `run_cd`. They are thin wrappers over libc. `RunCd` models only the guard.
- `run_kill` is not modelled beyond its routing, because its body is commented out and it does nothing.
- The `printf` field widths of `print_job` are left out. Notices are records of kind, id, pid and command.
- Memory management is left out: `destroy_process_queue`, the never-freed queues of retired jobs, and the internals of the deque header.
- The `default:` branch of both dispatch tables is left out. The model's command type has no unknown values, so that branch cannot be reached.
- `job_number` is an unbounded integer. The 32-bit `int` overflow after 2^31 jobs is not modelled.
- The child side of the fork is left out: the child's own copy of `pid_queue`, and `child_run_command` running in the child. The model reports the child's action and wiring and does not run it. `run_jobs` is reached only from `child_run_command` (execute.c:271-273), so in the shell it runs on the forked child's copy of `job_q`; `Session.RunJobs` models that copy, and the parent's table is never touched by it.
- `RunCd` does not model a failing `chdir`: execute.c:175 ignores its result, so after a failed `chdir` the directory stays unchanged, no error is reported, and `PWD` is set from `getcwd`.
- KeepRunning, Session.ReapFront, Session.LaunchStages, Session.WaitForeground, Session.StartBackgroundJob and Session.RunCommands are parts of one C function each, split into separate methods so that each proof stays small. Apart from the one step named in the next line, they take the same steps in the same order.
- Session.StartBackgroundJob: the emptiness test before `peek_back` and the `Underflow` outcome are the model's own fail-fast choice. execute.c:454 calls `peek_back_process_queue` unguarded, and what that does on an empty queue depends on the deque header, which is not part of this model. In the model the session keeps running afterwards, with `job_number` already raised.
