/**
 * The descriptor wiring `create_process` sets up for pipeline stage `i`:
 * which of the two pipe slots it creates, where the child's standard input
 * and output end up, and which write end the parent closes. The system
 * calls themselves are not modelled, only the slot and flag arithmetic.
 */
module Pipeline {
  import opened Command

  /** Where a child's standard input comes from. */
  datatype StdinSource = InheritedIn | PipeRead(slot: nat) | FileRead(path: string)

  /** Where a child's standard output goes; a file is opened truncating ("w") or appending ("a"). */
  datatype StdoutSink = InheritedOut | PipeWrite(slot: nat) | FileTruncate(path: string) | FileAppend(path: string)

  /**
   * The effect of one `create_process` call on descriptors: the slot whose
   * pipe is created before the fork, the child's effective streams, and the
   * slot whose write end the parent closes after the fork.
   */
  datatype Wiring = Wiring(created: Option<nat>, stdin: StdinSource, stdout: StdoutSink, parentCloses: Option<nat>)

  /** The slot a stage writes to: `i % 2`. */
  function WriteSlot(i: nat): nat
  {
    i % 2
  }

  /** The slot a stage reads from: `(i - 1) % 2`; C's `%` at `i == 0` would index slot -1, so `i >= 1`. */
  function ReadSlot(i: nat): nat
    requires i >= 1
  {
    (i - 1) % 2
  }

  /** The child's standard input: the pipe is wired first and an input redirect then replaces it. */
  function ChildStdin(h: Holder, i: nat): StdinSource
    requires h.flags.pipeIn ==> i >= 1
  {
    var piped := if h.flags.pipeIn then PipeRead(ReadSlot(i)) else InheritedIn;
    if h.flags.redirectIn then FileRead(h.redirectIn) else piped
  }

  /** The child's standard output: the pipe is wired first and an output redirect then replaces it. */
  function ChildStdout(h: Holder, i: nat): StdoutSink
  {
    var piped := if h.flags.pipeOut then PipeWrite(WriteSlot(i)) else InheritedOut;
    if !h.flags.redirectOut then piped
    else if h.flags.redirectAppend then FileAppend(h.redirectOut)
    else FileTruncate(h.redirectOut)
  }

  /** `create_process`'s descriptor plan for stage `i`. */
  function StagePlan(h: Holder, i: nat): (w: Wiring)
    requires h.flags.pipeIn ==> i >= 1
    ensures w.created.Some? <==> h.flags.pipeOut
    ensures w.created.Some? ==> w.created.value == i % 2 < 2
    ensures w.parentCloses == w.created
    ensures h.flags.redirectIn ==> w.stdin == FileRead(h.redirectIn)
    ensures !h.flags.redirectIn && h.flags.pipeIn ==> w.stdin == PipeRead((i - 1) % 2)
    ensures !h.flags.redirectIn && !h.flags.pipeIn ==> w.stdin == InheritedIn
    ensures h.flags.redirectOut && h.flags.redirectAppend ==> w.stdout == FileAppend(h.redirectOut)
    ensures h.flags.redirectOut && !h.flags.redirectAppend ==> w.stdout == FileTruncate(h.redirectOut)
    ensures !h.flags.redirectOut && h.flags.pipeOut ==> w.stdout == PipeWrite(w.created.value)
    ensures !h.flags.redirectOut && !h.flags.pipeOut ==> w.stdout == InheritedOut
    ensures w.stdin.PipeRead? && w.created.Some? ==> w.stdin.slot != w.created.value
  {
    var slot := if h.flags.pipeOut then Some(WriteSlot(i)) else None;
    Wiring(slot, ChildStdin(h, i), ChildStdout(h, i), slot)
  }

  /**
   * Adjacent stages connected by a pipe and not redirected: stage `i + 1`
   * reads the very slot stage `i` created and writes to, and the pipe stage
   * `i + 1` creates goes to the other slot, so it does not replace it.
   */
  lemma AdjacentStagesShareAPipe(a: Holder, b: Holder, i: nat)
    requires a.flags.pipeIn ==> i >= 1
    requires a.flags.pipeOut && !a.flags.redirectOut
    requires b.flags.pipeIn && !b.flags.redirectIn
    ensures StagePlan(a, i).stdout == PipeWrite(StagePlan(a, i).created.value)
    ensures StagePlan(b, i + 1).stdin == PipeRead(StagePlan(a, i).created.value)
    ensures StagePlan(b, i + 1).created.Some? ==> StagePlan(b, i + 1).created != StagePlan(a, i).created
  {
  }
}
