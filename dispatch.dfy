/**
 * The two dispatch tables of execute.c: `child_run_command` runs in the
 * forked child, `parent_run_command` in the shell itself. Each is a
 * function from the descriptor to the builtin it invokes.
 */
module Dispatch {
  import opened Command

  /** What the child-side table invokes. */
  datatype ChildAction =
    | RunGeneric(args: seq<string>)
    | RunEcho(words: seq<string>)
    | RunPwd
    | RunJobs
    | NoChildAction

  /** What the parent-side table invokes; `RunKill`'s body is disabled in the shell, so it changes nothing. */
  datatype ParentAction =
    | RunExport(envVar: string, val: string)
    | RunCd(dir: Option<string>)
    | RunKill(sig: int, job: int)
    | NoParentAction

  /** The command types the child acts on. */
  const ChildTypes: set<CommandType> := {Generic, Echo, Pwd, Jobs}

  /** The command types the parent acts on. */
  const ParentTypes: set<CommandType> := {Export, Cd, Kill}

  /** `child_run_command`: acts exactly on the child types, passing the descriptor's own fields. */
  function ChildRunCommand(c: Cmd): (a: ChildAction)
    ensures a.NoChildAction? <==> TypeOf(c) !in ChildTypes
    ensures a.RunGeneric? ==> c == GenericCmd(a.args)
    ensures a.RunEcho? ==> c == EchoCmd(a.words)
    ensures a.RunPwd? ==> c == PwdCmd
    ensures a.RunJobs? ==> c == JobsCmd
  {
    match c
    case GenericCmd(args) => RunGeneric(args)
    case EchoCmd(words) => RunEcho(words)
    case PwdCmd => RunPwd
    case JobsCmd => RunJobs
    case _ => NoChildAction
  }

  /** `parent_run_command`: acts exactly on the parent types, passing the descriptor's own fields. */
  function ParentRunCommand(c: Cmd): (a: ParentAction)
    ensures a.NoParentAction? <==> TypeOf(c) !in ParentTypes
    ensures a.RunExport? ==> c == ExportCmd(a.envVar, a.val)
    ensures a.RunCd? ==> c == CdCmd(a.dir)
    ensures a.RunKill? ==> c == KillCmd(a.sig, a.job)
  {
    match c
    case ExportCmd(v, x) => RunExport(v, x)
    case CdCmd(d) => RunCd(d)
    case KillCmd(s, j) => RunKill(s, j)
    case _ => NoParentAction
  }

  /**
   * The tables split the command types: no type is acted on by both,
   * `EXIT` and `EOC` by neither, and every other type by exactly one.
   */
  lemma DispatchPartition(c: Cmd)
    ensures ChildTypes !! ParentTypes
    ensures !(ChildRunCommand(c) != NoChildAction && ParentRunCommand(c) != NoParentAction)
    ensures TypeOf(c) in {Exit, Eoc} <==> ChildRunCommand(c) == NoChildAction && ParentRunCommand(c) == NoParentAction
  {
  }
}
