/**
 * The command descriptors the parser hands to execute.c. The parser's own
 * header (command.h) is not part of this model; its tagged union and flag
 * bitset are rendered as a datatype and a record of booleans.
 */
module Command {

  /** `CommandType`: the tag of a descriptor. */
  datatype CommandType = Generic | Echo | Export | Cd | Kill | Pwd | Jobs | Exit | Eoc

  /** A descriptor with the fields each variant carries; `Cd`'s target may be unset (NULL). */
  datatype Cmd =
    | GenericCmd(args: seq<string>)
    | EchoCmd(words: seq<string>)
    | ExportCmd(envVar: string, val: string)
    | CdCmd(dir: Option<string>)
    | KillCmd(sig: int, job: int)
    | PwdCmd
    | JobsCmd
    | ExitCmd
    | EocCmd

  datatype Option<T> = None | Some(value: T)

  /** The flags bitset of a command holder, one field per bit. */
  datatype Flags = Flags(
    pipeIn: bool, pipeOut: bool,
    redirectIn: bool, redirectOut: bool, redirectAppend: bool,
    background: bool)

  /** `CommandHolder`: a descriptor with its flags and redirect file names. */
  datatype Holder = Holder(cmd: Cmd, flags: Flags, redirectIn: string, redirectOut: string)

  /** `get_command_type`: the tag of a descriptor. */
  function TypeOf(c: Cmd): (t: CommandType)
    ensures t == Eoc <==> c.EocCmd?
    ensures t == Exit <==> c.ExitCmd?
  {
    match c
    case GenericCmd(_) => Generic
    case EchoCmd(_) => Echo
    case ExportCmd(_, _) => Export
    case CdCmd(_) => Cd
    case KillCmd(_, _) => Kill
    case PwdCmd => Pwd
    case JobsCmd => Jobs
    case ExitCmd => Exit
    case EocCmd => Eoc
  }

  /** The stages of a holder array: everything before its first `EOC` marker. */
  predicate Terminated(hs: seq<Holder>)
  {
    exists k :: 0 <= k < |hs| && hs[k].cmd.EocCmd?
  }

  /** The index of the first `EOC` marker, i.e. the number of stages. */
  function StageCount(hs: seq<Holder>): (n: nat)
    requires Terminated(hs)
    ensures n < |hs| && hs[n].cmd.EocCmd?
    ensures forall k :: 0 <= k < n ==> !hs[k].cmd.EocCmd?
  {
    if hs[0].cmd.EocCmd? then 0 else
      assert Terminated(hs[1..]) by {
        var k :| 0 <= k < |hs| && hs[k].cmd.EocCmd?;
        assert hs[1..][k - 1] == hs[k];
      }
      1 + StageCount(hs[1..])
  }
}
