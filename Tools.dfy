/** External programs as the installer sees them: an invocation (program,
    arguments, standard input) answered by an exit status and both output
    streams. The answers come from an oracle, a function supplied by the
    caller, which stands for the machine the installer runs on. */
module Tools {
  import opened Wrappers

  datatype Invocation = Invocation(program: string, args: seq<string>, stdin: string)

  /** Exit status and captured streams; a program that cannot be started is
      an output with a non-zero status. */
  datatype ToolOutput = ToolOutput(exit: int, stdout: string, stderr: string)

  type Oracle = Invocation -> ToolOutput

  predicate Succeeded(o: ToolOutput)
  {
    o.exit == 0
  }

  /** A command run with an empty standard input */
  function Exec(program: string, args: seq<string>): Invocation
  {
    Invocation(program, args, "")
  }

  /** The `--version` probe of `command_exists` */
  function Probe(program: string): Invocation
  {
    Exec(program, ["--version"])
  }

  /** `command_exists`: the probe exits successfully */
  predicate CommandExists(tool: Oracle, program: string)
  {
    Succeeded(tool(Probe(program)))
  }

  /** What `run` makes of an output: success, or an error quoting both streams */
  function RunOutcome(program: string, o: ToolOutput): (r: Outcome)
    ensures r.Pass? <==> Succeeded(o)
  {
    if Succeeded(o) then Pass
    else Fail(program + " failed: stdout='" + o.stdout + "' stderr='" + o.stderr + "'")
  }

  /** `.with_context(ctx)` as the alternate display `{:#}` shows it */
  function WithContext(o: Outcome, ctx: string): (r: Outcome)
    ensures r.Pass? <==> o.Pass?
  {
    match o
    case Pass => Pass
    case Fail(msg) => Fail(ctx + ": " + msg)
  }
}
