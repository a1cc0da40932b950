/** The installer's machine as an object the steps act on: its filesystem,
    the programs it can run, and a ghost record of every effect so far. */
module Machines {
  import opened Wrappers
  import opened Tools
  import opened Effects

  class Machine {
    /** The filesystem, the target's mounts included */
    var fs: Fs
    /** Every effect since the machine was first seen, in order */
    ghost var trace: seq<Effect>
    /** The filesystem when the machine was first seen */
    ghost const initial: Fs
    /** The programs' answers */
    const tool: Oracle

    /** The filesystem is what the recorded effects made of the first one */
    ghost predicate Valid()
      reads this
    {
      fs == Replay(initial, trace)
    }

    constructor (tool: Oracle, fs: Fs)
      ensures Valid()
      ensures this.fs == fs && this.tool == tool && trace == []
    {
      this.fs := fs;
      this.tool := tool;
      initial := fs;
      trace := [];
    }

    /** Carries out one effect and records it */
    method Perform(e: Effect)
      requires Valid()
      modifies this
      ensures Valid()
      ensures fs == Apply(old(fs), e) && trace == old(trace) + [e]
    {
      ReplaySnoc(initial, trace, e);
      fs := Apply(fs, e);
      trace := trace + [e];
    }

    /** Runs a program, which leaves the filesystem as it was */
    method Run(inv: Invocation) returns (o: ToolOutput)
      requires Valid()
      modifies this
      ensures Valid()
      ensures o == tool(inv)
      ensures fs == old(fs) && trace == old(trace) + [Ran(inv)]
    {
      o := tool(inv);
      Perform(Ran(inv));
    }

    /** `create_dir_all` */
    method CreateDirAll(p: string)
      requires Valid()
      modifies this
      ensures Valid()
      ensures fs == WithDir(old(fs), p) && trace == old(trace) + [MadeDir(p)]
    {
      Perform(MadeDir(p));
    }

    /** `write`, which replaces whatever was at the path */
    method WriteFile(p: string, contents: string)
      requires Valid()
      modifies this
      ensures Valid()
      ensures fs == old(fs)[p := File(contents)] && trace == old(trace) + [Wrote(p, contents)]
    {
      Perform(Wrote(p, contents));
    }

    /** `copy`: fails, changing nothing, when the source cannot be read */
    method Copy(src: string, dst: string) returns (ok: bool)
      requires Valid()
      modifies this
      ensures Valid()
      ensures ok <==> ReadFile(old(fs), src).Some?
      ensures ok ==> fs == old(fs)[dst := File(ReadFile(old(fs), src).value)] && trace == old(trace) + [Copied(src, dst)]
      ensures !ok ==> fs == old(fs) && trace == old(trace)
    {
      ok := ReadFile(fs, src).Some?;
      if ok {
        Perform(Copied(src, dst));
      }
    }

    /** `symlink`: fails with "File exists" when anything is at the path,
        even a link whose target is missing */
    method Symlink(target: string, p: string) returns (ok: bool)
      requires Valid()
      modifies this
      ensures Valid()
      ensures ok <==> p !in old(fs)
      ensures ok ==> fs == old(fs)[p := Link(target)] && trace == old(trace) + [Linked(p, target)]
      ensures !ok ==> fs == old(fs) && trace == old(trace)
    {
      ok := p !in fs;
      if ok {
        Perform(Linked(p, target));
      }
    }

    /** `remove_file`: removes a file or a link, but not a directory */
    method RemoveFile(p: string) returns (ok: bool)
      requires Valid()
      modifies this
      ensures Valid()
      ensures ok <==> p in old(fs) && !old(fs)[p].Dir?
      ensures ok ==> fs == old(fs) - {p} && trace == old(trace) + [Removed(p)]
      ensures !ok ==> fs == old(fs) && trace == old(trace)
    {
      ok := p in fs && !fs[p].Dir?;
      if ok {
        Perform(Removed(p));
      }
    }
  }

  /** Runs one command and reports its outcome as the step does */
  method RunCommand(m: Machine, c: Command) returns (r: Outcome)
    requires m.Valid()
    modifies m
    ensures m.Valid()
    ensures r == Explain(c, m.tool(c.inv))
    ensures m.fs == old(m.fs) && m.trace == old(m.trace) + [Ran(c.inv)]
  {
    var o := m.Run(c.inv);
    r := Explain(c, o);
  }

  /** Runs commands one after another until the first failure */
  method RunCommands(m: Machine, cmds: seq<Command>) returns (r: Outcome)
    requires m.Valid()
    modifies m
    ensures m.Valid()
    ensures r == RunInOrder(m.tool, cmds).outcome
    ensures m.fs == old(m.fs) && m.trace == old(m.trace) + RunInOrder(m.tool, cmds).effects
  {
    var i := 0;
    ghost var ran: seq<Effect> := [];
    while i < |cmds|
      invariant 0 <= i <= |cmds|
      invariant m.Valid() && m.fs == old(m.fs) && m.trace == old(m.trace) + ran
      invariant RunInOrder(m.tool, cmds).effects == ran + RunInOrder(m.tool, cmds[i..]).effects
      invariant RunInOrder(m.tool, cmds).outcome == RunInOrder(m.tool, cmds[i..]).outcome
    {
      RunInOrderAt(m.tool, cmds, i);
      r := RunCommand(m, cmds[i]);
      ran := ran + [Ran(cmds[i].inv)];
      if r.Fail? {
        return;
      }
      i := i + 1;
    }
    assert cmds[i..] == [];
    r := Pass;
  }

  /** The run from the `i`th command: that command, then the rest only if
      it succeeded */
  lemma RunInOrderAt(tool: Oracle, cmds: seq<Command>, i: nat)
    requires i < |cmds|
    ensures var here := RunInOrder(tool, cmds[i..]);
      var next := RunInOrder(tool, cmds[i + 1..]);
      if Succeeded(tool(cmds[i].inv))
      then here == Attempt([Ran(cmds[i].inv)] + next.effects, next.outcome)
      else here == Attempt([Ran(cmds[i].inv)], Explain(cmds[i], tool(cmds[i].inv)))
  {
    assert cmds[i..][0] == cmds[i] && cmds[i..][1..] == cmds[i + 1..];
  }
}
