/** The machine the installer runs on, as the steps see it: a filesystem
    (the target's mounts included) and the effects a step has on it, each
    step described as the effects it has, in order, and how it ends. */
module Effects {
  import opened Wrappers
  import opened Text
  import opened Tools

  /** An entry of the filesystem; a link holds its target as written */
  datatype Node = File(contents: string) | Dir | Link(target: string)

  /** The filesystem as the installer sees it, by absolute path */
  type Fs = map<string, Node>

  /** One thing the installer did */
  datatype Effect =
    | Ran(inv: Invocation)
    | MadeDir(path: string)
    | Wrote(path: string, contents: string)
    | Copied(src: string, dst: string)
    | Linked(path: string, target: string)
    | Removed(path: string)

  /** What a step did, and how it ended */
  datatype Attempt = Attempt(effects: seq<Effect>, outcome: Outcome)

  // ---------------------------------------------------------------------
  // The filesystem

  /** `Path::exists`: the entry is there and, for a link, its target is
      there too. A link's target is looked up as written, from the
      installer's own root, one level deep. */
  predicate Exists(fs: Fs, p: string)
  {
    p in fs && (fs[p].Link? ==> fs[p].target in fs && !fs[fs[p].target].Link?)
  }

  /** `read_to_string`: the contents of the file at `p`, through a link */
  function ReadFile(fs: Fs, p: string): (r: Option<string>)
    ensures r.Some? ==> Exists(fs, p)
  {
    if p !in fs then None
    else match fs[p]
      case File(c) => Some(c)
      case Dir => None
      case Link(t) => if t in fs && fs[t].File? then Some(fs[t].contents) else None
  }

  /** `create_dir_all` on a path, whose ancestors are not recorded */
  function WithDir(fs: Fs, p: string): Fs
  {
    if p in fs then fs else fs[p := Dir]
  }

  /** The filesystem after one effect */
  function Apply(fs: Fs, e: Effect): Fs
  {
    match e
    case Ran(_) => fs
    case MadeDir(p) => WithDir(fs, p)
    case Wrote(p, c) => fs[p := File(c)]
    case Copied(src, dst) => if ReadFile(fs, src).Some? then fs[dst := File(ReadFile(fs, src).value)] else fs
    case Linked(p, t) => fs[p := Link(t)]
    case Removed(p) => fs - {p}
  }

  /** The filesystem after a sequence of effects */
  function Replay(fs: Fs, effects: seq<Effect>): Fs
    decreases |effects|
  {
    if effects == [] then fs else Replay(Apply(fs, effects[0]), effects[1..])
  }

  lemma {:induction false} ReplayAppend(fs: Fs, a: seq<Effect>, b: seq<Effect>)
    ensures Replay(fs, a + b) == Replay(Replay(fs, a), b)
    decreases |a|
  {
    if a == [] {
      assert a + b == b;
    } else {
      assert (a + b)[0] == a[0] && (a + b)[1..] == a[1..] + b;
      ReplayAppend(Apply(fs, a[0]), a[1..], b);
    }
  }

  lemma ReplayOne(fs: Fs, a: Effect)
    ensures Replay(fs, [a]) == Apply(fs, a)
  {
    assert [a][1..] == [];
  }

  lemma ReplayTwo(fs: Fs, a: Effect, b: Effect)
    ensures Replay(fs, [a, b]) == Apply(Apply(fs, a), b)
  {
    assert [a, b][1..] == [b];
    ReplayOne(Apply(fs, a), b);
  }

  lemma ReplayThree(fs: Fs, a: Effect, b: Effect, c: Effect)
    ensures Replay(fs, [a, b, c]) == Apply(Apply(Apply(fs, a), b), c)
  {
    assert [a, b, c][1..] == [b, c];
    ReplayTwo(Apply(fs, a), b, c);
  }

  lemma ReplaySnoc(fs: Fs, a: seq<Effect>, e: Effect)
    ensures Replay(fs, a + [e]) == Apply(Replay(fs, a), e)
  {
    ReplayAppend(fs, a, [e]);
  }

  /** Every entry stays in a filesystem that only gains entries */
  predicate Extends(fs: Fs, fs2: Fs)
  {
    forall p :: p in fs ==> p in fs2 && fs2[p] == fs[p]
  }

  /** What exists stays in a filesystem that only gains entries. */
  lemma ExistsKept(fs: Fs, fs2: Fs, p: string)
    requires Extends(fs, fs2) && Exists(fs, p)
    ensures Exists(fs2, p)
  {
    if fs[p].Link? {
      assert fs[p].target in fs;
    }
  }

  /** Creating a directory only adds an entry. */
  lemma WithDirExtends(fs: Fs, p: string)
    ensures Extends(fs, WithDir(fs, p))
  {
  }

  /** Effect `a` happens before effect `b` */
  predicate Precedes(effects: seq<Effect>, a: Effect, b: Effect)
  {
    exists i, j :: 0 <= i < j < |effects| && effects[i] == a && effects[j] == b
  }

  // ---------------------------------------------------------------------
  // Commands

  function Mount(fsType: string, dev: string, dir: string): Invocation
  {
    Exec("mount", ["-t", fsType, dev, dir])
  }

  function Umount(dir: string): Invocation
  {
    Exec("umount", [dir])
  }

  function Tar(payload: string, targetRoot: string): Invocation
  {
    Exec("tar", ["--zstd", "-xpf", payload, "-C", targetRoot])
  }

  /** `chroot_run`: a program of the target, run inside it */
  function Chroot(targetRoot: string, program: string, args: seq<string>): Invocation
  {
    Exec("chroot", [targetRoot, program] + args)
  }

  /** `chroot_chpasswd`: chpasswd inside the target, fed "user:password\n" */
  function Chpasswd(targetRoot: string, username: string, password: string): Invocation
  {
    Invocation("chroot", [targetRoot, "/usr/sbin/chpasswd"], username + ":" + password + "\n")
  }

  function Blkid(dev: string): Invocation
  {
    Exec("blkid", ["-s", "UUID", "-o", "value", dev])
  }

  function QuoteStreams(o: ToolOutput): string
  {
    "stdout='" + o.stdout + "' stderr='" + o.stderr + "'"
  }

  function ChrootOutcome(program: string, o: ToolOutput): (r: Outcome)
    ensures r.Pass? <==> Succeeded(o)
  {
    if Succeeded(o) then Pass else Fail("chroot " + program + " failed: " + QuoteStreams(o))
  }

  function ChpasswdOutcome(o: ToolOutput): (r: Outcome)
    ensures r.Pass? <==> Succeeded(o)
  {
    if Succeeded(o) then Pass else Fail("chpasswd failed: " + QuoteStreams(o))
  }

  /** `blkid_uuid`: the trimmed output of a successful blkid run, which must
      not be empty */
  function BlkidUuid(dev: string, o: ToolOutput): (r: Result<string>)
    ensures r.Ok? <==> Succeeded(o) && Trim(o.stdout) != []
    ensures r.Ok? ==> r.value == Trim(o.stdout)
  {
    if !Succeeded(o) then Err("blkid failed for " + dev + ": " + QuoteStreams(o))
    else if Trim(o.stdout) == [] then Err("blkid returned empty UUID for " + dev)
    else Ok(Trim(o.stdout))
  }

  // ---------------------------------------------------------------------
  // Commands run one after another

  /** How the failure of a command is reported: as `run` reports it, as
      `chroot_run` reports it for the named program, or as
      `chroot_chpasswd` reports it */
  datatype Failure = AsRun | AsChroot(program: string) | AsChpasswd

  /** A command of a step and the context its failure is reported in */
  datatype Command = Command(inv: Invocation, failure: Failure, context: string)

  /** The outcome of a command given its output */
  function Explain(c: Command, o: ToolOutput): (r: Outcome)
    ensures r.Pass? <==> Succeeded(o)
  {
    var base := match c.failure
      case AsRun => RunOutcome(c.inv.program, o)
      case AsChroot(p) => ChrootOutcome(p, o)
      case AsChpasswd => ChpasswdOutcome(o);
    WithContext(base, c.context)
  }

  /** Commands run in order, each `?` ending the step at the first failure */
  function RunInOrder(tool: Oracle, cmds: seq<Command>): Attempt
  {
    if cmds == [] then Attempt([], Pass)
    else if !Succeeded(tool(cmds[0].inv)) then
      Attempt([Ran(cmds[0].inv)], Explain(cmds[0], tool(cmds[0].inv)))
    else
      var rest := RunInOrder(tool, cmds[1..]);
      Attempt([Ran(cmds[0].inv)] + rest.effects, rest.outcome)
  }

  /** Every command of the list succeeds */
  predicate AllSucceed(tool: Oracle, cmds: seq<Command>)
  {
    forall i :: 0 <= i < |cmds| ==> Succeeded(tool(cmds[i].inv))
  }

  /** The commands run are a prefix of the list, each run only after all
      before it succeeded; the step passes exactly when every command
      succeeds, and otherwise ends with the failure of the last one run. */
  lemma {:induction false} RunInOrderStops(tool: Oracle, cmds: seq<Command>)
    ensures |RunInOrder(tool, cmds).effects| <= |cmds|
    ensures forall j :: 0 <= j < |RunInOrder(tool, cmds).effects| ==>
              RunInOrder(tool, cmds).effects[j] == Ran(cmds[j].inv)
    ensures forall j :: 0 <= j < |RunInOrder(tool, cmds).effects| - 1 ==> Succeeded(tool(cmds[j].inv))
    ensures RunInOrder(tool, cmds).outcome.Pass? <==> AllSucceed(tool, cmds)
    ensures RunInOrder(tool, cmds).outcome.Pass? ==> |RunInOrder(tool, cmds).effects| == |cmds|
    ensures RunInOrder(tool, cmds).outcome.Fail? ==> RunInOrder(tool, cmds).effects != []
    ensures RunInOrder(tool, cmds).outcome.Fail? ==>
              RunInOrder(tool, cmds).outcome
              == Explain(cmds[|RunInOrder(tool, cmds).effects| - 1], tool(cmds[|RunInOrder(tool, cmds).effects| - 1].inv))
  {
    if cmds != [] && Succeeded(tool(cmds[0].inv)) {
      var rest := cmds[1..];
      RunInOrderStops(tool, rest);
      assert forall j :: 0 <= j < |rest| ==> rest[j] == cmds[j + 1];
      assert AllSucceed(tool, cmds) <==> AllSucceed(tool, rest) by {
        if AllSucceed(tool, rest) {
          assert forall i :: 1 <= i < |cmds| ==> cmds[i] == rest[i - 1];
        }
      }
    }
  }
}
