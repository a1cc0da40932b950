/** The steps that prepare the target: mounting its partitions, extracting
    the root filesystem payload into it, creating its users, and unmounting
    it at the end. Each step is a function from the programs' answers and
    the filesystem to an `Attempt`, and a method on a `Machine` that does
    exactly that. */
module TargetSteps {
  import opened Wrappers
  import opened Text
  import opened Paths
  import opened Tools
  import opened Install
  import opened Effects
  import opened Machines

  // ---------------------------------------------------------------------
  // mount_partitions

  function MountEffects(tool: Oracle, esp: string, root: string, plan: MountPlan): Attempt
  {
    var rootMount := Mount("ext4", root, plan.targetRoot);
    var first := [MadeDir(plan.targetRoot), Ran(rootMount)];
    if !Succeeded(tool(rootMount)) then
      Attempt(first, WithContext(RunOutcome("mount", tool(rootMount)), "Failed to mount root " + root))
    else
      var espMount := Mount("vfat", esp, plan.targetEfi);
      Attempt(first + [MadeDir(plan.targetEfi), Ran(espMount)],
              WithContext(RunOutcome("mount", tool(espMount)), "Failed to mount ESP " + esp))
  }

  /** The ESP's mount point is created and mounted only once the root is
      mounted, so it lies on the new root filesystem; a failure ends the
      step. */
  lemma MountRootFirst(tool: Oracle, esp: string, root: string, plan: MountPlan)
    requires plan.targetEfi != plan.targetRoot
    ensures MadeDir(plan.targetEfi) in MountEffects(tool, esp, root, plan).effects ==>
              Precedes(MountEffects(tool, esp, root, plan).effects, Ran(Mount("ext4", root, plan.targetRoot)), MadeDir(plan.targetEfi))
    ensures Ran(Mount("vfat", esp, plan.targetEfi)) in MountEffects(tool, esp, root, plan).effects ==>
              Precedes(MountEffects(tool, esp, root, plan).effects, MadeDir(plan.targetEfi), Ran(Mount("vfat", esp, plan.targetEfi)))
    ensures MountEffects(tool, esp, root, plan).outcome.Pass? <==>
              Succeeded(tool(Mount("ext4", root, plan.targetRoot))) && Succeeded(tool(Mount("vfat", esp, plan.targetEfi)))
  {
    var a := MountEffects(tool, esp, root, plan);
    var rootMount := Mount("ext4", root, plan.targetRoot);
    if Succeeded(tool(rootMount)) {
      assert a.effects[1] == Ran(rootMount) && a.effects[2] == MadeDir(plan.targetEfi);
      assert a.effects[3] == Ran(Mount("vfat", esp, plan.targetEfi));
    } else {
      assert a.effects == [MadeDir(plan.targetRoot), Ran(rootMount)];
    }
  }

  method MountPartitions(m: Machine, esp: string, root: string, plan: MountPlan) returns (r: Outcome)
    requires m.Valid()
    modifies m
    ensures m.Valid()
    ensures m.trace == old(m.trace) + MountEffects(m.tool, esp, root, plan).effects
    ensures m.fs == Replay(old(m.fs), MountEffects(m.tool, esp, root, plan).effects)
    ensures r == MountEffects(m.tool, esp, root, plan).outcome
  {
    m.CreateDirAll(plan.targetRoot);
    var o := m.Run(Mount("ext4", root, plan.targetRoot));
    if !Succeeded(o) {
      r := WithContext(RunOutcome("mount", o), "Failed to mount root " + root);
    } else {
      m.CreateDirAll(plan.targetEfi);
      o := m.Run(Mount("vfat", esp, plan.targetEfi));
      r := WithContext(RunOutcome("mount", o), "Failed to mount ESP " + esp);
    }
    ReplayAppend(m.initial, old(m.trace), MountEffects(m.tool, esp, root, plan).effects);
  }

  // ---------------------------------------------------------------------
  // extract_rootfs_payload

  function ExtractCommand(payload: string, targetRoot: string): Command
  {
    Command(Tar(payload, targetRoot), AsRun, "Failed to extract payload " + payload + " to " + targetRoot)
  }

  function ExtractEffects(tool: Oracle, fs: Fs, payload: string, targetRoot: string): Attempt
  {
    if !Exists(fs, payload) then Attempt([], Fail("Payload does not exist: " + payload))
    else RunInOrder(tool, [ExtractCommand(payload, targetRoot)])
  }

  /** tar runs exactly when the payload exists, and the step passes exactly
      when it then succeeds. */
  lemma PayloadCheckedFirst(tool: Oracle, fs: Fs, payload: string, targetRoot: string)
    ensures ExtractEffects(tool, fs, payload, targetRoot).effects
            == (if Exists(fs, payload) then [Ran(Tar(payload, targetRoot))] else [])
    ensures ExtractEffects(tool, fs, payload, targetRoot).outcome.Pass?
            <==> Exists(fs, payload) && Succeeded(tool(Tar(payload, targetRoot)))
  {
    RunInOrderStops(tool, [ExtractCommand(payload, targetRoot)]);
  }

  method ExtractRootfsPayload(m: Machine, payload: string, targetRoot: string) returns (r: Outcome)
    requires m.Valid()
    modifies m
    ensures m.Valid()
    ensures m.trace == old(m.trace) + ExtractEffects(m.tool, old(m.fs), payload, targetRoot).effects
    ensures m.fs == old(m.fs)
    ensures r == ExtractEffects(m.tool, old(m.fs), payload, targetRoot).outcome
  {
    if !Exists(m.fs, payload) {
      return Fail("Payload does not exist: " + payload);
    }
    r := RunCommands(m, [ExtractCommand(payload, targetRoot)]);
  }

  // ---------------------------------------------------------------------
  // configure_initial_users

  const SUDO := "usr/bin/sudo"
  /** The user-management programs the users step needs in the target */
  const USER_TOOLS: seq<string> := ["usr/sbin/groupadd", "usr/sbin/useradd", "usr/sbin/chpasswd"]
  const INITIAL_USER := "truthdb"
  const INITIAL_PASSWORD := "123456"

  /** The first of the user-management programs missing from the target */
  function MissingUserTool(fs: Fs, targetRoot: string): (r: Option<string>)
    ensures r.None? <==> forall i :: 0 <= i < |USER_TOOLS| ==> Exists(fs, PathJoin(targetRoot, USER_TOOLS[i]))
    ensures r.Some? ==> exists k :: 0 <= k < |USER_TOOLS| && r.value == PathJoin(targetRoot, USER_TOOLS[k])
                          && !Exists(fs, r.value)
                          && forall i :: 0 <= i < k ==> Exists(fs, PathJoin(targetRoot, USER_TOOLS[i]))
  {
    var paths := [PathJoin(targetRoot, USER_TOOLS[0]), PathJoin(targetRoot, USER_TOOLS[1]), PathJoin(targetRoot, USER_TOOLS[2])];
    if !Exists(fs, paths[0]) then Some(paths[0])
    else if !Exists(fs, paths[1]) then Some(paths[1])
    else if !Exists(fs, paths[2]) then Some(paths[2])
    else None
  }

  function GroupaddCommand(targetRoot: string): Command
  {
    Command(Chroot(targetRoot, "/usr/sbin/groupadd", ["-f", "sudo"]), AsChroot("/usr/sbin/groupadd"),
            "Failed to ensure sudo group exists")
  }

  function UseraddCommand(targetRoot: string): Command
  {
    Command(Chroot(targetRoot, "/usr/sbin/useradd", ["-m", "-s", "/bin/bash", "-G", "sudo", INITIAL_USER]),
            AsChroot("/usr/sbin/useradd"), "Failed to create truthdb user")
  }

  function PasswordCommand(targetRoot: string, username: string, context: string): Command
  {
    Command(Chpasswd(targetRoot, username, INITIAL_PASSWORD), AsChpasswd, context)
  }

  /** The chroot commands of the users step: the sudo group, the user
      unless passwd already lists it (an unreadable passwd counting as not
      listing it), then both passwords */
  function UserCommands(fs: Fs, targetRoot: string): seq<Command>
  {
    var passwdPath := PathJoin(targetRoot, "etc/passwd");
    var known := TargetUserExists(passwdPath, ReadFile(fs, passwdPath), INITIAL_USER);
    [GroupaddCommand(targetRoot)]
    + (if known == Ok(true) then [] else [UseraddCommand(targetRoot)])
    + [PasswordCommand(targetRoot, INITIAL_USER, "Failed to set truthdb password"),
       PasswordCommand(targetRoot, "root", "Failed to set root password")]
  }

  /** `configure_initial_users`: the checks, then the chroot commands */
  function UsersEffects(tool: Oracle, fs: Fs, targetRoot: string): Attempt
  {
    var sudo := PathJoin(targetRoot, SUDO);
    if !Exists(fs, sudo) then
      Attempt([], Fail("Target rootfs is missing sudo (expected " + sudo + "). Ensure payload includes sudo."))
    else match MissingUserTool(fs, targetRoot)
      case Some(p) => Attempt([], Fail("Missing in target rootfs: " + p))
      case None => RunInOrder(tool, UserCommands(fs, targetRoot))
  }

  method ConfigureInitialUsers(m: Machine, plan: MountPlan) returns (r: Outcome)
    requires m.Valid()
    modifies m
    ensures m.Valid()
    ensures m.trace == old(m.trace) + UsersEffects(m.tool, old(m.fs), plan.targetRoot).effects
    ensures m.fs == old(m.fs)
    ensures r == UsersEffects(m.tool, old(m.fs), plan.targetRoot).outcome
  {
    var sudo := PathJoin(plan.targetRoot, SUDO);
    if !Exists(m.fs, sudo) {
      return Fail("Target rootfs is missing sudo (expected " + sudo + "). Ensure payload includes sudo.");
    }
    for i := 0 to |USER_TOOLS|
      invariant forall j :: 0 <= j < i ==> Exists(m.fs, PathJoin(plan.targetRoot, USER_TOOLS[j]))
    {
      var required := PathJoin(plan.targetRoot, USER_TOOLS[i]);
      if !Exists(m.fs, required) {
        return Fail("Missing in target rootfs: " + required);
      }
    }
    r := RunCommands(m, UserCommands(m.fs, plan.targetRoot));
  }

  /** Every command runs inside the target */
  predicate AllChroot(cmds: seq<Command>, targetRoot: string)
  {
    forall i :: 0 <= i < |cmds| ==>
      cmds[i].inv.program == "chroot" && |cmds[i].inv.args| > 0 && cmds[i].inv.args[0] == targetRoot
  }

  lemma UserCommandsInTarget(fs: Fs, targetRoot: string)
    ensures AllChroot(UserCommands(fs, targetRoot), targetRoot)
  {
  }

  /** Nothing runs unless sudo and every user tool are in the target, and
      whatever runs, runs inside the target, the sudo group first. */
  lemma UsersCheckFirst(tool: Oracle, fs: Fs, targetRoot: string)
    ensures UsersEffects(tool, fs, targetRoot).effects != [] <==>
              Exists(fs, PathJoin(targetRoot, SUDO))
              && forall i :: 0 <= i < |USER_TOOLS| ==> Exists(fs, PathJoin(targetRoot, USER_TOOLS[i]))
    ensures UsersEffects(tool, fs, targetRoot).effects != [] ==>
              UsersEffects(tool, fs, targetRoot).effects[0] == Ran(GroupaddCommand(targetRoot).inv)
    ensures forall j :: 0 <= j < |UsersEffects(tool, fs, targetRoot).effects| ==>
              UsersEffects(tool, fs, targetRoot).effects[j].Ran?
              && UsersEffects(tool, fs, targetRoot).effects[j].inv.program == "chroot"
              && |UsersEffects(tool, fs, targetRoot).effects[j].inv.args| > 0
              && UsersEffects(tool, fs, targetRoot).effects[j].inv.args[0] == targetRoot
  {
    var cmds := UserCommands(fs, targetRoot);
    RunInOrderStops(tool, cmds);
    UserCommandsInTarget(fs, targetRoot);
  }

  /** Some line of a readable passwd file is the user's entry */
  predicate ListsUser(passwd: Option<string>, username: string)
  {
    passwd.Some? && exists i :: 0 <= i < |Lines(passwd.value)| && IsEntryOf(username, Lines(passwd.value)[i])
  }

  /** Once the sudo group exists, the user is created exactly when passwd
      does not already list it, an unreadable passwd counting as not
      listing it. */
  lemma UserCreatedUnlessListed(tool: Oracle, fs: Fs, targetRoot: string)
    requires Exists(fs, PathJoin(targetRoot, SUDO)) && MissingUserTool(fs, targetRoot).None?
    requires Succeeded(tool(GroupaddCommand(targetRoot).inv))
    ensures Ran(UseraddCommand(targetRoot).inv) in UsersEffects(tool, fs, targetRoot).effects
            <==> !ListsUser(ReadFile(fs, PathJoin(targetRoot, "etc/passwd")), INITIAL_USER)
  {
    var passwdPath := PathJoin(targetRoot, "etc/passwd");
    var cmds := UserCommands(fs, targetRoot);
    var useradd := UseraddCommand(targetRoot).inv;
    RunInOrderStops(tool, cmds);
    if ReadFile(fs, passwdPath).Some? {
      TargetUserExistsMeans(passwdPath, ReadFile(fs, passwdPath).value, INITIAL_USER);
    }
    var effects := UsersEffects(tool, fs, targetRoot).effects;
    assert forall i :: 0 <= i < |cmds| && cmds[i].inv == useradd ==> i == 1 by {
      assert GroupaddCommand(targetRoot).inv.args[1] != useradd.args[1];
    }
    if !ListsUser(ReadFile(fs, passwdPath), INITIAL_USER) {
      assert effects[1] == Ran(useradd);
    } else {
      assert forall i :: 0 <= i < |cmds| ==> cmds[i].inv != useradd;
    }
  }

  // ---------------------------------------------------------------------
  // unmount_target

  /** The nested ESP first, then the root */
  function UnmountCommands(plan: MountPlan): seq<Command>
  {
    [Command(Umount(plan.targetEfi), AsRun, "Failed to umount " + plan.targetEfi),
     Command(Umount(plan.targetRoot), AsRun, "Failed to umount " + plan.targetRoot)]
  }

  /** The ESP is unmounted first, and the root is not tried when the ESP
      stays mounted. */
  lemma UnmountEspFirst(tool: Oracle, plan: MountPlan)
    requires plan.targetEfi != plan.targetRoot
    ensures RunInOrder(tool, UnmountCommands(plan)).effects[0] == Ran(Umount(plan.targetEfi))
    ensures Ran(Umount(plan.targetRoot)) in RunInOrder(tool, UnmountCommands(plan)).effects
            <==> Succeeded(tool(Umount(plan.targetEfi)))
    ensures RunInOrder(tool, UnmountCommands(plan)).outcome.Pass?
            <==> Succeeded(tool(Umount(plan.targetEfi))) && Succeeded(tool(Umount(plan.targetRoot)))
  {
    var cmds := UnmountCommands(plan);
    RunInOrderStops(tool, cmds);
    assert Umount(plan.targetEfi).args[0] != Umount(plan.targetRoot).args[0];
    assert AllSucceed(tool, cmds) <==> Succeeded(tool(cmds[0].inv)) && Succeeded(tool(cmds[1].inv));
  }

  method UnmountTarget(m: Machine, plan: MountPlan) returns (r: Outcome)
    requires m.Valid()
    modifies m
    ensures m.Valid()
    ensures m.trace == old(m.trace) + RunInOrder(m.tool, UnmountCommands(plan)).effects
    ensures m.fs == old(m.fs)
    ensures r == RunInOrder(m.tool, UnmountCommands(plan)).outcome
  {
    r := RunCommands(m, UnmountCommands(plan));
  }
}
