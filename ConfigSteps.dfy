/** The steps that configure the extracted target: its hostname and hosts
    file, its machine-id, and the systemd units enabled by a link in
    `multi-user.target.wants`. Each step is stated over the paths it
    touches (`...Steps`) and then instantiated with the paths under the
    target root; the lemmas about the paths themselves only need them to be
    distinct. */
module ConfigSteps {
  import opened Wrappers
  import opened Text
  import opened Paths
  import opened Install
  import opened Effects
  import opened Machines
  import Hosts

  // ---------------------------------------------------------------------
  // configure_hostname

  function EtcDir(targetRoot: string): string
  {
    PathJoin(targetRoot, "etc")
  }

  function HostnamePath(targetRoot: string): string
  {
    PathJoin(EtcDir(targetRoot), "hostname")
  }

  function HostsPath(targetRoot: string): string
  {
    PathJoin(EtcDir(targetRoot), "hosts")
  }

  lemma HostnamePathsDistinct(targetRoot: string)
    ensures HostnamePath(targetRoot) != HostsPath(targetRoot)
    ensures EtcDir(targetRoot) != HostsPath(targetRoot) && EtcDir(targetRoot) != HostnamePath(targetRoot)
  {
    assert |HostnamePath(targetRoot)| == |HostsPath(targetRoot)| + 3;
  }

  /** The hostname file, then the hosts file rewritten from what it held
      once the hostname file was written; an entry that is there but cannot
      be read ends the step. */
  function HostnameSteps(fs: Fs, etc: string, hostnamePath: string, hostsPath: string, hostname: string): Attempt
  {
    var written := [MadeDir(etc), Wrote(hostnamePath, Hosts.HostnameFile(hostname))];
    var fs1 := WithDir(fs, etc)[hostnamePath := File(Hosts.HostnameFile(hostname))];
    if Exists(fs1, hostsPath) && ReadFile(fs1, hostsPath).None? then
      Attempt(written, Fail("Failed to read " + hostsPath))
    else
      var existing := if Exists(fs1, hostsPath) then ReadFile(fs1, hostsPath).value else "";
      Attempt(written + [Wrote(hostsPath, Hosts.HostsText(existing, hostname))], Pass)
  }

  /** `configure_hostname` */
  function HostnameEffects(fs: Fs, targetRoot: string, hostname: string): Attempt
  {
    HostnameSteps(fs, EtcDir(targetRoot), HostnamePath(targetRoot), HostsPath(targetRoot), hostname)
  }

  /** The hosts file's contents before the step: a plain file's, or none */
  function FileOrEmpty(fs: Fs, p: string): string
  {
    if p in fs && fs[p].File? then fs[p].contents else ""
  }

  lemma HostnameStepsWrite(fs: Fs, etc: string, hostnamePath: string, hostsPath: string, hostname: string)
    requires etc != hostnamePath && etc != hostsPath && hostnamePath != hostsPath
    requires hostsPath !in fs || fs[hostsPath].File?
    ensures HostnameSteps(fs, etc, hostnamePath, hostsPath, hostname).outcome == Pass
    ensures Replay(fs, HostnameSteps(fs, etc, hostnamePath, hostsPath, hostname).effects)
            == WithDir(fs, etc)[hostnamePath := File(Hosts.HostnameFile(hostname))]
                 [hostsPath := File(Hosts.HostsText(FileOrEmpty(fs, hostsPath), hostname))]
  {
    ReplayThree(fs, MadeDir(etc), Wrote(hostnamePath, Hosts.HostnameFile(hostname)),
                Wrote(hostsPath, Hosts.HostsText(FileOrEmpty(fs, hostsPath), hostname)));
  }

  /** With a plain hosts file or none, the step writes the hostname file and
      the rewrite of the old hosts file, and nothing else changes. */
  lemma HostnameStepWrites(fs: Fs, targetRoot: string, hostname: string)
    requires HostsPath(targetRoot) !in fs || fs[HostsPath(targetRoot)].File?
    ensures HostnameEffects(fs, targetRoot, hostname).outcome == Pass
    ensures Replay(fs, HostnameEffects(fs, targetRoot, hostname).effects)
            == WithDir(fs, EtcDir(targetRoot))
                 [HostnamePath(targetRoot) := File(Hosts.HostnameFile(hostname))]
                 [HostsPath(targetRoot) := File(Hosts.HostsText(FileOrEmpty(fs, HostsPath(targetRoot)), hostname))]
  {
    HostnamePathsDistinct(targetRoot);
    HostnameStepsWrite(fs, EtcDir(targetRoot), HostnamePath(targetRoot), HostsPath(targetRoot), hostname);
  }

  /** On a filesystem that already holds both files, with a hosts file the
      rewrite keeps, the step passes and changes nothing. */
  lemma HostnameStepsFixed(fs: Fs, etc: string, hostnamePath: string, hostsPath: string, hostname: string)
    requires etc != hostnamePath && etc != hostsPath && hostnamePath != hostsPath
    requires etc in fs && hostnamePath in fs && fs[hostnamePath] == File(Hosts.HostnameFile(hostname))
    requires hostsPath in fs && fs[hostsPath].File?
    requires Hosts.HostsText(fs[hostsPath].contents, hostname) == fs[hostsPath].contents
    ensures HostnameSteps(fs, etc, hostnamePath, hostsPath, hostname).outcome == Pass
    ensures Replay(fs, HostnameSteps(fs, etc, hostnamePath, hostsPath, hostname).effects) == fs
  {
    HostnameStepsWrite(fs, etc, hostnamePath, hostsPath, hostname);
    assert WithDir(fs, etc) == fs;
    assert FileOrEmpty(fs, hostsPath) == fs[hostsPath].contents;
    MapUpdateSame(fs, hostnamePath, File(Hosts.HostnameFile(hostname)));
    MapUpdateSame(fs, hostsPath, fs[hostsPath]);
  }

  lemma MapUpdateSame(fs: Fs, p: string, n: Node)
    requires p in fs && fs[p] == n
    ensures fs[p := n] == fs
  {
  }

  lemma HostnameStepsIdempotent(fs: Fs, etc: string, hostnamePath: string, hostsPath: string, hostname: string)
    requires etc != hostnamePath && etc != hostsPath && hostnamePath != hostsPath
    requires hostsPath !in fs || fs[hostsPath].File?
    requires Hosts.ReadsBack(Hosts.HostsLines(Lines(FileOrEmpty(fs, hostsPath)), hostname))
    ensures HostnameSteps(Replay(fs, HostnameSteps(fs, etc, hostnamePath, hostsPath, hostname).effects),
                          etc, hostnamePath, hostsPath, hostname).outcome == Pass
    ensures Replay(Replay(fs, HostnameSteps(fs, etc, hostnamePath, hostsPath, hostname).effects),
                   HostnameSteps(Replay(fs, HostnameSteps(fs, etc, hostnamePath, hostsPath, hostname).effects),
                                 etc, hostnamePath, hostsPath, hostname).effects)
            == Replay(fs, HostnameSteps(fs, etc, hostnamePath, hostsPath, hostname).effects)
  {
    HostnameStepsWrite(fs, etc, hostnamePath, hostsPath, hostname);
    var fs2 := Replay(fs, HostnameSteps(fs, etc, hostnamePath, hostsPath, hostname).effects);
    Hosts.HostsIdempotent(FileOrEmpty(fs, hostsPath), hostname);
    HostnameStepsFixed(fs2, etc, hostnamePath, hostsPath, hostname);
  }

  /** Running the step again on its own result changes nothing, for a
      hosts file whose rewrite reads back line for line. */
  lemma HostnameStepIdempotent(fs: Fs, targetRoot: string, hostname: string)
    requires HostsPath(targetRoot) !in fs || fs[HostsPath(targetRoot)].File?
    requires Hosts.ReadsBack(Hosts.HostsLines(Lines(FileOrEmpty(fs, HostsPath(targetRoot))), hostname))
    ensures HostnameEffects(Replay(fs, HostnameEffects(fs, targetRoot, hostname).effects), targetRoot, hostname).outcome == Pass
    ensures Replay(Replay(fs, HostnameEffects(fs, targetRoot, hostname).effects),
                   HostnameEffects(Replay(fs, HostnameEffects(fs, targetRoot, hostname).effects), targetRoot, hostname).effects)
            == Replay(fs, HostnameEffects(fs, targetRoot, hostname).effects)
  {
    HostnamePathsDistinct(targetRoot);
    HostnameStepsIdempotent(fs, EtcDir(targetRoot), HostnamePath(targetRoot), HostsPath(targetRoot), hostname);
  }

  method ConfigureHostname(m: Machine, plan: MountPlan, hostname: string) returns (r: Outcome)
    requires m.Valid()
    modifies m
    ensures m.Valid()
    ensures m.trace == old(m.trace) + HostnameEffects(old(m.fs), plan.targetRoot, hostname).effects
    ensures m.fs == Replay(old(m.fs), HostnameEffects(old(m.fs), plan.targetRoot, hostname).effects)
    ensures r == HostnameEffects(old(m.fs), plan.targetRoot, hostname).outcome
  {
    ghost var att := HostnameEffects(m.fs, plan.targetRoot, hostname);
    ghost var trace0 := m.trace;
    var etcDir := EtcDir(plan.targetRoot);
    m.CreateDirAll(etcDir);
    m.WriteFile(HostnamePath(plan.targetRoot), Hosts.HostnameFile(hostname));
    var hostsPath := HostsPath(plan.targetRoot);
    var existing := "";
    r := Pass;
    if Exists(m.fs, hostsPath) {
      var read := ReadFile(m.fs, hostsPath);
      if read.None? {
        r := Fail("Failed to read " + hostsPath);
      } else {
        existing := read.value;
      }
    }
    if r.Pass? {
      var text := Hosts.RewriteHosts(existing, hostname);
      m.WriteFile(hostsPath, text);
    }
    assert m.trace == trace0 + att.effects && r == att.outcome;
    ReplayAppend(m.initial, trace0, att.effects);
  }

  // ---------------------------------------------------------------------
  // Replacing an entry by a link

  /** How a step decides that something is at a path: `Path::exists`,
      which follows a link to its target, or the entry itself */
  datatype Presence = FollowingLinks | OfEntry

  predicate Present(fs: Fs, p: string, how: Presence)
  {
    match how
    case FollowingLinks => Exists(fs, p)
    case OfEntry => p in fs
  }

  /** `remove_file` when something is found at `p` (a directory stays,
      its removal failing silently), then `symlink` */
  function ReplaceWithLink(fs: Fs, p: string, target: string, how: Presence): Attempt
  {
    var removed := if Present(fs, p, how) && p in fs && !fs[p].Dir? then [Removed(p)] else [];
    var fs1 := if removed == [] then fs else fs - {p};
    if p in fs1 then Attempt(removed, Fail("Failed to symlink " + p))
    else Attempt(removed + [Linked(p, target)], Pass)
  }

  /** What lets the link be made: nothing at `p`, or something there that
      `how` finds and that is not a directory */
  predicate Replaceable(fs: Fs, p: string, how: Presence)
  {
    p !in fs || (Present(fs, p, how) && !fs[p].Dir?)
  }

  /** The link is made exactly when the entry at `p` is replaceable, and
      then stands in its place with nothing else changed; a failure
      changes nothing. */
  lemma ReplaceWithLinkLinks(fs: Fs, p: string, target: string, how: Presence)
    ensures ReplaceWithLink(fs, p, target, how).outcome.Pass? <==> Replaceable(fs, p, how)
    ensures ReplaceWithLink(fs, p, target, how).outcome.Pass? ==>
              Replay(fs, ReplaceWithLink(fs, p, target, how).effects) == fs[p := Link(target)]
    ensures ReplaceWithLink(fs, p, target, how).outcome.Fail? ==> ReplaceWithLink(fs, p, target, how).effects == []
  {
    if p in fs && Present(fs, p, how) && !fs[p].Dir? {
      ReplayTwo(fs, Removed(p), Linked(p, target));
      assert (fs - {p})[p := Link(target)] == fs[p := Link(target)];
    } else if p !in fs {
      ReplayOne(fs, Linked(p, target));
    }
  }

  /** `Path::exists` does not see a link whose target is missing from the
      installer's own root, so nothing is removed and the link then fails. */
  lemma ReplaceDanglingLinkFailsAsWritten(fs: Fs, p: string, old_target: string, target: string)
    requires p in fs && fs[p] == Link(old_target) && old_target !in fs
    ensures ReplaceWithLink(fs, p, target, FollowingLinks) == Attempt([], Fail("Failed to symlink " + p))
    ensures ReplaceWithLink(fs, p, target, OfEntry).outcome == Pass
  {
  }

  method ReplaceWithSymlink(m: Machine, p: string, target: string) returns (r: Outcome)
    requires m.Valid()
    modifies m
    ensures m.Valid()
    ensures m.trace == old(m.trace) + ReplaceWithLink(old(m.fs), p, target, FollowingLinks).effects
    ensures m.fs == Replay(old(m.fs), ReplaceWithLink(old(m.fs), p, target, FollowingLinks).effects)
    ensures r == ReplaceWithLink(old(m.fs), p, target, FollowingLinks).outcome
  {
    if Exists(m.fs, p) {
      var _ := m.RemoveFile(p);
    }
    var linked := m.Symlink(target, p);
    r := if linked then Pass else Fail("Failed to symlink " + p);
    ReplayAppend(m.initial, old(m.trace), ReplaceWithLink(old(m.fs), p, target, FollowingLinks).effects);
  }

  // ---------------------------------------------------------------------
  // ensure_machine_id

  const MACHINE_ID_FILE := "etc/machine-id"
  const DBUS_DIR := "var/lib/dbus"
  const DBUS_MACHINE_ID := "var/lib/dbus/machine-id"
  /** What the dbus copy links to, as seen from inside the target */
  const MACHINE_ID_LINK := "/etc/machine-id"
  const UUID_SOURCE := "/proc/sys/kernel/random/uuid"

  /** The paths the machine-id step touches */
  datatype IdPaths = IdPaths(etc: string, id: string, dbusDir: string, dbus: string)

  function MachineIdPaths(targetRoot: string): IdPaths
  {
    IdPaths(PathJoin(targetRoot, "etc"), PathJoin(targetRoot, MACHINE_ID_FILE),
            PathJoin(targetRoot, DBUS_DIR), PathJoin(targetRoot, DBUS_MACHINE_ID))
  }

  predicate Distinct(ps: IdPaths)
  {
    ps.id != ps.dbus && ps.id != ps.dbusDir && ps.etc != ps.dbus && ps.dbusDir != ps.dbus
  }

  lemma MachineIdPathsDistinct(targetRoot: string)
    ensures Distinct(MachineIdPaths(targetRoot))
  {
    var ps := MachineIdPaths(targetRoot);
    assert |ps.dbus| == |ps.id| + 9;
    assert |ps.id| == |ps.dbusDir| + 2;
    assert |ps.dbus| == |ps.etc| + 20;
  }

  /** The filesystem before the link: the id written under `etc`, and the
      dbus directory created */
  function IdWritten(fs: Fs, ps: IdPaths, id: string): Fs
  {
    WithDir(WithDir(fs, ps.etc)[ps.id := File(id + "\n")], ps.dbusDir)
  }

  /** The id written and the dbus copy replaced by a link to it, as `how`
      finds that copy */
  function MachineIdWrites(fs: Fs, ps: IdPaths, id: string, how: Presence): Attempt
  {
    var written := [MadeDir(ps.etc), Wrote(ps.id, id + "\n"), MadeDir(ps.dbusDir)];
    var link := ReplaceWithLink(IdWritten(fs, ps, id), ps.dbus, MACHINE_ID_LINK, how);
    Attempt(written + link.effects, link.outcome)
  }

  /** `ensure_machine_id`: the kernel's random UUID is given, or None when
      it cannot be read */
  function MachineIdSteps(fs: Fs, ps: IdPaths, uuid: Option<string>, how: Presence): Attempt
  {
    if KeepsMachineId(ReadFile(fs, ps.id)) then Attempt([], Pass)
    else if uuid.None? then Attempt([], Fail("Failed to read " + UUID_SOURCE))
    else match DeriveMachineId(uuid.value)
      case Err(e) => Attempt([], Fail(e))
      case Ok(id) => MachineIdWrites(fs, ps, id, how)
  }

  /** `ensure_machine_id` as written: the dbus copy is removed only when
      `Path::exists` finds it, following a link */
  function MachineIdEffects(fs: Fs, targetRoot: string, uuid: Option<string>): Attempt
  {
    MachineIdSteps(fs, MachineIdPaths(targetRoot), uuid, FollowingLinks)
  }

  /** The machine-id step with the dbus copy replaced whatever a link there
      points at */
  function MachineIdCorrected(fs: Fs, targetRoot: string, uuid: Option<string>): Attempt
  {
    MachineIdSteps(fs, MachineIdPaths(targetRoot), uuid, OfEntry)
  }

  lemma MachineIdWritesFacts(fs: Fs, ps: IdPaths, id: string, how: Presence)
    requires Distinct(ps)
    ensures MachineIdWrites(fs, ps, id, how).outcome.Pass? <==> Replaceable(IdWritten(fs, ps, id), ps.dbus, how)
    ensures ps.id in Replay(fs, MachineIdWrites(fs, ps, id, how).effects)
    ensures Replay(fs, MachineIdWrites(fs, ps, id, how).effects)[ps.id] == File(id + "\n")
    ensures MachineIdWrites(fs, ps, id, how).outcome.Pass? ==>
              ps.dbus in Replay(fs, MachineIdWrites(fs, ps, id, how).effects)
              && Replay(fs, MachineIdWrites(fs, ps, id, how).effects)[ps.dbus] == Link(MACHINE_ID_LINK)
  {
    var written := [MadeDir(ps.etc), Wrote(ps.id, id + "\n"), MadeDir(ps.dbusDir)];
    var fs1 := IdWritten(fs, ps, id);
    ReplayThree(fs, MadeDir(ps.etc), Wrote(ps.id, id + "\n"), MadeDir(ps.dbusDir));
    ReplaceWithLinkLinks(fs1, ps.dbus, MACHINE_ID_LINK, how);
    ReplayAppend(fs, written, ReplaceWithLink(fs1, ps.dbus, MACHINE_ID_LINK, how).effects);
  }

  /** An id whose trimmed text is shorter than 32 bytes is replaced by the
      first 32 hexadecimal digits of the UUID and a line feed, whether or
      not the step then passes. It passes exactly when the dbus copy is
      absent, or `Path::exists` finds it and it is not a directory; the copy
      is then a link to the id. */
  lemma MachineIdWritten(fs: Fs, targetRoot: string, uuid: string)
    requires !KeepsMachineId(ReadFile(fs, MachineIdPaths(targetRoot).id))
    requires DeriveMachineId(uuid).Ok?
    ensures MachineIdEffects(fs, targetRoot, Some(uuid)).outcome == Pass
            <==> Replaceable(IdWritten(fs, MachineIdPaths(targetRoot), DeriveMachineId(uuid).value),
                             MachineIdPaths(targetRoot).dbus, FollowingLinks)
    ensures MachineIdPaths(targetRoot).id in Replay(fs, MachineIdEffects(fs, targetRoot, Some(uuid)).effects)
    ensures Replay(fs, MachineIdEffects(fs, targetRoot, Some(uuid)).effects)[MachineIdPaths(targetRoot).id]
            == File(DeriveMachineId(uuid).value + "\n")
    ensures MachineIdEffects(fs, targetRoot, Some(uuid)).outcome == Pass ==>
              MachineIdPaths(targetRoot).dbus in Replay(fs, MachineIdEffects(fs, targetRoot, Some(uuid)).effects)
              && Replay(fs, MachineIdEffects(fs, targetRoot, Some(uuid)).effects)[MachineIdPaths(targetRoot).dbus]
                 == Link(MACHINE_ID_LINK)
  {
    MachineIdPathsDistinct(targetRoot);
    MachineIdWritesFacts(fs, MachineIdPaths(targetRoot), DeriveMachineId(uuid).value, FollowingLinks);
  }

  /** Corrected, the step passes unless the dbus copy is a directory, and
      the copy then links to the id whatever it was before. */
  lemma MachineIdCorrectedLinks(fs: Fs, targetRoot: string, uuid: string)
    requires !KeepsMachineId(ReadFile(fs, MachineIdPaths(targetRoot).id))
    requires DeriveMachineId(uuid).Ok?
    ensures MachineIdCorrected(fs, targetRoot, Some(uuid)).outcome == Pass
            <==> MachineIdPaths(targetRoot).dbus !in fs || !fs[MachineIdPaths(targetRoot).dbus].Dir?
    ensures MachineIdCorrected(fs, targetRoot, Some(uuid)).outcome == Pass ==>
              MachineIdPaths(targetRoot).dbus in Replay(fs, MachineIdCorrected(fs, targetRoot, Some(uuid)).effects)
              && Replay(fs, MachineIdCorrected(fs, targetRoot, Some(uuid)).effects)[MachineIdPaths(targetRoot).dbus]
                 == Link(MACHINE_ID_LINK)
  {
    var ps := MachineIdPaths(targetRoot);
    var id := DeriveMachineId(uuid).value;
    MachineIdPathsDistinct(targetRoot);
    MachineIdWritesFacts(fs, ps, id, OfEntry);
    assert ps.dbus in IdWritten(fs, ps, id) <==> ps.dbus in fs;
    assert ps.dbus in fs ==> IdWritten(fs, ps, id)[ps.dbus] == fs[ps.dbus];
  }

  lemma MachineIdStepsIdempotent(fs: Fs, ps: IdPaths, uuid: Option<string>, again: Option<string>, how: Presence, how2: Presence)
    requires Distinct(ps)
    requires MachineIdSteps(fs, ps, uuid, how).outcome == Pass
    ensures MachineIdSteps(Replay(fs, MachineIdSteps(fs, ps, uuid, how).effects), ps, again, how2) == Attempt([], Pass)
  {
    if !KeepsMachineId(ReadFile(fs, ps.id)) {
      var id := DeriveMachineId(uuid.value).value;
      MachineIdWritesFacts(fs, ps, id, how);
      assert !IsWhitespace(id[0]) && !IsWhitespace(id[31]);
      TrimOfTerminated(id);
      Utf8LengthOfAscii(id);
    }
  }

  /** Once the step passed, running it again keeps the id it wrote. */
  lemma MachineIdIdempotent(fs: Fs, targetRoot: string, uuid: Option<string>, again: Option<string>)
    requires MachineIdEffects(fs, targetRoot, uuid).outcome == Pass
    ensures MachineIdEffects(Replay(fs, MachineIdEffects(fs, targetRoot, uuid).effects), targetRoot, again) == Attempt([], Pass)
  {
    MachineIdPathsDistinct(targetRoot);
    MachineIdStepsIdempotent(fs, MachineIdPaths(targetRoot), uuid, again, FollowingLinks, FollowingLinks);
  }

  /** A dbus copy that links to an id the installer's own root lacks makes
      the step fail as written, and not as corrected. */
  lemma MachineIdDanglingLinkFailsAsWritten(fs: Fs, ps: IdPaths, id: string, old_target: string)
    requires Distinct(ps)
    requires ps.dbus in fs && fs[ps.dbus] == Link(old_target)
    requires old_target !in fs && old_target != ps.etc && old_target != ps.id && old_target != ps.dbusDir
    ensures MachineIdWrites(fs, ps, id, FollowingLinks).outcome.Fail?
    ensures MachineIdWrites(fs, ps, id, OfEntry).outcome == Pass
  {
    ReplaceDanglingLinkFailsAsWritten(IdWritten(fs, ps, id), ps.dbus, old_target, MACHINE_ID_LINK);
  }

  method EnsureMachineId(m: Machine, plan: MountPlan, uuid: Option<string>) returns (r: Outcome)
    requires m.Valid()
    modifies m
    ensures m.Valid()
    ensures m.trace == old(m.trace) + MachineIdEffects(old(m.fs), plan.targetRoot, uuid).effects
    ensures m.fs == Replay(old(m.fs), MachineIdEffects(old(m.fs), plan.targetRoot, uuid).effects)
    ensures r == MachineIdEffects(old(m.fs), plan.targetRoot, uuid).outcome
  {
    var machineIdPath := PathJoin(plan.targetRoot, MACHINE_ID_FILE);
    var contents := ReadFile(m.fs, machineIdPath);
    if KeepsMachineId(contents) {
      return Pass;
    }
    if uuid.None? {
      return Fail("Failed to read " + UUID_SOURCE);
    }
    var id := DeriveMachineId(uuid.value);
    if id.Err? {
      return Fail(id.msg);
    }
    m.CreateDirAll(PathJoin(plan.targetRoot, "etc"));
    m.WriteFile(machineIdPath, id.value + "\n");
    m.CreateDirAll(PathJoin(plan.targetRoot, DBUS_DIR));
    r := ReplaceWithSymlink(m, PathJoin(plan.targetRoot, DBUS_MACHINE_ID), MACHINE_ID_LINK);
    ReplayAppend(m.initial, old(m.trace), MachineIdEffects(old(m.fs), plan.targetRoot, uuid).effects);
  }

  // ---------------------------------------------------------------------
  // find_systemd_unit_file, enable_systemd_unit[_optional]

  /** The first candidate unit file that exists */
  function FindUnitFile(fs: Fs, targetRoot: string, unit: string): Result<string>
  {
    var cs := UnitCandidates(targetRoot, unit);
    if Exists(fs, cs[0]) then Ok(cs[0])
    else if Exists(fs, cs[1]) then Ok(cs[1])
    else Err(MissingUnitError(unit))
  }

  /** The unit file found is the first candidate that exists, and the
      lookup fails only when none does. */
  lemma FindUnitFileFirst(fs: Fs, targetRoot: string, unit: string)
    ensures FindUnitFile(fs, targetRoot, unit).Ok?
            <==> exists i :: 0 <= i < |UNIT_DIRS| && Exists(fs, UnitCandidates(targetRoot, unit)[i])
    ensures FindUnitFile(fs, targetRoot, unit).Ok? ==>
              exists i :: 0 <= i < |UNIT_DIRS| && FindUnitFile(fs, targetRoot, unit).value == UnitCandidates(targetRoot, unit)[i]
                && Exists(fs, UnitCandidates(targetRoot, unit)[i])
                && forall j :: 0 <= j < i ==> !Exists(fs, UnitCandidates(targetRoot, unit)[j])
    ensures FindUnitFile(fs, targetRoot, unit).Err? ==> FindUnitFile(fs, targetRoot, unit).msg == MissingUnitError(unit)
  {
    var cs := UnitCandidates(targetRoot, unit);
    if Exists(fs, cs[0]) {
      assert FindUnitFile(fs, targetRoot, unit).value == cs[0];
    }
  }

  method FindSystemdUnitFile(m: Machine, targetRoot: string, unit: string) returns (r: Result<string>)
    ensures r == FindUnitFile(m.fs, targetRoot, unit)
  {
    var candidates := UnitCandidates(targetRoot, unit);
    for i := 0 to |candidates|
      invariant forall j :: 0 <= j < i ==> !Exists(m.fs, candidates[j])
    {
      if Exists(m.fs, candidates[i]) {
        return Ok(candidates[i]);
      }
    }
    r := Err(MissingUnitError(unit));
  }

  function WantsDir(targetRoot: string): string
  {
    PathJoin(targetRoot, WANTS_DIR)
  }

  /** Once the unit file `src` is found: the wants directory, then the link
      unless `how` finds one already */
  function LinkSteps(fs: Fs, wantsDir: string, link: string, targetRoot: string, src: string, how: Presence): Attempt
  {
    var fs1 := WithDir(fs, wantsDir);
    if Present(fs1, link, how) then Attempt([MadeDir(wantsDir)], Pass)
    else match PathInTargetRoot(targetRoot, src)
      case Err(e) => Attempt([MadeDir(wantsDir)], Fail(e))
      case Ok(target) =>
        if link in fs1 then
          Attempt([MadeDir(wantsDir)], Fail("Failed to create symlink " + link + " -> " + target))
        else
          Attempt([MadeDir(wantsDir), Linked(link, target)], Pass)
  }

  /** `enable_systemd_unit`, an existing link found as `how` finds it */
  function EnableUnitSteps(fs: Fs, targetRoot: string, unit: string, how: Presence): Attempt
  {
    match FindUnitFile(fs, targetRoot, unit)
    case Err(e) => Attempt([], Fail(e))
    case Ok(src) => LinkSteps(fs, WantsDir(targetRoot), WantsLink(targetRoot, unit), targetRoot, src, how)
  }

  /** `enable_systemd_unit` as written: a link already there counts as the
      unit enabled only when `Path::exists` follows it to something */
  function EnableUnit(fs: Fs, targetRoot: string, unit: string): Attempt
  {
    EnableUnitSteps(fs, targetRoot, unit, FollowingLinks)
  }

  /** The unit-enabling step with any entry at the link's path counting as
      enabled */
  function EnableUnitCorrected(fs: Fs, targetRoot: string, unit: string): Attempt
  {
    EnableUnitSteps(fs, targetRoot, unit, OfEntry)
  }

  /** A unit that `how` finds enabled stays as it is; otherwise the link to
      the unit file, as seen from inside the target, is created, which
      fails when any entry is at the link's path or the unit file lies
      outside the target root. The wants directory is created either way. */
  lemma LinkStepsLink(fs: Fs, wantsDir: string, link: string, targetRoot: string, src: string, how: Presence)
    requires link != wantsDir
    ensures Present(WithDir(fs, wantsDir), link, how) ==>
              LinkSteps(fs, wantsDir, link, targetRoot, src, how) == Attempt([MadeDir(wantsDir)], Pass)
    ensures !Present(WithDir(fs, wantsDir), link, how) ==>
              (LinkSteps(fs, wantsDir, link, targetRoot, src, how).outcome.Pass?
               <==> link !in fs && PathInTargetRoot(targetRoot, src).Ok?)
    ensures LinkSteps(fs, wantsDir, link, targetRoot, src, how).outcome.Fail? ==>
              LinkSteps(fs, wantsDir, link, targetRoot, src, how).effects == [MadeDir(wantsDir)]
    ensures !Present(WithDir(fs, wantsDir), link, how) && link !in fs && PathInTargetRoot(targetRoot, src).Ok? ==>
              Replay(fs, LinkSteps(fs, wantsDir, link, targetRoot, src, how).effects)
              == WithDir(fs, wantsDir)[link := Link(PathInTargetRoot(targetRoot, src).value)]
  {
    if !Present(WithDir(fs, wantsDir), link, how) && link !in fs && PathInTargetRoot(targetRoot, src).Ok? {
      ReplayTwo(fs, MadeDir(wantsDir), Linked(link, PathInTargetRoot(targetRoot, src).value));
    }
  }

  lemma FindUnitFileKept(fs: Fs, fs2: Fs, targetRoot: string, unit: string)
    requires Extends(fs, fs2) && FindUnitFile(fs, targetRoot, unit).Ok?
    ensures FindUnitFile(fs2, targetRoot, unit).Ok?
  {
    var cs := UnitCandidates(targetRoot, unit);
    if Exists(fs, cs[0]) {
      ExistsKept(fs, fs2, cs[0]);
    } else {
      ExistsKept(fs, fs2, cs[1]);
    }
  }

  /** A passing link step only adds: the wants directory and an entry at
      the link's path are there afterwards. */
  lemma LinkStepsKeeps(fs: Fs, wantsDir: string, link: string, targetRoot: string, src: string, how: Presence)
    requires LinkSteps(fs, wantsDir, link, targetRoot, src, how).outcome.Pass?
    ensures Extends(fs, Replay(fs, LinkSteps(fs, wantsDir, link, targetRoot, src, how).effects))
    ensures link in Replay(fs, LinkSteps(fs, wantsDir, link, targetRoot, src, how).effects)
    ensures wantsDir in Replay(fs, LinkSteps(fs, wantsDir, link, targetRoot, src, how).effects)
  {
    if Present(WithDir(fs, wantsDir), link, how) {
      ReplayOne(fs, MadeDir(wantsDir));
    } else {
      ReplayTwo(fs, MadeDir(wantsDir), Linked(link, PathInTargetRoot(targetRoot, src).value));
    }
  }

  lemma LinkStepsIdempotent(fs: Fs, wantsDir: string, link: string, targetRoot: string, src: string, src2: string)
    requires LinkSteps(fs, wantsDir, link, targetRoot, src, OfEntry).outcome.Pass?
    ensures LinkSteps(Replay(fs, LinkSteps(fs, wantsDir, link, targetRoot, src, OfEntry).effects), wantsDir, link, targetRoot, src2, OfEntry)
            == Attempt([MadeDir(wantsDir)], Pass)
    ensures Replay(Replay(fs, LinkSteps(fs, wantsDir, link, targetRoot, src, OfEntry).effects), [MadeDir(wantsDir)])
            == Replay(fs, LinkSteps(fs, wantsDir, link, targetRoot, src, OfEntry).effects)
  {
    var fs2 := Replay(fs, LinkSteps(fs, wantsDir, link, targetRoot, src, OfEntry).effects);
    LinkStepsKeeps(fs, wantsDir, link, targetRoot, src, OfEntry);
    ReplayOne(fs2, MadeDir(wantsDir));
  }

  /** As written, enabling a unit a second time passes only when
      `Path::exists` follows the link the first run left, a link that names
      the unit file as seen from inside the target; a second run that
      passes changes nothing. */
  lemma EnableUnitRerun(fs: Fs, targetRoot: string, unit: string)
    requires EnableUnit(fs, targetRoot, unit).outcome.Pass?
    ensures EnableUnit(Replay(fs, EnableUnit(fs, targetRoot, unit).effects), targetRoot, unit).outcome.Pass?
            <==> Exists(Replay(fs, EnableUnit(fs, targetRoot, unit).effects), WantsLink(targetRoot, unit))
    ensures EnableUnit(Replay(fs, EnableUnit(fs, targetRoot, unit).effects), targetRoot, unit).outcome.Pass? ==>
              Replay(Replay(fs, EnableUnit(fs, targetRoot, unit).effects),
                     EnableUnit(Replay(fs, EnableUnit(fs, targetRoot, unit).effects), targetRoot, unit).effects)
              == Replay(fs, EnableUnit(fs, targetRoot, unit).effects)
  {
    var src := FindUnitFile(fs, targetRoot, unit).value;
    var fs2 := Replay(fs, EnableUnit(fs, targetRoot, unit).effects);
    var wantsDir, link := WantsDir(targetRoot), WantsLink(targetRoot, unit);
    LinkStepsKeeps(fs, wantsDir, link, targetRoot, src, FollowingLinks);
    FindUnitFileKept(fs, fs2, targetRoot, unit);
    assert WithDir(fs2, wantsDir) == fs2;
    ReplayOne(fs2, MadeDir(wantsDir));
  }

  /** Corrected, enabling a unit a second time passes and changes
      nothing. */
  lemma EnableUnitIdempotent(fs: Fs, targetRoot: string, unit: string)
    requires EnableUnitCorrected(fs, targetRoot, unit).outcome.Pass?
    ensures EnableUnitCorrected(Replay(fs, EnableUnitCorrected(fs, targetRoot, unit).effects), targetRoot, unit).outcome.Pass?
    ensures Replay(Replay(fs, EnableUnitCorrected(fs, targetRoot, unit).effects),
                   EnableUnitCorrected(Replay(fs, EnableUnitCorrected(fs, targetRoot, unit).effects), targetRoot, unit).effects)
            == Replay(fs, EnableUnitCorrected(fs, targetRoot, unit).effects)
  {
    var src := FindUnitFile(fs, targetRoot, unit).value;
    var fs2 := Replay(fs, EnableUnitCorrected(fs, targetRoot, unit).effects);
    var wantsDir, link := WantsDir(targetRoot), WantsLink(targetRoot, unit);
    LinkStepsKeeps(fs, wantsDir, link, targetRoot, src, OfEntry);
    FindUnitFileKept(fs, fs2, targetRoot, unit);
    LinkStepsIdempotent(fs, wantsDir, link, targetRoot, src, FindUnitFile(fs2, targetRoot, unit).value);
  }

  /** A unit the payload already enables by an absolute link, whose target
      the installer's own root lacks, is not seen as enabled by
      `Path::exists`, and the link then fails; checked on the entry, the
      link is kept. */
  lemma LinkDanglingFailsAsWritten(fs: Fs, wantsDir: string, link: string, targetRoot: string, src: string, target: string)
    requires PathInTargetRoot(targetRoot, src).Ok?
    requires link in fs && fs[link] == Link(target) && target !in fs && target != wantsDir
    ensures LinkSteps(fs, wantsDir, link, targetRoot, src, FollowingLinks).outcome.Fail?
    ensures LinkSteps(fs, wantsDir, link, targetRoot, src, OfEntry) == Attempt([MadeDir(wantsDir)], Pass)
  {
  }

  method EnableSystemdUnit(m: Machine, plan: MountPlan, unit: string) returns (r: Outcome)
    requires m.Valid()
    modifies m
    ensures m.Valid()
    ensures m.trace == old(m.trace) + EnableUnit(old(m.fs), plan.targetRoot, unit).effects
    ensures m.fs == Replay(old(m.fs), EnableUnit(old(m.fs), plan.targetRoot, unit).effects)
    ensures r == EnableUnit(old(m.fs), plan.targetRoot, unit).outcome
  {
    var unitSrc := FindSystemdUnitFile(m, plan.targetRoot, unit);
    if unitSrc.Err? {
      return Fail(unitSrc.msg);
    }
    var wantsDir := PathJoin(plan.targetRoot, WANTS_DIR);
    m.CreateDirAll(wantsDir);
    var linkPath := PathJoin(wantsDir, unit);
    if Exists(m.fs, linkPath) {
      r := Pass;
    } else {
      var linkTarget := PathInTargetRoot(plan.targetRoot, unitSrc.value);
      if linkTarget.Err? {
        r := Fail(linkTarget.msg);
      } else {
        var failure := Fail("Failed to create symlink " + linkPath + " -> " + linkTarget.value);
        var linked := m.Symlink(linkTarget.value, linkPath);
        r := if linked then Pass else failure;
      }
    }
    ReplayAppend(m.initial, old(m.trace), EnableUnit(old(m.fs), plan.targetRoot, unit).effects);
  }

  /** `enable_systemd_unit_optional`: a missing unit is skipped */
  function EnableUnitOptional(fs: Fs, targetRoot: string, unit: string): Attempt
  {
    if FindUnitFile(fs, targetRoot, unit).Err? then Attempt([], Pass) else EnableUnit(fs, targetRoot, unit)
  }

  /** What `enable_systemd_unit_optional` returns: whether the unit was
      enabled, or the enabling's error */
  function Enabled(fs: Fs, targetRoot: string, unit: string): Result<bool>
  {
    match EnableUnitOptional(fs, targetRoot, unit).outcome
    case Fail(e) => Err(e)
    case Pass => Ok(FindUnitFile(fs, targetRoot, unit).Ok?)
  }

  /** A missing unit gives false and no effect; a present one is enabled as
      by the mandatory step, true meaning that it passed. */
  lemma OptionalSkipsMissing(fs: Fs, targetRoot: string, unit: string)
    ensures Enabled(fs, targetRoot, unit) == Ok(false)
            <==> forall i :: 0 <= i < |UNIT_DIRS| ==> !Exists(fs, UnitCandidates(targetRoot, unit)[i])
    ensures Enabled(fs, targetRoot, unit) == Ok(false) ==> EnableUnitOptional(fs, targetRoot, unit).effects == []
    ensures Enabled(fs, targetRoot, unit) == Ok(true)
            <==> FindUnitFile(fs, targetRoot, unit).Ok? && EnableUnit(fs, targetRoot, unit).outcome.Pass?
  {
    FindUnitFileFirst(fs, targetRoot, unit);
  }

  method EnableSystemdUnitOptional(m: Machine, plan: MountPlan, unit: string) returns (r: Result<bool>)
    requires m.Valid()
    modifies m
    ensures m.Valid()
    ensures m.trace == old(m.trace) + EnableUnitOptional(old(m.fs), plan.targetRoot, unit).effects
    ensures m.fs == Replay(old(m.fs), EnableUnitOptional(old(m.fs), plan.targetRoot, unit).effects)
    ensures r == Enabled(old(m.fs), plan.targetRoot, unit)
  {
    var found := FindSystemdUnitFile(m, plan.targetRoot, unit);
    if found.Err? {
      return Ok(false);
    }
    var enabled := EnableSystemdUnit(m, plan, unit);
    r := if enabled.Pass? then Ok(true) else Err(enabled.msg);
  }
}
