/** The disk scanner: which block devices may be installed to, read from a
    sysfs-style tree and the mount table, and the choice of the single
    target. The filesystem is a snapshot given as a value: the entries of
    `<sys>/block` with the attribute files the scanner reads, and the text of
    `<proc>/self/mountinfo`. */
module Disks {
  import opened Wrappers
  import opened Text
  import opened Paths

  datatype Disk = Disk(name: string, devPath: string, sizeBytes: nat, model: Option<string>)

  /** The scanner's configuration: where sysfs and procfs are mounted and
      the smallest disk worth offering */
  datatype DiskScanner = DiskScanner(sysRoot: string, procRoot: string, minSizeBytes: nat)

  /** What the scanner can see of one `<sys>/block/<name>` entry: whether its
      `device` link exists, and the contents of `removable`, `ro`, `size` and
      `device/model` (None when the file cannot be read). */
  datatype BlockEntry = BlockEntry(
    hasDevice: bool,
    removable: Option<string>,
    ro: Option<string>,
    size: Option<string>,
    model: Option<string>)

  /** The filesystem snapshot: the `<sys>/block` directory (None when it
      cannot be read) and the mount table text (None when unreadable) */
  datatype SysView = SysView(block: Option<map<string, BlockEntry>>, mountinfo: Option<string>)

  const GIB: nat := 1024 * 1024 * 1024

  /** `DiskScanner::new_default`: the live system's mounts and an 8 GiB floor */
  function NewDefault(): (s: DiskScanner)
    ensures s.sysRoot == "/sys" && s.procRoot == "/proc" && s.minSizeBytes == 8 * GIB
  {
    DiskScanner("/sys", "/proc", 8 * GIB)
  }

  /** `is_candidate_name`: virtual and removable-media kinds are refused,
      then only the common install targets are accepted */
  predicate IsCandidateName(name: string)
  {
    if StartsWith(name, "loop") || StartsWith(name, "ram") || StartsWith(name, "sr")
       || StartsWith(name, "fd") || StartsWith(name, "dm-") || StartsWith(name, "md")
    then false
    else StartsWith(name, "sd") || StartsWith(name, "vd") || StartsWith(name, "nvme")
  }

  /** `read_u64`: the trimmed contents parsed as a `u64` */
  function ReadU64(path: string, contents: Option<string>): (r: Result<nat>)
    ensures r.Ok? <==> contents.Some? && ParseU64(Trim(contents.value)).Some?
    ensures r.Ok? ==> r.value == ParseU64(Trim(contents.value)).value && r.value <= U64_MAX
  {
    match contents
    case None => Err("Failed to read " + path)
    case Some(text) =>
      var s := Trim(text);
      match ParseU64(s)
      case None => Err("Failed to parse '" + s + "' from " + path)
      case Some(v) => Ok(v)
  }

  /** `read_string`: the trimmed contents */
  function ReadString(path: string, contents: Option<string>): (r: Result<string>)
    ensures r.Ok? <==> contents.Some?
    ensures r.Ok? ==> r.value == Trim(contents.value)
  {
    match contents
    case None => Err("Failed to read " + path)
    case Some(text) => Ok(Trim(text))
  }

  /** `unwrap_or` */
  function UnwrapOr(r: Result<nat>, default: nat): nat
  {
    if r.Ok? then r.value else default
  }

  /** `Result::ok` */
  function ResultToOption(r: Result<string>): Option<string>
  {
    if r.Ok? then Some(r.value) else None
  }

  /** `u64::saturating_mul(512)` */
  function SaturatingMul512(n: nat): (r: nat)
    requires n <= U64_MAX
    ensures r <= U64_MAX
    ensures r == U64_MAX || r == n * 512
    ensures r < U64_MAX ==> r / 512 == n && r % 512 == 0
    ensures n * 512 <= U64_MAX ==> r == n * 512
  {
    if n * 512 > U64_MAX then U64_MAX else n * 512
  }

  /** `disk_size_bytes`: the `size` attribute counts 512-byte sectors */
  function DiskSizeBytes(diskSys: string, size: Option<string>): (r: Result<nat>)
    ensures r.Ok? <==> ReadU64(PathJoin(diskSys, "size"), size).Ok?
    ensures r.Ok? ==> r.value == SaturatingMul512(ReadU64(PathJoin(diskSys, "size"), size).value)
    ensures r.Err? ==> r == ReadU64(PathJoin(diskSys, "size"), size)
  {
    match ReadU64(PathJoin(diskSys, "size"), size)
    case Err(msg) => Err(msg)
    case Ok(sectors) => Ok(SaturatingMul512(sectors))
  }

  // ---------------------------------------------------------------------
  // The mount table

  /** The mount source of one mountinfo line: the second whitespace-separated
      field after the " - " separator (the first is the filesystem type) */
  function MountSource(line: string): Option<string>
  {
    match SplitOnce(line, " - ")
    case None => None
    case Some((_, after)) =>
      var parts := Words(after);
      if |parts| < 2 then None else Some(parts[1])
  }

  /** A line whose mount source is the device or starts with its path */
  predicate LineMountsDevice(line: string, needle: string)
  {
    var source := MountSource(line);
    source.Some? && (source.value == needle || StartsWith(source.value, needle))
  }

  /** The device, or anything whose path extends the device's path, is a
      mount source of some line of the table. */
  predicate MountedIn(contents: string, devName: string)
  {
    SomeLineMounts(Lines(contents), "/dev/" + devName)
  }

  predicate SomeLineMounts(lines: seq<string>, needle: string)
  {
    lines != [] && (LineMountsDevice(lines[0], needle) || SomeLineMounts(lines[1..], needle))
  }

  function MountinfoPath(procRoot: string): string
  {
    PathJoin(PathJoin(procRoot, "self"), "mountinfo")
  }

  /** What `is_device_mounted` computes */
  function MountedResult(procRoot: string, mountinfo: Option<string>, devName: string): Result<bool>
  {
    match mountinfo
    case None => Err("Failed to read " + MountinfoPath(procRoot))
    case Some(contents) => Ok(MountedIn(contents, devName))
  }

  /** `is_device_mounted`: scans the table line by line and stops at the
      first line mounting the device or one of its partitions */
  method IsDeviceMounted(procRoot: string, mountinfo: Option<string>, devName: string) returns (r: Result<bool>)
    ensures r == MountedResult(procRoot, mountinfo, devName)
  {
    if mountinfo.None? {
      return Err("Failed to read " + MountinfoPath(procRoot));
    }
    var mounted := AnyLineMounts(Lines(mountinfo.value), "/dev/" + devName);
    return Ok(mounted);
  }

  /** The loop of `is_device_mounted` over the lines of the table: true at
      the first line whose mount source starts with `needle` */
  method AnyLineMounts(lines: seq<string>, needle: string) returns (b: bool)
    ensures b == SomeLineMounts(lines, needle)
  {
    var i := 0;
    while i < |lines|
      invariant 0 <= i <= |lines|
      invariant SomeLineMounts(lines[i..], needle) == SomeLineMounts(lines, needle)
    {
      assert lines[i..][0] == lines[i] && lines[i..][1..] == lines[i + 1..];
      if LineMountsDevice(lines[i], needle) {
        return true;
      }
      i := i + 1;
    }
    return false;
  }

  /** Some line mounts the device exactly when one of them, at some index,
      does. */
  lemma {:induction false} SomeLineMountsMeans(lines: seq<string>, needle: string)
    ensures SomeLineMounts(lines, needle) <==> exists i :: 0 <= i < |lines| && LineMountsDevice(lines[i], needle)
  {
    if lines != [] {
      SomeLineMountsMeans(lines[1..], needle);
      if exists i :: 0 <= i < |lines| && LineMountsDevice(lines[i], needle) {
        var i :| 0 <= i < |lines| && LineMountsDevice(lines[i], needle);
        if i > 0 {
          assert lines[1..][i - 1] == lines[i];
        }
      }
    }
  }

  // ---------------------------------------------------------------------
  // Eligibility

  /** The directory of one block entry, as `read_dir` yields it */
  function DiskSysPath(s: DiskScanner, name: string): string
  {
    PathJoin(PathJoin(s.sysRoot, "block"), name)
  }

  /** The readable flag `removable` or `ro` is 0; an unreadable or unparsable
      one counts as set */
  predicate FlagClear(path: string, contents: Option<string>)
  {
    UnwrapOr(ReadU64(path, contents), 1) == 0
  }

  /** One iteration of the scan loop: skip the entry (None), keep its disk
      (Some), or abort the scan */
  function Examine(s: DiskScanner, mountinfo: Option<string>, name: string, e: BlockEntry): Result<Option<Disk>>
  {
    var diskSys := DiskSysPath(s, name);
    if !IsCandidateName(name) then Ok(None)
    else if !e.hasDevice then Ok(None)
    else if !FlagClear(PathJoin(diskSys, "removable"), e.removable) then Ok(None)
    else if !FlagClear(PathJoin(diskSys, "ro"), e.ro) then Ok(None)
    else match DiskSizeBytes(diskSys, e.size)
      case Err(msg) => Err("Failed to read size for " + name + ": " + msg)
      case Ok(sizeBytes) =>
        if sizeBytes < s.minSizeBytes then Ok(None)
        else match MountedResult(s.procRoot, mountinfo, name)
          case Err(msg) => Err(msg)
          case Ok(true) => Ok(None)
          case Ok(false) =>
            var model := ResultToOption(ReadString(PathJoin(PathJoin(diskSys, "device"), "model"), e.model));
            Ok(Some(Disk(name, PathJoin("/dev", name), sizeBytes, model)))
  }

  /** The body of the scan loop for the `i`-th directory entry */
  method ExamineEntry(s: DiskScanner, mountinfo: Option<string>, block: map<string, BlockEntry>, order: seq<string>, i: nat)
    returns (r: Result<Option<Disk>>)
    requires i < |order| && forall k :: 0 <= k < |order| ==> order[k] in block
    ensures r == Steps(s, mountinfo, block, order)[i]
  {
    StepsAt(s, mountinfo, block, order, i);
    var name := order[i];
    var e := block[name];
    if !IsCandidateName(name) || !e.hasDevice {
      return Ok(None);
    }
    var diskSys := DiskSysPath(s, name);
    if UnwrapOr(ReadU64(PathJoin(diskSys, "removable"), e.removable), 1) != 0 {
      return Ok(None);
    }
    if UnwrapOr(ReadU64(PathJoin(diskSys, "ro"), e.ro), 1) != 0 {
      return Ok(None);
    }
    var size := DiskSizeBytes(diskSys, e.size);
    if size.Err? {
      return Err("Failed to read size for " + name + ": " + size.msg);
    }
    if size.value < s.minSizeBytes {
      return Ok(None);
    }
    var devPath := PathJoin("/dev", name);
    var mounted := IsDeviceMounted(s.procRoot, mountinfo, name);
    if mounted.Err? {
      return Err(mounted.msg);
    }
    if mounted.value {
      return Ok(None);
    }
    var model := ResultToOption(ReadString(PathJoin(PathJoin(diskSys, "device"), "model"), e.model));
    return Ok(Some(Disk(name, devPath, size.value, model)));
  }

  /** The outcome of each loop iteration, in directory order */
  function Steps(s: DiskScanner, mountinfo: Option<string>, block: map<string, BlockEntry>, order: seq<string>)
    : (r: seq<Result<Option<Disk>>>)
    requires forall i :: 0 <= i < |order| ==> order[i] in block
    ensures |r| == |order|
  {
    seq(|order|, i requires 0 <= i < |order| => Examine(s, mountinfo, order[i], block[order[i]]))
  }

  lemma StepsAt(s: DiskScanner, mountinfo: Option<string>, block: map<string, BlockEntry>, order: seq<string>, i: nat)
    requires i < |order| && forall k :: 0 <= k < |order| ==> order[k] in block
    ensures Steps(s, mountinfo, block, order)[i] == Examine(s, mountinfo, order[i], block[order[i]])
  {
  }

  /** The disks kept by a run of iterations, in order; the first abort ends
      the scan with its error. */
  function Gather(steps: seq<Result<Option<Disk>>>): Result<seq<Disk>>
  {
    if steps == [] then Ok([])
    else
      match Gather(steps[..|steps| - 1])
      case Err(msg) => Err(msg)
      case Ok(disks) =>
        match steps[|steps| - 1]
        case Err(msg) => Err(msg)
        case Ok(None) => Ok(disks)
        case Ok(Some(d)) => Ok(disks + [d])
  }

  /** `order` is a listing of the directory: each entry exactly once */
  predicate IsListing(order: seq<string>, block: map<string, BlockEntry>)
  {
    && (forall name :: name in block ==> name in order)
    && (forall i :: 0 <= i < |order| ==> order[i] in block)
    && (forall i, j :: 0 <= i < j < |order| ==> order[i] != order[j])
  }

  function DiskName(d: Disk): string
  {
    d.name
  }

  /** What `eligible_disks` returns when `read_dir` yields the entries in `order` */
  function EligibleDisksResult(s: DiskScanner, sys: SysView, order: seq<string>): Result<seq<Disk>>
    requires sys.block.Some? ==> IsListing(order, sys.block.value)
  {
    match sys.block
    case None => Err("Failed to read " + PathJoin(s.sysRoot, "block"))
    case Some(block) =>
      match Gather(Steps(s, sys.mountinfo, block, order))
      case Err(msg) => Err(msg)
      case Ok(disks) => Ok(SortBy(disks, DiskName))
  }

  /** Once a prefix of the iterations has aborted, the whole scan aborts
      with the same error. */
  lemma {:induction false} GatherErrorPersists(steps: seq<Result<Option<Disk>>>, k: nat)
    requires k <= |steps| && Gather(steps[..k]).Err?
    ensures Gather(steps) == Gather(steps[..k])
    decreases |steps| - k
  {
    if k < |steps| {
      assert steps[..k + 1][..k] == steps[..k];
      GatherErrorPersists(steps, k + 1);
    } else {
      assert steps[..k] == steps;
    }
  }

  /** One more iteration that does not abort extends the kept list. */
  lemma GatherStep(steps: seq<Result<Option<Disk>>>, i: nat, disks: seq<Disk>)
    requires i < |steps| && Gather(steps[..i]) == Ok(disks) && steps[i].Ok?
    ensures Gather(steps[..i + 1]) == Ok(if steps[i].value.Some? then disks + [steps[i].value.value] else disks)
  {
    assert steps[..i + 1][..i] == steps[..i];
  }

  /** The loop of `eligible_disks` over the directory entries, in order;
      the first failing entry ends it with its error. */
  method ScanEntries(s: DiskScanner, mountinfo: Option<string>, block: map<string, BlockEntry>, order: seq<string>)
    returns (r: Result<seq<Disk>>)
    requires forall i :: 0 <= i < |order| ==> order[i] in block
    ensures r == Gather(Steps(s, mountinfo, block, order))
  {
    ghost var steps := Steps(s, mountinfo, block, order);
    var disks: seq<Disk> := [];
    var i := 0;
    while i < |order|
      invariant 0 <= i <= |order|
      invariant Gather(steps[..i]) == Ok(disks)
    {
      var step := ExamineEntry(s, mountinfo, block, order, i);
      if step.Err? {
        ScanStopsAt(steps, i, step.msg);
        return Err(step.msg);
      }
      GatherStep(steps, i, disks);
      if step.value.Some? {
        disks := disks + [step.value.value];
      }
      i := i + 1;
    }
    assert steps[..|order|] == steps;
    return Ok(disks);
  }

  lemma ScanStopsAt(steps: seq<Result<Option<Disk>>>, i: nat, msg: string)
    requires i < |steps| && Gather(steps[..i]).Ok? && steps[i] == Err(msg)
    ensures Gather(steps) == Err(msg)
  {
    assert steps[..i + 1][..i] == steps[..i];
    GatherErrorPersists(steps, i + 1);
  }

  /** `eligible_disks`: visits the entries in directory order, keeps the
      eligible ones, and sorts them by name */
  method EligibleDisks(s: DiskScanner, sys: SysView, order: seq<string>) returns (r: Result<seq<Disk>>)
    requires sys.block.Some? ==> IsListing(order, sys.block.value)
    ensures r == EligibleDisksResult(s, sys, order)
  {
    if sys.block.None? {
      return Err("Failed to read " + PathJoin(s.sysRoot, "block"));
    }
    var scanned := ScanEntries(s, sys.mountinfo, sys.block.value, order);
    if scanned.Err? {
      return Err(scanned.msg);
    }
    return Ok(SortBy(scanned.value, DiskName));
  }

  // ---------------------------------------------------------------------
  // Choosing the target

  /** The decision of `choose_single_target_disk` on the eligible list */
  function ChooseFrom(eligible: seq<Disk>): (r: Result<Disk>)
    ensures |eligible| == 0 ==> r == Err("No eligible disks found")
    ensures |eligible| == 1 <==> r.Ok?
    ensures r.Ok? ==> r.value == eligible[0]
  {
    if |eligible| == 0 then Err("No eligible disks found")
    else if |eligible| == 1 then Ok(eligible[0])
    else Err("Multiple eligible disks found" + " (refusing to choose automatically): "
             + Join(DevPaths(eligible), ", "))
  }

  function DevPaths(ds: seq<Disk>): (r: seq<string>)
    ensures |r| == |ds| && forall i :: 0 <= i < |ds| ==> r[i] == ds[i].devPath
  {
    if ds == [] then [] else [ds[0].devPath] + DevPaths(ds[1..])
  }

  /** `choose_single_target_disk` */
  method ChooseSingleTargetDisk(s: DiskScanner, sys: SysView, order: seq<string>) returns (r: Result<Disk>)
    requires sys.block.Some? ==> IsListing(order, sys.block.value)
    ensures EligibleDisksResult(s, sys, order).Err? ==> r == Err(EligibleDisksResult(s, sys, order).msg)
    ensures EligibleDisksResult(s, sys, order).Ok? ==> r == ChooseFrom(EligibleDisksResult(s, sys, order).value)
  {
    var eligible := EligibleDisks(s, sys, order);
    if eligible.Err? {
      return Err(eligible.msg);
    }
    return ChooseFrom(eligible.value);
  }

  // ---------------------------------------------------------------------
  // Properties

  /** The exclusion list never decides: no excluded prefix shares its first
      two characters with an accepted one, so a name is a candidate exactly
      when it starts with "sd", "vd" or "nvme". */
  lemma CandidateNameIsAcceptList(name: string)
    ensures IsCandidateName(name) <==>
      StartsWith(name, "sd") || StartsWith(name, "vd") || StartsWith(name, "nvme")
  {
    if StartsWith(name, "sd") || StartsWith(name, "vd") || StartsWith(name, "nvme") {
      assert name[0] == 's' || name[0] == 'v' || name[0] == 'n';
      assert name[0] == 's' ==> name[1] == 'd';
    }
  }

  lemma CandidateNamesAccepted()
    ensures IsCandidateName("sda") && IsCandidateName("vdb") && IsCandidateName("nvme0n1")
  {
    assert "sda"[..2] == "sd" && "vdb"[..2] == "vd" && "nvme0n1"[..4] == "nvme";
    CandidateNameIsAcceptList("sda");
    CandidateNameIsAcceptList("vdb");
    CandidateNameIsAcceptList("nvme0n1");
  }

  lemma CandidateNamesRejected()
    ensures !IsCandidateName("loop0") && !IsCandidateName("ram0") && !IsCandidateName("sr0")
    ensures !IsCandidateName("fd0") && !IsCandidateName("dm-0") && !IsCandidateName("md127")
    ensures !IsCandidateName("mmcblk0") && !IsCandidateName("xvda")
  {
    var rejected := ["loop0", "ram0", "sr0", "fd0", "dm-0", "md127", "mmcblk0", "xvda"];
    forall i | 0 <= i < |rejected| ensures !IsCandidateName(rejected[i]) {
      var n := rejected[i];
      CandidateNameIsAcceptList(n);
      assert n[0] != 'v' && n[0] != 'n' && (n[0] == 's' ==> n[1] != 'd');
    }
    assert rejected[0] == "loop0" && rejected[1] == "ram0" && rejected[2] == "sr0" && rejected[3] == "fd0";
    assert rejected[4] == "dm-0" && rejected[5] == "md127" && rejected[6] == "mmcblk0" && rejected[7] == "xvda";
  }

  /** The reference statement of eligibility: the conditions one entry must
      meet for its disk to be listed */
  predicate Qualifies(s: DiskScanner, mountinfo: Option<string>, name: string, e: BlockEntry)
  {
    && IsCandidateName(name)
    && e.hasDevice
    && e.removable.Some? && ParseU64(Trim(e.removable.value)) == Some(0)
    && e.ro.Some? && ParseU64(Trim(e.ro.value)) == Some(0)
    && e.size.Some? && ParseU64(Trim(e.size.value)).Some?
    && SaturatingMul512(ParseU64(Trim(e.size.value)).value) >= s.minSizeBytes
    && mountinfo.Some? && !MountedIn(mountinfo.value, name)
  }

  /** The disk listed for a qualifying entry */
  function DiskOf(name: string, e: BlockEntry): Disk
    requires e.size.Some? && ParseU64(Trim(e.size.value)).Some?
  {
    Disk(name, "/dev/" + name, SaturatingMul512(ParseU64(Trim(e.size.value)).value),
         if e.model.Some? then Some(Trim(e.model.value)) else None)
  }

  /** The entries on which the scan aborts: they pass the name, device and
      flag tests and then have an unreadable or unparsable `size`, or are
      large enough and find the mount table unreadable. */
  predicate Aborts(s: DiskScanner, mountinfo: Option<string>, name: string, e: BlockEntry)
  {
    && IsCandidateName(name)
    && e.hasDevice
    && e.removable.Some? && ParseU64(Trim(e.removable.value)) == Some(0)
    && e.ro.Some? && ParseU64(Trim(e.ro.value)) == Some(0)
    && (|| !(e.size.Some? && ParseU64(Trim(e.size.value)).Some?)
        || (SaturatingMul512(ParseU64(Trim(e.size.value)).value) >= s.minSizeBytes && mountinfo.None?))
  }

  lemma DevPathOfCandidate(name: string)
    requires IsCandidateName(name)
    ensures PathJoin("/dev", name) == "/dev/" + name
  {
    CandidateNameIsAcceptList(name);
    assert name[0] != '/';
  }

  /** The flag tests: a flag counts as clear only when it reads as 0 */
  lemma FlagClearMeans(path: string, contents: Option<string>)
    ensures FlagClear(path, contents) <==> contents.Some? && ParseU64(Trim(contents.value)) == Some(0)
  {
  }

  /** The size test: `disk_size_bytes` succeeds exactly when `size` reads
      as a number, and then gives that many sectors of 512 bytes. */
  lemma DiskSizeMeans(diskSys: string, size: Option<string>)
    ensures DiskSizeBytes(diskSys, size).Ok? <==> size.Some? && ParseU64(Trim(size.value)).Some?
    ensures DiskSizeBytes(diskSys, size).Ok? ==>
      DiskSizeBytes(diskSys, size).value == SaturatingMul512(ParseU64(Trim(size.value)).value)
  {
  }

  /** One iteration aborts exactly on the entries `Aborts` names. */
  lemma ExamineAborts(s: DiskScanner, mountinfo: Option<string>, name: string, e: BlockEntry)
    ensures Examine(s, mountinfo, name, e).Err? <==> Aborts(s, mountinfo, name, e)
  {
    var diskSys := DiskSysPath(s, name);
    FlagClearMeans(PathJoin(diskSys, "removable"), e.removable);
    FlagClearMeans(PathJoin(diskSys, "ro"), e.ro);
    if IsCandidateName(name) && e.hasDevice && FlagClear(PathJoin(diskSys, "removable"), e.removable)
       && FlagClear(PathJoin(diskSys, "ro"), e.ro)
    {
      DiskSizeMeans(diskSys, e.size);
    }
  }

  /** One iteration keeps exactly the qualifying entries, with their disk. */
  lemma ExamineKeeps(s: DiskScanner, mountinfo: Option<string>, name: string, e: BlockEntry)
    ensures (Examine(s, mountinfo, name, e).Ok? && Examine(s, mountinfo, name, e).value.Some?)
            <==> Qualifies(s, mountinfo, name, e)
    ensures Qualifies(s, mountinfo, name, e) ==> Examine(s, mountinfo, name, e) == Ok(Some(DiskOf(name, e)))
  {
    var r := Examine(s, mountinfo, name, e);
    var diskSys := DiskSysPath(s, name);
    FlagClearMeans(PathJoin(diskSys, "removable"), e.removable);
    FlagClearMeans(PathJoin(diskSys, "ro"), e.ro);
    if !IsCandidateName(name) || !e.hasDevice || !FlagClear(PathJoin(diskSys, "removable"), e.removable)
       || !FlagClear(PathJoin(diskSys, "ro"), e.ro)
    {
      assert r == Ok(None);
      assert !Qualifies(s, mountinfo, name, e);
    } else {
      DiskSizeMeans(diskSys, e.size);
      var size := DiskSizeBytes(diskSys, e.size);
      if size.Err? {
        assert r.Err?;
        assert !Qualifies(s, mountinfo, name, e);
      } else if size.value < s.minSizeBytes {
        assert r == Ok(None);
        assert !Qualifies(s, mountinfo, name, e);
      } else if mountinfo.None? {
        assert r.Err?;
        assert !Qualifies(s, mountinfo, name, e);
      } else if MountedIn(mountinfo.value, name) {
        assert r == Ok(None);
        assert !Qualifies(s, mountinfo, name, e);
      } else {
        DevPathOfCandidate(name);
        var model := ResultToOption(ReadString(PathJoin(PathJoin(diskSys, "device"), "model"), e.model));
        assert r == Ok(Some(Disk(name, PathJoin("/dev", name), size.value, model)));
        assert Qualifies(s, mountinfo, name, e);
      }
    }
  }

  lemma {:induction false} GatherError(steps: seq<Result<Option<Disk>>>)
    ensures Gather(steps).Err? <==> exists i :: 0 <= i < |steps| && steps[i].Err?
  {
    if steps != [] {
      var n := |steps| - 1;
      GatherError(steps[..n]);
      if exists i :: 0 <= i < |steps| && steps[i].Err? {
        var i :| 0 <= i < |steps| && steps[i].Err?;
        if i < n {
          assert steps[..n][i] == steps[i];
        }
      }
    }
  }

  lemma {:induction false} GatherMember(steps: seq<Result<Option<Disk>>>, d: Disk)
    requires Gather(steps).Ok?
    ensures d in Gather(steps).value <==> exists i :: 0 <= i < |steps| && steps[i] == Ok(Some(d))
  {
    if steps != [] {
      var n := |steps| - 1;
      GatherMember(steps[..n], d);
      if exists i :: 0 <= i < |steps| && steps[i] == Ok(Some(d)) {
        var i :| 0 <= i < |steps| && steps[i] == Ok(Some(d));
        if i < n {
          assert steps[..n][i] == steps[i];
        }
      }
    }
  }

  /** Kept disks carry the names of distinct iterations, so no name is kept
      twice. */
  lemma {:induction false} GatherDistinct(steps: seq<Result<Option<Disk>>>, names: seq<string>)
    requires |names| == |steps|
    requires forall i, j :: 0 <= i < j < |names| ==> names[i] != names[j]
    requires forall i :: 0 <= i < |steps| && steps[i].Ok? && steps[i].value.Some? ==> steps[i].value.value.name == names[i]
    requires Gather(steps).Ok?
    ensures DistinctKeys(Gather(steps).value, DiskName)
  {
    if steps != [] {
      var n := |steps| - 1;
      var prev := steps[..n];
      GatherDistinct(prev, names[..n]);
      var last := steps[n];
      if last.value.Some? {
        var ds := Gather(prev).value;
        forall k | 0 <= k < |ds| ensures ds[k].name != names[n] {
          GatherMember(prev, ds[k]);
          var i :| 0 <= i < |prev| && prev[i] == Ok(Some(ds[k]));
          assert steps[i] == prev[i];
        }
      }
    }
  }

  lemma ExamineName(s: DiskScanner, mountinfo: Option<string>, name: string, e: BlockEntry)
    ensures Examine(s, mountinfo, name, e).Ok? && Examine(s, mountinfo, name, e).value.Some? ==>
      Examine(s, mountinfo, name, e).value.value.name == name
  {
  }

  /** What `eligible_disks` promises: the scan fails exactly when the block
      directory is unreadable or some entry aborts it; otherwise the result
      is sorted by name with no name twice, and holds exactly the disks of
      the qualifying entries. */
  lemma EligibleDisksCorrect(s: DiskScanner, sys: SysView, order: seq<string>)
    requires sys.block.Some? ==> IsListing(order, sys.block.value)
    ensures EligibleDisksResult(s, sys, order).Err? <==>
      sys.block.None? || exists name :: name in sys.block.value && Aborts(s, sys.mountinfo, name, sys.block.value[name])
    ensures EligibleDisksResult(s, sys, order).Ok? ==>
      var ds := EligibleDisksResult(s, sys, order).value;
      && SortedBy(ds, DiskName) && DistinctKeys(ds, DiskName)
      && forall d :: d in ds <==>
           d.name in sys.block.value && Qualifies(s, sys.mountinfo, d.name, sys.block.value[d.name])
           && d == DiskOf(d.name, sys.block.value[d.name])
  {
    if sys.block.Some? {
      var block := sys.block.value;
      var steps := Steps(s, sys.mountinfo, block, order);
      ScanAborts(s, sys.mountinfo, block, order);
      if Gather(steps).Ok? {
        var ds := Gather(steps).value;
        SortByProps(ds, DiskName);
        ScanDistinct(s, sys.mountinfo, block, order);
        SortByDistinct(ds, DiskName);
        forall d ensures d in SortBy(ds, DiskName) <==>
             d.name in block && Qualifies(s, sys.mountinfo, d.name, block[d.name])
             && d == DiskOf(d.name, block[d.name])
        {
          SortByMember(ds, DiskName, d);
          ScanKeeps(s, sys.mountinfo, block, order, d);
        }
      }
    }
  }

  /** The scan loop aborts exactly when some entry of the directory aborts
      it. */
  lemma ScanAborts(s: DiskScanner, mountinfo: Option<string>, block: map<string, BlockEntry>, order: seq<string>)
    requires IsListing(order, block)
    ensures Gather(Steps(s, mountinfo, block, order)).Err? <==>
      exists name :: name in block && Aborts(s, mountinfo, name, block[name])
  {
    var steps := Steps(s, mountinfo, block, order);
    GatherError(steps);
    if exists name :: name in block && Aborts(s, mountinfo, name, block[name]) {
      var name :| name in block && Aborts(s, mountinfo, name, block[name]);
      var i :| 0 <= i < |order| && order[i] == name;
      StepsAt(s, mountinfo, block, order, i);
      ExamineAborts(s, mountinfo, name, block[name]);
      assert steps[i].Err?;
    }
    if exists i :: 0 <= i < |steps| && steps[i].Err? {
      var i :| 0 <= i < |steps| && steps[i].Err?;
      StepsAt(s, mountinfo, block, order, i);
      ExamineAborts(s, mountinfo, order[i], block[order[i]]);
    }
  }

  /** A completed scan keeps no name twice. */
  lemma ScanDistinct(s: DiskScanner, mountinfo: Option<string>, block: map<string, BlockEntry>, order: seq<string>)
    requires IsListing(order, block)
    requires Gather(Steps(s, mountinfo, block, order)).Ok?
    ensures DistinctKeys(Gather(Steps(s, mountinfo, block, order)).value, DiskName)
  {
    var steps := Steps(s, mountinfo, block, order);
    forall i | 0 <= i < |steps| && steps[i].Ok? && steps[i].value.Some?
      ensures steps[i].value.value.name == order[i]
    {
      StepsAt(s, mountinfo, block, order, i);
      ExamineName(s, mountinfo, order[i], block[order[i]]);
    }
    GatherDistinct(steps, order);
  }

  /** A completed scan keeps exactly the disks of the qualifying entries. */
  lemma ScanKeeps(s: DiskScanner, mountinfo: Option<string>, block: map<string, BlockEntry>, order: seq<string>, d: Disk)
    requires IsListing(order, block)
    requires Gather(Steps(s, mountinfo, block, order)).Ok?
    ensures d in Gather(Steps(s, mountinfo, block, order)).value <==>
      d.name in block && Qualifies(s, mountinfo, d.name, block[d.name]) && d == DiskOf(d.name, block[d.name])
  {
    var steps := Steps(s, mountinfo, block, order);
    GatherMember(steps, d);
    if d.name in block {
      ExamineKeeps(s, mountinfo, d.name, block[d.name]);
      if Qualifies(s, mountinfo, d.name, block[d.name]) && d == DiskOf(d.name, block[d.name]) {
        var i :| 0 <= i < |order| && order[i] == d.name;
        StepsAt(s, mountinfo, block, order, i);
        assert steps[i] == Ok(Some(d));
      }
    }
    if exists i :: 0 <= i < |steps| && steps[i] == Ok(Some(d)) {
      var i :| 0 <= i < |steps| && steps[i] == Ok(Some(d));
      StepsAt(s, mountinfo, block, order, i);
      ExamineKeeps(s, mountinfo, order[i], block[order[i]]);
      ExamineName(s, mountinfo, order[i], block[order[i]]);
    }
  }

  /** The directory order does not matter: under any two listings of the
      same directory the scan fails under both or gives the same list. */
  lemma EligibleDisksOrderIndependent(s: DiskScanner, sys: SysView, o1: seq<string>, o2: seq<string>)
    requires sys.block.Some? ==> IsListing(o1, sys.block.value) && IsListing(o2, sys.block.value)
    ensures EligibleDisksResult(s, sys, o1).Err? <==> EligibleDisksResult(s, sys, o2).Err?
    ensures EligibleDisksResult(s, sys, o1).Ok? ==> EligibleDisksResult(s, sys, o1) == EligibleDisksResult(s, sys, o2)
  {
    EligibleDisksCorrect(s, sys, o1);
    EligibleDisksCorrect(s, sys, o2);
    var r1, r2 := EligibleDisksResult(s, sys, o1), EligibleDisksResult(s, sys, o2);
    if r1.Ok? {
      SortedDistinctUnique(r1.value, r2.value, DiskName);
    }
  }

  /** Two or more eligible disks are refused with a message naming each
      one's device path. */
  lemma ChooseFromMany(eligible: seq<Disk>)
    requires |eligible| >= 2
    ensures ChooseFrom(eligible).Err?
    ensures StartsWith(ChooseFrom(eligible).msg, "Multiple eligible disks found")
    ensures forall d :: d in eligible ==> Contains(ChooseFrom(eligible).msg, d.devPath)
  {
    var lead := "Multiple eligible disks found";
    var joined := Join(DevPaths(eligible), ", ");
    var rest := " (refusing to choose automatically): " + joined;
    assert ChooseFrom(eligible).msg == lead + " (refusing to choose automatically): " + joined;
    assert lead + " (refusing to choose automatically): " + joined == lead + rest;
    StartsWithConcat(lead, rest);
    DevPathsJoined(eligible);
    forall d | d in eligible ensures Contains(lead + rest, d.devPath) {
      ContainsInSuffix(" (refusing to choose automatically): ", joined, d.devPath);
      ContainsInSuffix(lead, rest, d.devPath);
    }
  }

  lemma DevPathsJoined(ds: seq<Disk>)
    ensures forall d :: d in ds ==> Contains(Join(DevPaths(ds), ", "), d.devPath)
  {
    JoinContainsEach(DevPaths(ds), ", ");
    forall d | d in ds ensures Contains(Join(DevPaths(ds), ", "), d.devPath) {
      var i :| 0 <= i < |ds| && ds[i] == d;
      assert DevPaths(ds)[i] == d.devPath;
    }
  }

  /** A line-terminated attribute value trims to the value */
  lemma TrimLineEnd(v: string)
    requires v != [] && !IsWhitespace(v[0]) && !IsWhitespace(v[|v| - 1])
    ensures Trim(v + "\n") == v
  {
    var t := v + "\n";
    assert t[0] == v[0];
    assert TrimStart(t) == t;
    assert t[..|t| - 1] == v;
    assert TrimEnd(t) == TrimEnd(v);
  }

  lemma ParseSmallExamples()
    ensures ParseU64("0") == Some(0) && ParseU64("1") == Some(1)
  {
    assert NatToString(0) == "0" && NatToString(1) == "1";
    ParseU64OfFormatted(0);
    ParseU64OfFormatted(1);
  }

  lemma Parse4096()
    ensures ParseU64("4096") == Some(4096)
  {
    assert NatToString(4) == "4";
    assert NatToString(40) == "40";
    assert NatToString(409) == "409";
    assert NatToString(4096) == "4096";
    ParseU64OfFormatted(4096);
  }

  /** The readings of the single-disk example: flags "0\n" or "1\n",
      4096 sectors, model "UTM Disk\n", an empty mount table */
  lemma ReadFlagValues()
    ensures ParseU64(Trim("0\n")) == Some(0)
    ensures ParseU64(Trim("1\n")) == Some(1)
  {
    ReadZero();
    ReadOne();
  }

  lemma ReadZero()
    ensures ParseU64(Trim("0\n")) == Some(0)
  {
    assert "0" + "\n" == "0\n";
    TrimLineEnd("0");
    ParseSmallExamples();
  }

  lemma ReadOne()
    ensures ParseU64(Trim("1\n")) == Some(1)
  {
    assert "1" + "\n" == "1\n";
    TrimLineEnd("1");
    ParseSmallExamples();
  }

  lemma ReadSizeValue()
    ensures ParseU64(Trim("4096\n")) == Some(4096)
  {
    assert "4096" + "\n" == "4096\n";
    TrimLineEnd("4096");
    Parse4096();
  }

  lemma ReadModelValue()
    ensures Trim("UTM Disk\n") == "UTM Disk"
    ensures !MountedIn("", "vda")
  {
    assert "UTM Disk" + "\n" == "UTM Disk\n";
    TrimLineEnd("UTM Disk");
  }

  lemma SizeOf4096Sectors()
    ensures SaturatingMul512(4096) == 2097152
  {
    assert 4096 * 512 == 2097152 <= U64_MAX;
  }

  /** A directory with a single entry lists that entry's disk, if kept. */
  lemma SingleEntryScan(s: DiskScanner, mountinfo: Option<string>, name: string, e: BlockEntry)
    requires Examine(s, mountinfo, name, e).Ok?
    ensures IsListing([name], map[name := e])
    ensures EligibleDisksResult(s, SysView(Some(map[name := e]), mountinfo), [name])
      == Ok(match Examine(s, mountinfo, name, e).value
            case None => []
            case Some(d) => [d])
  {
    var steps := Steps(s, mountinfo, map[name := e], [name]);
    StepsAt(s, mountinfo, map[name := e], [name], 0);
    assert steps[..0] == [];
    GatherStep(steps, 0, []);
    assert steps[..1] == steps;
    var step := Examine(s, mountinfo, name, e);
    if step.value.Some? {
      SortOne(step.value.value);
    }
  }

  lemma SortOne(d: Disk)
    ensures SortBy([d], DiskName) == [d]
  {
    assert [d][..0] == [];
  }

  /** A single fixed, writable, unmounted 2 MiB "vda" with a model is the
      one eligible disk under a 1 MiB floor, wherever the roots are. */
  lemma OneDiskIsEligible(s: DiskScanner, e: BlockEntry)
    requires s.minSizeBytes == 1024 * 1024
    requires e == BlockEntry(true, Some("0\n"), Some("0\n"), Some("4096\n"), Some("UTM Disk\n"))
    ensures IsListing(["vda"], map["vda" := e])
    ensures EligibleDisksResult(s, SysView(Some(map["vda" := e]), Some("")), ["vda"])
      == Ok([Disk("vda", "/dev/vda", 2097152, Some("UTM Disk"))])
  {
    VdaQualifies(s, e);
    ExamineKeeps(s, Some(""), "vda", e);
    SingleEntryScan(s, Some(""), "vda", e);
  }

  lemma VdaQualifies(s: DiskScanner, e: BlockEntry)
    requires s.minSizeBytes == 1024 * 1024
    requires e == BlockEntry(true, Some("0\n"), Some("0\n"), Some("4096\n"), Some("UTM Disk\n"))
    ensures Qualifies(s, Some(""), "vda", e)
    ensures DiskOf("vda", e) == Disk("vda", "/dev/vda", 2097152, Some("UTM Disk"))
  {
    ReadFlagValues();
    ReadSizeValue();
    SizeOf4096Sectors();
    VdaIsCandidate();
    ReadModelValue();
    DevVda();
  }

  lemma VdaIsCandidate()
    ensures IsCandidateName("vda")
  {
    assert "vda"[..2] == "vd";
    CandidateNameIsAcceptList("vda");
  }

  lemma DevVda()
    ensures "/dev/" + "vda" == "/dev/vda"
  {
  }

  /** The same disk marked removable is not eligible. */
  lemma RemovableDiskIsExcluded(s: DiskScanner, e: BlockEntry)
    requires e == BlockEntry(true, Some("1\n"), Some("0\n"), Some("4096\n"), None)
    ensures IsListing(["vda"], map["vda" := e])
    ensures EligibleDisksResult(s, SysView(Some(map["vda" := e]), Some("")), ["vda"]) == Ok([])
  {
    ReadFlagValues();
    ExamineKeeps(s, Some(""), "vda", e);
    ExamineAborts(s, Some(""), "vda", e);
    SingleEntryScan(s, Some(""), "vda", e);
  }
}
