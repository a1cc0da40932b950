/** The partition planner: a two-partition GPT layout (EFI System Partition,
    then a Linux root filling the rest of the disk) written by one of two
    partitioning programs, and the device names of the new partitions.
    Program runs go through the oracle of module Tools; each operation
    returns the runs it made, in order, with its outcome. */
module Partition {
  import opened Wrappers
  import opened Text
  import opened Paths
  import opened Tools

  /** Partition type GUID of an EFI System Partition (UEFI Specification, section 5.3.3) */
  const EFI_SYSTEM_PARTITION_GUID: string := "C12A7328-F81F-11D2-BA4B-00A0C93EC93B"

  /** Partition type GUID of Linux filesystem data (Discoverable Partitions Specification) */
  const LINUX_FILESYSTEM_GUID: string := "0FC63DAF-8483-4772-8E79-3D69D8477DE4"

  datatype PartitionPlan = PartitionPlan(espSizeMib: nat)

  /** One effect of a partitioning operation */
  datatype Step = Ran(inv: Invocation) | Slept(millis: nat)

  /** The effects an operation had, in order, and its result */
  datatype Attempt = Attempt(steps: seq<Step>, outcome: Outcome)

  /** `PartitionPlan::default()` */
  function DefaultPlan(): (p: PartitionPlan)
    ensures p.espSizeMib == 512
  {
    PartitionPlan(512)
  }

  function After(first: seq<Step>, rest: Attempt): Attempt
  {
    Attempt(first + rest.steps, rest.outcome)
  }

  /** `wipefs_all`: erase every filesystem and partition-table signature */
  function WipefsAll(tool: Oracle, disk: string): (r: Attempt)
    ensures r.steps == [Ran(Exec("wipefs", ["-a", disk]))]
    ensures r.outcome.Pass? <==> Succeeded(tool(Exec("wipefs", ["-a", disk])))
  {
    var inv := Exec("wipefs", ["-a", disk]);
    Attempt([Ran(inv)], WithContext(RunOutcome("wipefs", tool(inv)), "wipefs failed for " + disk))
  }

  /** `partition_gpt_esp_root`: sfdisk when its probe succeeds, otherwise
      parted when its probe succeeds, otherwise an error */
  function PartitionGptEspRoot(tool: Oracle, disk: string, plan: PartitionPlan): Attempt
  {
    if CommandExists(tool, "sfdisk") then
      After([Ran(Probe("sfdisk"))], PartitionWithSfdisk(tool, disk, plan))
    else if CommandExists(tool, "parted") then
      After([Ran(Probe("sfdisk")), Ran(Probe("parted"))], PartitionWithParted(tool, disk, plan))
    else
      Attempt([Ran(Probe("sfdisk")), Ran(Probe("parted"))],
              Fail("No partitioning tool available (need 'sfdisk' or 'parted')"))
  }

  /** The sfdisk run: the layout script is fed on standard input */
  function SfdiskRun(disk: string, plan: PartitionPlan): Invocation
  {
    Invocation("sfdisk", ["--label", "gpt", disk], SfdiskGptScript(plan))
  }

  function PartitionWithSfdisk(tool: Oracle, disk: string, plan: PartitionPlan): Attempt
  {
    var inv := SfdiskRun(disk, plan);
    var o := tool(inv);
    if !Succeeded(o) then Attempt([Ran(inv)], RunOutcome("sfdisk", o))
    else After([Ran(inv)], RereadPartitionTable(tool, disk))
  }

  function PartitionWithParted(tool: Oracle, disk: string, plan: PartitionPlan): Attempt
  {
    var inv := Exec("parted", PartedArgs(disk, plan));
    var o := tool(inv);
    if !Succeeded(o) then Attempt([Ran(inv)], WithContext(RunOutcome("parted", o), "parted failed for " + disk))
    else After([Ran(inv)], RereadPartitionTable(tool, disk))
  }

  /** `reread_partition_table`: partprobe when present (its failure is the
      result), otherwise a fixed 500 ms wait that always succeeds */
  function RereadPartitionTable(tool: Oracle, disk: string): (r: Attempt)
    ensures r.outcome.Pass? <==> !CommandExists(tool, "partprobe") || Succeeded(tool(Exec("partprobe", [disk])))
    ensures |r.steps| == 2 && r.steps[0] == Ran(Probe("partprobe"))
    ensures !CommandExists(tool, "partprobe") ==> r.steps == [Ran(Probe("partprobe")), Slept(500)]
  {
    if CommandExists(tool, "partprobe") then
      var inv := Exec("partprobe", [disk]);
      Attempt([Ran(Probe("partprobe")), Ran(inv)],
              WithContext(RunOutcome("partprobe", tool(inv)), "partprobe failed for " + disk))
    else
      Attempt([Ran(Probe("partprobe")), Slept(500)], Pass)
  }

  /** `sfdisk_gpt_script`: the label line, a blank line, then one line per
      partition */
  function SfdiskGptScript(plan: PartitionPlan): string
  {
    "label: gpt\n\n" + EspLine(plan.espSizeMib) + RootLine()
  }

  function EspLine(sizeMib: nat): string
  {
    "size=" + NatToString(sizeMib) + "MiB" + ", type=" + EFI_SYSTEM_PARTITION_GUID + "\n"
  }

  function RootLine(): string
  {
    "type=" + LINUX_FILESYSTEM_GUID + "\n"
  }

  /** The parted argument vector: a GPT label, the ESP from 1 MiB to
      (1 + size) MiB with the esp flag, then root from there to 100% */
  function PartedArgs(disk: string, plan: PartitionPlan): seq<string>
  {
    var espStart := "1MiB";
    var espEnd := NatToString(1 + plan.espSizeMib) + "MiB";
    var rootStart := espEnd;
    ["-s", disk, "mklabel", "gpt",
     "mkpart", "ESP", "fat32", espStart, espEnd,
     "set", "1", "esp", "on",
     "mkpart", "root", "ext4", rootStart, "100%"]
  }

  /** The MiB count of a boundary written "<digits>MiB" */
  function MibValue(boundary: string): Option<nat>
  {
    if |boundary| > 3 && EndsWith(boundary, "MiB") && AllDigits(boundary[..|boundary| - 3])
    then Some(DigitsValue(boundary[..|boundary| - 3]))
    else None
  }

  /** `expected_esp_and_root_partitions`: "/dev/" + name + separator + "1"
      and "2", the separator being "p" when the name ends in a digit */
  function ExpectedEspAndRootPartitions(disk: string): (r: Result<(string, string)>)
    ensures r.Err? <==> FileName(disk).None?
    ensures r.Ok? ==>
      var (esp, root) := r.value;
      var name := FileName(disk).value;
      && esp == "/dev/" + name + Separator(name) + "1"
      && root == "/dev/" + name + Separator(name) + "2"
  {
    match FileName(disk)
    case None => Err("Invalid disk path: " + disk)
    case Some(name) =>
      var sep := Separator(name);
      JoinUnderDev(name, sep, "1");
      JoinUnderDev(name, sep, "2");
      Ok((PathJoin("/dev", name + sep + "1"), PathJoin("/dev", name + sep + "2")))
  }

  /** The separator between a disk name and a partition number */
  function Separator(name: string): string
  {
    if name != [] && IsAsciiDigit(name[|name| - 1]) then "p" else ""
  }

  lemma JoinUnderDev(name: string, sep: string, num: string)
    requires name != [] && name[0] != '/'
    ensures PathJoin("/dev", name + sep + num) == "/dev/" + name + sep + num
  {
    var rel := name + sep + num;
    assert rel[0] == name[0];
    assert PathJoin("/dev", rel) == "/dev" + "/" + rel;
    assert "/dev" + "/" + rel == "/dev/" + name + sep + num;
  }

  /** The two partition names differ only in their last character, "1" for
      the ESP and "2" for root. */
  lemma PartitionNamesDifferInNumber(disk: string)
    requires ExpectedEspAndRootPartitions(disk).Ok?
    ensures var (esp, root) := ExpectedEspAndRootPartitions(disk).value;
      && |esp| == |root| && esp[..|esp| - 1] == root[..|root| - 1]
      && esp[|esp| - 1] == '1' && root[|root| - 1] == '2'
  {
    var (esp, root) := ExpectedEspAndRootPartitions(disk).value;
    var name := FileName(disk).value;
    var stem := "/dev/" + name + Separator(name);
    assert esp == stem + "1" && root == stem + "2";
    assert esp[..|esp| - 1] == stem;
    assert root[..|root| - 1] == stem;
  }

  // ---------------------------------------------------------------------
  // Properties

  /** The sfdisk script opens with the GPT label and ends with a newline. */
  lemma SfdiskScriptFraming(plan: PartitionPlan)
    ensures StartsWith(SfdiskGptScript(plan), "label: gpt\n")
    ensures EndsWith(SfdiskGptScript(plan), "\n")
  {
    var s := SfdiskGptScript(plan);
    assert s[..11] == "label: gpt\n";
  }

  /** The sfdisk script asks for an ESP of the plan's size in MiB. */
  lemma SfdiskScriptNamesSize(plan: PartitionPlan)
    ensures Contains(SfdiskGptScript(plan), "size=" + NatToString(plan.espSizeMib) + "MiB")
  {
    var t := "size=" + NatToString(plan.espSizeMib) + "MiB";
    ContainsItself(t);
    ContainsInPrefix(t, ", type=", t);
    ContainsInPrefix(t + ", type=", EFI_SYSTEM_PARTITION_GUID, t);
    ContainsInPrefix(t + ", type=" + EFI_SYSTEM_PARTITION_GUID, "\n", t);
    InScript(plan, t);
  }

  /** The sfdisk script gives the ESP and root their partition types. */
  lemma SfdiskScriptNamesTypes(plan: PartitionPlan)
    ensures Contains(SfdiskGptScript(plan), EFI_SYSTEM_PARTITION_GUID)
    ensures Contains(SfdiskGptScript(plan), LINUX_FILESYSTEM_GUID)
  {
    var lead := "size=" + NatToString(plan.espSizeMib) + "MiB" + ", type=";
    ContainsItself(EFI_SYSTEM_PARTITION_GUID);
    ContainsInSuffix(lead, EFI_SYSTEM_PARTITION_GUID, EFI_SYSTEM_PARTITION_GUID);
    ContainsInPrefix(lead + EFI_SYSTEM_PARTITION_GUID, "\n", EFI_SYSTEM_PARTITION_GUID);
    InScript(plan, EFI_SYSTEM_PARTITION_GUID);
    ContainsItself(LINUX_FILESYSTEM_GUID);
    ContainsInSuffix("type=", LINUX_FILESYSTEM_GUID, LINUX_FILESYSTEM_GUID);
    ContainsInPrefix("type=" + LINUX_FILESYSTEM_GUID, "\n", LINUX_FILESYSTEM_GUID);
    ContainsInSuffix("label: gpt\n\n" + EspLine(plan.espSizeMib), RootLine(), LINUX_FILESYSTEM_GUID);
  }

  /** What the ESP line contains, the script contains. */
  lemma InScript(plan: PartitionPlan, t: string)
    requires Contains(EspLine(plan.espSizeMib), t)
    ensures Contains(SfdiskGptScript(plan), t)
  {
    ContainsInSuffix("label: gpt\n\n", EspLine(plan.espSizeMib), t);
    ContainsInPrefix("label: gpt\n\n" + EspLine(plan.espSizeMib), RootLine(), t);
  }

  /** A formatted count followed by "MiB" reads back as that count. */
  lemma MibValueOfFormatted(n: nat)
    ensures MibValue(NatToString(n) + "MiB") == Some(n)
  {
    var b := NatToString(n) + "MiB";
    assert b[..|b| - 3] == NatToString(n);
    assert b[|b| - 3..] == "MiB";
    NatToStringRoundTrip(n);
  }

  /** The parted argument vector: label the disk GPT, make the ESP, flag
      it, make root. */
  lemma PartedCommands(disk: string, plan: PartitionPlan)
    ensures var a := PartedArgs(disk, plan);
      && |a| == 18 && a[..4] == ["-s", disk, "mklabel", "gpt"]
      && a[4..7] == ["mkpart", "ESP", "fat32"] && a[9..13] == ["set", "1", "esp", "on"]
      && a[13..16] == ["mkpart", "root", "ext4"] && a[17] == "100%"
  {
  }

  /** The parted boundaries: the ESP spans exactly `espSizeMib` MiB from
      1 MiB, and root starts at the ESP's end boundary (no gap, no overlap)
      and runs to the end of the disk. */
  lemma PartedBoundaries(disk: string, plan: PartitionPlan)
    ensures var a := PartedArgs(disk, plan);
      && |a| == 18
      && MibValue(a[7]) == Some(1)
      && MibValue(a[8]) == Some(1 + plan.espSizeMib)
      && a[16] == a[8]
  {
    MibValueOfFormatted(1 + plan.espSizeMib);
    OneMib();
  }

  lemma OneMib()
    ensures MibValue("1MiB") == Some(1)
  {
    assert NatToString(1) == "1";
    MibValueOfFormatted(1);
    assert "1" + "MiB" == "1MiB";
  }

  /** Backend choice: sfdisk whenever its probe succeeds, and then parted is
      never run, even when sfdisk fails; parted only when sfdisk is absent;
      an error naming both when neither is present. */
  lemma BackendChoice(tool: Oracle, disk: string, plan: PartitionPlan)
    ensures var r := PartitionGptEspRoot(tool, disk, plan);
      && (CommandExists(tool, "sfdisk") ==>
            && r.steps[..2] == [Ran(Probe("sfdisk")), Ran(SfdiskRun(disk, plan))]
            && (forall i :: 0 <= i < |r.steps| && r.steps[i].Ran? ==> r.steps[i].inv.program != "parted")
            && (!Succeeded(tool(SfdiskRun(disk, plan))) ==> r.outcome.Fail? && |r.steps| == 2))
      && (!CommandExists(tool, "sfdisk") && CommandExists(tool, "parted") ==>
            r.steps[..3] == [Ran(Probe("sfdisk")), Ran(Probe("parted")), Ran(Exec("parted", PartedArgs(disk, plan)))])
      && (!CommandExists(tool, "sfdisk") && !CommandExists(tool, "parted") ==>
            r == Attempt([Ran(Probe("sfdisk")), Ran(Probe("parted"))],
                         Fail("No partitioning tool available (need 'sfdisk' or 'parted')")))
  {
    var r := PartitionGptEspRoot(tool, disk, plan);
    if CommandExists(tool, "sfdisk") {
      var inv := SfdiskRun(disk, plan);
      if Succeeded(tool(inv)) {
        var rr := RereadPartitionTable(tool, disk);
        assert r.steps == [Ran(Probe("sfdisk")), Ran(inv)] + rr.steps;
        forall i | 0 <= i < |r.steps| && r.steps[i].Ran? ensures r.steps[i].inv.program != "parted" {
          if i >= 2 {
            assert r.steps[i] == rr.steps[i - 2];
          }
        }
      }
    }
  }

  /** Partitioning succeeds only when the chosen backend's run succeeded and
      the table reread succeeded after it. */
  lemma PartitionSuccess(tool: Oracle, disk: string, plan: PartitionPlan)
    requires PartitionGptEspRoot(tool, disk, plan).outcome.Pass?
    ensures CommandExists(tool, "sfdisk") ==> Succeeded(tool(SfdiskRun(disk, plan)))
    ensures !CommandExists(tool, "sfdisk") ==>
      CommandExists(tool, "parted") && Succeeded(tool(Exec("parted", PartedArgs(disk, plan))))
    ensures RereadPartitionTable(tool, disk).outcome.Pass?
  {
  }

  /** A disk directly under /dev gets partitions 1 and 2 of its own name */
  lemma DevDiskPartitionNames(name: string)
    requires name != [] && name != "." && name != ".." && '/' !in name
    ensures ExpectedEspAndRootPartitions("/dev/" + name)
         == Ok(("/dev/" + name + Separator(name) + "1", "/dev/" + name + Separator(name) + "2"))
  {
    DevPathComponents(name);
  }

  /** The partition names of a SCSI-style disk: no separator */
  lemma PartitionNamesForSda()
    ensures ExpectedEspAndRootPartitions("/dev/sda") == Ok(("/dev/sda1", "/dev/sda2"))
  {
    var name := "sda";
    assert '/' !in name;
    DevDiskPartitionNames(name);
    assert !IsAsciiDigit(name[2]);
    assert Separator(name) == "";
    assert "/dev/" + name == "/dev/sda";
    assert "/dev/" + name + "" + "1" == "/dev/sda1";
    assert "/dev/" + name + "" + "2" == "/dev/sda2";
  }

  /** The partition names of an NVMe namespace: a "p" separator */
  lemma PartitionNamesForNvme()
    ensures ExpectedEspAndRootPartitions("/dev/nvme0n1") == Ok(("/dev/nvme0n1p1", "/dev/nvme0n1p2"))
  {
    var name := "nvme0n1";
    assert '/' !in name;
    DevDiskPartitionNames(name);
    assert IsAsciiDigit(name[6]);
    assert Separator(name) == "p";
    assert "/dev/" + name == "/dev/nvme0n1";
    assert "/dev/" + name + "p" + "1" == "/dev/nvme0n1p1";
    assert "/dev/" + name + "p" + "2" == "/dev/nvme0n1p2";
  }

  lemma DevPathComponents(name: string)
    requires name != [] && name != "." && name != ".." && '/' !in name
    ensures FileName("/dev/" + name) == Some(name)
  {
    assert "/dev/" + name == [] + ['/'] + ("dev" + ['/'] + name);
    SplitOnAppend([], '/', "dev" + ['/'] + name);
    SplitOnAppend("dev", '/', name);
    SplitOnNoSep(name, '/');
    var pieces := ["", "dev", name];
    assert SplitOn("/dev/" + name, '/') == pieces;
    assert NamedPieces(pieces[2..]) == [name];
    assert NamedPieces(pieces[1..]) == ["dev", name];
  }

  /** The default plan's script asks for a 512 MiB ESP */
  lemma DefaultScriptSize()
    ensures Contains(SfdiskGptScript(DefaultPlan()), "size=512MiB")
  {
    SfdiskScriptNamesSize(DefaultPlan());
    Format512();
  }

  lemma Format512()
    ensures "size=" + NatToString(512) + "MiB" == "size=512MiB"
  {
    assert NatToString(5) == "5";
    assert NatToString(51) == "51";
    assert NatToString(512) == "512";
  }
}
