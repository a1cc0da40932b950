# TruthDB installer core, modelled in Dafny

The TruthDB installer boots from removable media. It picks the one internal
disk it may install to, partitions it as GPT (an EFI system partition and an
ext4 root), and mounts both under `/mnt`. It then unpacks the root
filesystem payload and configures the installed system: the initial user,
the hostname and `/etc/hosts`, the machine id, systemd units and
systemd-boot with its firmware entry. While it works, a small text UI shows
the steps taken and wraps errors to the screen width.

This project models that core:

- **Disk selection** (`Disks`): the `/sys/block` and `/proc/self/mountinfo`
  views are values handed in, and directory order is a parameter.
- **Partitioning** (`Partition`): external programs are a deterministic
  oracle from an invocation to its exit status and output.
- **Installation steps** (`Effects`, `Machines`, `TargetSteps`,
  `ConfigSteps`, `BootSteps`):
  - A `Machine` object owns a filesystem map (path to file, directory or
    symbolic link) and the oracle.
  - Each step method appends what it does to a ghost trace of effects. It
    is proved to leave the filesystem equal to the replay of a
    specification function's effects, with that function's outcome.
- **Pure rules** the steps use (`Install`, `Hosts`, `BootFiles`).
- **The UI state machine and log** (`Application`).
- **Supporting modules**:
  - `Wrappers`: Option and Result.
  - `Text`: Rust's `trim`, `lines`, `split_whitespace`, integer parsing and
    lexicographic order on strings.
  - `Paths`: `Path::join`, `components`, `file_name` and `strip_prefix`.
  - `Seqs`: selection and first-match replacement.
  - `Tools`: the oracle's types.

The proved properties include:

- The eligible disks are exactly the candidates that qualify, whatever order
  the directory lists them in.
- The partition names of a disk differ only in the partition number.
- The hosts rewrite keeps every other line, leaves exactly one hostname
  line, and is idempotent.
- The hostname and machine id steps are idempotent. Enabling a unit is
  idempotent only once its existence check is corrected.
- Kernel selection takes the newest kernel and initrd, whatever the listing
  order.
- A successful boot configuration leaves a bootable EFI system partition.
- The fstab and loader entry files read back as the fields written.
- Error wrapping loses no visible character and stays within the width.
- The log keeps exactly the most recent lines.

The code is followed where it and the written design disagree:

- A failed `partprobe` fails the partitioning step.
- `enable_systemd_unit` and `ensure_machine_id` decide whether a link is
  already there by following it (see Findings).
- The design asks for exactly one localhost line in `/etc/hosts`. The code
  adds a `127.0.0.1 localhost` line only when none exists, and keeps every
  one it finds.
- The design asks for a valid 32-hex machine id. The code keeps any
  existing id whose trimmed text is at least 32 bytes long, whatever its
  characters.

## Model

| member | source | states |
|---|---|---|
| Disks.NewDefault | src/platform/disks.rs:29-33 | the default scanner looks under /sys and /proc and needs at least 8 GiB |
| Disks.ReadU64 | src/platform/disks.rs:122-127 | a sysfs number reads iff the file is there and its trimmed text parses as a u64, giving that value |
| Disks.ReadString | src/platform/disks.rs:129-132 | a sysfs string reads iff the file is there, giving its trimmed text |
| Disks.SaturatingMul512 | src/platform/disks.rs:134-138 | sectors times 512 saturates at u64::MAX, and is exact whenever it does not reach it |
| Disks.DiskSizeBytes | src/platform/disks.rs:134-138 | the size is the `size` file's sector count times 512 (saturating); an unreadable size is that read's error |
| Disks.DiskSizeMeans | src/platform/disks.rs:134-138 | the size is known iff the `size` file holds a u64, and is then that count times 512 |
| Disks.IsDeviceMounted | src/platform/disks.rs:140-168 | the loop over mountinfo lines answers the specified mounted-device result, an unreadable mountinfo being an error |
| Disks.SomeLineMountsMeans | src/platform/disks.rs:147-165 | a device counts as mounted iff some mountinfo line's source, after the " - " separator, starts with its /dev path, so partitions count too |
| Disks.AnyLineMounts | src/platform/disks.rs:147-165 | the loop finds a mounting line exactly when one exists |
| Disks.CandidateNameIsAcceptList | src/platform/disks.rs:106-120 | a name is a candidate iff it starts with sd, vd or nvme |
| Disks.CandidateNamesRejected | src/platform/disks.rs:106-120 | loop, ram, sr, fd, dm, md, mmcblk and xvd devices are never candidates |
| Disks.FlagClearMeans | src/platform/disks.rs:56-61 | the removable and read-only checks pass iff the flag file reads back exactly 0; an unreadable flag counts as set |
| Disks.ExamineEntry | src/platform/disks.rs:39-81 | one directory entry is skipped, kept as a disk, or aborts the scan exactly as specified |
| Disks.ExamineAborts | src/platform/disks.rs:45-71 | an entry aborts the scan iff a candidate with a device and clear flags has an unreadable size, or is large enough and the mount table is unreadable |
| Disks.ExamineKeeps | src/platform/disks.rs:45-79 | an entry yields a disk iff it is a candidate, not removable, not read-only, large enough and not mounted; the disk carries its /dev path, size and model |
| Disks.ScanEntries | src/platform/disks.rs:39-81 | the loop over the listing gathers the kept disks in order and stops at the first error |
| Disks.GatherError | src/platform/disks.rs:39-81 | the scan fails iff some entry's examination fails |
| Disks.GatherMember | src/platform/disks.rs:39-81 | a disk is gathered iff some entry produced it |
| Disks.ScanStopsAt | src/platform/disks.rs:39-81 | the first failing entry's error is the scan's error |
| Disks.ScanKeeps | src/platform/disks.rs:39-83 | a disk is in the result iff its block entry qualifies and the disk is built from that entry |
| Disks.ScanDistinct | src/platform/disks.rs:39-83 | no two eligible disks share a name |
| Disks.EligibleDisks | src/platform/disks.rs:35-85 | scanning then sorting by name yields the specified eligible-disk result |
| Disks.EligibleDisksCorrect | src/platform/disks.rs:35-85 | the scan fails iff /sys/block is unreadable or some entry aborts; otherwise the result is sorted by name, has distinct names and holds exactly the qualifying disks |
| Disks.EligibleDisksOrderIndependent | src/platform/disks.rs:35-85 | the result does not depend on the order in which the directory lists its entries |
| Disks.ChooseFrom | src/platform/disks.rs:87-103 | choosing succeeds iff exactly one disk is eligible, returns that disk, and reports "No eligible disks found" when there are none |
| Disks.ChooseFromMany | src/platform/disks.rs:92-101 | with two or more eligible disks the error begins "Multiple eligible disks found" and names every disk's /dev path |
| Disks.DevPaths | src/platform/disks.rs:93-97 | the listed paths are the disks' /dev paths in order |
| Disks.ChooseSingleTargetDisk | src/platform/disks.rs:87-103 | a scan error is passed on; otherwise the choice among the eligible disks is returned |
| Disks.OneDiskIsEligible | src/platform/disks.rs:185-207 | a fixed, writable, unmounted 4096-sector vda is the one eligible disk, 2097152 bytes, model "UTM Disk" |
| Disks.RemovableDiskIsExcluded | src/platform/disks.rs:233-249 | a removable vda yields no eligible disk |
| Partition.DefaultPlan | src/platform/partition.rs:15-19 | the default ESP is 512 MiB |
| Partition.WipefsAll | src/platform/partition.rs:21-24 | wiping runs `wipefs -a disk` once and succeeds iff it exits successfully |
| Partition.BackendChoice | src/platform/partition.rs:26-35 | sfdisk is used whenever present, and parted then never runs even when sfdisk fails; parted runs only when sfdisk is absent; with neither, the step fails saying no partitioning tool is available |
| Partition.PartitionSuccess | src/platform/partition.rs:26-35 | a successful partitioning means the chosen backend succeeded and the table re-read passed |
| Partition.RereadPartitionTable | src/platform/partition.rs:124-133 | re-reading passes iff partprobe is absent or succeeds; without it the installer only sleeps 500 ms |
| Partition.ExpectedEspAndRootPartitions | src/platform/partition.rs:42-56 | the partition paths exist iff the disk path has a file name; they are partitions 1 and 2 under /dev, with a "p" separator when the name ends in a digit |
| Partition.PartitionNamesDifferInNumber | src/platform/partition.rs:42-56 | the ESP and root paths have equal length and differ only in the last character |
| Partition.DevDiskPartitionNames | src/platform/partition.rs:42-56 | for /dev/NAME the partitions are /dev/NAME[p]1 and /dev/NAME[p]2 |
| Partition.PartitionNamesForSda | src/platform/partition.rs:193-197 | /dev/sda gives /dev/sda1 and /dev/sda2 |
| Partition.PartitionNamesForNvme | src/platform/partition.rs:200-204 | /dev/nvme0n1 gives /dev/nvme0n1p1 and /dev/nvme0n1p2 |
| Partition.SfdiskScriptFraming | src/platform/partition.rs:135-142 | the sfdisk script starts with "label: gpt" and ends in a newline |
| Partition.SfdiskScriptNamesSize | src/platform/partition.rs:135-142 | the script asks for the plan's ESP size in MiB |
| Partition.SfdiskScriptNamesTypes | src/platform/partition.rs:184-190 | the script names the EFI system and Linux filesystem type GUIDs |
| Partition.DefaultScriptSize | src/platform/partition.rs:184-190 | the default script asks for size=512MiB |
| Partition.MibValueOfFormatted | src/platform/partition.rs:92-94 | a size written as N MiB reads back as N |
| Partition.PartedCommands | src/platform/partition.rs:90-122 | parted gets a GPT label, then the ESP, its esp flag and the root partition, in that order |
| Partition.PartedBoundaries | src/platform/partition.rs:92-117 | the ESP runs from 1 MiB to 1+size MiB and the root from there to 100% |
| Tools.RunOutcome | src/platform/partition.rs:154-171 | running a program passes iff it exits successfully |
| Tools.WithContext | src/platform/partition.rs:154-171 | adding context to an error never changes whether a step passed |
| Effects.ReadFile | src/platform/install.rs:530-535 | a file read succeeds only for a path that exists |
| Effects.ReplayAppend | src/platform/install.rs:246-297 | replaying two effect lists one after the other is replaying their concatenation |
| Effects.ChrootOutcome | src/platform/install.rs:537-557 | a chroot command passes iff it exits successfully |
| Effects.ChpasswdOutcome | src/platform/install.rs:559-587 | setting a password passes iff chpasswd exits successfully |
| Effects.BlkidUuid | src/platform/install.rs:658-680 | a UUID is found iff blkid succeeds with non-blank output, and it is that output trimmed |
| Effects.Explain | src/platform/install.rs:713-730 | a command's outcome passes iff it exits successfully |
| Effects.RunInOrderStops | src/platform/install.rs:469-478 | commands run in order and stop at the first failure; the run passes iff all succeed |
| Machines.Machine.constructor | src/platform/install.rs:11-20 | a machine starts with the given filesystem and tools and an empty trace |
| Machines.Machine.Perform | src/platform/install.rs:34-58 | performing an effect applies it to the filesystem and records it |
| Machines.Machine.Run | src/platform/install.rs:713-730 | running a program answers the oracle's output, changes no file and records the run |
| Machines.Machine.CreateDirAll | src/platform/install.rs:36-37 | creating a directory adds it and records it |
| Machines.Machine.WriteFile | src/platform/install.rs:135-136 | writing replaces the file's contents and records the write |
| Machines.Machine.Copy | src/platform/install.rs:273-278 | a copy succeeds iff the source file can be read, and then the target holds its contents |
| Machines.Machine.Symlink | src/platform/install.rs:239-240 | creating a link succeeds iff nothing is at the path, as symlink(2) does |
| Machines.Machine.RemoveFile | src/platform/install.rs:234-236 | removing succeeds iff the path holds a non-directory, and then it is gone |
| Machines.RunCommand | src/platform/install.rs:713-730 | one command's outcome is its explained exit status; files are unchanged |
| Machines.RunCommands | src/platform/install.rs:469-478 | the loop over a command list matches the in-order, stop-at-first-failure specification |
| Install.DefaultPlanNests | src/platform/install.rs:16-20 | the default ESP mount point is boot/efi under the default root |
| TargetSteps.MountRootFirst | src/platform/install.rs:34-58 | the ESP directory is created only after the root is mounted and the ESP is mounted after that; mounting passes iff both mounts succeed |
| TargetSteps.MountPartitions | src/platform/install.rs:34-58 | mounting performs exactly the specified effects and outcome |
| TargetSteps.PayloadCheckedFirst | src/platform/install.rs:60-80 | tar runs only when the payload exists; extraction passes iff it exists and tar succeeds |
| TargetSteps.ExtractRootfsPayload | src/platform/install.rs:60-80 | extraction performs the specified run and outcome without changing files |
| TargetSteps.MissingUserTool | src/platform/install.rs:95-104 | no user tool is missing iff all exist in the target; a missing one is named by its target path |
| TargetSteps.ConfigureInitialUsers | src/platform/install.rs:82-127 | user configuration performs the specified commands and outcome |
| TargetSteps.UserCommandsInTarget | src/platform/install.rs:82-127 | every user command runs chrooted into the target |
| TargetSteps.UsersCheckFirst | src/platform/install.rs:86-109 | nothing runs unless sudo exists in the target; the first command is groupadd |
| TargetSteps.UserCreatedUnlessListed | src/platform/install.rs:111-119 | once groupadd succeeds, useradd runs iff the target's passwd file does not list the initial user, an unreadable file counting as not listed |
| TargetSteps.UnmountEspFirst | src/platform/install.rs:469-478 | the ESP is unmounted first; the root is unmounted only when that succeeds; unmounting passes iff both succeed |
| TargetSteps.UnmountTarget | src/platform/install.rs:469-478 | unmounting performs the specified runs and outcome without changing files |
| Hosts.HostnameFile | src/platform/install.rs:134-136 | /etc/hostname holds the hostname followed by one newline |
| Hosts.RewriteHosts | src/platform/install.rs:146-182 | the loop over the old hosts lines produces the specified hosts text |
| Hosts.HostsHasOneHostLine | src/platform/install.rs:150-171 | the new hosts file has exactly one 127.0.1.1 line, naming the hostname |
| Hosts.HostsKeepsOtherLines | src/platform/install.rs:150-171 | every other line is kept in order; a 127.0.0.1 localhost line is added only when none existed |
| Hosts.HostsHasLocalhost | src/platform/install.rs:150-171 | the new hosts file always has a localhost line |
| Hosts.HostsReplacesInPlace | src/platform/install.rs:150-164 | the first 127.0.1.1 line is replaced where it stood, and later ones are dropped |
| Hosts.HostsAppendsHostLine | src/platform/install.rs:166-171 | without a 127.0.1.1 line, the hostname line is appended after the (possibly added) localhost line |
| Hosts.HostsTextShape | src/platform/install.rs:173-182 | the hosts text ends in a newline and always has the IPv6 loopback, adding the IPv6 defaults only when ::1 was absent |
| Hosts.HostsIdempotent | src/platform/install.rs:129-188 | rewriting an already rewritten hosts file changes nothing |
| ConfigSteps.HostnameStepWrites | src/platform/install.rs:129-188 | configuring the hostname passes and leaves /etc, the hostname file and the rewritten hosts file |
| ConfigSteps.HostnameStepIdempotent | src/platform/install.rs:129-188 | configuring the hostname twice leaves what once did |
| ConfigSteps.ConfigureHostname | src/platform/install.rs:129-188 | the method performs the specified writes and outcome |
| Install.KeepsMachineId | src/platform/install.rs:204-209 | an existing id is kept iff it can be read and its trimmed text is at least 32 UTF-8 bytes long; its characters are not checked |
| Text.Utf8Length | src/platform/install.rs:206 | a text's length in UTF-8 bytes lies between its character count and four times that |
| Text.Utf8LengthOfAscii | src/platform/install.rs:206 | the byte length equals the character count iff the text is ASCII |
| Install.HexDigits | src/platform/install.rs:215 | the filter keeps only ASCII hex digits, and keeps no more characters than the text has |
| Install.DeriveMachineId | src/platform/install.rs:213-218 | a machine id derives iff the kernel's random UUID has at least 32 hex digits, and is then 32 hex digits |
| Install.MachineIdOfUuid | src/platform/install.rs:213-218 | for a canonical UUID the machine id is its hex digits with the dashes removed |
| ConfigSteps.MachineIdEffects | src/platform/install.rs:203-244 | the step as written: keep a long enough id, else read the UUID, derive the id, write it and replace the dbus copy when `exists()` finds it |
| ConfigSteps.MachineIdWritten | src/platform/install.rs:203-244 | without a usable id, the derived id plus newline is written even if the step then fails; the step passes iff the dbus path is absent or `exists()` finds a non-directory there, and the dbus path is then the link to /etc/machine-id |
| ConfigSteps.MachineIdIdempotent | src/platform/install.rs:203-244 | after a successful run, running again does nothing and passes |
| ConfigSteps.ReplaceWithLinkLinks | src/platform/install.rs:229-241 | replacing with a link passes iff nothing is at the path or the check finds a non-directory there; the link then stands in its place, and a failure changes nothing |
| ConfigSteps.ReplaceWithSymlink | src/platform/install.rs:234-241 | the method removes what `exists()` finds, then links, as the specification function says |
| ConfigSteps.EnsureMachineId | src/platform/install.rs:203-244 | the method performs the specified effects and outcome |
| ConfigSteps.MachineIdCorrectedLinks | src/platform/install.rs:234-240 | with the dbus entry itself checked, the step passes iff the dbus path is not a directory, and the link then replaces whatever was there |
| Install.TargetUserExists | src/platform/install.rs:530-535 | the check fails iff the passwd file cannot be read |
| Install.TargetUserExistsMeans | src/platform/install.rs:530-535 | a user exists iff some passwd line's first colon-separated field is the name |
| Install.PathInTargetRoot | src/platform/install.rs:393-402 | the in-target path exists iff the path lies under the target root, and it is absolute |
| Install.PathInTargetRootOfJoin | src/platform/install.rs:393-402 | a path joined onto the root maps back to "/" plus the relative path |
| Install.UnitCandidates | src/platform/install.rs:376-391 | a unit is sought in each unit directory of the target, in order |
| ConfigSteps.FindUnitFileFirst | src/platform/install.rs:376-391 | a unit file is found iff one candidate exists; the first is returned; otherwise the error names the unit |
| ConfigSteps.FindSystemdUnitFile | src/platform/install.rs:376-391 | the search loop returns the specified first existing candidate |
| ConfigSteps.FindUnitFile | src/platform/install.rs:376-391 | the unit file is the first of the two candidates that `exists()` finds, else the missing-unit error |
| ConfigSteps.EnableUnit | src/platform/install.rs:351-374 | the step as written: find the unit file, create the wants directory, and link unless `exists()` finds the link |
| ConfigSteps.EnableUnitOptional | src/platform/install.rs:338-349 | a unit with no unit file is skipped with no effect; otherwise it is enabled as the mandatory step does |
| ConfigSteps.LinkStepsLink | src/platform/install.rs:358-373 | a wants link the check finds is left alone; otherwise the link is created iff nothing is at its path and the unit file lies in the target; a failure only created the wants directory |
| ConfigSteps.LinkStepsKeeps | src/platform/install.rs:358-373 | a passing link step only adds, and leaves the wants directory and an entry at the link's path |
| ConfigSteps.EnableUnitRerun | src/platform/install.rs:351-374 | as written, a second run passes iff `exists()` follows the link the first run left, and then changes nothing |
| ConfigSteps.EnableUnitIdempotent | src/platform/install.rs:358-371 | with the link entry itself checked, enabling a unit twice passes and leaves what enabling once did |
| ConfigSteps.EnableSystemdUnit | src/platform/install.rs:351-374 | the method performs the specified effects and outcome |
| ConfigSteps.OptionalSkipsMissing | src/platform/install.rs:338-349 | an absent unit is reported as not enabled without touching files; a present one is enabled iff enabling passes |
| ConfigSteps.EnableSystemdUnitOptional | src/platform/install.rs:338-349 | the method performs the specified effects and returns whether the unit was enabled |
| BootFiles.FstabReadsBack | src/platform/install.rs:616-629 | fstab is a header and two lines whose fields are the root and ESP mount fields |
| BootFiles.BootEntryReadsBack | src/platform/install.rs:631-656 | the loader entry reads back as title, linux, initrd and options with the values written |
| BootFiles.LoaderConfNamesEntry | src/platform/install.rs:644 | loader.conf names the written entry as default |
| BootFiles.EntryFilesRequired | src/platform/install.rs:445-462 | the entry's kernel and initrd and the entry file are among the paths the layout check requires |
| BootSteps.WriteFstab | src/platform/install.rs:616-629 | writing fstab performs exactly the specified effects |
| BootSteps.InstallSystemdBootEfi | src/platform/install.rs:589-614 | installing the loader performs the specified effects and outcome |
| BootSteps.EntryEffectsWrite | src/platform/install.rs:631-656 | the entry step writes loader.conf and the entry file and changes nothing else |
| BootSteps.WriteSystemdBootEntry | src/platform/install.rs:631-656 | the method performs the specified writes |
| BootSteps.EspLayoutMeans | src/platform/install.rs:445-462 | the layout check passes iff every required ESP file exists |
| BootSteps.FirstMissingMeans | src/platform/install.rs:445-462 | the reported file is a missing required one, and nothing is reported iff none is missing |
| BootSteps.VerifyEspLayout | src/platform/install.rs:445-462 | the check loop returns the specified layout result |
| BootSteps.RegisterClassifies | src/platform/install.rs:480-528 | registration, with the loader path as written, passes iff not booted in UEFI mode, or efibootmgr succeeds, or its error output names a tolerated failure; it only adds to the filesystem |
| Install.EfibootmgrTolerates | src/platform/install.rs:507-527 | efibootmgr's result passes iff it succeeds or names a tolerated failure; other failures quote both output streams |
| BootSteps.RegisterUefiBootEntry | src/platform/install.rs:480-528 | the method performs the specified effects and outcome |
| BootSteps.UuidsBeforeWrites | src/platform/install.rs:252-255 | the root and ESP UUIDs are read before anything is written, and a failed read stops the step |
| BootSteps.BootPassIsBootable | src/platform/install.rs:246-297 | a successful boot configuration leaves an ESP with the loader, kernel, initrd, loader.conf and an entry for the root UUID |
| BootSteps.ConfigureBootSystemdBoot | src/platform/install.rs:246-297 | the method performs the specified effects and outcome |
| Install.GreatestIsMaximum | src/platform/install.rs:702-708 | the chosen name is in the list and no name sorts after it |
| Install.LastOfSortedIsGreatest | src/platform/install.rs:702-708 | the last of a sorted list is its greatest name |
| Install.ScanBootNames | src/platform/install.rs:695-699 | the loop keeps exactly the vmlinuz- and initrd.img- names |
| Install.FindInstalledKernelAndInitrd | src/platform/install.rs:682-711 | the method returns the specified kernel and initrd choice |
| Install.KernelChoiceIsNewest | src/platform/install.rs:682-711 | the chosen kernel and initrd are listed names of their kind, and no name of that kind sorts after them |
| Install.KernelChoiceIgnoresOrder | src/platform/install.rs:682-711 | the choice does not depend on the order of the directory listing |
| Application.Avail | src/app.rs:158 | a wrapped line always has room for at least ten characters |
| Application.LastWhitespace | src/app.rs:166-172 | the split point found is the last whitespace, or none when there is none |
| Application.SplitPoint | src/app.rs:166-172 | a line is cut at a position inside the available room |
| Application.SegmentsFit | src/app.rs:151-181 | a line is produced iff text remains; no segment is empty or longer than the room; no visible character is lost |
| Application.WrapForUiMeans | src/app.rs:151-181 | wrapping gives nothing iff the text is blank; each line is the right prefix plus a segment that fits; the visible characters are the text's |
| Application.WrapForUiLoop | src/app.rs:151-181 | the loop produces the specified wrapped lines |
| Application.RecentKeepsLatest | src/app.rs:76-82 | logging keeps at most the maximum number of lines, the new line last, and the latest ones before it |
| Application.LogAllIsRecent | src/app.rs:122-128 | logging lines one by one keeps the most recent ones of them all |
| Application.TransitionsMeans | src/app.rs:85-107 | a key changes the state iff it is q or Q on the welcome or error screen, and then it exits; initializing leaves the splash only |
| Application.DisplayMeans | src/app.rs:131-148 | the display is the log, plus the exit line exactly when exiting |
| Application.App.constructor | src/app.rs:42-53 | the app starts on the splash screen, not exiting, with the booting line logged |
| Application.App.LogStep | src/app.rs:76-82 | a logged step is appended and the oldest lines are dropped beyond the maximum |
| Application.App.TransitionTo | src/app.rs:110-119 | the state becomes the new one, and exiting raises the exit flag for good |
| Application.App.Initialize | src/app.rs:67-73 | initializing moves the splash screen to welcome |
| Application.App.HandleInput | src/app.rs:85-107 | the state follows the key transition rules and the exit flag rises on exit |
| Application.App.HandleError | src/app.rs:122-128 | the error is wrapped and logged line by line, and the state becomes the error |
| Disks.IsCandidateName | src/platform/disks.rs:106-120 | loop, ram, sr, fd, dm- and md names are refused; of the rest, only sd, vd and nvme names are candidates |
| Disks.Examine | src/platform/disks.rs:45-79 | one scan iteration skips a non-candidate, device-less, removable, read-only, too small or mounted entry, aborts on an unreadable size or mount table, and otherwise keeps the disk |
| Disks.EligibleDisksResult | src/platform/disks.rs:35-85 | an unreadable /sys/block is an error; otherwise the first aborting entry's error, or the kept disks sorted by name |
| Partition.PartitionGptEspRoot | src/platform/partition.rs:26-35 | sfdisk when it is present, else parted when it is present, else the no-tool error |
| Partition.PartitionWithSfdisk | src/platform/partition.rs:58-88 | sfdisk runs on the disk with the script on standard input; its failure ends the step, and otherwise the table is re-read |
| Partition.PartitionWithParted | src/platform/partition.rs:90-122 | parted runs with the argument vector; its failure ends the step with the disk named, and otherwise the table is re-read |
| Partition.SfdiskGptScript | src/platform/partition.rs:135-142 | the label line, a blank line, the ESP line with its size in MiB and type, then the root line |
| Partition.PartedArgs | src/platform/partition.rs:90-117 | a GPT label, the ESP from 1 MiB to 1+size MiB with the esp flag, then the root to 100% |
| Install.EfibootmgrOutcome | src/platform/install.rs:507-527 | a finished efibootmgr run passes if it succeeded or its error output names a tolerated failure, else quotes both streams |
| Install.KernelAndInitrd | src/platform/install.rs:682-711 | an unreadable /boot, a missing kernel (checked first) or a missing initrd is an error; otherwise the greatest name of each kind under /boot |
| Hosts.HostsLines | src/platform/install.rs:146-171 | the loop's output, then the localhost line when none was seen, then the host line when none was written |
| Hosts.HostsText | src/platform/install.rs:146-182 | the new lines joined and ended by a line feed, with the IPv6 defaults appended when ::1 is absent |
| TargetSteps.MountEffects | src/platform/install.rs:34-58 | the root's directory and mount, then, only when that mount succeeds, the ESP's directory and mount |
| TargetSteps.ExtractEffects | src/platform/install.rs:60-80 | a missing payload is an error with nothing run; otherwise tar runs into the target root |
| TargetSteps.UsersEffects | src/platform/install.rs:82-127 | missing sudo or a missing user tool is an error with nothing run; otherwise the user commands run in order |
| TargetSteps.UnmountCommands | src/platform/install.rs:469-478 | umount of the ESP, then of the root |
| ConfigSteps.HostnameEffects | src/platform/install.rs:129-188 | /etc, the hostname file, then the rewritten hosts file; an unreadable hosts file ends the step |
| BootSteps.FstabEffects | src/platform/install.rs:616-629 | the target's /etc, then the fstab text |
| BootSteps.SystemdBootEfiSteps | src/platform/install.rs:589-614 | a missing boot manager binary is an error; otherwise it is copied to the fallback path and to systemd's own path, each after its directory |
| BootSteps.KernelCopySteps | src/platform/install.rs:264-278 | the kernel directory on the ESP, then the kernel and the initrd copied, a failed copy ending the step |
| BootSteps.EntryEffects | src/platform/install.rs:631-656 | the entries directory, loader.conf, then the entry naming the ESP's kernel and initrd |
| BootSteps.EspLayout | src/platform/install.rs:445-462 | the layout passes iff no required file is missing, and otherwise names the first missing one |
| BootSteps.RegisterSteps | src/platform/install.rs:480-528 | registration as written, with the loader path's doubled backslashes passed to efibootmgr |
| BootSteps.BootEffects | src/platform/install.rs:246-297 | the root and ESP UUIDs, then fstab, the boot manager, the kernel and initrd, the entry, the layout check and the registration, whose failure is only warned about |
| BootSteps.CopyKernelAndInitrd | src/platform/install.rs:264-278 | the method performs the specified copies and outcome |
| BootSteps.WriteEntryAndRegister | src/platform/install.rs:280-294 | the method writes the entry, checks the layout and registers, as specified |
| BootSteps.InstallKernelAndEntry | src/platform/install.rs:260-294 | the method finds the kernel and initrd, then copies and writes the entry, as specified |
| BootSteps.InstallBootloader | src/platform/install.rs:257-294 | the method installs the boot manager, then the kernel and entry, as specified |
| BootSteps.InstallBootFiles | src/platform/install.rs:255-294 | the method writes fstab, then installs the boot loader, as specified |
| BootFiles.FstabText | src/platform/install.rs:616-629 | the header, then the root and ESP mount lines, each ended by a line feed |
| BootFiles.BootEntryText | src/platform/install.rs:631-656 | the title, linux, initrd and options lines, each ended by a line feed |
| BootFiles.LoaderConf | src/platform/install.rs:644 | default entry, zero timeout and kept console mode, each on its own line |
| Application.Segments | src/app.rs:151-181 | the line bodies: the rest when it fits the room, otherwise its head up to the last whitespace within the room (or the whole room), trimmed at the end, then the bodies of the tail trimmed at the start |
| Application.WrapForUi | src/app.rs:151-181 | the trimmed text's segments, the first with the first prefix and the others with the next |
| Application.Recent | src/app.rs:76-82 | the last n lines, or all of them when there are fewer |
| Application.AfterInput | src/app.rs:85-107 | q or Q on the welcome or error screen leads to Exit; any other key or state is unchanged |
| Application.Display | src/app.rs:131-148 | the log, then the exit note when the state is Exit |
| Application.App.DisplayText | src/app.rs:131-148 | the display of the app's log and state |
| ConfigSteps.LinkDanglingFailsAsWritten | src/platform/install.rs:358-371 | as written, an existing link whose target is missing makes enabling fail; the corrected check leaves it and passes |
| ConfigSteps.ReplaceDanglingLinkFailsAsWritten | src/platform/install.rs:229-241 | as written, a dangling dbus machine-id link makes the replace fail; the corrected check passes |
| ConfigSteps.MachineIdDanglingLinkFailsAsWritten | src/platform/install.rs:229-241 | as written, the machine-id step fails on a dangling dbus link; the corrected step passes |
| BootSteps.LoaderAsWrittenMissesEsp | src/platform/install.rs:497 | the loader path as written names no file the ESP holds |
| BootSteps.LoaderNamesInstalledBinary | src/platform/install.rs:497 | the corrected loader path names the installed systemd-boot binary |
| BootSteps.FirmwarePathRoundTrip | src/platform/install.rs:497 | an ESP path written with single backslashes converts back to itself |

## Left out

- Running programs is an oracle from an invocation to its output. Runs never change the modelled filesystem: tar, mount, umount, the chroot commands and efibootmgr act only on the trace.
- Failures to spawn a program are folded into a non-zero exit status.
- Filesystem write errors and the text of I/O errors are not modelled; a write always succeeds.
- Creating a directory records only that directory, not its missing ancestors.
- Existence checks follow one symbolic link, and a link to a link counts as absent. Link targets are resolved as paths of the installer's own filesystem, as the source's absolute links are.
- The sysfs and mountinfo contents, the boot directory listing and the kernel UUID are parameters, not reads.
- Per-entry `read_dir` errors are not modelled.
- PathBuf sorting is modelled as sorting names within one directory.
- The 500 ms sleep is a recorded `Slept` effect.
- tracing and log output are not modelled.
- format_partitions, configure_first_boot_dhcp, configure_systemd_networkd_dhcp, ensure_systemd_pid1 and sync_disks are outside this core. So are reboot, poweroff, the framebuffer UI, input handling and kmsg.
- Application.App: `state()` and `should_exit()` are plain fields.
- Application.WrapForUiMeans: lengths count characters. The byte-index slicing, which panics on non-ASCII text, is not modelled.
- Hosts.HostsIdempotent: requires that the rewritten lines read back. No line may contain a line feed or end in a carriage return, and the last line may not be empty; `str::lines` strips a carriage return before each line feed.
- ConfigSteps.HostnameStepIdempotent: carries the same read-back requirement as Hosts.HostsIdempotent.
- BootSteps.BootPassIsBootable: the kernel directory on the ESP is fixed at EFI/debian, as the source does.
- Machines.Machine.WriteFile: a write to a path holding a symbolic link replaces the link by a plain file; `std::fs::write` writes through the link to its target. The model assumes no link stands at the files it writes.
- Machines.Machine.Copy: likewise replaces a link at the destination, where `std::fs::copy` writes through it.
- Effects.Apply: `Wrote` and `Copied` replace whatever node is at the path, links included.
- Partition.PartedArgs: the ESP size is an unbounded natural number; `1 + esp_size_mib` overflowing u64 is not modelled.
- BootSteps.RegisterClassifies: a failed registration is only warned about by configure_boot_systemd_boot; the model records that outcome and moves on.

## Findings

| source | as written | input that shows it | evidently intended | confidence | as-written member | corrected member |
|---|---|---|---|---|---|---|
| src/platform/install.rs:358-371 | the wants link is checked with `exists()`, which follows the link | an existing link `multi-user.target.wants/<unit>` whose target `/lib/systemd/system/<unit>` is absent from the installer's root: the check says absent, and `symlink` then fails with EEXIST | an existing link is left alone (`symlink_metadata`), so enabling is idempotent | not executed | ConfigSteps.LinkDanglingFailsAsWritten | ConfigSteps.EnableUnitIdempotent |
| src/platform/install.rs:234-240 | the dbus machine-id path is checked with `exists()` before removal, which follows the link | `var/lib/dbus/machine-id` is a link to a path that does not exist: it is not removed, and `symlink` fails | remove any existing entry, dangling link included, then link | not executed | ConfigSteps.MachineIdDanglingLinkFailsAsWritten | ConfigSteps.MachineIdCorrectedLinks |
| src/platform/install.rs:497 | the loader path is the raw string `\\EFI\\systemd\\systemd-bootx64.efi`, so every separator is two backslashes | registering on any UEFI machine passes the doubled path verbatim to efibootmgr | `\EFI\systemd\systemd-bootx64.efi`, the binary install_systemd_boot_efi copies to EFI/systemd | not executed | BootSteps.LoaderAsWrittenMissesEsp | BootSteps.LoaderNamesInstalledBinary |
