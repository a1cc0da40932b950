/** Making the target bootable: the fstab, systemd-boot and its entry on
    the ESP, the kernel and initrd copied next to them, the check of the
    ESP's layout, and the firmware boot entry registered with efibootmgr. */
module BootSteps {
  import opened Wrappers
  import opened Text
  import opened Paths
  import opened Tools
  import opened Install
  import opened BootFiles
  import opened Effects
  import opened Machines

  /** The devices of the installation: the whole disk, its ESP and its root
      partition */
  datatype BootDevices = BootDevices(disk: string, esp: string, root: string)

  // ---------------------------------------------------------------------
  // What the steps report

  const MISSING_BOOT_BINARY := "Missing systemd-boot EFI binary " + "in initramfs: "
  const BOOT_COPY_FAILED := "Failed to copy " + "systemd-boot to "
  const KERNEL_COPY_FAILED := "Failed to copy kernel "
  const INITRD_COPY_FAILED := "Failed to copy initrd "
  const MISSING_ON_ESP := "Missing on ESP: "
  const LAYOUT_CONTEXT := "ESP does not contain " + "expected boot files"
  const KERNEL_CONTEXT := "Failed to locate installed " + "kernel/initrd under /boot"
  const BOOT_EFI_CONTEXT := "Failed to install " + "systemd-boot EFI"
  const ROOT_UUID_CONTEXT := "Failed to get root UUID"
  const ESP_UUID_CONTEXT := "Failed to get ESP UUID"

  // ---------------------------------------------------------------------
  // write_fstab

  function FstabPath(targetRoot: string): string
  {
    PathJoin(PathJoin(targetRoot, "etc"), "fstab")
  }

  /** `write_fstab`: the directory, then the file */
  function FstabEffects(targetRoot: string, rootUuid: string, espUuid: string): seq<Effect>
  {
    [MadeDir(PathJoin(targetRoot, "etc")), Wrote(FstabPath(targetRoot), FstabText(rootUuid, espUuid))]
  }

  method WriteFstab(m: Machine, rootUuid: string, espUuid: string, plan: MountPlan)
    requires m.Valid()
    modifies m
    ensures m.Valid()
    ensures m.trace == old(m.trace) + FstabEffects(plan.targetRoot, rootUuid, espUuid)
  {
    var etcDir := PathJoin(plan.targetRoot, "etc");
    m.CreateDirAll(etcDir);
    m.WriteFile(PathJoin(etcDir, "fstab"), FstabText(rootUuid, espUuid));
  }

  // ---------------------------------------------------------------------
  // install_systemd_boot_efi

  function FallbackDir(esp: string): string
  {
    PathJoin(esp, "EFI/BOOT")
  }

  function SystemdDir(esp: string): string
  {
    PathJoin(esp, "EFI/systemd")
  }

  /** `install_systemd_boot_efi`: the boot manager shipped in the
      initramfs copied to the fallback path and to systemd-boot's own path,
      each after its directory is created */
  function SystemdBootEfiSteps(fs: Fs, esp: string): Attempt
  {
    var fallback := PathJoin(FallbackDir(esp), "BOOTX64.EFI");
    var own := PathJoin(SystemdDir(esp), "systemd-bootx64.efi");
    var fs1 := WithDir(fs, FallbackDir(esp));
    if !Exists(fs, SYSTEMD_BOOT_SOURCE) then
      Attempt([], Fail(MISSING_BOOT_BINARY + SYSTEMD_BOOT_SOURCE))
    else if ReadFile(fs1, SYSTEMD_BOOT_SOURCE).None? then
      Attempt([MadeDir(FallbackDir(esp))], Fail(BOOT_COPY_FAILED + fallback))
    else
      var copied := [MadeDir(FallbackDir(esp)), Copied(SYSTEMD_BOOT_SOURCE, fallback), MadeDir(SystemdDir(esp))];
      var fs3 := WithDir(fs1[fallback := File(ReadFile(fs1, SYSTEMD_BOOT_SOURCE).value)], SystemdDir(esp));
      if ReadFile(fs3, SYSTEMD_BOOT_SOURCE).None? then
        Attempt(copied, Fail(BOOT_COPY_FAILED + own))
      else
        Attempt(copied + [Copied(SYSTEMD_BOOT_SOURCE, own)], Pass)
  }

  method InstallSystemdBootEfi(m: Machine, esp: string) returns (r: Outcome)
    requires m.Valid()
    modifies m
    ensures m.Valid()
    ensures m.trace == old(m.trace) + SystemdBootEfiSteps(old(m.fs), esp).effects
    ensures r == SystemdBootEfiSteps(old(m.fs), esp).outcome
  {
    if !Exists(m.fs, SYSTEMD_BOOT_SOURCE) {
      return Fail(MISSING_BOOT_BINARY + SYSTEMD_BOOT_SOURCE);
    }
    var bootDir := PathJoin(esp, "EFI/BOOT");
    m.CreateDirAll(bootDir);
    var fallbackDst := PathJoin(bootDir, "BOOTX64.EFI");
    var ok := m.Copy(SYSTEMD_BOOT_SOURCE, fallbackDst);
    if !ok {
      return Fail(BOOT_COPY_FAILED + fallbackDst);
    }
    var systemdDir := PathJoin(esp, "EFI/systemd");
    m.CreateDirAll(systemdDir);
    var systemdDst := PathJoin(systemdDir, "systemd-bootx64.efi");
    ok := m.Copy(SYSTEMD_BOOT_SOURCE, systemdDst);
    r := if ok then Pass else Fail(BOOT_COPY_FAILED + systemdDst);
  }

  // ---------------------------------------------------------------------
  // The kernel and initrd, copied onto the ESP

  function KernelDir(esp: string): string
  {
    PathJoin(esp, "EFI/debian")
  }

  /** The kernel, then the initrd, copied to where the boot entry names
      them, after their directory is created */
  function KernelCopySteps(fs: Fs, esp: string, kernel: string, initrd: string): Attempt
  {
    var kernelDst := PathJoin(esp, KERNEL_ON_ESP);
    var initrdDst := PathJoin(esp, INITRD_ON_ESP);
    var fs1 := WithDir(fs, KernelDir(esp));
    if ReadFile(fs1, kernel).None? then
      Attempt([MadeDir(KernelDir(esp))], Fail(KERNEL_COPY_FAILED + kernel + " to " + kernelDst))
    else
      var fs2 := fs1[kernelDst := File(ReadFile(fs1, kernel).value)];
      if ReadFile(fs2, initrd).None? then
        Attempt([MadeDir(KernelDir(esp)), Copied(kernel, kernelDst)],
                Fail(INITRD_COPY_FAILED + initrd + " to " + initrdDst))
      else
        Attempt([MadeDir(KernelDir(esp)), Copied(kernel, kernelDst), Copied(initrd, initrdDst)], Pass)
  }

  // ---------------------------------------------------------------------
  // write_systemd_boot_entry

  function LoaderDir(esp: string): string
  {
    PathJoin(esp, "loader")
  }

  function EntriesDir(esp: string): string
  {
    PathJoin(LoaderDir(esp), "entries")
  }

  function LoaderConfPath(esp: string): string
  {
    PathJoin(LoaderDir(esp), "loader.conf")
  }

  function EntryPath(esp: string): string
  {
    PathJoin(EntriesDir(esp), ENTRY_FILE)
  }

  /** `write_systemd_boot_entry` for the kernel and initrd on the ESP: the
      entries directory, the loader configuration, then the entry */
  function EntryEffects(esp: string, rootUuid: string): seq<Effect>
  {
    [ MadeDir(EntriesDir(esp)),
      Wrote(LoaderConfPath(esp), LoaderConf()),
      Wrote(EntryPath(esp), BootEntryText(ENTRY_LINUX, ENTRY_INITRD, rootUuid)) ]
  }

  lemma EntryPathsDistinct(esp: string)
    ensures LoaderConfPath(esp) != EntryPath(esp)
    ensures EntriesDir(esp) != LoaderConfPath(esp) && EntriesDir(esp) != EntryPath(esp)
  {
    assert |EntryPath(esp)| == |LoaderConfPath(esp)| + 8;
    assert |EntryPath(esp)| == |EntriesDir(esp)| + 12;
    assert |LoaderConfPath(esp)| == |EntriesDir(esp)| + 4;
  }

  /** The entry's directory is created and both files hold what was
      written; nothing that was there is lost. */
  lemma EntryEffectsWrite(fs: Fs, esp: string, rootUuid: string)
    ensures Extends(fs - {LoaderConfPath(esp), EntryPath(esp)}, Replay(fs, EntryEffects(esp, rootUuid)))
    ensures LoaderConfPath(esp) in Replay(fs, EntryEffects(esp, rootUuid))
    ensures Replay(fs, EntryEffects(esp, rootUuid))[LoaderConfPath(esp)] == File(LoaderConf())
    ensures EntryPath(esp) in Replay(fs, EntryEffects(esp, rootUuid))
    ensures Replay(fs, EntryEffects(esp, rootUuid))[EntryPath(esp)]
            == File(BootEntryText(ENTRY_LINUX, ENTRY_INITRD, rootUuid))
  {
    EntryPathsDistinct(esp);
    ReplayThree(fs, MadeDir(EntriesDir(esp)), Wrote(LoaderConfPath(esp), LoaderConf()),
                Wrote(EntryPath(esp), BootEntryText(ENTRY_LINUX, ENTRY_INITRD, rootUuid)));
  }

  method WriteSystemdBootEntry(m: Machine, esp: string, rootUuid: string)
    requires m.Valid()
    modifies m
    ensures m.Valid()
    ensures m.trace == old(m.trace) + EntryEffects(esp, rootUuid)
  {
    var loaderDir := PathJoin(esp, "loader");
    var entriesDir := PathJoin(loaderDir, "entries");
    m.CreateDirAll(entriesDir);
    m.WriteFile(PathJoin(loaderDir, "loader.conf"), LoaderConf());
    m.WriteFile(PathJoin(entriesDir, ENTRY_FILE), BootEntryText(ENTRY_LINUX, ENTRY_INITRD, rootUuid));
  }

  // ---------------------------------------------------------------------
  // verify_esp_layout

  /** The first of `rels`, joined to the ESP, that does not exist */
  function FirstMissing(fs: Fs, esp: string, rels: seq<string>): Option<string>
  {
    if rels == [] then None
    else if !Exists(fs, PathJoin(esp, rels[0])) then Some(PathJoin(esp, rels[0]))
    else FirstMissing(fs, esp, rels[1..])
  }

  /** `verify_esp_layout` */
  function EspLayout(fs: Fs, esp: string): Outcome
  {
    match FirstMissing(fs, esp, ESP_REQUIRED)
    case None => Pass
    case Some(p) => Fail(MISSING_ON_ESP + p)
  }

  /** Nothing is missing exactly when every file exists; what is reported
      missing is the first file, in order, that does not exist. */
  lemma {:induction false} FirstMissingMeans(fs: Fs, esp: string, rels: seq<string>)
    ensures FirstMissing(fs, esp, rels).None? <==> forall i :: 0 <= i < |rels| ==> Exists(fs, PathJoin(esp, rels[i]))
    ensures FirstMissing(fs, esp, rels).Some? ==>
              exists i :: 0 <= i < |rels| && FirstMissing(fs, esp, rels).value == PathJoin(esp, rels[i])
                && !Exists(fs, PathJoin(esp, rels[i]))
                && forall j :: 0 <= j < i ==> Exists(fs, PathJoin(esp, rels[j]))
    decreases |rels|
  {
    if rels != [] && Exists(fs, PathJoin(esp, rels[0])) {
      FirstMissingMeans(fs, esp, rels[1..]);
      if FirstMissing(fs, esp, rels[1..]).Some? {
        var i :| 0 <= i < |rels[1..]| && FirstMissing(fs, esp, rels[1..]).value == PathJoin(esp, rels[1..][i])
                 && !Exists(fs, PathJoin(esp, rels[1..][i]))
                 && forall j :: 0 <= j < i ==> Exists(fs, PathJoin(esp, rels[1..][j]));
        assert forall j :: 0 <= j < i + 1 ==> Exists(fs, PathJoin(esp, rels[j])) by {
          forall j | 0 <= j < i + 1
            ensures Exists(fs, PathJoin(esp, rels[j]))
          {
            if j > 0 { assert rels[j] == rels[1..][j - 1]; }
          }
        }
        assert rels[1..][i] == rels[i + 1];
      } else {
        forall i | 0 <= i < |rels|
          ensures Exists(fs, PathJoin(esp, rels[i]))
        {
          if i > 0 { assert rels[i] == rels[1..][i - 1]; }
        }
      }
    }
  }

  /** The layout check passes exactly when every required file exists on
      the ESP. */
  lemma EspLayoutMeans(fs: Fs, esp: string)
    ensures EspLayout(fs, esp).Pass? <==> forall i :: 0 <= i < |ESP_REQUIRED| ==> Exists(fs, PathJoin(esp, ESP_REQUIRED[i]))
  {
    FirstMissingMeans(fs, esp, ESP_REQUIRED);
  }

  method VerifyEspLayout(m: Machine, esp: string) returns (r: Outcome)
    ensures r == EspLayout(m.fs, esp)
  {
    var mustExist := ESP_REQUIRED;
    for i := 0 to |mustExist|
      invariant FirstMissing(m.fs, esp, mustExist) == FirstMissing(m.fs, esp, mustExist[i..])
    {
      var path := PathJoin(esp, mustExist[i]);
      if !Exists(m.fs, path) {
        return Fail(MISSING_ON_ESP + path);
      }
      assert mustExist[i..][1..] == mustExist[i + 1..];
    }
    r := Pass;
  }

  // ---------------------------------------------------------------------
  // register_uefi_boot_entry

  const EFI_FIRMWARE_DIR := "/sys/firmware/efi"
  const EFIVARS_DIR := "/sys/firmware/efi/efivars"
  const BOOT_ENTRY_LABEL := "Debian (TruthDB)"

  /** The loader's path in the firmware's notation: rooted at the ESP,
      with backslashes between the components */
  function FirmwarePath(rel: string): (r: string)
  {
    "\\" + seq(|rel|, i requires 0 <= i < |rel| => if rel[i] == '/' then '\\' else rel[i])
  }

  /** The file on the ESP that a firmware path names, read the plain way:
      one optional leading backslash, then every backslash a separator.
      Firmware implementations parse device paths each in their own way;
      what LoaderAsWrittenMissesEsp says holds under this reading only. */
  function EspPathOf(firmwarePath: string): (r: string)
  {
    var rel := if firmwarePath != [] && firmwarePath[0] == '\\' then firmwarePath[1..] else firmwarePath;
    seq(|rel|, i requires 0 <= i < |rel| => if rel[i] == '\\' then '/' else rel[i])
  }

  /** The loader path as the source spells it: a raw string that keeps
      both backslashes of every pair */
  const EFI_LOADER_AS_WRITTEN := "\\\\EFI\\\\systemd\\\\systemd-bootx64.efi"

  /** The loader path efibootmgr is given: systemd-boot's own copy */
  const EFI_LOADER := FirmwarePath(SYSTEMD_BOOT_LOADER)

  /** A relative ESP path without backslashes comes back from its firmware
      path. */
  lemma FirmwarePathRoundTrip(rel: string)
    requires '\\' !in rel
    ensures EspPathOf(FirmwarePath(rel)) == rel
  {
    var f := FirmwarePath(rel);
    assert f[1..] == seq(|rel|, i requires 0 <= i < |rel| => if rel[i] == '/' then '\\' else rel[i]);
    forall i | 0 <= i < |rel|
      ensures EspPathOf(f)[i] == rel[i]
    {
      assert rel[i] != '\\';
    }
  }

  /** The loader efibootmgr registers is the systemd-boot binary the
      installer copies onto the ESP, one of the files the layout check
      requires. */
  lemma LoaderNamesInstalledBinary()
    ensures EspPathOf(EFI_LOADER) == SYSTEMD_BOOT_LOADER
    ensures EspPathOf(EFI_LOADER) in ESP_REQUIRED
  {
    assert '\\' !in SYSTEMD_BOOT_LOADER by {
      forall i | 0 <= i < |SYSTEMD_BOOT_LOADER|
        ensures SYSTEMD_BOOT_LOADER[i] != '\\'
      {
      }
    }
    FirmwarePathRoundTrip(SYSTEMD_BOOT_LOADER);
    assert ESP_REQUIRED[1] == SYSTEMD_BOOT_LOADER;
  }

  /** As written, the loader path starts with two separators and names no
      file of the ESP layout. */
  lemma LoaderAsWrittenMissesEsp()
    ensures EspPathOf(EFI_LOADER_AS_WRITTEN)[0] == '/'
    ensures EspPathOf(EFI_LOADER_AS_WRITTEN) != SYSTEMD_BOOT_LOADER
    ensures EspPathOf(EFI_LOADER_AS_WRITTEN) !in ESP_REQUIRED
  {
    var p := EspPathOf(EFI_LOADER_AS_WRITTEN);
    assert p[0] == '/';
    forall i | 0 <= i < |ESP_REQUIRED|
      ensures ESP_REQUIRED[i][0] != '/'
    {
    }
  }

  function Efibootmgr(disk: string, loader: string): Invocation
  {
    Exec("efibootmgr", ["-c", "-d", disk, "-p", "1", "-L", BOOT_ENTRY_LABEL, "-l", loader])
  }

  /** `register_uefi_boot_entry`, with the loader path given: nothing
      unless booted in UEFI mode; otherwise the efivars directory, an
      efivarfs mount whose failure is ignored, then efibootmgr for the
      ESP, partition 1 of the disk */
  function RegisterStepsWith(tool: Oracle, fs: Fs, disk: string, loader: string): Attempt
  {
    if !Exists(fs, EFI_FIRMWARE_DIR) then Attempt([], Pass)
    else
      Attempt([ MadeDir(EFIVARS_DIR),
                Ran(Mount("efivarfs", "efivarfs", EFIVARS_DIR)),
                Ran(Efibootmgr(disk, loader)) ],
              EfibootmgrOutcome(tool(Efibootmgr(disk, loader))))
  }

  /** `register_uefi_boot_entry` as written: efibootmgr gets the raw
      string with its doubled backslashes */
  function RegisterSteps(tool: Oracle, fs: Fs, disk: string): Attempt
  {
    RegisterStepsWith(tool, fs, disk, EFI_LOADER_AS_WRITTEN)
  }

  /** Registration passes when the machine is not booted in UEFI mode, when
      efibootmgr succeeds, and when its error output names a tolerated
      failure, and in no other case; it only adds to the filesystem. */
  lemma RegisterClassifies(tool: Oracle, fs: Fs, disk: string)
    ensures RegisterSteps(tool, fs, disk).outcome.Pass?
        <==> !Exists(fs, EFI_FIRMWARE_DIR)
             || Succeeded(tool(Efibootmgr(disk, EFI_LOADER_AS_WRITTEN)))
             || exists i :: 0 <= i < |TOLERATED_EFIBOOTMGR_ERRORS|
                  && Contains(tool(Efibootmgr(disk, EFI_LOADER_AS_WRITTEN)).stderr, TOLERATED_EFIBOOTMGR_ERRORS[i])
    ensures Extends(fs, Replay(fs, RegisterSteps(tool, fs, disk).effects))
  {
    EfibootmgrTolerates(tool(Efibootmgr(disk, EFI_LOADER_AS_WRITTEN)));
    if Exists(fs, EFI_FIRMWARE_DIR) {
      ReplayThree(fs, MadeDir(EFIVARS_DIR), Ran(Mount("efivarfs", "efivarfs", EFIVARS_DIR)),
                  Ran(Efibootmgr(disk, EFI_LOADER_AS_WRITTEN)));
    }
  }

  method RegisterUefiBootEntry(m: Machine, disk: string) returns (r: Outcome)
    requires m.Valid()
    modifies m
    ensures m.Valid()
    ensures m.trace == old(m.trace) + RegisterSteps(m.tool, old(m.fs), disk).effects
    ensures r == RegisterSteps(m.tool, old(m.fs), disk).outcome
  {
    if !Exists(m.fs, EFI_FIRMWARE_DIR) {
      return Pass;
    }
    m.CreateDirAll(EFIVARS_DIR);
    var _ := m.Run(Mount("efivarfs", "efivarfs", EFIVARS_DIR));
    var output := m.Run(Efibootmgr(disk, EFI_LOADER_AS_WRITTEN));
    r := EfibootmgrOutcome(output);
  }

  // ---------------------------------------------------------------------
  // configure_boot_systemd_boot

  /** Effects `first`, then the attempt `rest` on what they left */
  function Then(first: seq<Effect>, rest: Attempt): Attempt
  {
    Attempt(first + rest.effects, rest.outcome)
  }

  /** Once the kernel and initrd are on the ESP: the entry, the layout
      check, then the firmware entry, whose failure is only warned about */
  function EntrySteps(tool: Oracle, fs: Fs, disk: string, esp: string, rootUuid: string): Attempt
  {
    var entry := EntryEffects(esp, rootUuid);
    var layout := EspLayout(Replay(fs, entry), esp);
    if layout.Fail? then
      Attempt(entry, WithContext(layout, LAYOUT_CONTEXT))
    else
      Then(entry, Attempt(RegisterSteps(tool, Replay(fs, entry), disk).effects, Pass))
  }

  /** Once systemd-boot is on the ESP: the newest kernel and initrd of the
      target copied next to it, then the entry */
  function KernelSteps(tool: Oracle, fs: Fs, disk: string, plan: MountPlan, listing: Result<seq<string>>,
                       rootUuid: string): Attempt
  {
    match KernelAndInitrd(PathJoin(plan.targetRoot, "boot"), listing)
    case Err(e) => Attempt([], WithContext(Fail(e), KERNEL_CONTEXT))
    case Ok(found) =>
      var copies := KernelCopySteps(fs, plan.targetEfi, found.0, found.1);
      if copies.outcome.Fail? then copies
      else Then(copies.effects, EntrySteps(tool, Replay(fs, copies.effects), disk, plan.targetEfi, rootUuid))
  }

  /** Once the fstab is written: systemd-boot, then the kernel */
  function BootloaderSteps(tool: Oracle, fs: Fs, disk: string, plan: MountPlan, listing: Result<seq<string>>,
                           rootUuid: string): Attempt
  {
    var efi := SystemdBootEfiSteps(fs, plan.targetEfi);
    if efi.outcome.Fail? then Attempt(efi.effects, WithContext(efi.outcome, BOOT_EFI_CONTEXT))
    else Then(efi.effects, KernelSteps(tool, Replay(fs, efi.effects), disk, plan, listing, rootUuid))
  }

  /** Everything after both UUIDs are known, each step on the filesystem
      the steps before it left */
  function BootFileSteps(tool: Oracle, fs: Fs, disk: string, plan: MountPlan, listing: Result<seq<string>>,
                         rootUuid: string, espUuid: string): Attempt
  {
    var fstab := FstabEffects(plan.targetRoot, rootUuid, espUuid);
    Then(fstab, BootloaderSteps(tool, Replay(fs, fstab), disk, plan, listing, rootUuid))
  }

  /** `configure_boot_systemd_boot`: the root's UUID, then the ESP's, then
      the files; the boot directory's listing is given */
  function BootEffects(tool: Oracle, fs: Fs, dev: BootDevices, plan: MountPlan, listing: Result<seq<string>>): Attempt
  {
    match BlkidUuid(dev.root, tool(Blkid(dev.root)))
    case Err(e) => Attempt([Ran(Blkid(dev.root))], WithContext(Fail(e), ROOT_UUID_CONTEXT))
    case Ok(rootUuid) =>
      match BlkidUuid(dev.esp, tool(Blkid(dev.esp)))
      case Err(e) =>
        Attempt([Ran(Blkid(dev.root)), Ran(Blkid(dev.esp))], WithContext(Fail(e), ESP_UUID_CONTEXT))
      case Ok(espUuid) =>
        Then([Ran(Blkid(dev.root)), Ran(Blkid(dev.esp))], BootFileSteps(tool, fs, dev.disk, plan, listing, rootUuid, espUuid))
  }

  // ---------------------------------------------------------------------
  // What configure_boot_systemd_boot promises

  /** Both UUIDs are obtained, root first, before anything is written:
      the step only runs blkid when either lookup fails, and otherwise
      writes the fstab naming the two UUIDs, as blkid printed them trimmed,
      before anything else. */
  lemma UuidsBeforeWrites(tool: Oracle, fs: Fs, dev: BootDevices, plan: MountPlan, listing: Result<seq<string>>)
    ensures BootEffects(tool, fs, dev, plan, listing).effects != []
    ensures BootEffects(tool, fs, dev, plan, listing).effects[0] == Ran(Blkid(dev.root))
    ensures BlkidUuid(dev.root, tool(Blkid(dev.root))).Err? ==>
              BootEffects(tool, fs, dev, plan, listing).effects == [Ran(Blkid(dev.root))]
    ensures BlkidUuid(dev.root, tool(Blkid(dev.root))).Err? || BlkidUuid(dev.esp, tool(Blkid(dev.esp))).Err?
            <==> (BootEffects(tool, fs, dev, plan, listing).outcome.Fail?
                  && forall i :: 0 <= i < |BootEffects(tool, fs, dev, plan, listing).effects| ==>
                       BootEffects(tool, fs, dev, plan, listing).effects[i].Ran?)
    ensures BlkidUuid(dev.root, tool(Blkid(dev.root))).Ok? && BlkidUuid(dev.esp, tool(Blkid(dev.esp))).Ok? ==>
              |BootEffects(tool, fs, dev, plan, listing).effects| >= 4
              && BootEffects(tool, fs, dev, plan, listing).effects[..4]
                 == [Ran(Blkid(dev.root)), Ran(Blkid(dev.esp)), MadeDir(PathJoin(plan.targetRoot, "etc")),
                     Wrote(FstabPath(plan.targetRoot),
                           FstabText(Trim(tool(Blkid(dev.root)).stdout), Trim(tool(Blkid(dev.esp)).stdout)))]
  {
    var rootUuid, espUuid := BlkidUuid(dev.root, tool(Blkid(dev.root))), BlkidUuid(dev.esp, tool(Blkid(dev.esp)));
    if rootUuid.Ok? && espUuid.Ok? {
      var uuids := [Ran(Blkid(dev.root)), Ran(Blkid(dev.esp))];
      var fstab := FstabEffects(plan.targetRoot, rootUuid.value, espUuid.value);
      var rest := BootFileSteps(tool, fs, dev.disk, plan, listing, rootUuid.value, espUuid.value);
      var effects := BootEffects(tool, fs, dev, plan, listing).effects;
      assert effects == uuids + (fstab + BootloaderSteps(tool, Replay(fs, fstab), dev.disk, plan, listing, rootUuid.value).effects);
      assert effects[2].MadeDir?;
    }
  }

  /** The ESP holds every file the layout check requires, and the loader
      configuration and the entry for the given root UUID as written */
  predicate Bootable(fs: Fs, esp: string, rootUuid: string)
  {
    (forall i :: 0 <= i < |ESP_REQUIRED| ==> Exists(fs, PathJoin(esp, ESP_REQUIRED[i])))
    && LoaderConfPath(esp) in fs && fs[LoaderConfPath(esp)] == File(LoaderConf())
    && EntryPath(esp) in fs && fs[EntryPath(esp)] == File(BootEntryText(ENTRY_LINUX, ENTRY_INITRD, rootUuid))
  }

  lemma BootableKept(fs: Fs, fs2: Fs, esp: string, rootUuid: string)
    requires Bootable(fs, esp, rootUuid) && Extends(fs, fs2)
    ensures Bootable(fs2, esp, rootUuid)
  {
    forall i | 0 <= i < |ESP_REQUIRED|
      ensures Exists(fs2, PathJoin(esp, ESP_REQUIRED[i]))
    {
      ExistsKept(fs, fs2, PathJoin(esp, ESP_REQUIRED[i]));
    }
  }

  /** The last step passes exactly when the layout check passes, whatever
      efibootmgr makes of the registration, and then leaves the ESP
      bootable. */
  lemma EntryStepsBootable(tool: Oracle, fs: Fs, disk: string, esp: string, rootUuid: string)
    ensures EntrySteps(tool, fs, disk, esp, rootUuid).outcome.Pass?
            <==> forall i :: 0 <= i < |ESP_REQUIRED| ==>
                   Exists(Replay(fs, EntryEffects(esp, rootUuid)), PathJoin(esp, ESP_REQUIRED[i]))
    ensures EntrySteps(tool, fs, disk, esp, rootUuid).outcome.Pass? ==>
              Bootable(Replay(fs, EntrySteps(tool, fs, disk, esp, rootUuid).effects), esp, rootUuid)
  {
    var fs1 := Replay(fs, EntryEffects(esp, rootUuid));
    EspLayoutMeans(fs1, esp);
    if EspLayout(fs1, esp).Pass? {
      EntryEffectsWrite(fs, esp, rootUuid);
      RegisterClassifies(tool, fs1, disk);
      ReplayAppend(fs, EntryEffects(esp, rootUuid), RegisterSteps(tool, fs1, disk).effects);
      BootableKept(fs1, Replay(fs1, RegisterSteps(tool, fs1, disk).effects), esp, rootUuid);
    }
  }

  lemma KernelStepsBootable(tool: Oracle, fs: Fs, disk: string, plan: MountPlan, listing: Result<seq<string>>, rootUuid: string)
    requires KernelSteps(tool, fs, disk, plan, listing, rootUuid).outcome.Pass?
    ensures Bootable(Replay(fs, KernelSteps(tool, fs, disk, plan, listing, rootUuid).effects), plan.targetEfi, rootUuid)
  {
    var found := KernelAndInitrd(PathJoin(plan.targetRoot, "boot"), listing).value;
    var copies := KernelCopySteps(fs, plan.targetEfi, found.0, found.1).effects;
    EntryStepsBootable(tool, Replay(fs, copies), disk, plan.targetEfi, rootUuid);
    ReplayAppend(fs, copies, EntrySteps(tool, Replay(fs, copies), disk, plan.targetEfi, rootUuid).effects);
  }

  lemma BootloaderStepsBootable(tool: Oracle, fs: Fs, disk: string, plan: MountPlan, listing: Result<seq<string>>, rootUuid: string)
    requires BootloaderSteps(tool, fs, disk, plan, listing, rootUuid).outcome.Pass?
    ensures Bootable(Replay(fs, BootloaderSteps(tool, fs, disk, plan, listing, rootUuid).effects), plan.targetEfi, rootUuid)
  {
    var efi := SystemdBootEfiSteps(fs, plan.targetEfi).effects;
    KernelStepsBootable(tool, Replay(fs, efi), disk, plan, listing, rootUuid);
    ReplayAppend(fs, efi, KernelSteps(tool, Replay(fs, efi), disk, plan, listing, rootUuid).effects);
  }

  /** When boot configuration passes, the ESP holds every file the layout
      check requires, with the loader configuration and the entry for the
      root's UUID as blkid printed it. */
  lemma BootPassIsBootable(tool: Oracle, fs: Fs, dev: BootDevices, plan: MountPlan, listing: Result<seq<string>>)
    requires BootEffects(tool, fs, dev, plan, listing).outcome.Pass?
    ensures Bootable(Replay(fs, BootEffects(tool, fs, dev, plan, listing).effects), plan.targetEfi,
                     Trim(tool(Blkid(dev.root)).stdout))
  {
    var rootUuid := BlkidUuid(dev.root, tool(Blkid(dev.root))).value;
    var espUuid := BlkidUuid(dev.esp, tool(Blkid(dev.esp))).value;
    var uuids := [Ran(Blkid(dev.root)), Ran(Blkid(dev.esp))];
    var fstab := FstabEffects(plan.targetRoot, rootUuid, espUuid);
    var rest := BootloaderSteps(tool, Replay(fs, fstab), dev.disk, plan, listing, rootUuid);
    BootloaderStepsBootable(tool, Replay(fs, fstab), dev.disk, plan, listing, rootUuid);
    ReplayTwo(fs, Ran(Blkid(dev.root)), Ran(Blkid(dev.esp)));
    ReplayAppend(fs, fstab, rest.effects);
    ReplayAppend(fs, uuids, fstab + rest.effects);
  }

  /** A step of effects `first` followed by one of `rest`, each from where
      the last left the machine, is a step of `Then(first, rest)`. */
  lemma ThenReplays(trace: seq<Effect>, fs: Fs, first: seq<Effect>, rest: Attempt)
    ensures Replay(fs, Then(first, rest).effects) == Replay(Replay(fs, first), rest.effects)
    ensures trace + first + rest.effects == trace + Then(first, rest).effects
  {
    ReplayAppend(fs, first, rest.effects);
  }

  method CopyKernelAndInitrd(m: Machine, esp: string, kernelSrc: string, initrdSrc: string) returns (r: Outcome)
    requires m.Valid()
    modifies m
    ensures m.Valid()
    ensures m.trace == old(m.trace) + KernelCopySteps(old(m.fs), esp, kernelSrc, initrdSrc).effects
    ensures m.fs == Replay(old(m.fs), KernelCopySteps(old(m.fs), esp, kernelSrc, initrdSrc).effects)
    ensures r == KernelCopySteps(old(m.fs), esp, kernelSrc, initrdSrc).outcome
  {
    var kernelDst := PathJoin(esp, KERNEL_ON_ESP);
    var initrdDst := PathJoin(esp, INITRD_ON_ESP);
    m.CreateDirAll(PathJoin(esp, "EFI/debian"));
    var ok := m.Copy(kernelSrc, kernelDst);
    if !ok {
      r := Fail(KERNEL_COPY_FAILED + kernelSrc + " to " + kernelDst);
    } else {
      ok := m.Copy(initrdSrc, initrdDst);
      r := if ok then Pass else Fail(INITRD_COPY_FAILED + initrdSrc + " to " + initrdDst);
    }
    ReplayAppend(m.initial, old(m.trace), KernelCopySteps(old(m.fs), esp, kernelSrc, initrdSrc).effects);
  }

  method WriteEntryAndRegister(m: Machine, disk: string, esp: string, rootUuid: string) returns (r: Outcome)
    requires m.Valid()
    modifies m
    ensures m.Valid()
    ensures m.trace == old(m.trace) + EntrySteps(m.tool, old(m.fs), disk, esp, rootUuid).effects
    ensures m.fs == Replay(old(m.fs), EntrySteps(m.tool, old(m.fs), disk, esp, rootUuid).effects)
    ensures r == EntrySteps(m.tool, old(m.fs), disk, esp, rootUuid).outcome
  {
    WriteSystemdBootEntry(m, esp, rootUuid);
    ReplayAppend(m.initial, old(m.trace), EntryEffects(esp, rootUuid));
    var layout := VerifyEspLayout(m, esp);
    if layout.Fail? {
      r := WithContext(layout, LAYOUT_CONTEXT);
    } else {
      var _ := RegisterUefiBootEntry(m, disk);
      r := Pass;
    }
    ReplayAppend(m.initial, old(m.trace), EntrySteps(m.tool, old(m.fs), disk, esp, rootUuid).effects);
  }

  method InstallKernelAndEntry(m: Machine, disk: string, plan: MountPlan, listing: Result<seq<string>>, rootUuid: string)
    returns (r: Outcome)
    requires m.Valid()
    modifies m
    ensures m.Valid()
    ensures m.trace == old(m.trace) + KernelSteps(m.tool, old(m.fs), disk, plan, listing, rootUuid).effects
    ensures m.fs == Replay(old(m.fs), KernelSteps(m.tool, old(m.fs), disk, plan, listing, rootUuid).effects)
    ensures r == KernelSteps(m.tool, old(m.fs), disk, plan, listing, rootUuid).outcome
  {
    var found := FindInstalledKernelAndInitrd(PathJoin(plan.targetRoot, "boot"), listing);
    if found.Err? {
      return WithContext(Fail(found.msg), KERNEL_CONTEXT);
    }
    r := CopyKernelAndInitrd(m, plan.targetEfi, found.value.0, found.value.1);
    if r.Pass? {
      ghost var copies := KernelCopySteps(old(m.fs), plan.targetEfi, found.value.0, found.value.1).effects;
      r := WriteEntryAndRegister(m, disk, plan.targetEfi, rootUuid);
      ThenReplays(old(m.trace), old(m.fs), copies, EntrySteps(m.tool, Replay(old(m.fs), copies), disk, plan.targetEfi, rootUuid));
    }
  }

  method InstallBootloader(m: Machine, disk: string, plan: MountPlan, listing: Result<seq<string>>, rootUuid: string)
    returns (r: Outcome)
    requires m.Valid()
    modifies m
    ensures m.Valid()
    ensures m.trace == old(m.trace) + BootloaderSteps(m.tool, old(m.fs), disk, plan, listing, rootUuid).effects
    ensures m.fs == Replay(old(m.fs), BootloaderSteps(m.tool, old(m.fs), disk, plan, listing, rootUuid).effects)
    ensures r == BootloaderSteps(m.tool, old(m.fs), disk, plan, listing, rootUuid).outcome
  {
    var efi := InstallSystemdBootEfi(m, plan.targetEfi);
    ghost var installed := SystemdBootEfiSteps(old(m.fs), plan.targetEfi).effects;
    ReplayAppend(m.initial, old(m.trace), installed);
    if efi.Fail? {
      return WithContext(efi, BOOT_EFI_CONTEXT);
    }
    r := InstallKernelAndEntry(m, disk, plan, listing, rootUuid);
    ThenReplays(old(m.trace), old(m.fs), installed, KernelSteps(m.tool, Replay(old(m.fs), installed), disk, plan, listing, rootUuid));
  }

  method InstallBootFiles(m: Machine, disk: string, plan: MountPlan, listing: Result<seq<string>>,
                          rootUuid: string, espUuid: string) returns (r: Outcome)
    requires m.Valid()
    modifies m
    ensures m.Valid()
    ensures m.trace == old(m.trace) + BootFileSteps(m.tool, old(m.fs), disk, plan, listing, rootUuid, espUuid).effects
    ensures m.fs == Replay(old(m.fs), BootFileSteps(m.tool, old(m.fs), disk, plan, listing, rootUuid, espUuid).effects)
    ensures r == BootFileSteps(m.tool, old(m.fs), disk, plan, listing, rootUuid, espUuid).outcome
  {
    WriteFstab(m, rootUuid, espUuid, plan);
    ghost var fstab := FstabEffects(plan.targetRoot, rootUuid, espUuid);
    ReplayAppend(m.initial, old(m.trace), fstab);
    r := InstallBootloader(m, disk, plan, listing, rootUuid);
    ThenReplays(old(m.trace), old(m.fs), fstab, BootloaderSteps(m.tool, Replay(old(m.fs), fstab), disk, plan, listing, rootUuid));
  }

  method ConfigureBootSystemdBoot(m: Machine, dev: BootDevices, plan: MountPlan, listing: Result<seq<string>>)
    returns (r: Outcome)
    requires m.Valid()
    modifies m
    ensures m.Valid()
    ensures m.trace == old(m.trace) + BootEffects(m.tool, old(m.fs), dev, plan, listing).effects
    ensures m.fs == Replay(old(m.fs), BootEffects(m.tool, old(m.fs), dev, plan, listing).effects)
    ensures r == BootEffects(m.tool, old(m.fs), dev, plan, listing).outcome
  {
    var rootOut := m.Run(Blkid(dev.root));
    var rootUuid := BlkidUuid(dev.root, rootOut);
    if rootUuid.Err? {
      r := WithContext(Fail(rootUuid.msg), ROOT_UUID_CONTEXT);
      ReplayOne(old(m.fs), Ran(Blkid(dev.root)));
      return;
    }
    var espOut := m.Run(Blkid(dev.esp));
    var espUuid := BlkidUuid(dev.esp, espOut);
    ghost var uuids := [Ran(Blkid(dev.root)), Ran(Blkid(dev.esp))];
    ReplayTwo(old(m.fs), Ran(Blkid(dev.root)), Ran(Blkid(dev.esp)));
    assert m.trace == old(m.trace) + uuids;
    if espUuid.Err? {
      r := WithContext(Fail(espUuid.msg), ESP_UUID_CONTEXT);
      return;
    }
    ghost var rest := BootFileSteps(m.tool, old(m.fs), dev.disk, plan, listing, rootUuid.value, espUuid.value);
    assert BootEffects(m.tool, old(m.fs), dev, plan, listing) == Then(uuids, rest);
    r := InstallBootFiles(m, dev.disk, plan, listing, rootUuid.value, espUuid.value);
    ThenReplays(old(m.trace), old(m.fs), uuids, rest);
  }
}
