/** The files the installer writes for booting the new system: the fstab,
    systemd-boot's loader configuration and boot entry, and the list of
    files the ESP must hold afterwards. */
module BootFiles {
  import opened Text

  /** What `verify_esp_layout` requires below the ESP mount point, in the
      order it checks them */
  const ESP_REQUIRED: seq<string> := [
    "EFI/BOOT/BOOTX64.EFI",
    "EFI/systemd/systemd-bootx64.efi",
    "loader/loader.conf",
    "loader/entries/debian.conf",
    "EFI/debian/vmlinuz",
    "EFI/debian/initrd.img"
  ]

  /** Where `install_systemd_boot_efi` takes the boot manager from, and the
      two places on the ESP it copies it to: the firmware's fallback path
      and systemd-boot's own */
  const SYSTEMD_BOOT_SOURCE := "/usr/lib/systemd/boot/efi/systemd-bootx64.efi"
  const FALLBACK_LOADER := "EFI/BOOT/BOOTX64.EFI"
  const SYSTEMD_BOOT_LOADER := "EFI/systemd/systemd-bootx64.efi"
  const KERNEL_ON_ESP := "EFI/debian/vmlinuz"
  const INITRD_ON_ESP := "EFI/debian/initrd.img"
  const LOADER_CONF_FILE := "loader/loader.conf"
  const ENTRY_FILE := "debian.conf"
  const ENTRY_PATH := "loader/entries/debian.conf"

  // ---------------------------------------------------------------------
  // fstab

  /** The comment line at the top of fstab, written in two halves so that
      each can be reasoned about on its own */
  const FSTAB_HEADER := "# /etc/fstab: " + "static file system information."

  /** The fields of the two mount lines */
  function RootMountFields(rootUuid: string): seq<string>
  {
    ["UUID=" + rootUuid, "/", "ext4", "defaults", "0", "1"]
  }

  function EspMountFields(espUuid: string): seq<string>
  {
    ["UUID=" + espUuid, "/boot/efi", "vfat", "umask=0077", "0", "1"]
  }

  /** The fstab written for the new system: the header comment, then the
      root by UUID at "/" as ext4 and the ESP by UUID at "/boot/efi" as vfat
      readable by root only, each line's fields separated by one space and
      each line ended by a line feed */
  function FstabText(rootUuid: string, espUuid: string): string
  {
    Terminated([FSTAB_HEADER, Join(RootMountFields(rootUuid), " "), Join(EspMountFields(espUuid), " ")])
  }

  lemma FieldsAreWords(uuid: string)
    requires NoWhitespace(uuid)
    ensures forall i :: 0 <= i < 6 ==> RootMountFields(uuid)[i] != [] && NoWhitespace(RootMountFields(uuid)[i])
    ensures forall i :: 0 <= i < 6 ==> EspMountFields(uuid)[i] != [] && NoWhitespace(EspMountFields(uuid)[i])
  {
    NoWhitespaceConcat("UUID=", uuid);
    assert NoWhitespace("/boot/efi") && NoWhitespace("defaults") && NoWhitespace("umask=0077");
  }

  lemma HeaderHeadOneLine()
    ensures '\n' !in "# /etc/fstab: "
  {
  }

  lemma HeaderTailOneLine()
    ensures '\n' !in "static file system information."
  {
  }

  lemma HeaderIsOneLine()
    ensures '\n' !in FSTAB_HEADER
  {
    HeaderHeadOneLine();
    HeaderTailOneLine();
    CharNotInConcat('\n', "# /etc/fstab: ", "static file system information.");
  }

  /** Read back line by line and field by field, as mount reads fstab, the
      file holds the header and the two mount entries with the given UUIDs
      (UUIDs being single words, as blkid prints them). */
  lemma FstabReadsBack(rootUuid: string, espUuid: string)
    requires NoWhitespace(rootUuid) && NoWhitespace(espUuid)
    ensures |Lines(FstabText(rootUuid, espUuid))| == 3
    ensures Lines(FstabText(rootUuid, espUuid))[0] == FSTAB_HEADER
    ensures Words(Lines(FstabText(rootUuid, espUuid))[1]) == RootMountFields(rootUuid)
    ensures Words(Lines(FstabText(rootUuid, espUuid))[2]) == EspMountFields(espUuid)
  {
    var rf, ef := RootMountFields(rootUuid), EspMountFields(espUuid);
    var l1, l2 := Join(rf, " "), Join(ef, " ");
    FieldsAreWords(rootUuid);
    FieldsAreWords(espUuid);
    WordsOfJoin(rf);
    WordsOfJoin(ef);
    JoinSpacedChars(rf);
    JoinSpacedChars(ef);
    assert IsWhitespace('\n') && IsWhitespace('\r');
    assert '\n' !in l1 && '\n' !in l2;
    HeaderIsOneLine();
    assert FSTAB_HEADER[|FSTAB_HEADER| - 1] != '\r';
    LinesOfTerminated([FSTAB_HEADER, l1, l2]);
  }

  // ---------------------------------------------------------------------
  // systemd-boot

  /** How systemd-boot reads a line of its configuration: the key is the
      first word, the value what follows the whitespace after it */
  function KeyValue(line: string): (string, string)
  {
    var n := WordLength(line);
    (line[..n], TrimStart(line[n..]))
  }

  /** A key, padding and a value that does not start with whitespace read
      back as that key and value. */
  lemma KeyValueOf(key: string, pad: string, value: string)
    requires key != [] && NoWhitespace(key)
    requires pad != [] && forall i :: 0 <= i < |pad| ==> IsWhitespace(pad[i])
    requires value == [] || !IsWhitespace(value[0])
    ensures KeyValue(key + pad + value) == (key, value)
  {
    var line := key + pad + value;
    assert line == key + (pad + value);
    WordLengthOfWord(key, pad + value);
    assert line[..|key|] == key && line[|key|..] == pad + value;
    TrimStartOfPadded(pad, value);
  }

  /** The loader configuration: boot the Debian entry at once, keeping the
      firmware's console mode */
  const LOADER_CONF_LINES: seq<string> := ["default " + ENTRY_FILE, "timeout 0", "console-mode keep"]

  function LoaderConf(): string
  {
    Terminated(LOADER_CONF_LINES)
  }

  const ENTRY_TITLE := "Debian (TruthDB)"
  const ENTRY_INIT := "init=/lib/systemd/systemd"
  /** The paths of the kernel and initrd as the boot entry names them,
      relative to the root of the ESP */
  const ENTRY_LINUX := "/EFI/debian/vmlinuz"
  const ENTRY_INITRD := "/EFI/debian/initrd.img"

  /** The kernel command line: the root by UUID, read-write, systemd as init */
  function KernelOptions(rootUuid: string): string
  {
    Join(OptionWords(rootUuid), " ")
  }

  function OptionWords(rootUuid: string): seq<string>
  {
    ["root=UUID=" + rootUuid, "rw", ENTRY_INIT]
  }

  /** The lines of the boot entry, each key padded to eight columns */
  function BootEntryLines(linuxPath: string, initrdPath: string, rootUuid: string): seq<string>
  {
    [ "title" + "   " + ENTRY_TITLE,
      "linux" + "   " + linuxPath,
      "initrd" + "  " + initrdPath,
      "options" + " " + KernelOptions(rootUuid) ]
  }

  function BootEntryText(linuxPath: string, initrdPath: string, rootUuid: string): string
  {
    Terminated(BootEntryLines(linuxPath, initrdPath, rootUuid))
  }

  /** A line that is a key, padding and a whitespace-free value holds no
      line break. */
  lemma KeyLineOneLine(key: string, pad: string, value: string)
    requires NoWhitespace(key) && NoWhitespace(value)
    requires forall i :: 0 <= i < |pad| ==> pad[i] == ' '
    ensures '\n' !in key + pad + value
    ensures key + pad + value == [] || (key + pad + value)[|key + pad + value| - 1] != '\r'
  {
    var line := key + pad + value;
    assert IsWhitespace('\n') && IsWhitespace('\r');
    assert forall i :: 0 <= i < |line| ==>
      line[i] == (if i < |key| then key[i] else if i < |key| + |pad| then pad[i - |key|] else value[i - |key| - |pad|]);
  }

  lemma OptionsAreWords(rootUuid: string)
    requires NoWhitespace(rootUuid)
    ensures forall i :: 0 <= i < |OptionWords(rootUuid)| ==>
              OptionWords(rootUuid)[i] != [] && NoWhitespace(OptionWords(rootUuid)[i])
  {
    NoWhitespaceConcat("root=UUID=", rootUuid);
    assert NoWhitespace(ENTRY_INIT);
  }

  lemma TitleOneLine()
    ensures '\n' !in "title" + "   " + ENTRY_TITLE
    ensures ("title" + "   " + ENTRY_TITLE)[|"title" + "   " + ENTRY_TITLE| - 1] != '\r'
  {
    CharNotInConcat('\n', "title" + "   ", ENTRY_TITLE);
  }

  lemma OptionsLineOneLine(rootUuid: string)
    requires NoWhitespace(rootUuid)
    ensures '\n' !in "options" + " " + KernelOptions(rootUuid)
    ensures ("options" + " " + KernelOptions(rootUuid))[|"options" + " " + KernelOptions(rootUuid)| - 1] != '\r'
  {
    var opts := KernelOptions(rootUuid);
    OptionsAreWords(rootUuid);
    JoinSpacedChars(OptionWords(rootUuid));
    assert opts != [] && opts[0] == 'r';
    assert IsWhitespace('\n') && IsWhitespace('\r');
    assert '\n' !in opts && opts[|opts| - 1] != '\r';
    CharNotInConcat('\n', "options" + " ", opts);
  }

  lemma EntryLinesAreLines(linuxPath: string, initrdPath: string, rootUuid: string)
    requires NoWhitespace(linuxPath) && NoWhitespace(initrdPath) && NoWhitespace(rootUuid)
    ensures Lines(BootEntryText(linuxPath, initrdPath, rootUuid)) == BootEntryLines(linuxPath, initrdPath, rootUuid)
  {
    var ls := BootEntryLines(linuxPath, initrdPath, rootUuid);
    TitleOneLine();
    KeyLineOneLine("linux", "   ", linuxPath);
    KeyLineOneLine("initrd", "  ", initrdPath);
    OptionsLineOneLine(rootUuid);
    LinesOfTerminated(ls);
  }

  /** Read back as systemd-boot reads it, the entry names the title, the
      kernel and initrd paths and the kernel command line it was written
      with, and the command line's words are the root by UUID, "rw" and
      systemd as init. */
  lemma BootEntryReadsBack(linuxPath: string, initrdPath: string, rootUuid: string)
    requires NoWhitespace(linuxPath) && NoWhitespace(initrdPath) && NoWhitespace(rootUuid)
    ensures |Lines(BootEntryText(linuxPath, initrdPath, rootUuid))| == 4
    ensures KeyValue(Lines(BootEntryText(linuxPath, initrdPath, rootUuid))[0]) == ("title", ENTRY_TITLE)
    ensures KeyValue(Lines(BootEntryText(linuxPath, initrdPath, rootUuid))[1]) == ("linux", linuxPath)
    ensures KeyValue(Lines(BootEntryText(linuxPath, initrdPath, rootUuid))[2]) == ("initrd", initrdPath)
    ensures KeyValue(Lines(BootEntryText(linuxPath, initrdPath, rootUuid))[3]) == ("options", KernelOptions(rootUuid))
    ensures Words(KernelOptions(rootUuid)) == OptionWords(rootUuid)
  {
    var opts := KernelOptions(rootUuid);
    EntryLinesAreLines(linuxPath, initrdPath, rootUuid);
    OptionsAreWords(rootUuid);
    WordsOfJoin(OptionWords(rootUuid));
    assert opts[0] == 'r';
    KeyValueOf("title", "   ", ENTRY_TITLE);
    KeyValueOf("linux", "   ", linuxPath);
    KeyValueOf("initrd", "  ", initrdPath);
    KeyValueOf("options", " ", opts);
  }

  /** The loader's default entry is the entry file written next to it. */
  lemma LoaderConfNamesEntry()
    ensures Lines(LoaderConf()) == LOADER_CONF_LINES
    ensures KeyValue(Lines(LoaderConf())[0]) == ("default", ENTRY_FILE)
  {
    CharNotInConcat('\n', "default ", ENTRY_FILE);
    LinesOfTerminated(LOADER_CONF_LINES);
    assert "default " + ENTRY_FILE == "default" + " " + ENTRY_FILE;
    KeyValueOf("default", " ", ENTRY_FILE);
  }

  /** The entry file and the kernel and initrd the entry names are among
      the files the layout check requires. */
  lemma EntryFilesRequired()
    ensures ENTRY_PATH == "loader/entries/" + ENTRY_FILE && ENTRY_PATH in ESP_REQUIRED
    ensures ENTRY_LINUX == "/" + KERNEL_ON_ESP && KERNEL_ON_ESP in ESP_REQUIRED
    ensures ENTRY_INITRD == "/" + INITRD_ON_ESP && INITRD_ON_ESP in ESP_REQUIRED
  {
    assert ESP_REQUIRED[3] == ENTRY_PATH && ESP_REQUIRED[4] == KERNEL_ON_ESP && ESP_REQUIRED[5] == INITRD_ON_ESP;
  }
}
