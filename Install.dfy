/** The deterministic rules inside the installation steps: the mount plan,
    the machine-id derivation, the passwd check, the translation of a path
    under the target root into the target's own view, the systemd unit
    locations, the efibootmgr failure classification, the kernel and initrd
    choice, and the fixed texts written for fstab and systemd-boot. */
module Install {
  import opened Wrappers
  import opened Text
  import opened Paths
  import opened Tools
  import opened Seqs

  // ---------------------------------------------------------------------
  // Mount plan

  /** Where the new root and its EFI system partition are mounted */
  datatype MountPlan = MountPlan(targetRoot: string, targetEfi: string)

  function DefaultMountPlan(): MountPlan
  {
    MountPlan("/mnt", "/mnt/boot/efi")
  }

  /** Two names joined by a separator are exactly those two components. */
  lemma TwoComponents(a: string, b: string)
    requires a != [] && a != "." && '/' !in a
    requires b != [] && b != "." && '/' !in b
    ensures Components(a + "/" + b) == [a, b]
  {
    SplitOnAppend(a, '/', b);
    SplitOnNoSep(b, '/');
    assert SplitOn(a + "/" + b, '/') == [a, b];
    NamedPiecesAllNamed([a, b]);
  }

  /** The default ESP mount point lies two levels below the root mount
      point, so it can only be created once the root is mounted. */
  lemma DefaultPlanNests()
    ensures DefaultMountPlan().targetEfi == PathJoin(DefaultMountPlan().targetRoot, "boot/efi")
    ensures StripPrefix(DefaultMountPlan().targetEfi, DefaultMountPlan().targetRoot) == Some(["boot", "efi"])
  {
    assert PathJoin("/mnt", "boot/efi") == "/mnt/boot/efi";
    assert !IsAbsolute("boot/efi");
    StripPrefixOfJoin("/mnt", "boot/efi");
    BootEfiComponents();
  }

  /** "boot/efi" names two levels: boot, then efi. */
  lemma BootEfiComponents()
    ensures Components("boot/efi") == ["boot", "efi"]
  {
    assert "boot" + "/" + "efi" == "boot/efi";
    TwoComponents("boot", "efi");
  }

  // ---------------------------------------------------------------------
  // machine-id

  /** An existing machine-id is kept when its trimmed text is at least 32
      bytes long in UTF-8; its contents are not checked further. */
  predicate KeepsMachineId(existing: Option<string>)
  {
    existing.Some? && Utf8Length(Trim(existing.value)) >= 32
  }

  /** The ASCII hexadecimal digits of a text, in order */
  function HexDigits(s: string): (r: string)
    ensures |r| <= |s|
    ensures forall i :: 0 <= i < |r| ==> IsAsciiHexDigit(r[i])
  {
    if s == [] then []
    else (if IsAsciiHexDigit(s[0]) then [s[0]] else []) + HexDigits(s[1..])
  }

  const MACHINE_ID_ERROR := "Failed to derive a 32-hex machine-id from kernel uuid"

  /** The first 32 hexadecimal digits of the kernel's random UUID, or an
      error when it has fewer */
  function DeriveMachineId(uuid: string): (r: Result<string>)
    ensures r.Ok? <==> |HexDigits(uuid)| >= 32
    ensures r.Ok? ==> |r.value| == 32 && forall i :: 0 <= i < 32 ==> IsAsciiHexDigit(r.value[i])
  {
    var digits := HexDigits(uuid);
    var id := if |digits| <= 32 then digits else digits[..32];
    if |id| != 32 then Err(MACHINE_ID_ERROR) else Ok(id)
  }

  lemma {:induction false} HexDigitsAppend(a: string, b: string)
    ensures HexDigits(a + b) == HexDigits(a) + HexDigits(b)
  {
    if a == [] {
      assert a + b == b;
    } else {
      assert (a + b)[0] == a[0] && (a + b)[1..] == a[1..] + b;
      HexDigitsAppend(a[1..], b);
    }
  }

  lemma {:induction false} HexDigitsOfHex(s: string)
    requires forall i :: 0 <= i < |s| ==> IsAsciiHexDigit(s[i])
    ensures HexDigits(s) == s
  {
    if s != [] {
      HexDigitsOfHex(s[1..]);
    }
  }

  predicate AllHex(s: string)
  {
    forall i :: 0 <= i < |s| ==> IsAsciiHexDigit(s[i])
  }

  /** A dash adds no digit. */
  lemma HexDigitsDashThen(x: string, y: string)
    requires AllHex(y)
    ensures HexDigits(x + "-" + y) == HexDigits(x) + y
  {
    assert HexDigits(x + "-") == HexDigits(x) by {
      assert HexDigits("-") == [];
      HexDigitsAppend(x, "-");
    }
    assert HexDigits(x + "-" + y) == HexDigits(x + "-") + HexDigits(y) by {
      HexDigitsAppend(x + "-", y);
    }
    HexDigitsOfHex(y);
  }

  /** A UUID in its usual text form (8-4-4-4-12 hexadecimal digits joined by
      dashes, then a line feed) yields its 32 digits without the dashes. */
  lemma MachineIdOfUuid(a: string, b: string, c: string, d: string, e: string)
    requires |a| == 8 && |b| == 4 && |c| == 4 && |d| == 4 && |e| == 12
    requires AllHex(a) && AllHex(b) && AllHex(c) && AllHex(d) && AllHex(e)
    ensures DeriveMachineId(a + "-" + b + "-" + c + "-" + d + "-" + e + "\n") == Ok(a + b + c + d + e)
  {
    var s1 := a + "-" + b;
    var s2 := s1 + "-" + c;
    var s3 := s2 + "-" + d;
    var s4 := s3 + "-" + e;
    HexDigitsOfHex(a);
    HexDigitsDashThen(a, b);
    HexDigitsDashThen(s1, c);
    HexDigitsDashThen(s2, d);
    HexDigitsDashThen(s3, e);
    assert HexDigits(s4) == a + b + c + d + e;
    assert HexDigits("\n") == [];
    HexDigitsAppend(s4, "\n");
    assert HexDigits(s4 + "\n") == a + b + c + d + e;
  }

  // ---------------------------------------------------------------------
  // passwd

  /** A passwd line that begins with "<username>:" */
  predicate IsEntryOf(username: string, line: string)
  {
    StartsWith(line, username + ":")
  }

  /** `target_user_exists`: whether some line of the passwd text begins with
      "<username>:"; an unreadable passwd file is an error. */
  function TargetUserExists(passwdPath: string, passwd: Option<string>, username: string): (r: Result<bool>)
    ensures r.Err? <==> passwd.None?
  {
    match passwd
    case None => Err("Failed to read " + passwdPath)
    case Some(contents) => Ok(AnyOf(Lines(contents), line => IsEntryOf(username, line)))
  }

  /** The check finds exactly the lines that start with the user's entry. */
  lemma TargetUserExistsMeans(passwdPath: string, contents: string, username: string)
    ensures TargetUserExists(passwdPath, Some(contents), username)
         == Ok(exists i :: 0 <= i < |Lines(contents)| && IsEntryOf(username, Lines(contents)[i]))
  {
    AnyOfMeans(Lines(contents), line => IsEntryOf(username, line));
  }

  /** For a name without ':' a line is the user's entry exactly when its
      first field, the text before its first ':', is the name: "root" does
      not match an entry for "rootkit". */
  lemma EntryOfMeansFirstField(username: string, line: string)
    requires ':' !in username
    ensures IsEntryOf(username, line)
        <==> SplitOnce(line, ":").Some? && SplitOnce(line, ":").value.0 == username
  {
    var u := username;
    if IsEntryOf(u, line) {
      var rest := line[|u| + 1..];
      assert line == u + ":" + rest by {
        assert line[..|u| + 1] == u + ":";
      }
      assert OccursAt(line, ":", |u|);
      var r := SplitOnce(line, ":");
      assert r.Some?;
      var a := r.value.0;
      assert forall j :: 0 <= j < |u| ==> line[j] == u[j] && !OccursAt(line, ":", j);
      assert OccursAt(line, ":", |a|);
      assert |a| == |u|;
      assert a == line[..|a|];
    }
    if SplitOnce(line, ":").Some? && SplitOnce(line, ":").value.0 == u {
      var b := SplitOnce(line, ":").value.1;
      StartsWithConcat(u + ":", b);
    }
  }

  // ---------------------------------------------------------------------
  // Paths inside the target

  /** `path_in_target_root`: the path as the installed system sees it,
      "/" followed by what remains after the target root */
  function PathInTargetRoot(targetRoot: string, path: string): (r: Result<string>)
    ensures r.Err? <==> StripPrefix(path, targetRoot).None?
    ensures r.Ok? ==> IsAbsolute(r.value)
  {
    match StripPrefix(path, targetRoot)
    case None => Err("Path " + path + " is not under target root " + targetRoot + ": prefix not found")
    case Some(rel) => Ok("/" + Join(rel, "/"))
  }

  /** A normalized relative path joined under the target root comes back as
      that path made absolute. */
  lemma PathInTargetRootOfJoin(targetRoot: string, rel: string)
    requires targetRoot != [] && targetRoot[|targetRoot| - 1] != '/'
    requires !IsAbsolute(rel) && Normalized(rel)
    ensures PathInTargetRoot(targetRoot, PathJoin(targetRoot, rel)) == Ok("/" + rel)
  {
    StripPrefixOfJoin(targetRoot, rel);
    ComponentsOfNormalized(rel);
  }

  // ---------------------------------------------------------------------
  // systemd units

  const UNIT_DIRS: seq<string> := ["lib/systemd/system", "usr/lib/systemd/system"]
  const WANTS_DIR := "etc/systemd/system/multi-user.target.wants"

  /** Where a unit file is looked for, in order */
  function UnitCandidates(targetRoot: string, unit: string): (r: seq<string>)
    ensures |r| == |UNIT_DIRS|
    ensures forall i :: 0 <= i < |r| ==> r[i] == PathJoin(PathJoin(targetRoot, UNIT_DIRS[i]), unit)
  {
    [PathJoin(PathJoin(targetRoot, UNIT_DIRS[0]), unit), PathJoin(PathJoin(targetRoot, UNIT_DIRS[1]), unit)]
  }

  function MissingUnitError(unit: string): string
  {
    "Missing systemd unit file '" + unit + "' in target root (expected under /lib/systemd/system"
      + " or /usr/lib/systemd/system). Ensure payload includes systemd."
  }

  /** The path of the enabling link of a unit */
  function WantsLink(targetRoot: string, unit: string): string
  {
    PathJoin(PathJoin(targetRoot, WANTS_DIR), unit)
  }

  // ---------------------------------------------------------------------
  // efibootmgr

  /** Failures of efibootmgr that only mean the firmware's boot variables
      cannot be written; the ESP's fallback loader is relied on instead. */
  const TOLERATED_EFIBOOTMGR_ERRORS: seq<string> := [
    "EFI variables are not supported",
    "Could not prepare boot variable",
    "Operation not permitted",
    "Read-only file system"
  ]

  /** How `register_uefi_boot_entry` judges a finished efibootmgr run */
  function EfibootmgrOutcome(o: ToolOutput): Outcome
  {
    if Succeeded(o) then Pass
    else if Contains(o.stderr, "EFI variables are not supported")
         || Contains(o.stderr, "Could not prepare boot variable")
         || Contains(o.stderr, "Operation not permitted")
         || Contains(o.stderr, "Read-only file system")
    then Pass
    else Fail("efibootmgr failed: stdout='" + o.stdout + "' stderr='" + o.stderr + "'")
  }

  /** A run passes exactly when it succeeded or its error output names one
      of the tolerated failures; any other failure reports both streams. */
  lemma EfibootmgrTolerates(o: ToolOutput)
    ensures EfibootmgrOutcome(o).Pass?
        <==> Succeeded(o)
             || exists i :: 0 <= i < |TOLERATED_EFIBOOTMGR_ERRORS| && Contains(o.stderr, TOLERATED_EFIBOOTMGR_ERRORS[i])
    ensures EfibootmgrOutcome(o).Fail? ==>
              Contains(EfibootmgrOutcome(o).msg, o.stdout) && Contains(EfibootmgrOutcome(o).msg, o.stderr)
  {
    var t := TOLERATED_EFIBOOTMGR_ERRORS;
    if exists i :: 0 <= i < |t| && Contains(o.stderr, t[i]) {
      var i :| 0 <= i < |t| && Contains(o.stderr, t[i]);
      assert i == 0 || i == 1 || i == 2 || i == 3;
    }
    if !Succeeded(o) && Contains(o.stderr, t[0]) { assert Contains(o.stderr, t[0]); }
    if !Succeeded(o) && Contains(o.stderr, t[1]) { assert Contains(o.stderr, t[1]); }
    if !Succeeded(o) && Contains(o.stderr, t[2]) { assert Contains(o.stderr, t[2]); }
    if !Succeeded(o) && Contains(o.stderr, t[3]) { assert Contains(o.stderr, t[3]); }
    var a := "efibootmgr failed: stdout='";
    var b := "' stderr='";
    ContainsItself(o.stdout);
    ContainsInSuffix(a, o.stdout, o.stdout);
    ContainsInPrefix(a + o.stdout, b + o.stderr + "'", o.stdout);
    ContainsItself(o.stderr);
    ContainsInSuffix(a + o.stdout + b, o.stderr, o.stderr);
    ContainsInPrefix(a + o.stdout + b + o.stderr, "'", o.stderr);
    assert a + o.stdout + (b + o.stderr + "'") == a + o.stdout + b + o.stderr + "'";
  }

  // ---------------------------------------------------------------------
  // Kernel and initrd

  predicate IsKernelName(name: string)
  {
    StartsWith(name, "vmlinuz-")
  }

  predicate IsInitrdName(name: string)
  {
    StartsWith(name, "initrd.img-")
  }

  /** The greatest name in code-point order, which is what sorting and then
      taking the last element yields */
  function Greatest(names: seq<string>): string
    requires names != []
  {
    if |names| == 1 then names[0]
    else
      var g := Greatest(names[1..]);
      if LexLess(g, names[0]) then names[0] else g
  }

  lemma {:induction false} GreatestIsMaximum(names: seq<string>)
    requires names != []
    ensures Greatest(names) in names
    ensures forall x :: x in names ==> !LexLess(Greatest(names), x)
  {
    var n0 := names[0];
    if |names| == 1 {
      LexLessIrreflexive(n0);
    } else {
      var tail := names[1..];
      GreatestIsMaximum(tail);
      var g := Greatest(tail);
      assert names == [n0] + tail;
      if LexLess(g, n0) {
        forall x | x in names ensures !LexLess(n0, x) {
          if x == n0 {
            LexLessIrreflexive(n0);
          } else if LexLess(n0, x) {
            LexLessTransitive(g, n0, x);
          }
        }
      }
    }
  }

  /** Two names neither of which is below the other are the same name. */
  lemma SameWhenNeitherLess(a: string, b: string)
    requires !LexLess(a, b) && !LexLess(b, a)
    ensures a == b
  {
    if a != b {
      LexLessTotal(a, b);
    }
  }

  /** Sorting and taking the last element yields the greatest name. */
  lemma LastOfSortedIsGreatest(names: seq<string>)
    requires names != []
    ensures |SortBy(names, n => n)| == |names|
    ensures SortBy(names, n => n)[|names| - 1] == Greatest(names)
  {
    var key := (n: string) => n;
    var t := SortBy(names, key);
    SortByProps(names, key);
    assert |multiset(t)| == |t|;
    var last := |t| - 1;
    var m := t[last];
    assert m in multiset(t);
    GreatestIsMaximum(names);
    var g := Greatest(names);
    assert g in multiset(names);
    var j :| 0 <= j < |t| && t[j] == g;
    if j < last {
      assert !LexLess(key(t[last]), key(t[j]));
    }
    SameWhenNeitherLess(m, g);
  }

  /** The newest kernel and initrd under the target's /boot, as paths, or
      why there is none: the listing may fail, and either kind may be
      missing (the kernel is checked first). */
  function KernelAndInitrd(boot: string, listing: Result<seq<string>>): Result<(string, string)>
  {
    match listing
    case Err(_) => Err("Failed to read " + boot)
    case Ok(names) =>
      var kernels := Select(names, IsKernelName, true);
      var initrds := Select(names, IsInitrdName, true);
      if kernels == [] then Err("No vmlinuz-* found under " + boot)
      else if initrds == [] then Err("No initrd.img-* found under " + boot)
      else Ok((PathJoin(boot, Greatest(kernels)), PathJoin(boot, Greatest(initrds))))
  }

  /** The loop of `find_installed_kernel_and_initrd` over the entries of
      /boot: each name is a kernel, an initial ramdisk or neither, and the
      two kinds keep listing order. */
  method ScanBootNames(names: seq<string>) returns (kernels: seq<string>, initrds: seq<string>)
    ensures kernels == Select(names, IsKernelName, true)
    ensures initrds == Select(names, IsInitrdName, true)
  {
    kernels, initrds := [], [];
    for i := 0 to |names|
      invariant kernels == Select(names[..i], IsKernelName, true)
      invariant initrds == Select(names[..i], IsInitrdName, true)
    {
      var name := names[i];
      SelectSnoc(names, i, IsKernelName, true);
      SelectSnoc(names, i, IsInitrdName, true);
      if StartsWith(name, "vmlinuz-") {
        assert !IsInitrdName(name) by {
          assert name[0] == 'v';
        }
        kernels := kernels + [name];
      } else if StartsWith(name, "initrd.img-") {
        initrds := initrds + [name];
      }
    }
    assert names[..|names|] == names;
  }

  /** `find_installed_kernel_and_initrd`: lists /boot of the target, keeps
      the "vmlinuz-" and "initrd.img-" entries, sorts each kind and takes the
      last of each. */
  method FindInstalledKernelAndInitrd(boot: string, listing: Result<seq<string>>) returns (r: Result<(string, string)>)
    ensures r == KernelAndInitrd(boot, listing)
  {
    if listing.Err? {
      return Err("Failed to read " + boot);
    }
    var names := listing.value;
    var kernels, initrds := ScanBootNames(names);
    ghost var found := (kernels, initrds);
    kernels := SortBy(kernels, n => n);
    initrds := SortBy(initrds, n => n);
    if kernels == [] {
      return Err("No vmlinuz-* found under " + boot);
    }
    if initrds == [] {
      return Err("No initrd.img-* found under " + boot);
    }
    var kernel := kernels[|kernels| - 1];
    var initrd := initrds[|initrds| - 1];
    assert kernel == Greatest(found.0) && initrd == Greatest(found.1) by {
      LastOfSortedIsGreatest(found.0);
      LastOfSortedIsGreatest(found.1);
    }
    return Ok((PathJoin(boot, kernel), PathJoin(boot, initrd)));
  }

  /** The greatest name depends only on which names there are. */
  lemma GreatestOfSameNames(a: seq<string>, b: seq<string>)
    requires a != [] && forall x :: x in a <==> x in b
    ensures b != [] && Greatest(a) == Greatest(b)
  {
    assert a[0] in b;
    GreatestIsMaximum(a);
    GreatestIsMaximum(b);
    SameWhenNeitherLess(Greatest(a), Greatest(b));
  }

  lemma SameSelection(a: seq<string>, b: seq<string>, p: string -> bool)
    requires forall x :: x in a <==> x in b
    ensures forall x :: x in Select(a, p, true) <==> x in Select(b, p, true)
    ensures Select(a, p, true) == [] <==> Select(b, p, true) == []
  {
    forall x ensures x in Select(a, p, true) <==> x in Select(b, p, true) {
      SelectMember(a, p, true, x);
      SelectMember(b, p, true, x);
    }
    if Select(a, p, true) != [] {
      assert Select(a, p, true)[0] in Select(b, p, true);
    }
    if Select(b, p, true) != [] {
      assert Select(b, p, true)[0] in Select(a, p, true);
    }
  }

  /** The directory's listing order, which the system does not fix, does
      not change which kernel and initrd are chosen. */
  lemma KernelChoiceIgnoresOrder(boot: string, a: seq<string>, b: seq<string>)
    requires forall x :: x in a <==> x in b
    ensures KernelAndInitrd(boot, Ok(a)) == KernelAndInitrd(boot, Ok(b))
  {
    SameSelection(a, b, IsKernelName);
    SameSelection(a, b, IsInitrdName);
    if Select(a, IsKernelName, true) != [] {
      GreatestOfSameNames(Select(a, IsKernelName, true), Select(b, IsKernelName, true));
    }
    if Select(a, IsInitrdName, true) != [] {
      GreatestOfSameNames(Select(a, IsInitrdName, true), Select(b, IsInitrdName, true));
    }
  }

  /** The chosen files are the greatest "vmlinuz-" and "initrd.img-" names
      in the listing, joined to the boot directory. */
  lemma KernelChoiceIsNewest(boot: string, names: seq<string>)
    requires KernelAndInitrd(boot, Ok(names)).Ok?
    ensures exists k, i ::
              k in names && IsKernelName(k) && i in names && IsInitrdName(i)
              && KernelAndInitrd(boot, Ok(names)).value == (PathJoin(boot, k), PathJoin(boot, i))
              && (forall x :: x in names && IsKernelName(x) ==> !LexLess(k, x))
              && (forall x :: x in names && IsInitrdName(x) ==> !LexLess(i, x))
  {
    var ks, rs := Select(names, IsKernelName, true), Select(names, IsInitrdName, true);
    GreatestIsMaximum(ks);
    GreatestIsMaximum(rs);
    var k, i := Greatest(ks), Greatest(rs);
    SelectMember(names, IsKernelName, true, k);
    SelectMember(names, IsInitrdName, true, i);
    forall x | x in names && IsKernelName(x) ensures !LexLess(k, x) {
      SelectMember(names, IsKernelName, true, x);
    }
    forall x | x in names && IsInitrdName(x) ensures !LexLess(i, x) {
      SelectMember(names, IsInitrdName, true, x);
    }
  }
}
