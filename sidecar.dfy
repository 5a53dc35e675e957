// The platform naming of `src-tauri/binaries/build-sidecar.py`: the Rust
// target triple for the host and the file name of the built sidecar. The
// host's `platform.system()` and `platform.machine()` are parameters.

module Sidecar {
  import opened Text

  const WIN_X64 := "x86_64-pc-windows-msvc"
  const WIN_X86 := "i686-pc-windows-msvc"
  const MAC_ARM := "aarch64-apple-darwin"
  const MAC_X64 := "x86_64-apple-darwin"
  const LINUX_ARM := "aarch64-unknown-linux-gnu"
  const LINUX_X64 := "x86_64-unknown-linux-gnu"
  const UNKNOWN := "unknown"

  /** `get_target_triple`: both names are lower-cased, then matched system first, machine second. */
  function TargetTriple(system: string, machine: string): string {
    var sys, mach := ToLower(system), ToLower(machine);
    if sys == "windows" then
      (if mach == "amd64" || mach == "x86_64" then WIN_X64 else WIN_X86)
    else if sys == "darwin" then
      (if mach == "arm64" then MAC_ARM else MAC_X64)
    else if sys == "linux" then
      (if mach == "aarch64" || mach == "arm64" then LINUX_ARM else LINUX_X64)
    else UNKNOWN
  }

  predicate IsWindowsTriple(t: string) {
    t == WIN_X64 || t == WIN_X86
  }

  /** Each triple is produced for exactly the platforms that name it; every other system is unknown. */
  lemma TargetTripleCases(system: string, machine: string)
    ensures var t, sys, mach := TargetTriple(system, machine), ToLower(system), ToLower(machine);
      && (t == WIN_X64 <==> sys == "windows" && (mach == "amd64" || mach == "x86_64"))
      && (t == WIN_X86 <==> sys == "windows" && mach != "amd64" && mach != "x86_64")
      && (t == MAC_ARM <==> sys == "darwin" && mach == "arm64")
      && (t == MAC_X64 <==> sys == "darwin" && mach != "arm64")
      && (t == LINUX_ARM <==> sys == "linux" && (mach == "aarch64" || mach == "arm64"))
      && (t == LINUX_X64 <==> sys == "linux" && mach != "aarch64" && mach != "arm64")
      && (t == UNKNOWN <==> sys != "windows" && sys != "darwin" && sys != "linux")
  {
    var t := TargetTriple(system, machine);
    assert WIN_X64[0] == 'x' && WIN_X86[0] == 'i' && MAC_ARM[0] == 'a' && MAC_X64[0] == 'x';
    assert LINUX_ARM[0] == 'a' && LINUX_X64[0] == 'x' && UNKNOWN[0] == 'u';
    assert |WIN_X64| == 22 && |MAC_X64| == 19 && |LINUX_X64| == 24;
    assert |MAC_ARM| == 20 && |LINUX_ARM| == 25;
  }

  lemma LowerCharIdempotent(c: char)
    ensures LowerChar(LowerChar(c)) == LowerChar(c)
  {
  }

  lemma ToLowerIdempotent(s: string)
    ensures ToLower(ToLower(s)) == ToLower(s)
  {
    forall i | 0 <= i < |s|
      ensures ToLower(ToLower(s))[i] == ToLower(s)[i]
    {
      LowerCharIdempotent(s[i]);
    }
  }

  /** Case does not matter: "Windows"/"AMD64" name the same triple as "windows"/"amd64". */
  lemma TargetTripleIgnoresCase(system: string, machine: string)
    ensures TargetTriple(ToLower(system), ToLower(machine)) == TargetTriple(system, machine)
  {
    ToLowerIdempotent(system);
    ToLowerIdempotent(machine);
    SameLowerSameTriple(ToLower(system), ToLower(machine), system, machine);
  }

  lemma SameLowerSameTriple(s1: string, m1: string, s2: string, m2: string)
    requires ToLower(s1) == ToLower(s2) && ToLower(m1) == ToLower(m2)
    ensures TargetTriple(s1, m1) == TargetTriple(s2, m2)
  {
  }

  /** The name PyInstaller is asked to build, without any extension. */
  function BuildName(target: string): string {
    "nitrogen-sidecar-" + target
  }

  /** The output name as `main` writes it: ".exe" only when the raw system name is exactly "windows". */
  function OutputNameAsWritten(system: string, machine: string): string {
    var ext := if system == "windows" then ".exe" else "";
    BuildName(TargetTriple(system, machine)) + ext
  }

  /** The output name with the system compared after lower-casing, as the triple is. */
  function OutputName(system: string, machine: string): string {
    var ext := if ToLower(system) == "windows" then ".exe" else "";
    BuildName(TargetTriple(system, machine)) + ext
  }

  /** The corrected name carries ".exe" exactly when the triple is a Windows one. */
  lemma OutputNameExe(system: string, machine: string)
    ensures EndsWith(OutputName(system, machine), ".exe") <==> IsWindowsTriple(TargetTriple(system, machine))
    ensures StartsWith(OutputName(system, machine), BuildName(TargetTriple(system, machine)))
  {
    TargetTripleCases(system, machine);
    var t := TargetTriple(system, machine);
    var n := OutputName(system, machine);
    assert n[..|BuildName(t)|] == BuildName(t);
    if !IsWindowsTriple(t) {
      assert n == BuildName(t);
      assert t[|t| - 1] != 'e';
      assert n[|n| - 1] == t[|t| - 1];
    } else {
      assert n[|n| - 4..] == ".exe";
    }
  }

  /**
   * On Windows `platform.system()` reports "Windows": the triple is a Windows
   * one, but the name as written has no ".exe"; the corrected one has it.
   */
  lemma WindowsNameMissesExe()
    ensures TargetTriple("Windows", "AMD64") == WIN_X64
    ensures OutputNameAsWritten("Windows", "AMD64") == BuildName(WIN_X64)
    ensures !EndsWith(OutputNameAsWritten("Windows", "AMD64"), ".exe")
    ensures OutputName("Windows", "AMD64") == BuildName(WIN_X64) + ".exe"
  {
    LowerWindows();
    assert "Windows"[0] != "windows"[0];
    var n := BuildName(WIN_X64);
    assert n[|n| - 1] == 'c';
  }

  lemma LowerWindows()
    ensures ToLower("Windows") == "windows" && ToLower("AMD64") == "amd64"
  {
    var w := ToLower("Windows");
    assert w[0] == 'w';
    assert w == "windows";
    var a := ToLower("AMD64");
    assert a[0] == 'a' && a[1] == 'm' && a[2] == 'd';
    assert a == "amd64";
  }

  /** Only for a system name already in lower case do the two names agree. */
  lemma OutputNamesAgreeWhenLower(system: string, machine: string)
    requires ToLower(system) == system
    ensures OutputNameAsWritten(system, machine) == OutputName(system, machine)
  {
  }
}
