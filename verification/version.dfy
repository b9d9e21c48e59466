/** The build version string of pkg/version.go. The Git revision, set at link time, is a
    parameter. */
module Version {
  import GoStrings

  const Major: nat := 1
  const Minor: nat := 0
  const Patch: nat := 0
  const ReleaseLevel: string := ""
  const ReleaseNumber: nat := 5

  function Decimal(n: nat): (r: string)
    ensures |r| > 0 && forall i :: 0 <= i < |r| ==> '0' <= r[i] <= '9'
  {
    GoStrings.FormatInt(n, 10)
  }

  function Core(major: nat, minor: nat, patch: nat): string {
    Decimal(major) + "." + Decimal(minor) + "." + Decimal(patch)
  }

  function WithGit(v: string, git: string): (r: string)
    ensures git == "" ==> r == v
    ensures git != "" ==> |r| == |v| + |git| + 3 && r[..|v|] == v && r[|v|..] == " (" + git + ")"
  {
    if git == "" then v else v + " (" + git + ")"
  }

  /** `Version` as written: with a release level and a positive release number, the level
      is appended a second time after the number. */
  function VersionAsWritten(major: nat, minor: nat, patch: nat, level: string, number: nat, git: string): (r: string)
    ensures level != "" && number > 0 ==>
      r == WithGit(Core(major, minor, patch) + "-" + level + "." + Decimal(number) + "-" + level, git)
  {
    var core := Core(major, minor, patch);
    var core1 := if level != "" && number > 0 then core + "-" + level + "." + Decimal(number) else core;
    var core2 := if level != "" then core1 + "-" + level else core1;
    WithGit(core2, git)
  }

  /** `Version` as intended: the core version, then `-level.number` (or `-level` when the
      number is 0) for a pre-release, then the Git revision in parentheses. */
  function VersionOf(major: nat, minor: nat, patch: nat, level: string, number: nat, git: string): (r: string)
    ensures level == "" ==> r == WithGit(Core(major, minor, patch), git)
    ensures level != "" && number > 0 ==> r == WithGit(Core(major, minor, patch) + "-" + level + "." + Decimal(number), git)
    ensures level != "" && number == 0 ==> r == WithGit(Core(major, minor, patch) + "-" + level, git)
  {
    var core := Core(major, minor, patch);
    if level == "" then WithGit(core, git)
    else if number > 0 then WithGit(core + "-" + level + "." + Decimal(number), git)
    else WithGit(core + "-" + level, git)
  }

  /** The version of this build. */
  function Current(git: string): (r: string)
    ensures git == "" ==> r == "1.0.0"
    ensures git != "" ==> r == "1.0.0 (" + git + ")"
    ensures r == VersionAsWritten(Major, Minor, Patch, ReleaseLevel, ReleaseNumber, git)
  {
    assert Decimal(1) == "1" && Decimal(0) == "0";
    VersionOf(Major, Minor, Patch, ReleaseLevel, ReleaseNumber, git)
  }

  /** Both definitions agree on every build without a release level, this one included,
      and on every pre-release numbered 0. */
  lemma AsWrittenAgreesWithoutNumberedLevel(major: nat, minor: nat, patch: nat, level: string, number: nat, git: string)
    requires level == "" || number == 0
    ensures VersionAsWritten(major, minor, patch, level, number, git) == VersionOf(major, minor, patch, level, number, git)
  {
  }

  /** Whenever a pre-release is numbered, the version as written carries the level once
      more than intended, right after the intended core. */
  lemma LevelAppendedTwice(major: nat, minor: nat, patch: nat, level: string, number: nat)
    requires level != "" && number > 0
    ensures VersionAsWritten(major, minor, patch, level, number, "") == VersionOf(major, minor, patch, level, number, "") + "-" + level
  {
  }

  /** The level appears twice as written: `1.0.0-beta.1-beta` for the intended
      `1.0.0-beta.1`. */
  lemma LevelRepeated()
    ensures VersionAsWritten(1, 0, 0, "beta", 1, "") == "1.0.0-beta.1-beta"
    ensures VersionOf(1, 0, 0, "beta", 1, "") == "1.0.0-beta.1"
  {
    assert Decimal(1) == "1" && Decimal(0) == "0";
    var core := Core(1, 0, 0);
    assert core == "1.0.0";
    var intended := VersionOf(1, 0, 0, "beta", 1, "");
    assert intended == core + "-" + "beta" + "." + "1";
    assert intended == "1.0.0-beta.1";
    LevelAppendedTwice(1, 0, 0, "beta", 1);
  }
}
