/** Two helpers of the package extractor: the number of result pages of a
    paged listing, and the choice of one wheel among the files of a release.
    A wheel file name is `name-version(-build)?-python-abi-platform.whl`, as
    PEP 427 lays it out; the platform part keeps the `.whl` suffix here. */
module Extractor {
  import opened Wrappers
  import opened Text

  /** `_page_num`: how many pages of `perPage` items hold `total` items. */
  function PageNum(perPage: nat, total: nat): (n: nat)
    requires perPage > 0
    ensures n * perPage >= total
    ensures n > 0 ==> (n - 1) * perPage < total
  {
    var q, r := total / perPage, total % perPage;
    assert total == q * perPage + r;
    if r == 0 then
      assert q > 0 ==> (q - 1) * perPage == q * perPage - perPage;
      q
    else
      assert (q + 1) * perPage == q * perPage + perPage;
      q + 1
  }

  /** The page count is the ceiling of the quotient: enough pages for every
      item, and no page more than that. */
  lemma PageNumIsCeiling(perPage: nat, total: nat)
    requires perPage > 0
    ensures PageNum(perPage, total) * perPage >= total
    ensures forall m: nat :: m * perPage >= total ==> PageNum(perPage, total) <= m
  {
    var n := PageNum(perPage, total);
    var q, r := total / perPage, total % perPage;
    assert total == q * perPage + r;
    forall m: nat | m * perPage >= total ensures n <= m {
      if r == 0 {
        if m < q { MultiplyStrict(m, q, perPage); }
      } else {
        if m <= q { MultiplyMonotone(m, q, perPage); }
      }
    }
  }

  lemma MultiplyStrict(a: nat, b: nat, c: nat)
    requires a < b && c > 0
    ensures a * c < b * c
  {
    assert b * c == a * c + (b - a) * c;
  }

  lemma MultiplyMonotone(a: nat, b: nat, c: nat)
    requires a <= b
    ensures a * c <= b * c
  {
    assert b * c == a * c + (b - a) * c;
  }

  /** Ninety items fill three pages of thirty; ninety-one need a fourth. */
  lemma PageNumExamples()
    ensures PageNum(30, 90) == 3
    ensures PageNum(30, 91) == 4
  {
  }

  /** One entry of a release's file list; only its file name is read. */
  datatype FileInfo = FileInfo(filename: string)

  /** The Python tag and the platform tag of a wheel name whose dash-separated
      parts number five or six; none for any other file. */
  function WheelTags(filename: string): (r: Option<(string, string)>)
    ensures r.Some? ==> EndsWith(filename, ".whl") && 5 <= |Split(filename, '-')| <= 6
  {
    if |filename| == 0 || !EndsWith(filename, ".whl") then None
    else
      var tags := Split(filename, '-');
      if |tags| <= 4 || |tags| >= 7 then None
      else if |tags| == 5 then Some((tags[2], tags[4]))
      else Some((tags[3], tags[5]))
  }

  /** A wheel that may be chosen: built for any platform or for Linux. */
  predicate Eligible(f: FileInfo)
  {
    WheelTags(f.filename).Some?
    && var platform := WheelTags(f.filename).value.1;
       IsSubstring("any", platform) || IsSubstring("linux", platform)
  }

  /** The Python tag of an eligible wheel. */
  function PyTag(f: FileInfo): string
    requires Eligible(f)
  {
    WheelTags(f.filename).value.0
  }

  /** The index `_select_wheel` settles on after reading `files`, in order:
      an eligible wheel replaces the current choice only when its Python tag
      is strictly greater (than the empty string, at first). */
  function Pick(files: seq<FileInfo>): (r: Option<nat>)
    ensures r.Some? ==> r.value < |files| && Eligible(files[r.value])
    decreases |files|
  {
    if |files| == 0 then None
    else
      var prev := Pick(files[..|files| - 1]);
      var f := files[|files| - 1];
      var best := if prev.Some? then PyTag(files[prev.value]) else "";
      if Eligible(f) && LexLess(best, PyTag(f)) then Some(|files| - 1) else prev
  }

  /** `r` names an eligible wheel with the greatest Python tag, the first such
      in the list; there is none exactly when every eligible wheel has an
      empty Python tag. */
  predicate FirstGreatest(files: seq<FileInfo>, r: Option<nat>)
  {
    && (r.Some? ==> r.value < |files| && Eligible(files[r.value]))
    && (r.Some? ==> PyTag(files[r.value]) != "")
    && (r.Some? ==> forall j :: 0 <= j < |files| && Eligible(files[j]) ==> !LexLess(PyTag(files[r.value]), PyTag(files[j])))
    && (r.Some? ==> forall j :: 0 <= j < r.value && Eligible(files[j]) ==> LexLess(PyTag(files[j]), PyTag(files[r.value])))
    && (r.None? <==> forall j :: 0 <= j < |files| && Eligible(files[j]) ==> PyTag(files[j]) == "")
  }

  /** The choice is an eligible wheel with the greatest Python tag, the first
      such in the list; there is none exactly when every eligible wheel has an
      empty Python tag. */
  lemma {:induction false} PickIsFirstGreatest(files: seq<FileInfo>)
    ensures FirstGreatest(files, Pick(files))
    decreases |files|
  {
    if |files| > 0 {
      var n := |files| - 1;
      PickIsFirstGreatest(files[..n]);
      var prev := Pick(files[..n]);
      var best := if prev.Some? then PyTag(files[prev.value]) else "";
      if Eligible(files[n]) && LexLess(best, PyTag(files[n])) {
        NewWheelWins(files);
      } else {
        EarlierChoiceStays(files);
      }
    }
  }

  /** A last wheel whose tag beats the earlier choice is the first greatest. */
  lemma NewWheelWins(files: seq<FileInfo>)
    requires |files| > 0
    requires var init := files[..|files| - 1]; FirstGreatest(init, Pick(init))
    requires var prev := Pick(files[..|files| - 1]); var f := files[|files| - 1];
      Eligible(f) && LexLess(if prev.Some? then PyTag(files[prev.value]) else "", PyTag(f))
    ensures FirstGreatest(files, Some(|files| - 1))
  {
    var n := |files| - 1;
    var init := files[..n];
    var f := files[n];
    var prev := Pick(init);
    assert forall j :: 0 <= j < n ==> files[j] == init[j];
    var best := if prev.Some? then PyTag(files[prev.value]) else "";
    forall j | 0 <= j < n && Eligible(files[j])
      ensures LexLess(PyTag(files[j]), PyTag(f))
    {
      if prev.Some? {
        LexTotal(best, PyTag(init[j]));
        if best != PyTag(init[j]) {
          LexTransitive(PyTag(init[j]), best, PyTag(f));
        }
      } else {
        assert PyTag(init[j]) == "";
        EmptyLess(PyTag(f));
      }
    }
    forall j | 0 <= j < |files| && Eligible(files[j])
      ensures !LexLess(PyTag(f), PyTag(files[j]))
    {
      if j == n {
        LexIrreflexive(PyTag(f));
      } else {
        LexAsymmetric(PyTag(files[j]), PyTag(f));
      }
    }
    EmptyNotAbove(PyTag(f), best);
  }

  /** A last file that does not beat the earlier choice leaves it the first greatest. */
  lemma EarlierChoiceStays(files: seq<FileInfo>)
    requires |files| > 0
    requires var init := files[..|files| - 1]; FirstGreatest(init, Pick(init))
    requires var prev := Pick(files[..|files| - 1]); var f := files[|files| - 1];
      !(Eligible(f) && LexLess(if prev.Some? then PyTag(files[prev.value]) else "", PyTag(f)))
    ensures FirstGreatest(files, Pick(files[..|files| - 1]))
  {
    var n := |files| - 1;
    var init := files[..n];
    var f := files[n];
    var prev := Pick(init);
    assert forall j :: 0 <= j < n ==> files[j] == init[j];
    var best := if prev.Some? then PyTag(files[prev.value]) else "";
    assert Eligible(f) ==> !LexLess(best, PyTag(f));
    if prev.Some? {
      forall j | 0 <= j < |files| && Eligible(files[j])
        ensures !LexLess(best, PyTag(files[j]))
      {
        if j < n {
          assert files[j] == init[j];
        }
      }
    } else {
      forall j | 0 <= j < |files| && Eligible(files[j])
        ensures PyTag(files[j]) == ""
      {
        if j < n {
          assert files[j] == init[j];
        } else {
          EmptyLess(PyTag(f));
        }
      }
    }
  }

  lemma EmptyLess(s: string)
    ensures s != "" <==> LexLess("", s)
  {
  }

  lemma EmptyNotAbove(s: string, t: string)
    requires LexLess(t, s)
    ensures s != ""
  {
  }

  /** `_select_wheel`: the loop over the files, keeping the current choice and
      its Python tag. */
  method SelectWheel(files: seq<FileInfo>) returns (r: Option<FileInfo>)
    ensures r == (if Pick(files).Some? then Some(files[Pick(files).value]) else None)
  {
    var chosen: Option<nat> := None;
    var chosenPyVer := "";
    for i := 0 to |files|
      invariant chosen == Pick(files[..i])
      invariant chosenPyVer == (if chosen.Some? then PyTag(files[chosen.value]) else "")
    {
      assert files[..i + 1][..i] == files[..i];
      assert forall j :: 0 <= j < i ==> files[..i][j] == files[j];
      var take, pyVer := ConsiderWheel(files[i], chosenPyVer);
      if take {
        chosen := Some(i);
        chosenPyVer := pyVer;
      }
    }
    assert files[..|files|] == files;
    r := if chosen.Some? then Some(files[chosen.value]) else None;
  }

  /** One turn of the `_select_wheel` loop: skip a file that is not a wheel,
      whose name does not have five or six parts, or whose platform is neither
      `any` nor Linux; otherwise take it when its Python tag is greater than
      `chosenPyVer`. */
  method ConsiderWheel(f: FileInfo, chosenPyVer: string) returns (take: bool, pyVer: string)
    ensures take <==> Eligible(f) && LexLess(chosenPyVer, PyTag(f))
    ensures take ==> pyVer == PyTag(f)
  {
    var name := f.filename;
    if |name| == 0 || !EndsWith(name, ".whl") {
      return false, "";
    }
    var tags := Split(name, '-');
    if |tags| <= 4 || |tags| >= 7 {
      return false, "";
    }
    var platform;
    if |tags| == 5 {
      pyVer, platform := tags[2], tags[4];
    } else {
      pyVer, platform := tags[3], tags[5];
    }
    take := (IsSubstring("any", platform) || IsSubstring("linux", platform)) && LexLess(chosenPyVer, pyVer);
  }

  /** A wheel name built from four or five dash-free parts and a last part
      ending in `.whl`: its Python tag is the third part, or the fourth when
      there are five, and its platform tag is the last part. */
  lemma WheelName(parts: seq<string>, last: string)
    requires 4 <= |parts| <= 5 && forall i :: 0 <= i < |parts| ==> '-' !in parts[i]
    requires '-' !in last && EndsWith(last, ".whl")
    ensures WheelTags(Join(parts + [last], "-")) == Some((if |parts| == 4 then parts[2] else parts[3], last))
  {
    var all := parts + [last];
    assert forall i :: 0 <= i < |all| ==> '-' !in all[i];
    WheelNameParts(all);
    WheelNameSuffix(parts, last);
    var name := Join(all, "-");
    var tags := Split(name, '-');
    assert |name| >= 4 && EndsWith(name, ".whl");
    if |parts| == 4 {
      assert |tags| == 5 && tags[2] == parts[2] && tags[4] == last;
    } else {
      assert |tags| == 6 && tags[3] == parts[3] && tags[5] == last;
    }
  }

  lemma WheelNameParts(all: seq<string>)
    requires |all| >= 1
    requires forall i :: 0 <= i < |all| ==> '-' !in all[i]
    ensures Split(Join(all, "-"), '-') == all
  {
    SplitJoin(all, '-');
  }

  lemma WheelNameSuffix(parts: seq<string>, last: string)
    requires EndsWith(last, ".whl")
    ensures EndsWith(Join(parts + [last], "-"), ".whl")
  {
    var name := Join(parts + [last], "-");
    JoinSnoc(parts, last, "-");
    if |parts| > 0 {
      assert name == (Join(parts, "-") + "-") + last;
    }
    assert name[|name| - 4..] == last[|last| - 4..];
  }

  /** The file entry named by `parts` and `last`, joined by dashes. */
  function Wheel(parts: seq<string>, last: string): FileInfo
  {
    FileInfo(Join(parts + [last], "-"))
  }

  /** The release of the extractor's own test: `pandas-1.3.0.tar.gz`, then
      `pandas-1.3.0-cp39-cp39-win32.whl`, `pandas-1.3.0-cp39-cp39-manylinux.whl`,
      `pandas-1.3.0-cp39-cp39-macosx_10_9_x86_64.whl` and
      `pandas-1.3.0-cp37-cp37m-manylinux_2_5_i686.whl`. */
  const ReleaseFiles: seq<FileInfo> := [
    FileInfo("pandas-1.3.0.tar.gz"),
    Wheel(["pandas", "1.3.0", "cp39", "cp39"], "win32.whl"),
    Wheel(["pandas", "1.3.0", "cp39", "cp39"], "manylinux.whl"),
    Wheel(["pandas", "1.3.0", "cp39", "cp39"], "macosx_10_9_x86_64.whl"),
    Wheel(["pandas", "1.3.0", "cp37", "cp37m"], "manylinux_2_5_i686.whl")
  ]

  lemma SourceArchiveIgnored()
    ensures !Eligible(ReleaseFiles[0])
  {
    assert !EndsWith(ReleaseFiles[0].filename, ".whl");
  }

  lemma WindowsWheelIgnored()
    ensures !Eligible(ReleaseFiles[1])
  {
    WheelName(["pandas", "1.3.0", "cp39", "cp39"], "win32.whl");
    WindowsPlatformNotAny();
    WindowsPlatformNotLinux();
  }

  lemma WindowsPlatformNotAny()
    ensures !IsSubstring("any", "win32.whl")
  {
    NotSubstring("any", "win32.whl");
  }

  lemma WindowsPlatformNotLinux()
    ensures !IsSubstring("linux", "win32.whl")
  {
    var platform := "win32.whl";
    assert platform[8..] == "l";
    SkipToCandidate("linux", platform, 8);
    ShortNotSubstring("linux", "l");
  }

  lemma LinuxWheelEligible()
    ensures Eligible(ReleaseFiles[2]) && PyTag(ReleaseFiles[2]) == "cp39"
  {
    WheelName(["pandas", "1.3.0", "cp39", "cp39"], "manylinux.whl");
    assert IsSubstring("linux", "manylinux.whl") by {
      assert "linux" <= "manylinux.whl"[4..];
      SubstringOfSuffix("linux", "manylinux.whl", 4);
    }
  }

  lemma MacWheelIgnored()
    ensures !Eligible(ReleaseFiles[3])
  {
    WheelName(["pandas", "1.3.0", "cp39", "cp39"], "macosx_10_9_x86_64.whl");
    MacPlatformNotAny();
    MacPlatformNotLinux();
  }

  lemma MacPlatformNotAny()
    ensures !IsSubstring("any", "macosx_10_9_x86_64.whl")
  {
    var platform := "macosx_10_9_x86_64.whl";
    assert platform[2..] == "cosx_10_9_x86_64.whl";
    assert 'a' !in "cosx_10_9_x86_64.whl";
    OneFalseStart("any", platform);
  }

  /** A needle whose first character occurs in `s` only at index 1, where the
      match fails at once, is not in `s`. */
  lemma OneFalseStart(needle: string, s: string)
    requires |needle| >= 2 && |s| >= 3
    requires s[0] != needle[0] && s[2] != needle[1] && needle[0] !in s[2..]
    ensures !IsSubstring(needle, s)
  {
    assert s[1..][1] == s[2];
    assert s[1..][1..] == s[2..];
    NotSubstring(needle, s[2..]);
  }

  lemma MacPlatformNotLinux()
    ensures !IsSubstring("linux", "macosx_10_9_x86_64.whl")
  {
    var platform := "macosx_10_9_x86_64.whl";
    SkipToCandidate("linux", platform, 21);
    ShortNotSubstring("linux", platform[21..]);
  }

  lemma OlderLinuxWheelEligible()
    ensures Eligible(ReleaseFiles[4]) && PyTag(ReleaseFiles[4]) == "cp37"
  {
    WheelName(["pandas", "1.3.0", "cp37", "cp37m"], "manylinux_2_5_i686.whl");
    assert IsSubstring("linux", "manylinux_2_5_i686.whl") by {
      assert "linux" <= "manylinux_2_5_i686.whl"[4..];
      SubstringOfSuffix("linux", "manylinux_2_5_i686.whl", 4);
    }
  }

  /** A needle at the front of a suffix occurs in the whole string. */
  lemma {:induction false} SubstringOfSuffix(needle: string, s: string, k: nat)
    requires k <= |s| && needle <= s[k..]
    ensures IsSubstring(needle, s)
    decreases k
  {
    if k > 0 {
      assert s[1..][k - 1..] == s[k..];
      SubstringOfSuffix(needle, s[1..], k - 1);
    }
  }

  /** The CPython 3.9 Linux wheel is chosen. */
  lemma ReleaseExample()
    ensures Pick(ReleaseFiles) == Some(2)
  {
    ReleaseFirstThree();
    LinuxWheelEligible();
    MacWheelIgnored();
    OlderLinuxWheelEligible();
    assert LexLess("cp37", "cp39");
    assert Pick(ReleaseFiles[..4]) == Some(2) by {
      assert ReleaseFiles[..4][..3] == ReleaseFiles[..3];
    }
    assert ReleaseFiles[..4] == ReleaseFiles[..|ReleaseFiles| - 1];
  }

  /** After the source archive and the Windows wheel, the Linux wheel is the choice. */
  lemma ReleaseFirstThree()
    ensures Pick(ReleaseFiles[..3]) == Some(2)
  {
    SourceArchiveIgnored();
    WindowsWheelIgnored();
    LinuxWheelEligible();
    assert Pick(ReleaseFiles[..2]) == None by {
      assert ReleaseFiles[..2][..1] == ReleaseFiles[..1];
    }
    assert ReleaseFiles[..3][..2] == ReleaseFiles[..2];
  }
}
