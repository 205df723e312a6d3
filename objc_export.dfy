/** The pure decisions of the Objective-C export: whether an exported
    interface is produced, where a framework's contents go, the framework and
    header names, the target-dependent parts of Info.plist, and the package
    the bundle identifier is based on (`guessMainPackage`). */
module ObjCExport {
  import opened Wrappers
  import opened KotlinCollections

  // ---------------------------------------------------------------- targets

  /** Target families: the two Apple ones, and every other family as one. */
  datatype Family = IOS | OSX | NonAppleFamily

  /** Compilation targets: the Apple targets by name, every other target by its name alone. */
  datatype KonanTarget = IOS_ARM32 | IOS_ARM64 | IOS_X64 | MACOS_X64 | NonAppleTarget(name: string)

  /** `KonanTarget.family`. */
  function FamilyOf(target: KonanTarget): (family: Family)
    ensures family == IOS <==> target in {IOS_ARM32, IOS_ARM64, IOS_X64}
    ensures family == OSX <==> target == MACOS_X64
  {
    match target
    case IOS_ARM32 | IOS_ARM64 | IOS_X64 => IOS
    case MACOS_X64 => OSX
    case NonAppleTarget(_) => NonAppleFamily
  }

  predicate IsAppleFamily(target: KonanTarget) {
    FamilyOf(target) == IOS || FamilyOf(target) == OSX
  }

  /** The kinds of compiler output. */
  datatype CompilerOutputKind = PROGRAM | DYNAMIC | STATIC | FRAMEWORK | LIBRARY | BITCODE

  /** `CompilerOutputKind.isNativeBinary`: the kinds that are linked into a native binary. */
  predicate IsNativeBinary(kind: CompilerOutputKind) {
    kind in {PROGRAM, DYNAMIC, STATIC, FRAMEWORK}
  }

  // ------------------------------------------------------ produceInterface

  /** `produceInterface`: only a framework built for an Apple target gets an
      exported interface, and then it is the one the header generator builds
      (given here as `generated`). */
  function ProduceInterface<I>(target: KonanTarget, produce: CompilerOutputKind, generated: I): Option<I> {
    if !IsAppleFamily(target) then None
    else if !IsNativeBinary(produce) then None
    else if produce == FRAMEWORK then Some(generated)
    else None
  }

  /** An exported interface exists exactly for the Apple families, a native
      binary, and the FRAMEWORK output kind; it is the generator's. */
  lemma ProduceInterfaceGating<I>(target: KonanTarget, produce: CompilerOutputKind, generated: I)
    ensures ProduceInterface(target, produce, generated).Some? <==>
      (FamilyOf(target) == IOS || FamilyOf(target) == OSX) && IsNativeBinary(produce) && produce == FRAMEWORK
    ensures ProduceInterface(target, produce, generated).Some? ==>
      ProduceInterface(target, produce, generated).value == generated
  {
  }

  // ------------------------------------------------------------------ paths

  /** A file path, its segments separated by '/'. */
  type Path = string

  /** `File.child(name)`. */
  function Child(dir: Path, name: string): Path {
    dir + "/" + name
  }

  /** `File.name`: what follows the last '/'. */
  function FileName(p: Path): (name: string)
    ensures '/' !in name
    ensures |name| <= |p| && p[|p| - |name|..] == name
    ensures |name| < |p| ==> p[|p| - |name| - 1] == '/'
  {
    if p == [] then []
    else if p[|p| - 1] == '/' then []
    else
      var init := p[..|p| - 1];
      var name := FileName(init) + [p[|p| - 1]];
      assert p[|p| - |name|..] == init[|init| - |name| + 1..] + [p[|p| - 1]];
      name
  }

  predicate HasSuffix(s: string, suffix: string) {
    |suffix| <= |s| && s[|s| - |suffix|..] == suffix
  }

  /** Kotlin's `removeSuffix`: the string without `suffix` when it ends with it, otherwise unchanged. */
  function RemoveSuffix(s: string, suffix: string): (r: string)
    ensures HasSuffix(s, suffix) ==> r + suffix == s
    ensures !HasSuffix(s, suffix) ==> r == s
  {
    if HasSuffix(s, suffix) then
      assert s == s[..|s| - |suffix|] + s[|s| - |suffix|..];
      s[..|s| - |suffix|]
    else s
  }

  // ------------------------------------------------ produceFrameworkSpecific

  /** Where a framework's contents live: at its root for iOS, under
      `Versions/A` for macOS; other families are an error naming the target. */
  function FrameworkContents(target: KonanTarget, framework: Path): (r: Result<Path, KonanTarget>)
    ensures r.Success? <==> IsAppleFamily(target)
    ensures r.Failure? ==> r.error == target
    ensures FamilyOf(target) == IOS ==> r == Success(framework)
    ensures FamilyOf(target) == OSX ==> r == Success(Child(framework, "Versions/A"))
  {
    match FamilyOf(target)
    case IOS => Success(framework)
    case OSX => Success(Child(framework, "Versions/A"))
    case NonAppleFamily => Failure(target)
  }

  /** The paths and names `produceFrameworkSpecific` works with. */
  datatype FrameworkLayout = FrameworkLayout(
    contents: Path,
    headers: Path,
    frameworkName: string,
    headerName: string,
    header: Path,
    modules: Path)

  function FrameworkLayoutOf(target: KonanTarget, outputFile: Path): Result<FrameworkLayout, KonanTarget> {
    match FrameworkContents(target, outputFile)
    case Failure(e) => Failure(e)
    case Success(contents) =>
      var headers := Child(contents, "Headers");
      var frameworkName := RemoveSuffix(FileName(outputFile), ".framework");
      var headerName := frameworkName + ".h";
      Success(FrameworkLayout(contents, headers, frameworkName, headerName, Child(headers, headerName), Child(contents, "Modules")))
  }

  /** The framework is named after the output file without its `.framework`
      suffix, and its umbrella header after the framework, with `.h`. */
  lemma FrameworkNames(target: KonanTarget, outputFile: Path)
    requires IsAppleFamily(target)
    ensures FrameworkLayoutOf(target, outputFile).Success?
    ensures
      var layout := FrameworkLayoutOf(target, outputFile).value;
      && (HasSuffix(FileName(outputFile), ".framework") ==> layout.frameworkName + ".framework" == FileName(outputFile))
      && (!HasSuffix(FileName(outputFile), ".framework") ==> layout.frameworkName == FileName(outputFile))
      && layout.headerName == layout.frameworkName + ".h"
      && layout.header == Child(Child(layout.contents, "Headers"), layout.headerName)
      && '/' !in layout.frameworkName
  {
    var name := FileName(outputFile);
    var frameworkName := RemoveSuffix(name, ".framework");
    if HasSuffix(name, ".framework") {
      assert name == frameworkName + ".framework";
      assert forall i :: 0 <= i < |frameworkName| ==> frameworkName[i] == name[i];
    }
  }

  /** The framework layout exists exactly for the Apple families, and
      otherwise fails naming the target; its contents are the framework root
      for iOS and `Versions/A` for macOS, and the headers and modules live
      directly under the contents. */
  lemma FrameworkLayoutPaths(target: KonanTarget, outputFile: Path)
    ensures FrameworkLayoutOf(target, outputFile).Success? <==> IsAppleFamily(target)
    ensures FrameworkLayoutOf(target, outputFile).Failure? ==> FrameworkLayoutOf(target, outputFile).error == target
    ensures FamilyOf(target) == IOS ==> FrameworkLayoutOf(target, outputFile).value.contents == outputFile
    ensures FamilyOf(target) == OSX ==> FrameworkLayoutOf(target, outputFile).value.contents == Child(outputFile, "Versions/A")
    ensures IsAppleFamily(target) ==>
      var layout := FrameworkLayoutOf(target, outputFile).value;
      && layout.headers == Child(layout.contents, "Headers")
      && layout.header == Child(layout.headers, layout.headerName)
      && layout.modules == Child(layout.contents, "Modules")
  {
  }

  // ---------------------------------------------------------- emitInfoPlist

  /** The directory Info.plist goes to: the contents for iOS, their
      `Resources` for MACOS_X64, an error for any other target. */
  function InfoPlistDirectory(target: KonanTarget, contents: Path): Result<Path, KonanTarget> {
    if FamilyOf(target) == IOS then Success(contents)
    else if target == MACOS_X64 then Success(Child(contents, "Resources"))
    else Failure(target)
  }

  /** The CFBundleSupportedPlatforms entry. */
  function Platform(target: KonanTarget): (r: Result<string, KonanTarget>)
    ensures r.Success? <==> target in {IOS_ARM32, IOS_ARM64, IOS_X64, MACOS_X64}
    ensures r.Failure? ==> r.error == target
  {
    match target
    case IOS_ARM32 | IOS_ARM64 => Success("iPhoneOS")
    case IOS_X64 => Success("iPhoneSimulator")
    case MACOS_X64 => Success("MacOSX")
    case NonAppleTarget(_) => Failure(target)
  }

  /** The target-dependent choices of Info.plist. */
  datatype InfoPlistChoices = InfoPlistChoices(
    directory: Path,
    platform: string,
    declaresMinimumOSVersion: bool,
    requiredDeviceCapability: Option<string>)

  /** `emitInfoPlist`'s choices, failing at the first `error(target)` it meets. */
  function InfoPlistChoicesOf(target: KonanTarget, contents: Path): Result<InfoPlistChoices, KonanTarget> {
    match InfoPlistDirectory(target, contents)
    case Failure(e) => Failure(e)
    case Success(directory) =>
      match Platform(target)
      case Failure(e) => Failure(e)
      case Success(platform) =>
        if !IsAppleFamily(target) then Failure(target)
        else
          var capability :=
            if target == IOS_ARM64 then Some("arm64")
            else if target == IOS_ARM32 then Some("armv7")
            else None;
          Success(InfoPlistChoices(directory, platform, FamilyOf(target) == IOS, capability))
  }

  /** Info.plist's target-dependent choices are defined exactly for the four
      Apple targets: iOS devices are "iPhoneOS", the simulator
      "iPhoneSimulator", macOS "MacOSX"; only iOS declares a minimum OS
      version, and only the device targets require a CPU capability. */
  lemma InfoPlistChoicesForTargets(target: KonanTarget, contents: Path)
    ensures InfoPlistChoicesOf(target, contents).Success? <==> target in {IOS_ARM32, IOS_ARM64, IOS_X64, MACOS_X64}
    ensures InfoPlistChoicesOf(target, contents).Failure? ==> InfoPlistChoicesOf(target, contents).error == target
    ensures target == IOS_ARM32 ==> InfoPlistChoicesOf(target, contents) == Success(InfoPlistChoices(contents, "iPhoneOS", true, Some("armv7")))
    ensures target == IOS_ARM64 ==> InfoPlistChoicesOf(target, contents) == Success(InfoPlistChoices(contents, "iPhoneOS", true, Some("arm64")))
    ensures target == IOS_X64 ==> InfoPlistChoicesOf(target, contents) == Success(InfoPlistChoices(contents, "iPhoneSimulator", true, None))
    ensures target == MACOS_X64 ==> InfoPlistChoicesOf(target, contents) == Success(InfoPlistChoices(Child(contents, "Resources"), "MacOSX", false, None))
  {
  }

  /** Whenever an interface is exported, the framework layout and Info.plist
      can be produced: none of their `error(target)` branches is reached. */
  lemma ExportedInterfaceHasFramework<I>(target: KonanTarget, produce: CompilerOutputKind, generated: I, outputFile: Path)
    requires ProduceInterface(target, produce, generated).Some?
    ensures FrameworkLayoutOf(target, outputFile).Success?
    ensures InfoPlistChoicesOf(target, FrameworkLayoutOf(target, outputFile).value.contents).Success?
  {
    InfoPlistChoicesForTargets(target, FrameworkLayoutOf(target, outputFile).value.contents);
  }

  // ------------------------------------------------------- guessMainPackage

  /** A fully qualified package name as its segments; `[]` is the root package. */
  type FqName = seq<string>

  /** `FqName.asString()`: the segments joined by dots; the root is "". */
  function AsString(n: FqName): string {
    if n == [] then ""
    else if |n| == 1 then n[0]
    else AsString(n[..|n| - 1]) + "." + n[|n| - 1]
  }

  /** Package names are made of non-empty identifiers. */
  ghost predicate WellFormed(n: FqName) {
    forall i :: 0 <= i < |n| ==> n[i] != ""
  }

  /** `FqName.child(name)`. */
  function ChildName(n: FqName, name: string): FqName {
    n + [name]
  }

  /** `isSubpackageOf`: the package equals `ancestor` or lies below it. */
  predicate IsSubpackageOf(p: FqName, ancestor: FqName) {
    ancestor <= p
  }

  /** A package fragment: its name, and whether its member scope contributes
      any descriptor. */
  datatype PackageFragment = PackageFragment(fqName: FqName, isNotEmpty: bool)

  function FqNames(fragments: seq<PackageFragment>): (names: seq<FqName>)
    ensures |names| == |fragments| && forall i :: 0 <= i < |fragments| ==> names[i] == fragments[i].fqName
  {
    seq(|fragments|, i requires 0 <= i < |fragments| => fragments[i].fqName)
  }

  /** The names of the non-empty packages, each once. */
  function NonEmptyPackages(allPackages: seq<PackageFragment>): seq<FqName> {
    Distinct(FqNames(Filter(allPackages, (f: PackageFragment) => f.isNotEmpty)))
  }

  /** `nonEmptyPackages.all { it.isSubpackageOf(candidate) }`. */
  predicate IsCommonAncestor(candidate: FqName, packages: seq<FqName>) {
    forall i :: 0 <= i < |packages| ==> IsSubpackageOf(packages[i], candidate)
  }

  /** The distinct package names that are ancestors of every non-empty package. */
  function Candidates(allPackages: seq<PackageFragment>): seq<FqName> {
    var nonEmpty := NonEmptyPackages(allPackages);
    Filter(Distinct(FqNames(allPackages)), (c: FqName) => IsCommonAncestor(c, nonEmpty))
  }

  /** `guessMainPackage`: the first candidate with the longest string form;
      `None` where the source's `!!` would throw. */
  function GuessMainPackage(allPackages: seq<PackageFragment>): Option<FqName> {
    MaxBy(Candidates(allPackages), (c: FqName) => |AsString(c)|)
  }

  /** The non-empty package names are the names of the non-empty fragments. */
  lemma NonEmptyPackagesAre(allPackages: seq<PackageFragment>, n: FqName)
    ensures n in NonEmptyPackages(allPackages) <==>
      exists i :: 0 <= i < |allPackages| && allPackages[i].isNotEmpty && allPackages[i].fqName == n
  {
    var kept := Filter(allPackages, (f: PackageFragment) => f.isNotEmpty);
    var names := FqNames(kept);
    if n in NonEmptyPackages(allPackages) {
      assert n in names;
      var k :| 0 <= k < |kept| && names[k] == n;
      assert kept[k] in allPackages;
    }
    if exists i :: 0 <= i < |allPackages| && allPackages[i].isNotEmpty && allPackages[i].fqName == n {
      var i :| 0 <= i < |allPackages| && allPackages[i].isNotEmpty && allPackages[i].fqName == n;
      assert allPackages[i] in kept;
      var k :| 0 <= k < |kept| && kept[k] == allPackages[i];
      assert names[k] == n;
    }
  }

  /** A package name is an ancestor of every non-empty package. */
  ghost predicate Qualifies(allPackages: seq<PackageFragment>, c: FqName) {
    forall i :: 0 <= i < |allPackages| && allPackages[i].isNotEmpty ==> IsSubpackageOf(allPackages[i].fqName, c)
  }

  lemma CommonAncestorQualifies(allPackages: seq<PackageFragment>, c: FqName)
    ensures IsCommonAncestor(c, NonEmptyPackages(allPackages)) <==> Qualifies(allPackages, c)
  {
    var nonEmpty := NonEmptyPackages(allPackages);
    forall i | 0 <= i < |allPackages| && allPackages[i].isNotEmpty
      ensures allPackages[i].fqName in nonEmpty
    {
      NonEmptyPackagesAre(allPackages, allPackages[i].fqName);
    }
    forall j | 0 <= j < |nonEmpty|
      ensures exists i :: 0 <= i < |allPackages| && allPackages[i].isNotEmpty && allPackages[i].fqName == nonEmpty[j]
    {
      NonEmptyPackagesAre(allPackages, nonEmpty[j]);
    }
  }

  /** A candidate is a package name that is an ancestor of every non-empty package. */
  lemma CandidatesAre(allPackages: seq<PackageFragment>, c: FqName)
    ensures c in Candidates(allPackages) <==> c in FqNames(allPackages) && Qualifies(allPackages, c)
  {
    CommonAncestorQualifies(allPackages, c);
  }

  /** The guess names one of the module's packages, and that package is an
      ancestor of, or equal to, every non-empty package. */
  lemma GuessMainPackageIsCommonAncestor(allPackages: seq<PackageFragment>)
    requires GuessMainPackage(allPackages).Some?
    ensures
      var pkg := GuessMainPackage(allPackages).value;
      && pkg in FqNames(allPackages)
      && forall i :: 0 <= i < |allPackages| && allPackages[i].isNotEmpty ==> IsSubpackageOf(allPackages[i].fqName, pkg)
  {
    CandidatesAre(allPackages, GuessMainPackage(allPackages).value);
  }

  /** No package name that is an ancestor of every non-empty package has a
      longer string form than the guess. */
  lemma GuessMainPackageIsLongest(allPackages: seq<PackageFragment>, c: FqName)
    requires GuessMainPackage(allPackages).Some?
    requires c in FqNames(allPackages)
    requires Qualifies(allPackages, c)
    ensures |AsString(c)| <= |AsString(GuessMainPackage(allPackages).value)|
  {
    CandidatesAre(allPackages, c);
  }

  /** The guess fails exactly when no package qualifies; the root package,
      when it is among the fragments, always qualifies, so then it succeeds. */
  lemma GuessMainPackageDefinedIff(allPackages: seq<PackageFragment>)
    ensures GuessMainPackage(allPackages).Some? <==>
      exists c :: c in FqNames(allPackages) && Qualifies(allPackages, c)
    ensures [] in FqNames(allPackages) ==> GuessMainPackage(allPackages).Some?
  {
    if GuessMainPackage(allPackages).Some? {
      GuessMainPackageIsCommonAncestor(allPackages);
    }
    forall c | c in FqNames(allPackages) && Qualifies(allPackages, c)
      ensures Candidates(allPackages) != []
    {
      CandidatesAre(allPackages, c);
    }
    CandidatesAre(allPackages, []);
  }

  /** Each segment adds to the string form. */
  lemma {:induction false} AsStringGrows(n: FqName)
    requires |n| > 0 && WellFormed(n)
    ensures |AsString(n[..|n| - 1])| < |AsString(n)|
  {
  }

  /** A strict ancestor has a strictly shorter string form. */
  lemma {:induction false} AncestorIsShorter(a: FqName, b: FqName)
    requires WellFormed(b)
    ensures a < b ==> |AsString(a)| < |AsString(b)|
  {
    if a < b {
      var init := b[..|b| - 1];
      AsStringGrows(b);
      if a != init {
        assert a < init;
        AncestorIsShorter(a, init);
      }
    }
  }

  /** When some package is non-empty, the guess is the least common ancestor:
      every package name that is an ancestor of all non-empty packages is an
      ancestor of the guess. */
  lemma GuessMainPackageIsLeastCommonAncestor(allPackages: seq<PackageFragment>, c: FqName)
    requires forall i :: 0 <= i < |allPackages| ==> WellFormed(allPackages[i].fqName)
    requires exists i :: 0 <= i < |allPackages| && allPackages[i].isNotEmpty
    requires GuessMainPackage(allPackages).Some?
    requires c in FqNames(allPackages)
    requires Qualifies(allPackages, c)
    ensures IsSubpackageOf(GuessMainPackage(allPackages).value, c)
  {
    var pkg := GuessMainPackage(allPackages).value;
    var i0 :| 0 <= i0 < |allPackages| && allPackages[i0].isNotEmpty;
    GuessMainPackageIsCommonAncestor(allPackages);
    GuessMainPackageIsLongest(allPackages, c);
    var names := FqNames(allPackages);
    var k :| 0 <= k < |names| && names[k] == c;
    assert WellFormed(allPackages[k].fqName);
    LongestCommonPrefix(c, pkg, allPackages[i0].fqName);
  }

  /** Of two ancestors of the same package, the one whose string form is at
      least as long lies below the other. */
  lemma LongestCommonPrefix(c: FqName, pkg: FqName, p: FqName)
    requires c <= p && pkg <= p && WellFormed(c)
    requires |AsString(c)| <= |AsString(pkg)|
    ensures c <= pkg
  {
    assert |c| <= |pkg| by {
      if |pkg| < |c| {
        assert pkg == c[..|pkg|];
        AncestorIsShorter(pkg, c);
      }
    }
    assert c == p[..|c|] && pkg == p[..|pkg|];
  }

  /** Of two qualifying names with the longest string form, the guess is the
      one whose first fragment comes first: any qualifying name that appears
      before the guess is strictly shorter. */
  lemma GuessMainPackageIsFirstOfLongest(allPackages: seq<PackageFragment>, c: FqName)
    requires GuessMainPackage(allPackages).Some?
    requires c in FqNames(allPackages) && Qualifies(allPackages, c)
    requires GuessMainPackage(allPackages).value in FqNames(allPackages)
    requires IndexOf(FqNames(allPackages), c) < IndexOf(FqNames(allPackages), GuessMainPackage(allPackages).value)
    ensures |AsString(c)| < |AsString(GuessMainPackage(allPackages).value)|
  {
    var pkg := GuessMainPackage(allPackages).value;
    var names := FqNames(allPackages);
    var nonEmpty := NonEmptyPackages(allPackages);
    var distinct := Distinct(names);
    var qualifies := (n: FqName) => IsCommonAncestor(n, nonEmpty);
    var candidates := Filter(distinct, qualifies);
    assert candidates == Candidates(allPackages);
    CandidatesAre(allPackages, c);
    var ic, ip := IndexOf(candidates, c), IndexOf(candidates, pkg);
    assert ic != ip;
    assert !(ip < ic) by {
      if ip < ic {
        FilterKeepsOrder(distinct, qualifies, pkg, c);
        DistinctKeepsFirstOccurrenceOrder(names, IndexOf(distinct, pkg), IndexOf(distinct, c));
      }
    }
    assert candidates[ic] == c;
  }

  /** Without any non-empty package every package name qualifies, and the
      guess is the longest of all the module's package names. */
  lemma GuessMainPackageWithoutNonEmptyPackages(allPackages: seq<PackageFragment>, c: FqName)
    requires forall i :: 0 <= i < |allPackages| ==> !allPackages[i].isNotEmpty
    requires c in FqNames(allPackages)
    ensures GuessMainPackage(allPackages).Some?
    ensures |AsString(c)| <= |AsString(GuessMainPackage(allPackages).value)|
  {
    CandidatesAre(allPackages, c);
  }

  /** `pkg.child(Name.identifier(name)).asString()`. */
  function BundleId(pkg: FqName, name: string): string {
    AsString(ChildName(pkg, name))
  }

  /** The bundle identifier is the framework name under the guessed package,
      or the bare name when the package is the root. */
  lemma BundleIdForm(pkg: FqName, name: string)
    ensures BundleId(pkg, name) == if pkg == [] then name else AsString(pkg) + "." + name
  {
    assert ChildName(pkg, name)[..|pkg|] == pkg;
  }
}
