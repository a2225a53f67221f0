/** How a Go target collects platform-specific strings from its files: each file is
    classified once, its constraints are evaluated per OS, per arch, per platform or
    once, and its strings are added to the builder under what was found. */
module GoTargets {
  import opened Sorting
  import opened Platforms
  import opened FileConstraints
  import opened Options
  import opened PlatformStringSets
  import opened PlatformStringsBuilders

  /** What the add function of a file does with a string. */
  datatype Adder =
    | AddNothing
    | AddGeneric
    | AddOS(osMatch: seq<string>)
    | AddArch(archMatch: seq<string>)
    | AddPlatform(platformMatch: seq<Platform>)

  ghost predicate Grants(a: Adder, p: Platform) {
    match a
    case AddNothing => false
    case AddGeneric => true
    case AddOS(oss) => p.os in oss
    case AddArch(archs) => p.arch in archs
    case AddPlatform(platforms) => p in platforms
  }

  // What rules_go before 0.23.0 does not recognise.
  predicate RulesGoSupportsOS(c: Config, os: string) {
    !(c.oldRulesGo && os in ["aix", "illumos"])
  }

  predicate RulesGoSupportsArch(c: Config, arch: string) {
    !(c.oldRulesGo && arch == "riscv64")
  }

  predicate RulesGoSupportsPlatform(c: Config, p: Platform) {
    !(c.oldRulesGo && p in [
        Platform("aix", "ppc64"), Platform("freebsd", "arm64"), Platform("illumos", "amd64"),
        Platform("linux", "riscv64"), Platform("netbsd", "arm64"), Platform("openbsd", "arm64"),
        Platform("windows", "arm"), Platform("windows", "arm64")])
  }

  /** A newer rules_go, or an unknown one, recognises everything. */
  lemma NewRulesGoSupportsAll(c: Config, p: Platform)
    requires !c.oldRulesGo
    ensures RulesGoSupportsOS(c, p.os) && RulesGoSupportsArch(c, p.arch) && RulesGoSupportsPlatform(c, p)
  {
  }

  /** What an old one does not recognise: two OSs, one arch, and eight platforms. */
  lemma OldRulesGoLacks(c: Config, os: string, arch: string)
    requires c.oldRulesGo
    ensures !RulesGoSupportsOS(c, os) <==> os == "aix" || os == "illumos"
    ensures !RulesGoSupportsArch(c, arch) <==> arch == "riscv64"
    ensures !RulesGoSupportsPlatform(c, Platform(os, arch)) <==>
            || (os == "aix" && arch == "ppc64") || (os == "illumos" && arch == "amd64")
            || (os == "linux" && arch == "riscv64")
            || (arch == "arm64" && (os == "freebsd" || os == "netbsd" || os == "openbsd" || os == "windows"))
            || (os == "windows" && arch == "arm")
  {
  }

  /** A file under one set of constraints, with the strings it contributes. */
  datatype Source = Source(info: FileInfo, cgoTags: Option<CgoTagsAndOpts>, strs: seq<string>)

  /** The platform is recognised in the terms the file is classified in. */
  ghost predicate Supported(c: Config, info: FileInfo, cgoTags: Option<CgoTagsAndOpts>, p: Platform) {
    if OSSpecific(c, info, cgoTags) then
      if ArchSpecific(c, info, cgoTags) then RulesGoSupportsPlatform(c, p) else RulesGoSupportsOS(c, p.os)
    else ArchSpecific(c, info, cgoTags) ==> RulesGoSupportsArch(c, p.arch)
  }

  /** The direct meaning of a file on a platform. */
  ghost predicate BuiltOn(c: Config, info: FileInfo, cgoTags: Option<CgoTagsAndOpts>, p: Platform) {
    CheckConstraints(c, p.os, p.arch, info, cgoTags) && Supported(c, info, cgoTags, p)
  }

  method MatchingOSs(c: Config, info: FileInfo, cgoTags: Option<CgoTagsAndOpts>) returns (r: seq<string>)
    ensures forall os :: os in r <==>
              os in c.tables.oss && RulesGoSupportsOS(c, os) && CheckConstraints(c, os, "", info, cgoTags)
  {
    r := [];
    var oss := c.tables.oss;
    for i := 0 to |oss|
      invariant forall os :: os in r <==>
          os in oss[..i] && RulesGoSupportsOS(c, os) && CheckConstraints(c, os, "", info, cgoTags)
    {
      assert oss[..i + 1] == oss[..i] + [oss[i]];
      if RulesGoSupportsOS(c, oss[i]) && CheckConstraints(c, oss[i], "", info, cgoTags) {
        r := r + [oss[i]];
      }
    }
    assert oss[..|oss|] == oss;
  }

  method MatchingArchs(c: Config, info: FileInfo, cgoTags: Option<CgoTagsAndOpts>) returns (r: seq<string>)
    ensures forall arch :: arch in r <==>
              arch in c.tables.archs && RulesGoSupportsArch(c, arch) && CheckConstraints(c, "", arch, info, cgoTags)
  {
    r := [];
    var archs := c.tables.archs;
    for i := 0 to |archs|
      invariant forall arch :: arch in r <==>
          arch in archs[..i] && RulesGoSupportsArch(c, arch) && CheckConstraints(c, "", arch, info, cgoTags)
    {
      assert archs[..i + 1] == archs[..i] + [archs[i]];
      if RulesGoSupportsArch(c, archs[i]) && CheckConstraints(c, "", archs[i], info, cgoTags) {
        r := r + [archs[i]];
      }
    }
    assert archs[..|archs|] == archs;
  }

  method MatchingPlatforms(c: Config, info: FileInfo, cgoTags: Option<CgoTagsAndOpts>) returns (r: seq<Platform>)
    ensures forall p :: p in r <==>
              && p in c.tables.platforms && RulesGoSupportsPlatform(c, p)
              && CheckConstraints(c, p.os, p.arch, info, cgoTags)
  {
    r := [];
    var platforms := c.tables.platforms;
    for i := 0 to |platforms|
      invariant forall p :: p in r <==>
          p in platforms[..i] && RulesGoSupportsPlatform(c, p) && CheckConstraints(c, p.os, p.arch, info, cgoTags)
    {
      assert platforms[..i + 1] == platforms[..i] + [platforms[i]];
      var p := platforms[i];
      if RulesGoSupportsPlatform(c, p) && CheckConstraints(c, p.os, p.arch, info, cgoTags) {
        r := r + [platforms[i]];
      }
    }
    assert platforms[..|platforms|] == platforms;
  }

  lemma KnownNames(t: Tables, p: Platform)
    requires Derived(t) && p in t.platforms
    ensures p.os in t.oss && p.arch in t.archs
  {
    assert p.os in OSsOf(t.platforms) && p.arch in ArchsOf(t.platforms);
    assert p.os in Elements(t.oss) && p.arch in Elements(t.archs);
  }

  /** Classifies a file and evaluates its constraints in the terms of its class. The
      result grants a known platform exactly when the file is built there. */
  method PlatformStringsAddFunction(c: Config, info: FileInfo, cgoTags: Option<CgoTagsAndOpts>) returns (a: Adder)
    requires Derived(c.tables) && ValidInput(info, cgoTags)
    ensures forall p | p in c.tables.platforms :: Grants(a, p) <==> BuiltOn(c, info, cgoTags, p)
  {
    var osSpecific, archSpecific := IsOSArchSpecific(c, info, cgoTags);
    a := AddNothing;
    if !osSpecific && !archSpecific {
      if CheckConstraints(c, "", "", info, cgoTags) {
        a := AddGeneric;
      }
    } else if osSpecific && !archSpecific {
      var osMatch := MatchingOSs(c, info, cgoTags);
      if |osMatch| > 0 {
        a := AddOS(osMatch);
      }
    } else if !osSpecific && archSpecific {
      var archMatch := MatchingArchs(c, info, cgoTags);
      if |archMatch| > 0 {
        a := AddArch(archMatch);
      }
    } else {
      var platformMatch := MatchingPlatforms(c, info, cgoTags);
      if |platformMatch| > 0 {
        a := AddPlatform(platformMatch);
      }
    }
    forall p | p in c.tables.platforms ensures Grants(a, p) <==> BuiltOn(c, info, cgoTags, p) {
      ClassificationSound(c, info, cgoTags, p);
      KnownNames(c.tables, p);
    }
  }

  /** Adds every string of `ss` to the builder. */
  method Add(a: Adder, sb: PlatformStringsBuilder, ss: seq<string>, prefix: string)
    requires sb.Valid(prefix)
    modifies sb
    ensures sb.Valid(prefix)
    ensures forall s, p | p in sb.tables.platforms ::
              sb.On(s, p, prefix) <==> old(sb.On(s, p, prefix)) || (s in ss && Grants(a, p))
  {
    for i := 0 to |ss|
      invariant sb.Valid(prefix)
      invariant forall s, p | p in sb.tables.platforms ::
          sb.On(s, p, prefix) <==> old(sb.On(s, p, prefix)) || (s in ss[..i] && Grants(a, p))
    {
      assert ss[..i + 1] == ss[..i] + [ss[i]];
      match a {
        case AddNothing =>
        case AddGeneric => sb.AddGenericString(ss[i]);
        case AddOS(oss) => sb.AddOSString(ss[i], oss, prefix);
        case AddArch(archs) => sb.AddArchString(ss[i], archs, prefix);
        case AddPlatform(platforms) => sb.AddPlatformString(ss[i], platforms, prefix);
      }
    }
    assert ss[..|ss|] == ss;
  }

  /** Some file contributes `s` on `p`. */
  ghost predicate Contributed(c: Config, sources: seq<Source>, s: string, p: Platform) {
    exists i :: 0 <= i < |sources| && s in sources[i].strs && BuiltOn(c, sources[i].info, sources[i].cgoTags, p)
  }

  lemma ContributedStep(c: Config, sources: seq<Source>, f: Source, s: string, p: Platform)
    ensures Contributed(c, sources + [f], s, p) <==>
            Contributed(c, sources, s, p) || (s in f.strs && BuiltOn(c, f.info, f.cgoTags, p))
  {
    var all := sources + [f];
    if Contributed(c, sources, s, p) {
      var i :| 0 <= i < |sources| && s in sources[i].strs && BuiltOn(c, sources[i].info, sources[i].cgoTags, p);
      assert all[i] == sources[i];
    }
    if s in f.strs && BuiltOn(c, f.info, f.cgoTags, p) {
      assert all[|sources|] == f;
    }
  }

  /** Adding any sequence of files to a builder, then emitting it: on every known
      platform the emitted selects hold, once each, exactly the strings of the files
      built there, and each string stands in one of the four sets. */
  method CollectStrings(c: Config, sources: seq<Source>, prefix: string) returns (ps: PlatformStrings)
    requires Derived(c.tables)
    requires forall f | f in sources :: ValidInput(f.info, f.cgoTags)
    ensures forall s, p | p in c.tables.platforms ::
              s in Selected(ps, p, prefix) <==> Contributed(c, sources, s, p)
    ensures forall p :: NoDuplicates(Selected(ps, p, prefix))
    ensures forall s :: InOneSetOnly(ps, s)
  {
    var sb := new PlatformStringsBuilder(c.tables);
    for i := 0 to |sources|
      invariant sb.tables == c.tables && sb.Valid(prefix)
      invariant forall s, p | p in c.tables.platforms :: sb.On(s, p, prefix) <==> Contributed(c, sources[..i], s, p)
    {
      var f := sources[i];
      assert sources[..i + 1] == sources[..i] + [f];
      var a := PlatformStringsAddFunction(c, f.info, f.cgoTags);
      Add(a, sb, f.strs, prefix);
      forall s, p | p in c.tables.platforms ensures sb.On(s, p, prefix) <==> Contributed(c, sources[..i + 1], s, p) {
        ContributedStep(c, sources[..i], f, s, p);
      }
    }
    assert sources[..|sources|] == sources;
    ps := sb.Build();
    forall p ensures NoDuplicates(Selected(ps, p, prefix))
             ensures forall s :: s in Selected(ps, p, prefix) <==> sb.On(s, p, prefix)
             ensures forall s :: InOneSetOnly(ps, s)
    {
      EmissionSelects(ps, sb.strs, p, prefix);
    }
    forall s ensures InOneSetOnly(ps, s) {
      EmissionSelects(ps, sb.strs, Platform("", ""), prefix);
    }
  }
}
