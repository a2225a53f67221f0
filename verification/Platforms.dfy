/** The table of target platforms and the tables derived from it at start-up. */
module Platforms {
  import opened Options
  import opened Sorting

  datatype Platform = Platform(os: string, arch: string)

  /** A config setting for one OS/arch pair; `constraintPrefix` is the package it is in. */
  datatype PlatformConstraint = PlatformConstraint(platform: Platform, constraintPrefix: string)

  datatype Tables = Tables(
    platforms: seq<Platform>,
    osSet: set<string>,
    archSet: set<string>,
    osArchs: map<string, seq<string>>,
    archOSs: map<string, seq<string>>,
    oss: seq<string>,
    archs: seq<string>)

  ghost function OSsOf(platforms: seq<Platform>): set<string> {
    set p | p in platforms :: p.os
  }

  ghost function ArchsOf(platforms: seq<Platform>): set<string> {
    set p | p in platforms :: p.arch
  }

  ghost predicate ArchsPerOS(osArchs: map<string, seq<string>>, platforms: seq<Platform>) {
    forall os, arch :: arch in Lookup(osArchs, os) <==> Platform(os, arch) in platforms
  }

  ghost predicate OSsPerArch(archOSs: map<string, seq<string>>, platforms: seq<Platform>) {
    forall os, arch :: os in Lookup(archOSs, arch) <==> Platform(os, arch) in platforms
  }

  /** What the derived tables say about the platform list, whatever that list is. */
  ghost predicate Derived(t: Tables) {
    && t.osSet == OSsOf(t.platforms)
    && t.archSet == ArchsOf(t.platforms)
    && ArchsPerOS(t.osArchs, t.platforms)
    && OSsPerArch(t.archOSs, t.platforms)
    && SortedListing(t.oss, t.osSet)
    && SortedListing(t.archs, t.archSet)
  }

  lemma SetsStep(platforms: seq<Platform>, p: Platform)
    ensures OSsOf(platforms + [p]) == OSsOf(platforms) + {p.os}
    ensures ArchsOf(platforms + [p]) == ArchsOf(platforms) + {p.arch}
  {
    assert forall q :: q in platforms + [p] <==> q in platforms || q == p;
  }

  lemma ArchsPerOSStep(osArchs: map<string, seq<string>>, platforms: seq<Platform>, p: Platform)
    requires ArchsPerOS(osArchs, platforms)
    ensures ArchsPerOS(osArchs[p.os := Lookup(osArchs, p.os) + [p.arch]], platforms + [p])
  {
    var m := osArchs[p.os := Lookup(osArchs, p.os) + [p.arch]];
    forall os, arch ensures arch in Lookup(m, os) <==> Platform(os, arch) in platforms + [p] {
      assert arch in Lookup(osArchs, os) <==> Platform(os, arch) in platforms;
      assert os != p.os ==> Lookup(m, os) == Lookup(osArchs, os);
    }
  }

  lemma OSsPerArchStep(archOSs: map<string, seq<string>>, platforms: seq<Platform>, p: Platform)
    requires OSsPerArch(archOSs, platforms)
    ensures OSsPerArch(archOSs[p.arch := Lookup(archOSs, p.arch) + [p.os]], platforms + [p])
  {
    var m := archOSs[p.arch := Lookup(archOSs, p.arch) + [p.os]];
    forall os, arch ensures os in Lookup(m, arch) <==> Platform(os, arch) in platforms + [p] {
      assert os in Lookup(archOSs, arch) <==> Platform(os, arch) in platforms;
      assert arch != p.arch ==> Lookup(m, arch) == Lookup(archOSs, arch);
    }
  }

  /** Builds the derived tables from the platform list. */
  method Init(platforms: seq<Platform>) returns (t: Tables)
    ensures Derived(t) && t.platforms == platforms
  {
    var osSet, archSet: set<string> := {}, {};
    var osArchs, archOSs: map<string, seq<string>> := map[], map[];
    for i := 0 to |platforms|
      invariant osSet == OSsOf(platforms[..i])
      invariant archSet == ArchsOf(platforms[..i])
      invariant ArchsPerOS(osArchs, platforms[..i])
      invariant OSsPerArch(archOSs, platforms[..i])
    {
      var p := platforms[i];
      assert platforms[..i + 1] == platforms[..i] + [p];
      SetsStep(platforms[..i], p);
      ArchsPerOSStep(osArchs, platforms[..i], p);
      OSsPerArchStep(archOSs, platforms[..i], p);
      osSet := osSet + {p.os};
      archSet := archSet + {p.arch};
      osArchs := osArchs[p.os := Lookup(osArchs, p.os) + [p.arch]];
      archOSs := archOSs[p.arch := Lookup(archOSs, p.arch) + [p.os]];
    }
    assert platforms[..|platforms|] == platforms;
    var oss := CollectSorted(osSet);
    var archs := CollectSorted(archSet);
    t := Tables(platforms, osSet, archSet, osArchs, archOSs, oss, archs);
  }
}
