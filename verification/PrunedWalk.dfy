/** Walking the repository: the packages that are called back, with what, and in which
    order; and that pruning the snapshot beforehand makes no difference to it. */
module PrunedWalk {
  import opened Options
  import opened Sorting
  import opened TreeBuild

  datatype WalkConfig = WalkConfig(excludes: seq<string>, validBuildFileNames: seq<string>, ignore: bool)

  /** A package as it is called back: its build file, whether it is to be updated, and
      its regular files. */
  datatype Visit = Visit(rel: string, buildFile: Option<(string, Bytes)>, update: bool, regularFiles: seq<string>)

  // ---------------------------------------------------------------- configuration

  function AfterWalkDirective(env: Env, rel: string, wc: WalkConfig, d: Directive): WalkConfig {
    if d.key == "build_file_name" then wc.(validBuildFileNames := SplitComma(d.value))
    else if d.key == "exclude" && env.validGlob(env.join(rel, d.value)) then
      wc.(excludes := wc.excludes + [env.join(rel, d.value)])
    else if d.key == "ignore" then wc.(ignore := true)
    else wc
  }

  /** The configuration of a directory: what it inherits, except that "ignore" is not
      inherited, and its own directives in order. */
  function Configured(env: Env, rel: string, parent: WalkConfig, ds: seq<Directive>): WalkConfig {
    if ds == [] then parent.(ignore := false)
    else AfterWalkDirective(env, rel, Configured(env, rel, parent, ds[..|ds| - 1]), ds[|ds| - 1])
  }

  method ConfigureForWalk(env: Env, rel: string, parent: WalkConfig, ds: seq<Directive>) returns (wc: WalkConfig)
    ensures wc == Configured(env, rel, parent, ds)
  {
    wc := parent.(ignore := false);
    for i := 0 to |ds|
      invariant wc == Configured(env, rel, parent, ds[..i])
    {
      var d := ds[i];
      assert ds[..i + 1][..i] == ds[..i];
      match d.key {
        case "build_file_name" => wc := wc.(validBuildFileNames := SplitComma(d.value));
        case "exclude" =>
          var p := env.join(rel, d.value);
          if !env.validGlob(p) {
            continue;
          }
          wc := wc.(excludes := wc.excludes + [p]);
        case "ignore" => wc := wc.(ignore := true);
        case _ =>
      }
    }
    assert ds[..|ds|] == ds;
  }

  // ------------------------------------------------------------- the walk of a tree

  /** The first valid name that is listed. */
  ghost function ListedName(names: seq<string>, d: Node): Option<string>
    requires d.Dir?
  {
    if names == [] then None
    else if names[0] in Listed(d) then Some(names[0])
    else ListedName(names[1..], d)
  }

  ghost function Subdirs(env: Env, d: Node, rel: string, wc: WalkConfig): set<string>
    requires d.Dir?
  {
    set n | n in d.entries && d.entries[n].Dir? && !IsExcludedDir(env, wc.excludes, EntryRel(rel, n))
  }

  ghost function RegularFiles(env: Env, d: Node, rel: string, wc: WalkConfig): set<string>
    requires d.Dir?
  {
    set n | n in d.entries && d.entries[n].File?
            && !IsExcludedDir(env, wc.excludes, EntryRel(rel, n)) && !IsExcludedFile(env, wc.excludes, EntryRel(rel, n))
  }

  ghost function BuildFile(d: Node, name: Option<string>): Option<(string, Bytes)>
    requires d.Dir?
  {
    if name.Some? && name.value in d.entries && d.entries[name.value].File? then
      Some((name.value, d.entries[name.value].content))
    else None
  }

  /** The packages below and in a directory, in the order they are called back: those
      below first. */
  ghost function Visits(env: Env, d: Node, rel: string, wc: WalkConfig): Built<seq<Visit>>
    requires d.Dir?
    decreases d, 1, 0
  {
    if rel != "" && IsExcludedDir(env, wc.excludes, rel) then Ok([])
    else
      var name := ListedName(wc.validBuildFileNames, d);
      match LocalDirectives(env, d.entries, name)
      case Err(_) => Err(BuildFileFails)
      case Ok(ds) =>
        var next := Configured(env, rel, wc, ds);
        if IsExcludedDir(env, next.excludes, rel) then Ok([])
        else
          var subdirs := Listing(Subdirs(env, d, rel, next));
          assert forall n | n in subdirs :: n in Elements(subdirs);
          match VisitChildren(env, d, rel, next, subdirs)
          case Err(_) => Err(BuildFileFails)
          case Ok(below) =>
            Ok(below + [Visit(rel, BuildFile(d, name), !next.ignore, Listing(RegularFiles(env, d, rel, next)))])
  }

  ghost function VisitChildren(env: Env, d: Node, rel: string, wc: WalkConfig, names: seq<string>): Built<seq<Visit>>
    requires d.Dir? && forall n | n in names :: n in d.entries && d.entries[n].Dir?
    decreases d, 0, |names|
  {
    if names == [] then Ok([])
    else
      match VisitChildren(env, d, rel, wc, names[..|names| - 1])
      case Err(_) => Err(BuildFileFails)
      case Ok(before) =>
        var n := names[|names| - 1];
        match Visits(env, d.entries[n], EntryRel(rel, n), wc)
        case Err(_) => Err(BuildFileFails)
        case Ok(visits) => Ok(before + visits)
  }

  // --------------------------------------------------------- pruning is not seen

  /** In every directory that the walk goes into, the first valid name that is listed is
      that of a regular file, if there is one. */
  ghost predicate FindsFiles(env: Env, d: Node, rel: string, wc: WalkConfig)
    requires d.Dir?
    decreases d
  {
    var name := ListedName(wc.validBuildFileNames, d);
    (rel != "" && IsExcludedDir(env, wc.excludes, rel)) ||
    (&& (name.Some? ==> BuildFile(d, name).Some?)
     && match LocalDirectives(env, d.entries, name)
        case Err(_) => true
        case Ok(ds) =>
          var next := Configured(env, rel, wc, ds);
          || IsExcludedDir(env, next.excludes, rel)
          || forall n | n in Subdirs(env, d, rel, next) :: FindsFiles(env, d.entries[n], EntryRel(rel, n), next))
  }

  /** The walk excludes what the build excludes, and maybe more. */
  ghost predicate Covers(wc: WalkConfig, cfg: TraversalConfig) {
    wc.validBuildFileNames == cfg.validBuildFileNames && forall g | g in cfg.excludes :: g in wc.excludes
  }

  lemma CoversExcluded(env: Env, wc: WalkConfig, cfg: TraversalConfig, p: string)
    requires Covers(wc, cfg)
    ensures IsExcludedDir(env, cfg.excludes, p) ==> IsExcludedDir(env, wc.excludes, p)
    ensures IsExcludedFile(env, cfg.excludes, p) ==> IsExcludedFile(env, wc.excludes, p)
  {
    if MatchesAny(env, cfg.excludes, p) {
      var i :| 0 <= i < |cfg.excludes| && env.globMatches(cfg.excludes[i], p);
      assert cfg.excludes[i] in wc.excludes;
      var j :| 0 <= j < |wc.excludes| && wc.excludes[j] == cfg.excludes[i];
      assert env.globMatches(wc.excludes[j], p);
    }
  }

  lemma {:induction false} CoversNext(env: Env, rel: string, wc: WalkConfig, cfg: TraversalConfig, ds: seq<Directive>)
    requires Covers(wc, cfg)
    ensures Covers(Configured(env, rel, wc, ds), AfterDirectives(env, rel, cfg, ds))
  {
    if ds != [] {
      CoversNext(env, rel, wc, cfg, ds[..|ds| - 1]);
    }
  }

  /** Walk and build agree on the build file, if the one finds a file and the other does
      not fail on it. */
  lemma {:induction false} SameBuildName(env: Env, names: seq<string>, d: Node)
    requires d.Dir? && (ListedName(names, d).Some? ==> BuildFile(d, ListedName(names, d)).Some?)
    requires LocalDirectives(env, d.entries, BuildName(names, d.entries)).Ok?
    ensures ListedName(names, d) == BuildName(names, d.entries)
  {
    if names != [] && names[0] !in d.entries {
      SameBuildName(env, names[1..], d);
    }
  }

  lemma {:induction false} BuildNameIsEntry(names: seq<string>, entries: map<string, Node>)
    ensures var r := BuildName(names, entries);
            r.Some? ==> r.value in entries && r.value in names && !entries[r.value].Dir?
  {
    if names != [] {
      BuildNameIsEntry(names[1..], entries);
    }
  }

  /** Pruning leaves the build file, and no file of a better name appears. */
  lemma {:induction false} BuildNameStays(names: seq<string>, d: Node, p: Node)
    requires d.Dir? && p.Dir? && ListedName(names, d) == BuildName(names, d.entries)
    requires forall n | n in p.entries :: n in d.entries && (d.entries[n].File? ==> p.entries[n] == d.entries[n])
    requires BuildName(names, d.entries).Some? ==>
               BuildName(names, d.entries).value in p.entries && d.entries[BuildName(names, d.entries).value].File?
    ensures ListedName(names, p) == BuildName(names, d.entries)
  {
    BuildNameIsEntry(names, d.entries);
    if names != [] && names[0] !in d.entries {
      BuildNameStays(names[1..], d, p);
    }
  }

  /** What pruning leaves of a directory. */
  lemma PrunedEntries(env: Env, d: Node, rel: string, cfg: TraversalConfig, ds: seq<Directive>, n: string)
    requires d.Dir? && Prune(env, d, rel, cfg).Ok? && Prune(env, d, rel, cfg).value.Some?
    requires LocalDirectives(env, d.entries, BuildName(cfg.validBuildFileNames, d.entries)) == Ok(ds)
    ensures var p, next := Prune(env, d, rel, cfg).value.value, AfterDirectives(env, rel, cfg, ds);
            var name := BuildName(cfg.validBuildFileNames, d.entries);
            if n !in d.entries then n !in p.entries
            else
              var e := PruneEntry(env, d, rel, next, name, n);
              && e.Ok? && (n in p.entries <==> e.value.Some?) && (n in p.entries ==> p.entries[n] == e.value.value)
  {
    hide IsExcludedDir, PruneEntry, BuildName, AfterDirectives, LocalDirectives;
    var next, name := AfterDirectives(env, rel, cfg, ds), BuildName(cfg.validBuildFileNames, d.entries);
    if n in d.entries && PruneEntry(env, d, rel, next, name, n).Err? {
      EntryErrFails(env, d, rel, cfg, ds, n);
    }
  }

  lemma EntryErrFails(env: Env, d: Node, rel: string, cfg: TraversalConfig, ds: seq<Directive>, n: string)
    requires d.Dir? && n in d.entries
    requires LocalDirectives(env, d.entries, BuildName(cfg.validBuildFileNames, d.entries)) == Ok(ds)
    requires PruneEntry(env, d, rel, AfterDirectives(env, rel, cfg, ds),
                        BuildName(cfg.validBuildFileNames, d.entries), n).Err?
    ensures !(Prune(env, d, rel, cfg).Ok? && Prune(env, d, rel, cfg).value.Some?)
  {
    hide IsExcludedDir, PruneEntry, BuildName, AfterDirectives, LocalDirectives;
  }

  lemma {:induction false} FilterListing(l: seq<string>, keep: set<string>)
    requires Sorted(l) && NoDuplicates(l)
    ensures SortedListing(Filtered(l, keep), Elements(l) * keep)
  {
    hide StringLeq;
    if l != [] {
      var init, last := l[..|l| - 1], l[|l| - 1];
      FilterListing(init, keep);
      if last in keep {
        FilteredMember(init, keep);
        forall x | x in Filtered(init, keep) ensures StringLeq(x, last) && x != last {
          var i :| 0 <= i < |init| && init[i] == x;
          assert l[i] == x;
        }
        AppendBound(Filtered(init, keep), last);
      }
    }
    FilteredMember(l, keep);
  }

  lemma {:induction false} FilteredMember(l: seq<string>, keep: set<string>)
    ensures forall n :: n in Filtered(l, keep) <==> n in l && n in keep
  {
    if l != [] {
      var init := l[..|l| - 1];
      FilteredMember(init, keep);
      assert l == init + [l[|l| - 1]];
    }
  }

  function Filtered(l: seq<string>, keep: set<string>): seq<string> {
    if l == [] then [] else Filtered(l[..|l| - 1], keep) + if l[|l| - 1] in keep then [l[|l| - 1]] else []
  }

  /** Children that are not called back can be left out. */
  lemma {:induction false} ChildrenFiltered(env: Env, d: Node, p: Node, rel: string, wc: WalkConfig,
        names: seq<string>, keep: set<string>)
    requires d.Dir? && p.Dir? && (forall n | n in names :: n in d.entries && d.entries[n].Dir?)
    requires forall n | n in names && n in keep ::
               n in p.entries && p.entries[n].Dir?
               && Visits(env, d.entries[n], EntryRel(rel, n), wc).Ok?
               && Visits(env, d.entries[n], EntryRel(rel, n), wc) == Visits(env, p.entries[n], EntryRel(rel, n), wc)
    requires forall n | n in names && n !in keep :: Visits(env, d.entries[n], EntryRel(rel, n), wc) == Ok([])
    requires forall n | n in Filtered(names, keep) :: n in names && n in keep
    ensures VisitChildren(env, d, rel, wc, names).Ok?
    ensures VisitChildren(env, d, rel, wc, names) == VisitChildren(env, p, rel, wc, Filtered(names, keep))
  {
    hide Visits;
    if names != [] {
      var init, last := names[..|names| - 1], names[|names| - 1];
      assert last in names;
      forall n | n in init ensures n in names {}
      var f := Filtered(init, keep);
      FilteredMember(init, keep);
      ChildrenFiltered(env, d, p, rel, wc, init, keep);
      if last in keep {
        assert (f + [last])[..|f|] == f;
      } else {
        var v := VisitChildren(env, d, rel, wc, init).value;
        assert v + [] == v && f + [] == f;
      }
    }
  }

  /** The regular files of a package are not pruned. */
  lemma SameRegularFiles(env: Env, d: Node, rel: string, cfg: TraversalConfig, ds: seq<Directive>, wc: WalkConfig)
    requires d.Dir? && Prune(env, d, rel, cfg).Ok? && Prune(env, d, rel, cfg).value.Some?
    requires LocalDirectives(env, d.entries, BuildName(cfg.validBuildFileNames, d.entries)) == Ok(ds)
    requires Covers(wc, AfterDirectives(env, rel, cfg, ds))
    ensures RegularFiles(env, Prune(env, d, rel, cfg).value.value, rel, wc) == RegularFiles(env, d, rel, wc)
  {
    hide IsExcludedDir, IsExcludedFile, BuildName, LocalDirectives, AfterDirectives, Prune;
    var p := Prune(env, d, rel, cfg).value.value;
    forall n ensures n in RegularFiles(env, p, rel, wc) <==> n in RegularFiles(env, d, rel, wc) {
      PrunedEntries(env, d, rel, cfg, ds, n);
      CoversExcluded(env, wc, AfterDirectives(env, rel, cfg, ds), EntryRel(rel, n));
    }
  }

  /** Of the subdirectories the walk goes into, those that pruning leaves; the others
      prune to nothing. */
  lemma PrunedSubdirs(env: Env, d: Node, rel: string, cfg: TraversalConfig, ds: seq<Directive>, wc: WalkConfig,
        n: string)
    requires d.Dir? && Prune(env, d, rel, cfg).Ok? && Prune(env, d, rel, cfg).value.Some?
    requires LocalDirectives(env, d.entries, BuildName(cfg.validBuildFileNames, d.entries)) == Ok(ds)
    requires Covers(wc, AfterDirectives(env, rel, cfg, ds))
    ensures var p, next := Prune(env, d, rel, cfg).value.value, AfterDirectives(env, rel, cfg, ds);
            && (n in Subdirs(env, p, rel, wc) ==> n in Subdirs(env, d, rel, wc))
            && (n in Subdirs(env, d, rel, wc) ==>
                  && !IsExcludedDir(env, next.excludes, EntryRel(rel, n))
                  && Prune(env, d.entries[n], EntryRel(rel, n), next) ==
                     Ok(if n in Subdirs(env, p, rel, wc) then Some(p.entries[n]) else None))
  {
    PrunedEntries(env, d, rel, cfg, ds, n);
    CoversExcluded(env, wc, AfterDirectives(env, rel, cfg, ds), EntryRel(rel, n));
    hide IsExcludedDir, BuildName, LocalDirectives, AfterDirectives, Prune;
  }

  /** The pruned directory has the same build file as the whole one. */
  lemma SameBuildFile(env: Env, d: Node, rel: string, cfg: TraversalConfig, ds: seq<Directive>)
    requires d.Dir? && Prune(env, d, rel, cfg).Ok? && Prune(env, d, rel, cfg).value.Some?
    requires LocalDirectives(env, d.entries, BuildName(cfg.validBuildFileNames, d.entries)) == Ok(ds)
    requires ListedName(cfg.validBuildFileNames, d) == BuildName(cfg.validBuildFileNames, d.entries)
    ensures var p, name := Prune(env, d, rel, cfg).value.value, BuildName(cfg.validBuildFileNames, d.entries);
            && ListedName(cfg.validBuildFileNames, p) == name
            && LocalDirectives(env, p.entries, name) == Ok(ds) && BuildFile(p, name) == BuildFile(d, name)
  {
    var p, names := Prune(env, d, rel, cfg).value.value, cfg.validBuildFileNames;
    BuildNameIsEntry(names, d.entries);
    hide IsExcludedDir, IsExcludedFile, BuildName, AfterDirectives, Prune;
    forall n ensures n in p.entries ==> n in d.entries && (d.entries[n].File? ==> p.entries[n] == d.entries[n])
             ensures BuildName(names, d.entries) == Some(n) ==> n in p.entries
    {
      PrunedEntries(env, d, rel, cfg, ds, n);
    }
    BuildNameStays(names, d, p);
  }

  /** The walk of the whole tree succeeds exactly if it finds files for build files. Then
      it calls back the same packages as the walk of the pruned tree, in the same order,
      with the same build files, update flags and regular files. What prunes to nothing
      is not called back at all. */
  lemma {:induction false} PruningPreservesWalk(env: Env, d: Node, rel: string, cfg: TraversalConfig, wc: WalkConfig)
    requires d.Dir? && Covers(wc, cfg) && Prune(env, d, rel, cfg).Ok?
    ensures Visits(env, d, rel, wc).Ok? <==> FindsFiles(env, d, rel, wc)
    ensures FindsFiles(env, d, rel, wc) ==>
              match Prune(env, d, rel, cfg).value
              case None => Visits(env, d, rel, wc) == Ok([])
              case Some(p) => Visits(env, p, rel, wc) == Visits(env, d, rel, wc)
    decreases d
  {
    CoversExcluded(env, wc, cfg, rel);
    if rel != "" && IsExcludedDir(env, wc.excludes, rel) {
      return;
    }
    var name := ListedName(cfg.validBuildFileNames, d);
    if name.Some? && BuildFile(d, name).None? {
      return;
    }
    SameBuildName(env, cfg.validBuildFileNames, d);
    var ds := LocalDirectives(env, d.entries, name).value;
    var next, nextWalk := AfterDirectives(env, rel, cfg, ds), Configured(env, rel, wc, ds);
    CoversNext(env, rel, wc, cfg, ds);
    CoversExcluded(env, nextWalk, next, rel);
    if IsExcludedDir(env, nextWalk.excludes, rel) {
      if Prune(env, d, rel, cfg).value.Some? { SameBuildFile(env, d, rel, cfg, ds); }
      return;
    }
    SameBuildFile(env, d, rel, cfg, ds);
    SameRegularFiles(env, d, rel, cfg, ds, nextWalk);
    SameChildren(env, d, rel, cfg, ds, nextWalk);
  }

  lemma {:induction false} SameChildren(env: Env, d: Node, rel: string, cfg: TraversalConfig,
        ds: seq<Directive>, wc: WalkConfig)
    requires d.Dir? && Prune(env, d, rel, cfg).Ok? && Prune(env, d, rel, cfg).value.Some?
    requires LocalDirectives(env, d.entries, BuildName(cfg.validBuildFileNames, d.entries)) == Ok(ds)
    requires Covers(wc, AfterDirectives(env, rel, cfg, ds))
    ensures var p := Prune(env, d, rel, cfg).value.value;
            var a, b := Listing(Subdirs(env, d, rel, wc)), Listing(Subdirs(env, p, rel, wc));
            var finds := forall n | n in Subdirs(env, d, rel, wc) ::
                           FindsFiles(env, d.entries[n], EntryRel(rel, n), wc);
            && (forall n | n in a :: n in d.entries && d.entries[n].Dir?)
            && (forall n | n in b :: n in p.entries && p.entries[n].Dir?)
            && (VisitChildren(env, d, rel, wc, a).Ok? <==> finds)
            && (finds ==> VisitChildren(env, d, rel, wc, a) == VisitChildren(env, p, rel, wc, b))
    decreases d, 0
  {
    var p, next := Prune(env, d, rel, cfg).value.value, AfterDirectives(env, rel, cfg, ds);
    var keep := Subdirs(env, p, rel, wc);
    var a, b := Listing(Subdirs(env, d, rel, wc)), Listing(keep);
    assert (forall n :: n in a <==> n in Elements(a)) && forall n :: n in b <==> n in Elements(b);
    forall n | n in Subdirs(env, d, rel, wc)
      ensures Visits(env, d.entries[n], EntryRel(rel, n), wc).Ok? <==>
                FindsFiles(env, d.entries[n], EntryRel(rel, n), wc)
      ensures FindsFiles(env, d.entries[n], EntryRel(rel, n), wc) ==>
                Visits(env, d.entries[n], EntryRel(rel, n), wc) ==
                if n in keep then Visits(env, p.entries[n], EntryRel(rel, n), wc) else Ok([])
    {
      PrunedSubdirs(env, d, rel, cfg, ds, wc, n);
      PruningPreservesWalk(env, d.entries[n], EntryRel(rel, n), next, wc);
    }
    forall n ensures n in keep ==> n in Subdirs(env, d, rel, wc) {
      PrunedSubdirs(env, d, rel, cfg, ds, wc, n);
    }
    ChildrenOkIff(env, d, rel, wc, a);
    if forall n | n in Subdirs(env, d, rel, wc) :: FindsFiles(env, d.entries[n], EntryRel(rel, n), wc) {
      FilterListing(a, keep);
      FilteredMember(a, keep);
      assert Elements(a) * keep == keep;
      SortedListingUnique(Filtered(a, keep), b, keep);
      ChildrenFiltered(env, d, p, rel, wc, a, keep);
    }
  }

  lemma {:induction false} ChildrenOkIff(env: Env, d: Node, rel: string, wc: WalkConfig, names: seq<string>)
    requires d.Dir? && forall n | n in names :: n in d.entries && d.entries[n].Dir?
    ensures VisitChildren(env, d, rel, wc, names).Ok? <==>
            forall n | n in names :: Visits(env, d.entries[n], EntryRel(rel, n), wc).Ok?
  {
    hide Visits;
    if names != [] {
      var init, last := names[..|names| - 1], names[|names| - 1];
      assert names == init + [last];
      ChildrenOkIff(env, d, rel, wc, init);
    }
  }

  lemma NoListing()
    ensures Listing({}) == []
  {
    assert SortedListing([], {});
    SortedListingUnique(Listing({}), [], {});
  }

  lemma EmptyDirVisited(env: Env, wc: WalkConfig)
    requires !IsExcludedDir(env, wc.excludes, "") && !wc.ignore
    ensures Visits(env, Dir(map[]), "", wc).Ok?
  {
    hide IsExcludedDir;
    var d := Dir(map[]);
    NoneListed(wc.validBuildFileNames);
    NoListing();
    assert Configured(env, "", wc, []) == wc;
    assert Subdirs(env, d, "", wc) == {};
    assert VisitChildren(env, d, "", wc, []) == Ok([]);
  }

  lemma {:induction false} NoneListed(names: seq<string>)
    ensures ListedName(names, Dir(map[])) == None
  {
    if names != [] {
      NoneListed(names[1..]);
    }
  }

  /** The build passes over a directory with the name of a build file, and the walk of the
      whole tree fails on it. */
  lemma DirectoryNamedBuildFails(env: Env, name: string)
    requires !IsExcludedDir(env, [], "") && IsExcludedDir(env, [], name)
    ensures var root := Dir(map[name := Dir(map[])]);
            && Prune(env, root, "", TraversalConfig([], [name])) == Ok(Some(Dir(map[])))
            && Visits(env, root, "", WalkConfig([], [name], false)) == Err(BuildFileFails)
            && Visits(env, Dir(map[]), "", WalkConfig([], [name], false)).Ok?
  {
    hide IsExcludedDir;
    var root := Dir(map[name := Dir(map[])]);
    assert [name][1..] == [];
    assert BuildName([name], root.entries) == None;
    assert PruneEntry(env, root, "", TraversalConfig([], [name]), None, name) == Ok(None);
    assert name in Listed(root);
    NoListing();
    EmptyDirVisited(env, WalkConfig([], [name], false));
  }

  // ------------------------------------------------------------ the walk of a snapshot

  /** What a name of a listing is in the snapshot. */
  lemma Looked(t: Tables, d: Node, rel: string, n: string)
    requires d.Dir? && Holds(t, d, rel) && n in Listed(d)
    ensures var p := EntryRel(rel, n);
            && (p in t.dirs <==> d.entries[n].Dir?) && (p in t.files <==> d.entries[n].File?)
            && (d.entries[n].Dir? ==> Holds(t, d.entries[n], p))
            && (d.entries[n].File? ==> t.files[p] == d.entries[n].content)
  {
    assert HoldsEntry(t, d, rel, n);
    if d.entries[n].Dir? {
      HoldsItself(t, d.entries[n], EntryRel(rel, n));
    }
  }

  lemma HoldsItself(t: Tables, d: Node, rel: string)
    requires d.Dir? && Holds(t, d, rel)
    ensures rel in t.dirs && rel !in t.files
  {
  }

  /** The build file among the listed names, and what it says. */
  method LoadBuildFile(env: Env, t: Tables, ghost d: Node, rel: string, names: seq<string>,
        entries: seq<string>)
    returns (file: Option<(string, Bytes)>, ds: Built<seq<Directive>>)
    requires d.Dir? && Holds(t, d, rel) && Elements(entries) == Listed(d)
    ensures ds == LocalDirectives(env, d.entries, ListedName(names, d))
    ensures ds.Ok? ==> file == BuildFile(d, ListedName(names, d))
  {
    for i := 0 to |names|
      invariant ListedName(names, d) == ListedName(names[i..], d)
    {
      assert names[i..][1..] == names[i + 1..];
      for j := 0 to |entries|
        invariant names[i] !in entries[..j]
      {
        if entries[j] != names[i] {
          continue;
        }
        assert entries[j] in Elements(entries);
        Looked(t, d, rel, names[i]);
        var p := EntryRel(rel, names[i]);
        if p !in t.files {
          return None, Err(BuildFileFails);
        }
        var parsed := env.directives(t.files[p]);
        file := Some((names[i], t.files[p]));
        return file, if parsed.None? then Err(BuildFileFails) else Ok(parsed.value);
      }
      assert entries[..|entries|] == entries && names[i] !in Elements(entries);
    }
    return None, Ok([]);
  }

  /** The subdirectories to go into, and the regular files. */
  method Classify(env: Env, t: Tables, ghost d: Node, rel: string, wc: WalkConfig, entries: seq<string>)
    returns (subdirs: seq<string>, regularFiles: seq<string>)
    requires d.Dir? && Holds(t, d, rel) && SortedListing(entries, Listed(d))
    ensures subdirs == Listing(Subdirs(env, d, rel, wc)) && regularFiles == Listing(RegularFiles(env, d, rel, wc))
  {
    subdirs, regularFiles := [], [];
    ghost var done: set<string> := {};
    for i := 0 to |entries|
      invariant done == Elements(entries[..i])
      invariant NoDuplicates(subdirs) && Elements(subdirs) == Subdirs(env, d, rel, wc) * done
      invariant NoDuplicates(regularFiles) && Elements(regularFiles) == RegularFiles(env, d, rel, wc) * done
    {
      var n, p := entries[i], EntryRel(rel, entries[i]);
      NextElement(entries, i);
      Looked(t, d, rel, n);
      done := done + {n};
      if IsExcludedDir(env, wc.excludes, p) {
        continue;
      }
      if p in t.dirs {
        ListOne(subdirs, n);
        subdirs := subdirs + [n];
        continue;
      }
      if IsExcludedFile(env, wc.excludes, p) {
        continue;
      }
      if p in t.files {
        ListOne(regularFiles, n);
        regularFiles := regularFiles + [n];
      }
    }
    assert entries[..|entries|] == entries;
    assert Subdirs(env, d, rel, wc) * done == Subdirs(env, d, rel, wc);
    assert RegularFiles(env, d, rel, wc) * done == RegularFiles(env, d, rel, wc);
    SortIsListing(subdirs);
    SortIsListing(regularFiles);
    SortedListingUnique(Sort(subdirs), Listing(Subdirs(env, d, rel, wc)), Subdirs(env, d, rel, wc));
    SortedListingUnique(Sort(regularFiles), Listing(RegularFiles(env, d, rel, wc)), RegularFiles(env, d, rel, wc));
    subdirs, regularFiles := Sort(subdirs), Sort(regularFiles);
  }

  /** Walks a snapshot that holds the tree `d` at `rel`. */
  method WalkDir(env: Env, t: Tables, ghost d: Node, rel: string, wc: WalkConfig) returns (r: Built<seq<Visit>>)
    requires d.Dir? && Holds(t, d, rel)
    ensures r == Visits(env, d, rel, wc)
    decreases d, 1
  {
    if rel != "" && IsExcludedDir(env, wc.excludes, rel) {
      return Ok([]);
    }
    var entries := t.dirs[rel];
    var file, ds := LoadBuildFile(env, t, d, rel, wc.validBuildFileNames, entries);
    if ds.Err? {
      return Err(BuildFileFails);
    }
    var next := ConfigureForWalk(env, rel, wc, ds.value);
    if IsExcludedDir(env, next.excludes, rel) {
      return Ok([]);
    }
    var subdirs, regularFiles := Classify(env, t, d, rel, next, entries);
    assert forall n | n in subdirs :: n in Elements(subdirs);
    var below := WalkChildren(env, t, d, rel, next, subdirs);
    if below.Err? {
      return Err(BuildFileFails);
    }
    return Ok(below.value + [Visit(rel, file, !next.ignore, regularFiles)]);
  }

  method WalkChildren(env: Env, t: Tables, ghost d: Node, rel: string, wc: WalkConfig, subdirs: seq<string>)
    returns (r: Built<seq<Visit>>)
    requires d.Dir? && Holds(t, d, rel)
    requires forall n | n in subdirs :: n in d.entries && d.entries[n].Dir?
    ensures r == VisitChildren(env, d, rel, wc, subdirs)
    decreases d, 0
  {
    var visits: seq<Visit> := [];
    for i := 0 to |subdirs|
      invariant VisitChildren(env, d, rel, wc, subdirs[..i]) == Ok(visits)
    {
      var n := subdirs[i];
      assert subdirs[..i + 1][..i] == subdirs[..i];
      assert n in Listed(d);
      Looked(t, d, rel, n);
      var child := WalkDir(env, t, d.entries[n], EntryRel(rel, n), wc);
      if child.Err? {
        ChildFails(env, d, rel, wc, subdirs, i + 1);
        return Err(BuildFileFails);
      }
      visits := visits + child.value;
    }
    assert subdirs[..|subdirs|] == subdirs;
    return Ok(visits);
  }

  lemma {:induction false} ChildFails(env: Env, d: Node, rel: string, wc: WalkConfig, names: seq<string>, i: nat)
    requires d.Dir? && (forall n | n in names :: n in d.entries && d.entries[n].Dir?) && i <= |names|
    requires VisitChildren(env, d, rel, wc, names[..i]).Err?
    ensures VisitChildren(env, d, rel, wc, names).Err?
  {
    if i == |names| {
      assert names[..i] == names;
    } else {
      assert names[..|names| - 1][..i] == names[..i];
      ChildFails(env, d, rel, wc, names[..|names| - 1], i);
    }
  }

  /** Builds the pruned snapshot of a repository and walks it: the callbacks are those
      of a walk of the whole tree. */
  method BuildAndWalk(env: Env, root: Node, cfg: TraversalConfig, wc: WalkConfig) returns (r: Built<seq<Visit>>)
    requires root.Dir? && ValidNames(root) && Covers(wc, cfg)
    ensures Prune(env, root, "", cfg).Err? ==> r == Err(BuildFileFails)
    ensures Prune(env, root, "", cfg).Ok? ==> r == Visits(env, Prune(env, root, "", cfg).value.value, "", wc)
    ensures Prune(env, root, "", cfg).Ok? && FindsFiles(env, root, "", wc) ==> r == Visits(env, root, "", wc)
  {
    var t := BuildTree(env, root, "", cfg);
    if t.Err? {
      return Err(BuildFileFails);
    }
    PruningPreservesWalk(env, root, "", cfg, wc);
    ghost var p := Prune(env, root, "", cfg).value.value;
    r := WalkDir(env, t.value, p, "", wc);
  }
}
