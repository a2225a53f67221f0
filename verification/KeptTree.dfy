/** What building the snapshot of a repository keeps: every directory that nothing on its
    path excludes, with its files that are not excluded, and nothing else. */
module KeptTree {
  import opened Options
  import opened Sorting
  import opened TreeBuild
  import opened PrunedWalk
  import opened Exclusions
  import P = Paths

  // ------------------------------------------------------------------- one directory

  /** The build goes into the directory, and its build file says this. */
  ghost predicate EnteredHere(env: Env, d: Node, rel: string, cfg: TraversalConfig, l: Local) {
    Enters(env, Building, d, rel, cfg.excludes, cfg.validBuildFileNames, [], [l])
  }

  lemma EnteredIs(env: Env, d: Node, rel: string, cfg: TraversalConfig, l: Local)
    requires d.Dir?
    ensures EnteredHere(env, d, rel, cfg, l) <==>
            && l.buildFile == BuildName(cfg.validBuildFileNames, d.entries)
            && LocalDirectives(env, d.entries, l.buildFile) == Ok(l.ds)
            && (rel != "" ==> !IsExcludedDir(env, AfterDirectives(env, rel, cfg, l.ds).excludes, rel))
    ensures EnteredHere(env, d, rel, cfg, l) && rel != "" ==> !IsExcludedDir(env, cfg.excludes, rel)
  {
    EntersHere(env, Building, d, rel, cfg.excludes, cfg.validBuildFileNames, l);
    SaysIff(env, d, cfg.validBuildFileNames, l);
    AfterDirectivesIs(env, rel, cfg, l.ds);
    ExcludedIff(env, cfg.excludes, AfterDirectives(env, rel, cfg, l.ds).excludes, rel, [], [l], rel);
    hide Enters, Says, DirExcluded, IsExcludedDir, BuildName, LocalDirectives, AfterDirectives;
  }

  /** A directory that the build goes into is left, with what is left of its entries. */
  lemma LeftHere(env: Env, d: Node, rel: string, cfg: TraversalConfig, l: Local, n: string)
    requires d.Dir? && Prune(env, d, rel, cfg).Ok? && EnteredHere(env, d, rel, cfg, l)
    ensures Prune(env, d, rel, cfg).value.Some?
    ensures var p, next := Prune(env, d, rel, cfg).value.value, AfterDirectives(env, rel, cfg, l.ds);
            if n !in d.entries then n !in p.entries
            else
              var e := PruneEntry(env, d, rel, next, l.buildFile, n);
              && e.Ok? && (n in p.entries <==> e.value.Some?) && (n in p.entries ==> p.entries[n] == e.value.value)
  {
    EnteredIs(env, d, rel, cfg, l);
    PruneHere(env, d, rel, cfg, l.ds);
    PrunedEntries(env, d, rel, cfg, l.ds, n);
    hide Prune, PruneEntry, EnteredHere, IsExcludedDir, BuildName, LocalDirectives, AfterDirectives;
  }

  lemma PruneHere(env: Env, d: Node, rel: string, cfg: TraversalConfig, ds: seq<Directive>)
    requires d.Dir? && Prune(env, d, rel, cfg).Ok?
    requires LocalDirectives(env, d.entries, BuildName(cfg.validBuildFileNames, d.entries)) == Ok(ds)
    requires rel != "" ==> !IsExcludedDir(env, cfg.excludes, rel)
    requires rel != "" ==> !IsExcludedDir(env, AfterDirectives(env, rel, cfg, ds).excludes, rel)
    ensures Prune(env, d, rel, cfg).value.Some?
  {
    hide IsExcludedDir, PruneEntry, BuildName, LocalDirectives, AfterDirectives;
  }

  /** What is left, the build went into. */
  lemma EnteredIfLeft(env: Env, d: Node, rel: string, cfg: TraversalConfig) returns (l: Local)
    requires d.Dir? && Prune(env, d, rel, cfg).Ok? && Prune(env, d, rel, cfg).value.Some?
    ensures EnteredHere(env, d, rel, cfg, l)
  {
    var name := BuildName(cfg.validBuildFileNames, d.entries);
    l := Local(name, LocalDirectives(env, d.entries, name).value);
    EnteredIs(env, d, rel, cfg, l);
    hide IsExcludedDir, PruneEntry, BuildName, LocalDirectives, AfterDirectives, EnteredHere;
  }

  // -------------------------------------------------------------- directories that stay

  /** A directory that the build goes into is left. */
  lemma {:induction false} EnteredStays(env: Env, d: Node, rel: string, cfg: TraversalConfig,
        names: seq<string>, way: seq<Local>)
    requires d.Dir? && ValidNames(d) && Prune(env, d, rel, cfg).Ok?
    requires Enters(env, Building, d, rel, cfg.excludes, cfg.validBuildFileNames, names, way)
    ensures Prune(env, d, rel, cfg).value.Some?
    ensures NodeAt(Prune(env, d, rel, cfg).value.value, names).Some?
    ensures NodeAt(Prune(env, d, rel, cfg).value.value, names).value.Dir?
    decreases |names|
  {
    hide Prune, PruneEntry, IsExcludedDir, AfterDirectives, Enters;
    if names == [] {
      OneLocal(env, Building, d, rel, cfg.excludes, cfg.validBuildFileNames, way);
      LeftHere(env, d, rel, cfg, way[0], "");
    } else {
      EntersShape(env, Building, d, rel, cfg.excludes, cfg.validBuildFileNames, names, way);
      var n, l := names[0], way[0];
      var next, sub := AfterDirectives(env, rel, cfg, l.ds), EntryRel(rel, n);
      AfterDirectivesIs(env, rel, cfg, l.ds);
      EntersDeeper(env, Building, d, rel, cfg.excludes, next.excludes, cfg.validBuildFileNames, names, way);
      assert way[..1] == [l];
      LeftHere(env, d, rel, cfg, l, n);
      ChildEntered(env, d, rel, next, l.buildFile, names[1..], way[1..], n);
      EnteredStays(env, d.entries[n], sub, next, names[1..], way[1..]);
    }
  }

  lemma OneLocal(env: Env, pass: Pass, d: Node, rel: string, excludes: seq<string>, valid: seq<string>,
        way: seq<Local>)
    requires Enters(env, pass, d, rel, excludes, valid, [], way)
    ensures |way| == 1 && way == [way[0]]
  {
    hide Says, DirExcluded;
  }

  lemma EntersShape(env: Env, pass: Pass, d: Node, rel: string, excludes: seq<string>, valid: seq<string>,
        names: seq<string>, way: seq<Local>)
    requires Enters(env, pass, d, rel, excludes, valid, names, way)
    ensures |way| == |names| + 1
    ensures NodeAt(d, names).Some? && NodeAt(d, names).value.Dir?
  {
    hide Says, DirExcluded, NamesBelow;
    assert names[..|names|] == names;
    SaysDir(env, pass, NodeAt(d, names).value, NamesBelow(valid, way[..|names|]), way[|names|]);
  }

  /** The build goes into an entry that is entered from there. */
  lemma ChildEntered(env: Env, d: Node, rel: string, next: TraversalConfig, buildName: Option<string>,
        names: seq<string>, way: seq<Local>, n: string)
    requires d.Dir? && ValidNames(d) && n in d.entries
    requires Enters(env, Building, d.entries[n], EntryRel(rel, n), next.excludes, next.validBuildFileNames, names, way)
    ensures d.entries[n].Dir? && ValidNames(d.entries[n])
    ensures PruneEntry(env, d, rel, next, buildName, n) == Prune(env, d.entries[n], EntryRel(rel, n), next)
  {
    hide Prune, IsExcludedDir, Enters, Barred;
    EntersShape(env, Building, d.entries[n], EntryRel(rel, n), next.excludes, next.validBuildFileNames, names, way);
    DirOnTheWay(d.entries[n], names);
    EnteredNotBarred(env, Building, d.entries[n], EntryRel(rel, n), next.excludes, next.validBuildFileNames, names,
                     way);
    BarredIs(env, next.excludes, EntryRel(rel, n));
  }

  lemma DirOnTheWay(d: Node, names: seq<string>)
    requires NodeAt(d, names).Some? && NodeAt(d, names).value.Dir?
    ensures d.Dir?
  {
  }

  /** A directory that is left, the build went into. */
  lemma {:induction false} StaysIfEntered(env: Env, d: Node, rel: string, cfg: TraversalConfig, names: seq<string>)
    returns (way: seq<Local>)
    requires d.Dir? && Prune(env, d, rel, cfg).Ok? && Prune(env, d, rel, cfg).value.Some?
    requires NodeAt(Prune(env, d, rel, cfg).value.value, names).Some?
    requires NodeAt(Prune(env, d, rel, cfg).value.value, names).value.Dir?
    ensures Enters(env, Building, d, rel, cfg.excludes, cfg.validBuildFileNames, names, way)
    decreases |names|
  {
    hide Prune, PruneEntry, IsExcludedDir, AfterDirectives, Enters;
    var l := EnteredIfLeft(env, d, rel, cfg);
    way := [l];
    if names != [] {
      var n := names[0];
      var next, sub := AfterDirectives(env, rel, cfg, l.ds), EntryRel(rel, n);
      LeftHere(env, d, rel, cfg, l, n);
      DirOnTheWay(Prune(env, d, rel, cfg).value.value.entries[n], names[1..]);
      ChildLeft(env, d, rel, next, l.buildFile, n);
      var rest := StaysIfEntered(env, d.entries[n], sub, next, names[1..]);
      AfterDirectivesIs(env, rel, cfg, l.ds);
      EntersShape(env, Building, d.entries[n], sub, next.excludes, next.validBuildFileNames, names[1..], rest);
      way := [l] + rest;
      assert way[..1] == [l] && way[1..] == rest;
      EntersDeeper(env, Building, d, rel, cfg.excludes, next.excludes, cfg.validBuildFileNames, names, way);
    }
  }

  lemma ChildLeft(env: Env, d: Node, rel: string, next: TraversalConfig, buildName: Option<string>, n: string)
    requires d.Dir? && n in d.entries && PruneEntry(env, d, rel, next, buildName, n).Ok?
    requires PruneEntry(env, d, rel, next, buildName, n).value.Some?
    ensures var e := PruneEntry(env, d, rel, next, buildName, n).value.value;
            && (e.Dir? ==> d.entries[n].Dir? && PruneEntry(env, d, rel, next, buildName, n)
                                                == Prune(env, d.entries[n], EntryRel(rel, n), next))
            && !e.Other?
  {
    hide Prune, IsExcludedDir, IsExcludedFile;
  }

  // -------------------------------------------------------------------- files that stay

  /** A regular file in a directory on the way stays: it is the build file, or nothing in
      force there excludes it. */
  ghost predicate KeepsFile(env: Env, d: Node, rel: string, excludes: seq<string>, names: seq<string>,
        way: seq<Local>, n: string)
    requires |way| == |names| + 1
  {
    && NodeAt(d, names).Some? && NodeAt(d, names).value.Dir?
    && n in NodeAt(d, names).value.entries && NodeAt(d, names).value.entries[n].File?
    && (|| way[|names|].buildFile == Some(n)
        || !FileExcluded(env, excludes, rel, names, way, |names|, Sub(rel, names + [n])))
  }

  lemma KeepsDeeper(env: Env, d: Node, rel: string, excludes: seq<string>, more: seq<string>, names: seq<string>,
        way: seq<Local>, n: string)
    requires names != [] && |way| == |names| + 1 && Extends(env, excludes, rel, way[0].ds, more)
    requires d.Dir? && names[0] in d.entries
    ensures KeepsFile(env, d, rel, excludes, names, way, n) <==>
            KeepsFile(env, d.entries[names[0]], EntryRel(rel, names[0]), more, names[1..], way[1..], n)
  {
    hide FileExcluded, DirExcluded, Extends;
    assert (names + [n])[1..] == names[1..] + [n];
    ExcludedDeeper(env, excludes, more, rel, names, way, |names| - 1, Sub(rel, names + [n]));
  }

  /** What the pruned directory holds of a file. */
  ghost predicate Left(p: Node, names: seq<string>, n: string, e: Node) {
    && NodeAt(p, names).Some? && NodeAt(p, names).value.Dir?
    && n in NodeAt(p, names).value.entries && NodeAt(p, names).value.entries[n] == e
  }

  lemma {:induction false} FileStaysIff(env: Env, d: Node, rel: string, cfg: TraversalConfig, names: seq<string>,
        way: seq<Local>, n: string, e: Node)
    requires d.Dir? && ValidNames(d) && Prune(env, d, rel, cfg).Ok? && Prune(env, d, rel, cfg).value.Some?
    requires Enters(env, Building, d, rel, cfg.excludes, cfg.validBuildFileNames, names, way)
    requires |way| == |names| + 1 && !e.Dir?
    ensures Left(Prune(env, d, rel, cfg).value.value, names, n, e) <==>
            KeepsFile(env, d, rel, cfg.excludes, names, way, n) && NodeAt(d, names).value.entries[n] == e
    decreases |names|
  {
    hide Prune, PruneEntry, IsExcludedDir, IsExcludedFile, AfterDirectives, Enters;
    if names == [] {
      OneLocal(env, Building, d, rel, cfg.excludes, cfg.validBuildFileNames, way);
      LeftHere(env, d, rel, cfg, way[0], n);
      if n in d.entries {
        FileLeft(env, d, rel, AfterDirectives(env, rel, cfg, way[0].ds), way[0].buildFile, n, e);
      }
      AfterDirectivesIs(env, rel, cfg, way[0].ds);
      ExcludedIff(env, cfg.excludes, AfterDirectives(env, rel, cfg, way[0].ds).excludes, rel, names, way,
                  EntryRel(rel, n));
      SubOfEntry(rel, names, n);
    } else {
      var m, l := names[0], way[0];
      var next, sub := AfterDirectives(env, rel, cfg, l.ds), EntryRel(rel, m);
      AfterDirectivesIs(env, rel, cfg, l.ds);
      EntersDeeper(env, Building, d, rel, cfg.excludes, next.excludes, cfg.validBuildFileNames, names, way);
      assert way[..1] == [l];
      LeftHere(env, d, rel, cfg, l, m);
      ChildEntered(env, d, rel, next, l.buildFile, names[1..], way[1..], m);
      EnteredStays(env, d.entries[m], sub, next, names[1..], way[1..]);
      FileStaysIff(env, d.entries[m], sub, next, names[1..], way[1..], n, e);
      KeepsDeeper(env, d, rel, cfg.excludes, next.excludes, names, way, n);
      NodeBelow(Prune(env, d, rel, cfg).value.value, names);
      NodeBelow(d, names);
    }
  }

  lemma FileLeft(env: Env, d: Node, rel: string, next: TraversalConfig, buildName: Option<string>, n: string, e: Node)
    requires d.Dir? && n in d.entries && PruneEntry(env, d, rel, next, buildName, n).Ok? && !e.Dir?
    ensures PruneEntry(env, d, rel, next, buildName, n) == Ok(Some(e)) <==>
            && e == d.entries[n] && e.File?
            && (buildName == Some(n) || !IsExcludedFile(env, next.excludes, EntryRel(rel, n)))
  {
    hide IsExcludedDir, IsExcludedFile;
  }

  // -------------------------------------------------------------- when the build fails

  lemma NothingSays(env: Env, pass: Pass, d: Node, valid: seq<string>)
    requires d.Dir?
    ensures (forall l :: !Says(env, pass, d, valid, l)) <==>
            LocalDirectives(env, d.entries,
                            if pass.Building? then BuildName(valid, d.entries) else ListedName(valid, d)).Err?
  {
    var name := if pass.Building? then BuildName(valid, d.entries) else ListedName(valid, d);
    var r := LocalDirectives(env, d.entries, name);
    if r.Ok? {
      SaysIff(env, d, valid, Local(name, r.value));
    }
    forall l ensures r.Err? ==> !Says(env, pass, d, valid, l) {
      SaysIff(env, d, valid, l);
    }
    hide Says, LocalDirectives, BuildName, ListedName;
  }

  /** Where the build stops, if it fails. */
  lemma {:induction false} StopsWhere(env: Env, d: Node, rel: string, cfg: TraversalConfig)
    returns (names: seq<string>, way: seq<Local>)
    requires d.Dir? && ValidNames(d) && Prune(env, d, rel, cfg).Err?
    ensures Fails(env, Building, d, rel, cfg.excludes, cfg.validBuildFileNames, names, way)
    decreases d
  {
    var name := BuildName(cfg.validBuildFileNames, d.entries);
    NothingSays(env, Building, d, cfg.validBuildFileNames);
    BarredIs(env, cfg.excludes, rel);
    names, way := [], [];
    if LocalDirectives(env, d.entries, name).Ok? {
      var ds := LocalDirectives(env, d.entries, name).value;
      var next := AfterDirectives(env, rel, cfg, ds);
      var n :| n in d.entries && PruneEntry(env, d, rel, next, name, n).Err?;
      hide BuildName, LocalDirectives, AfterDirectives, IsExcludedDir, Says, Barred, Enters, Fails;
      EntryFails(env, d, rel, next, name, n);
      var l := Local(name, ds);
      EnteredIs(env, d, rel, cfg, l);
      var rest, below := StopsWhere(env, d.entries[n], EntryRel(rel, n), next);
      names, way := [n] + rest, [l] + below;
      FailsShape(env, Building, d.entries[n], EntryRel(rel, n), next.excludes, next.validBuildFileNames, rest, below);
      assert names[1..] == rest && way[1..] == below && way[..1] == [l];
      AfterDirectivesIs(env, rel, cfg, ds);
      BarredIs(env, next.excludes, EntryRel(rel, n));
      FailsDeeper(env, Building, d, rel, cfg.excludes, next.excludes, cfg.validBuildFileNames, names, way);
    }
  }

  lemma FailsShape(env: Env, pass: Pass, d: Node, rel: string, excludes: seq<string>, valid: seq<string>,
        names: seq<string>, way: seq<Local>)
    requires Fails(env, pass, d, rel, excludes, valid, names, way)
    ensures |way| == |names| && NodeAt(d, names).Some? && NodeAt(d, names).value.Dir?
  {
    hide Says, Enters, DirExcluded;
  }

  lemma EntryFails(env: Env, d: Node, rel: string, next: TraversalConfig, buildName: Option<string>, n: string)
    requires d.Dir? && ValidNames(d) && n in d.entries && PruneEntry(env, d, rel, next, buildName, n).Err?
    ensures d.entries[n].Dir? && ValidNames(d.entries[n]) && EntryRel(rel, n) != ""
    ensures !IsExcludedDir(env, next.excludes, EntryRel(rel, n))
    ensures Prune(env, d.entries[n], EntryRel(rel, n), next).Err?
  {
    hide IsExcludedDir, IsExcludedFile, Prune;
  }

  /** Where a build file cannot be read, the build fails. */
  lemma {:induction false} FailsIfStops(env: Env, d: Node, rel: string, cfg: TraversalConfig, names: seq<string>,
        way: seq<Local>)
    requires d.Dir? && ValidNames(d)
    requires Fails(env, Building, d, rel, cfg.excludes, cfg.validBuildFileNames, names, way)
    ensures Prune(env, d, rel, cfg).Err?
    decreases |names|
  {
    FailsShape(env, Building, d, rel, cfg.excludes, cfg.validBuildFileNames, names, way);
    if names == [] {
      NothingSays(env, Building, d, cfg.validBuildFileNames);
      BarredIs(env, cfg.excludes, rel);
      assert NodeAt(d, names).value == d && NamesBelow(cfg.validBuildFileNames, way) == cfg.validBuildFileNames;
      hide BuildName, LocalDirectives, IsExcludedDir, Says, Barred, PruneEntry;
    } else {
      hide BuildName, LocalDirectives, AfterDirectives, IsExcludedDir, Says, Barred, Enters, Fails;
      var n, l := names[0], way[0];
      NodeBelow(d, names);
      var next, sub := AfterDirectives(env, rel, cfg, l.ds), EntryRel(rel, n);
      AfterDirectivesIs(env, rel, cfg, l.ds);
      assert sub != "" by { ValidChild(d, n); }
      FailsDeeper(env, Building, d, rel, cfg.excludes, next.excludes, cfg.validBuildFileNames, names, way);
      assert way[..1] == [l];
      DirOnTheWay(d.entries[n], names[1..]);
      FailsIfStops(env, d.entries[n], sub, next, names[1..], way[1..]);
      BarredIs(env, next.excludes, sub);
      EnteredIs(env, d, rel, cfg, l);
      EntryErrStops(env, d, rel, cfg, l, n);
    }
  }

  lemma ValidChild(d: Node, n: string)
    requires d.Dir? && ValidNames(d) && n in d.entries
    ensures ValidName(n) && (d.entries[n].Dir? ==> ValidNames(d.entries[n]))
  {
  }

  lemma EntryErrStops(env: Env, d: Node, rel: string, cfg: TraversalConfig, l: Local, n: string)
    requires d.Dir? && n in d.entries && d.entries[n].Dir? && EnteredHere(env, d, rel, cfg, l)
    requires !IsExcludedDir(env, AfterDirectives(env, rel, cfg, l.ds).excludes, EntryRel(rel, n))
    requires Prune(env, d.entries[n], EntryRel(rel, n), AfterDirectives(env, rel, cfg, l.ds)).Err?
    ensures Prune(env, d, rel, cfg).Err?
  {
    EnteredIs(env, d, rel, cfg, l);
    hide EnteredHere;
    PruneFails(env, d, rel, cfg, l.ds, n);
  }

  // ------------------------------------------------------------------ the path tables

  lemma {:induction false} HoldsBelow(t: Tables, d: Node, rel: string, names: seq<string>)
    requires d.Dir? && Holds(t, d, rel) && NodeAt(d, names).Some? && NodeAt(d, names).value.Dir?
    ensures Holds(t, NodeAt(d, names).value, Sub(rel, names))
    decreases |names|
  {
    if names != [] {
      assert HoldsEntry(t, d, rel, names[0]);
      DirOnTheWay(d.entries[names[0]], names[1..]);
      HoldsBelow(t, d.entries[names[0]], EntryRel(rel, names[0]), names[1..]);
    }
  }

  lemma {:induction false} DirNames(d: Node, rel: string, path: string) returns (names: seq<string>)
    requires d.Dir? && HasDir(d, rel, path)
    ensures NodeAt(d, names).Some? && NodeAt(d, names).value.Dir? && path == Sub(rel, names)
    decreases d
  {
    names := [];
    if path != rel {
      var n :| n in d.entries && d.entries[n].Dir? && HasDir(d.entries[n], EntryRel(rel, n), path);
      var rest := DirNames(d.entries[n], EntryRel(rel, n), path);
      names := [n] + rest;
      assert names[1..] == rest;
    }
  }

  lemma {:induction false} FileNames(d: Node, rel: string, path: string) returns (names: seq<string>, n: string)
    requires d.Dir? && HasFile(d, rel, path)
    ensures NodeAt(d, names).Some? && NodeAt(d, names).value.Dir? && path == Sub(rel, names + [n])
    ensures n in NodeAt(d, names).value.entries && NodeAt(d, names).value.entries[n].File?
    decreases d
  {
    names := [];
    n :| n in d.entries
         && (|| (d.entries[n].File? && path == EntryRel(rel, n))
             || (d.entries[n].Dir? && HasFile(d.entries[n], EntryRel(rel, n), path)));
    if d.entries[n].Dir? {
      var rest, m := FileNames(d.entries[n], EntryRel(rel, n), path);
      names, n := [n] + rest, m;
      assert names[1..] == rest && (names + [n])[1..] == rest + [n];
    } else {
      assert (names + [n])[1..] == [];
    }
  }

  lemma FileInTables(t: Tables, d: Node, rel: string, names: seq<string>, n: string)
    requires d.Dir? && Holds(t, d, rel) && NodeAt(d, names).Some? && NodeAt(d, names).value.Dir?
    requires n in NodeAt(d, names).value.entries && NodeAt(d, names).value.entries[n].File?
    ensures Sub(rel, names + [n]) in t.files
    ensures t.files[Sub(rel, names + [n])] == NodeAt(d, names).value.entries[n].content
  {
    HoldsBelow(t, d, rel, names);
    SubOfEntry(rel, names, n);
    var at := NodeAt(d, names).value;
    assert HoldsEntry(t, at, Sub(rel, names), n);
  }

  // --------------------------------------------------------------- the whole repository

  /** The build goes into the directory that the names lead to from the root. */
  ghost predicate Kept(env: Env, root: Node, cfg: TraversalConfig, names: seq<string>, way: seq<Local>) {
    Enters(env, Building, root, "", cfg.excludes, cfg.validBuildFileNames, names, way)
  }

  /** The directories in the tables are those that the build goes into. */
  ghost predicate DirsAreKept(env: Env, root: Node, cfg: TraversalConfig, t: Tables) {
    forall path :: path in t.dirs <==> exists names, way :: Kept(env, root, cfg, names, way) && path == P.Join(names)
  }

  /** The files in the tables are those that stay in them, with their contents. */
  ghost predicate FilesAreKept(env: Env, root: Node, cfg: TraversalConfig, t: Tables) {
    && (forall names, way, n |
          Kept(env, root, cfg, names, way) && |way| == |names| + 1
          && KeepsFile(env, root, "", cfg.excludes, names, way, n) ::
          && P.Join(names + [n]) in t.files
          && t.files[P.Join(names + [n])] == NodeAt(root, names).value.entries[n].content)
    && (forall path | path in t.files ::
          exists names, way, n ::
            && Kept(env, root, cfg, names, way) && |way| == |names| + 1
            && KeepsFile(env, root, "", cfg.excludes, names, way, n) && path == P.Join(names + [n]))
  }

  /** Each is listed with the files that stay and the directories that are gone into. */
  ghost predicate ListingsAreKept(env: Env, root: Node, cfg: TraversalConfig, t: Tables) {
    forall names, way | Kept(env, root, cfg, names, way) && |way| == |names| + 1 ::
      && P.Join(names) in t.dirs
      && Sorted(t.dirs[P.Join(names)]) && NoDuplicates(t.dirs[P.Join(names)])
      && forall n :: n in t.dirs[P.Join(names)] <==>
                     || KeepsFile(env, root, "", cfg.excludes, names, way, n)
                     || exists below :: Kept(env, root, cfg, names + [n], below)
  }

  lemma {:induction false} NamesAreValid(d: Node, names: seq<string>)
    requires d.Dir? && ValidNames(d) && NodeAt(d, names).Some?
    ensures P.ValidElements(names)
  {
    if names != [] {
      if d.entries[names[0]].Dir? {
        NamesAreValid(d.entries[names[0]], names[1..]);
      }
      assert forall i | 0 < i < |names| :: names[i] == names[1..][i - 1];
    }
  }

  lemma KeptPath(env: Env, root: Node, cfg: TraversalConfig, names: seq<string>, way: seq<Local>)
    requires root.Dir? && ValidNames(root) && Kept(env, root, cfg, names, way)
    ensures NodeAt(root, names).Some? && NodeAt(root, names).value.Dir? && |way| == |names| + 1
    ensures Sub("", names) == P.Join(names)
    ensures forall n | n in NodeAt(root, names).value.entries :: Sub("", names + [n]) == P.Join(names + [n])
  {
    EntersShape(env, Building, root, "", cfg.excludes, cfg.validBuildFileNames, names, way);
    NamesAreValid(root, names);
    SubIsJoin(names);
    forall n | n in NodeAt(root, names).value.entries ensures Sub("", names + [n]) == P.Join(names + [n]) {
      NodeAtEntry(root, names, n);
      NamesAreValid(root, names + [n]);
      SubIsJoin(names + [n]);
    }
  }

  lemma {:induction false} NodeAtEntry(d: Node, names: seq<string>, n: string)
    requires NodeAt(d, names).Some? && NodeAt(d, names).value.Dir?
    ensures NodeAt(d, names + [n]) == if n in NodeAt(d, names).value.entries
                                      then Some(NodeAt(d, names).value.entries[n]) else None
    decreases |names|
  {
    if names == [] {
      assert (names + [n])[1..] == [];
    } else {
      NodeAtEntry(d.entries[names[0]], names[1..], n);
      assert (names + [n])[1..] == names[1..] + [n];
    }
  }

  lemma DirsOfTree(env: Env, root: Node, cfg: TraversalConfig, p: Node, t: Tables)
    requires root.Dir? && ValidNames(root) && Prune(env, root, "", cfg) == Ok(Some(p)) && p.Dir?
    requires Holds(t, p, "") && Exact(t, p, "")
    ensures DirsAreKept(env, root, cfg, t)
  {
    hide Prune, ValidNames, Enters, Holds;
    forall path ensures path in t.dirs ==>
                        exists names, way :: Kept(env, root, cfg, names, way) && path == P.Join(names)
    {
      if path in t.dirs {
        var names := DirNames(p, "", path);
        var way := StaysIfEntered(env, root, "", cfg, names);
        KeptPath(env, root, cfg, names, way);
        assert Kept(env, root, cfg, names, way) && path == P.Join(names);
      }
    }
    forall names, way | Kept(env, root, cfg, names, way) ensures P.Join(names) in t.dirs {
      KeptPath(env, root, cfg, names, way);
      EnteredStays(env, root, "", cfg, names, way);
      HoldsBelow(t, p, "", names);
      HoldsItself(t, NodeAt(p, names).value, Sub("", names));
    }
  }

  lemma FilesOfTree(env: Env, root: Node, cfg: TraversalConfig, p: Node, t: Tables)
    requires root.Dir? && ValidNames(root) && Prune(env, root, "", cfg) == Ok(Some(p)) && p.Dir?
    requires Holds(t, p, "") && Exact(t, p, "")
    ensures FilesAreKept(env, root, cfg, t)
  {
    hide Prune, ValidNames, Enters, Holds;
    forall path | path in t.files
      ensures exists names, way, n ::
                && Kept(env, root, cfg, names, way) && |way| == |names| + 1
                && KeepsFile(env, root, "", cfg.excludes, names, way, n) && path == P.Join(names + [n])
    {
      var names, n := FileNames(p, "", path);
      var way := StaysIfEntered(env, root, "", cfg, names);
      KeptPath(env, root, cfg, names, way);
      FileStaysIff(env, root, "", cfg, names, way, n, NodeAt(p, names).value.entries[n]);
      assert Kept(env, root, cfg, names, way) && KeepsFile(env, root, "", cfg.excludes, names, way, n);
    }
    forall names, way, n | Kept(env, root, cfg, names, way) && |way| == |names| + 1
                           && KeepsFile(env, root, "", cfg.excludes, names, way, n)
      ensures P.Join(names + [n]) in t.files
      ensures t.files[P.Join(names + [n])] == NodeAt(root, names).value.entries[n].content
    {
      KeptPath(env, root, cfg, names, way);
      FileStaysIff(env, root, "", cfg, names, way, n, NodeAt(root, names).value.entries[n]);
      FileInTables(t, p, "", names, n);
    }
  }

  lemma ListingsOfTree(env: Env, root: Node, cfg: TraversalConfig, p: Node, t: Tables)
    requires root.Dir? && ValidNames(root) && Prune(env, root, "", cfg) == Ok(Some(p)) && p.Dir?
    requires Holds(t, p, "") && Exact(t, p, "")
    ensures ListingsAreKept(env, root, cfg, t)
  {
    hide Prune, ValidNames, Enters, Holds, KeepsFile;
    forall names, way | Kept(env, root, cfg, names, way) && |way| == |names| + 1
      ensures P.Join(names) in t.dirs
      ensures SortedListing(t.dirs[P.Join(names)], Elements(t.dirs[P.Join(names)]))
      ensures forall n :: n in t.dirs[P.Join(names)] <==>
                          || KeepsFile(env, root, "", cfg.excludes, names, way, n)
                          || exists below :: Kept(env, root, cfg, names + [n], below)
    {
      KeptPath(env, root, cfg, names, way);
      EnteredStays(env, root, "", cfg, names, way);
      HoldsBelow(t, p, "", names);
      var at := NodeAt(p, names).value;
      HoldsListing(t, at, Sub("", names));
      forall n ensures n in t.dirs[P.Join(names)] <==>
                       || KeepsFile(env, root, "", cfg.excludes, names, way, n)
                       || exists below :: Kept(env, root, cfg, names + [n], below)
      {
        assert n in t.dirs[P.Join(names)] <==> n in Elements(t.dirs[P.Join(names)]);
        ListedIff(env, root, cfg, p, names, way, n);
      }
    }
  }

  lemma HoldsListing(t: Tables, d: Node, rel: string)
    requires d.Dir? && Holds(t, d, rel)
    ensures rel in t.dirs && SortedListing(t.dirs[rel], Listed(d))
  {
  }

  lemma ListedIff(env: Env, root: Node, cfg: TraversalConfig, p: Node, names: seq<string>, way: seq<Local>, n: string)
    requires root.Dir? && ValidNames(root) && Prune(env, root, "", cfg) == Ok(Some(p)) && p.Dir?
    requires Kept(env, root, cfg, names, way) && |way| == |names| + 1
    requires NodeAt(p, names).Some? && NodeAt(p, names).value.Dir?
    ensures n in Listed(NodeAt(p, names).value) <==>
            || KeepsFile(env, root, "", cfg.excludes, names, way, n)
            || exists below :: Kept(env, root, cfg, names + [n], below)
  {
    hide Prune, ValidNames, Enters;
    NodeAtEntry(p, names, n);
    var at := NodeAt(p, names).value;
    if n in at.entries && at.entries[n].Dir? {
      var below := StaysIfEntered(env, root, "", cfg, names + [n]);
      assert Kept(env, root, cfg, names + [n], below);
    }
    if below :| Kept(env, root, cfg, names + [n], below) {
      EnteredStays(env, root, "", cfg, names + [n], below);
    }
    if n in at.entries && at.entries[n].File? {
      FileStaysIff(env, root, "", cfg, names, way, n, at.entries[n]);
    }
    if KeepsFile(env, root, "", cfg.excludes, names, way, n) {
      FileStaysIff(env, root, "", cfg, names, way, n, NodeAt(root, names).value.entries[n]);
    }
  }

  /** Builds the tables of a repository. They hold exactly the directories on whose path
      nothing is excluded, and their files that are not excluded. It fails exactly if a
      directory it comes to has a build file that cannot be read. */
  method BuildRepository(env: Env, root: Node, cfg: TraversalConfig) returns (r: Built<Tables>)
    requires root.Dir? && ValidNames(root)
    ensures r.Err? <==> exists names, way ::
                          Fails(env, Building, root, "", cfg.excludes, cfg.validBuildFileNames, names, way)
    ensures r.Ok? ==> DirsAreKept(env, root, cfg, r.value) && FilesAreKept(env, root, cfg, r.value)
    ensures r.Ok? ==> ListingsAreKept(env, root, cfg, r.value)
  {
    hide DirsAreKept, FilesAreKept, ListingsAreKept, ValidNames, Fails, Holds, Exact;
    r := BuildTree(env, root, "", cfg);
    BuildFailsIff(env, root, cfg);
    if r.Ok? {
      ghost var p := Prune(env, root, "", cfg).value.value;
      DirsOfTree(env, root, cfg, p, r.value);
      FilesOfTree(env, root, cfg, p, r.value);
      ListingsOfTree(env, root, cfg, p, r.value);
    }
  }

  lemma BuildFailsIff(env: Env, root: Node, cfg: TraversalConfig)
    requires root.Dir? && ValidNames(root)
    ensures Prune(env, root, "", cfg).Err? <==>
            exists names, way :: Fails(env, Building, root, "", cfg.excludes, cfg.validBuildFileNames, names, way)
    ensures Prune(env, root, "", cfg).Ok? ==> Prune(env, root, "", cfg).value.Some?
  {
    hide ValidNames, Fails, PruneEntry, IsExcludedDir, AfterDirectives, BuildName, LocalDirectives;
    if Prune(env, root, "", cfg).Err? {
      var names, way := StopsWhere(env, root, "", cfg);
    }
    if names, way :| Fails(env, Building, root, "", cfg.excludes, cfg.validBuildFileNames, names, way) {
      FailsIfStops(env, root, "", cfg, names, way);
    }
  }
}
