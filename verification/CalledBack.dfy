/** Which packages the walk calls back, with what, and in which order, in terms of the
    places in the tree and what the build files on the way say. */
module CalledBack {
  import opened Options
  import opened Sorting
  import opened TreeBuild
  import opened PrunedWalk
  import opened Exclusions
  import opened KeptTree
  import P = Paths

  /** A regular file of the package: nothing in force there excludes it, not even as a
      directory. */
  ghost predicate Regular(env: Env, d: Node, rel: string, excludes: seq<string>, names: seq<string>,
        way: seq<Local>, n: string)
    requires |way| == |names| + 1 && NodeAt(d, names).Some? && NodeAt(d, names).value.Dir?
  {
    && n in NodeAt(d, names).value.entries && NodeAt(d, names).value.entries[n].File?
    && !DirExcluded(env, excludes, rel, names, way, |names|, Sub(rel, names + [n]))
  }

  /** What the package there is called back with. */
  ghost predicate Calls(env: Env, d: Node, rel: string, excludes: seq<string>, names: seq<string>,
        way: seq<Local>, v: Visit)
  {
    && |way| == |names| + 1 && NodeAt(d, names).Some? && NodeAt(d, names).value.Dir?
    && v.rel == Sub(rel, names)
    && (v.update <==> !exists e :: e in way[|names|].ds && e.key == "ignore")
    && IsBuildFile(NodeAt(d, names).value, way[|names|].buildFile, v.buildFile)
    && Sorted(v.regularFiles) && NoDuplicates(v.regularFiles)
    && forall n :: n in v.regularFiles <==> Regular(env, d, rel, excludes, names, way, n)
  }

  ghost predicate IsBuildFile(d: Node, name: Option<string>, file: Option<(string, Bytes)>) {
    match name
    case None => file == None
    case Some(n) => d.Dir? && n in d.entries && d.entries[n].File? && file == Some((n, d.entries[n].content))
  }

  /** The walk goes into the directory there, and this is its callback. */
  ghost predicate IsCall(env: Env, d: Node, rel: string, wc: WalkConfig, names: seq<string>, way: seq<Local>,
        v: Visit)
  {
    && Enters(env, Walking, d, rel, wc.excludes, wc.validBuildFileNames, names, way)
    && Calls(env, d, rel, wc.excludes, names, way, v)
  }

  ghost predicate Called(env: Env, d: Node, rel: string, wc: WalkConfig, names: seq<string>, v: Visit) {
    exists way :: IsCall(env, d, rel, wc, names, way, v)
  }

  /** A directory comes after those below it, and otherwise by the first different name. */
  predicate Before(a: seq<string>, b: seq<string>) {
    if a == [] then false
    else if b == [] then true
    else if a[0] == b[0] then Before(a[1..], b[1..])
    else StringLeq(a[0], b[0])
  }

  ghost predicate InOrder(ns: seq<seq<string>>) {
    forall i, j | 0 <= i < j < |ns| :: Before(ns[i], ns[j])
  }

  ghost predicate Each(env: Env, d: Node, rel: string, wc: WalkConfig, ns: seq<seq<string>>, visits: seq<Visit>) {
    |ns| == |visits| && forall i | 0 <= i < |ns| :: Called(env, d, rel, wc, ns[i], visits[i])
  }

  /** The callbacks are those of the places `ns`, which are all that the walk goes into,
      in order. */
  ghost predicate CallsBack(env: Env, d: Node, rel: string, wc: WalkConfig, ns: seq<seq<string>>, visits: seq<Visit>) {
    && Each(env, d, rel, wc, ns, visits) && InOrder(ns)
    && forall names, way | Enters(env, Walking, d, rel, wc.excludes, wc.validBuildFileNames, names, way) :: names in ns
  }

  // ------------------------------------------------------------------- one directory

  ghost predicate WalkedHere(env: Env, d: Node, rel: string, wc: WalkConfig, l: Local) {
    Enters(env, Walking, d, rel, wc.excludes, wc.validBuildFileNames, [], [l])
  }

  lemma WalkedIs(env: Env, d: Node, rel: string, wc: WalkConfig, l: Local)
    requires d.Dir?
    ensures WalkedHere(env, d, rel, wc, l) <==>
            && l.buildFile == ListedName(wc.validBuildFileNames, d)
            && LocalDirectives(env, d.entries, l.buildFile) == Ok(l.ds)
            && !IsExcludedDir(env, Configured(env, rel, wc, l.ds).excludes, rel)
    ensures WalkedHere(env, d, rel, wc, l) ==> !IsExcludedDir(env, wc.excludes, rel)
  {
    EntersHere(env, Walking, d, rel, wc.excludes, wc.validBuildFileNames, l);
    SaysIff(env, d, wc.validBuildFileNames, l);
    ConfiguredIs(env, rel, wc, l.ds);
    ExcludedIff(env, wc.excludes, Configured(env, rel, wc, l.ds).excludes, rel, [], [l], rel);
    hide Enters, Says, DirExcluded, IsExcludedDir, ListedName, LocalDirectives, Configured;
  }

  /** Whatever the walk goes into below, it goes into this directory first. */
  lemma EntersFirst(env: Env, d: Node, rel: string, wc: WalkConfig, names: seq<string>, way: seq<Local>)
    requires Enters(env, Walking, d, rel, wc.excludes, wc.validBuildFileNames, names, way)
    ensures |way| == |names| + 1 && WalkedHere(env, d, rel, wc, way[0])
    ensures d.Dir?
  {
    hide Enters;
    EntersShape(env, Walking, d, rel, wc.excludes, wc.validBuildFileNames, names, way);
    DirOnTheWay(d, names);
    if names == [] {
      assert way == [way[0]];
    } else {
      ConfiguredIs(env, rel, wc, way[0].ds);
      assert way[..1] == [way[0]];
      EntersDeeper(env, Walking, d, rel, wc.excludes, Configured(env, rel, wc, way[0].ds).excludes,
                   wc.validBuildFileNames, names, way);
    }
  }

  /** Further down, it goes into one of the subdirectories. */
  lemma EntersChild(env: Env, d: Node, rel: string, wc: WalkConfig, names: seq<string>, way: seq<Local>)
    requires d.Dir? && names != [] && |way| == |names| + 1
    ensures var next := Configured(env, rel, wc, way[0].ds);
            Enters(env, Walking, d, rel, wc.excludes, wc.validBuildFileNames, names, way) <==>
            && WalkedHere(env, d, rel, wc, way[0]) && names[0] in Subdirs(env, d, rel, next)
            && Enters(env, Walking, d.entries[names[0]], EntryRel(rel, names[0]), next.excludes,
                      next.validBuildFileNames, names[1..], way[1..])
  {
    hide Enters, IsExcludedDir, Barred;
    var next, sub := Configured(env, rel, wc, way[0].ds), EntryRel(rel, names[0]);
    ConfiguredIs(env, rel, wc, way[0].ds);
    assert way[..1] == [way[0]];
    EntersDeeper(env, Walking, d, rel, wc.excludes, next.excludes, wc.validBuildFileNames, names, way);
    if Enters(env, Walking, d, rel, wc.excludes, wc.validBuildFileNames, names, way) {
      var child := d.entries[names[0]];
      EntersShape(env, Walking, child, sub, next.excludes, next.validBuildFileNames, names[1..], way[1..]);
      DirOnTheWay(child, names[1..]);
      EnteredNotBarred(env, Walking, child, sub, next.excludes, next.validBuildFileNames, names[1..], way[1..]);
      BarredIs(env, next.excludes, sub);
    }
  }

  /** The callback of a place below is that of the place as seen from the subdirectory. */
  lemma CallDeeper(env: Env, d: Node, rel: string, wc: WalkConfig, names: seq<string>, way: seq<Local>, v: Visit)
    requires d.Dir? && names != [] && |way| == |names| + 1 && names[0] in d.entries
    ensures Calls(env, d, rel, wc.excludes, names, way, v) <==>
            Calls(env, d.entries[names[0]], EntryRel(rel, names[0]), Configured(env, rel, wc, way[0].ds).excludes,
                  names[1..], way[1..], v)
  {
    hide DirExcluded, FileExcluded;
    var next, sub, child := Configured(env, rel, wc, way[0].ds), EntryRel(rel, names[0]), d.entries[names[0]];
    ConfiguredIs(env, rel, wc, way[0].ds);
    NodeBelow(d, names);
    if NodeAt(d, names).Some? && NodeAt(d, names).value.Dir? {
      forall n ensures Regular(env, d, rel, wc.excludes, names, way, n) <==>
                       Regular(env, child, sub, next.excludes, names[1..], way[1..], n)
      {
        assert (names + [n])[1..] == names[1..] + [n];
        ExcludedDeeper(env, wc.excludes, next.excludes, rel, names, way, |names| - 1, Sub(rel, names + [n]));
      }
    }
    hide Regular;
  }

  /** The callback of the directory itself. */
  lemma CallHere(env: Env, d: Node, rel: string, wc: WalkConfig, l: Local)
    requires d.Dir? && WalkedHere(env, d, rel, wc, l)
    ensures var next := Configured(env, rel, wc, l.ds);
            Calls(env, d, rel, wc.excludes, [], [l],
                  Visit(rel, BuildFile(d, l.buildFile), !next.ignore, Listing(RegularFiles(env, d, rel, next))))
  {
    var next := Configured(env, rel, wc, l.ds);
    var files := Listing(RegularFiles(env, d, rel, next));
    ConfiguredIs(env, rel, wc, l.ds);
    WalkedIs(env, d, rel, wc, l);
    ListedIsFile(env, d, l);
    hide WalkedHere, DirExcluded, FileExcluded, IsExcludedDir, IsExcludedFile, Configured, ListedName, LocalDirectives;
    forall n ensures n in files <==> Regular(env, d, rel, wc.excludes, [], [l], n) {
      assert n in files <==> n in Elements(files);
      SubOfEntry(rel, [], n);
      ExcludedIff(env, wc.excludes, next.excludes, rel, [], [l], EntryRel(rel, n));
      FileIsDirExcluded(env, next.excludes, EntryRel(rel, n));
    }
    hide Regular;
  }

  lemma FileIsDirExcluded(env: Env, excludes: seq<string>, p: string)
    ensures IsExcludedFile(env, excludes, p) ==> IsExcludedDir(env, excludes, p)
  {
  }

  lemma ListedIsFile(env: Env, d: Node, l: Local)
    requires d.Dir? && LocalDirectives(env, d.entries, l.buildFile) == Ok(l.ds)
    ensures IsBuildFile(d, l.buildFile, BuildFile(d, l.buildFile))
  {
  }

  // ------------------------------------------------------------------- the subdirectories

  ghost function Prefixed(n: string, ms: seq<seq<string>>): seq<seq<string>> {
    seq(|ms|, i requires 0 <= i < |ms| => [n] + ms[i])
  }

  /** The places below the directory that are reached through these subdirectories. */
  ghost predicate BelowThrough(env: Env, d: Node, rel: string, wc: WalkConfig, subs: seq<string>,
        ns: seq<seq<string>>)
  {
    && (forall m | m in ns :: m != [] && m[0] in subs)
    && forall names, way |
         Enters(env, Walking, d, rel, wc.excludes, wc.validBuildFileNames, names, way)
         && names != [] && names[0] in subs ::
         names in ns
  }

  /** The callbacks of one subdirectory, as seen from the directory. */
  lemma CallsOfChild(env: Env, d: Node, rel: string, wc: WalkConfig, l: Local, n: string, ms: seq<seq<string>>,
        visits: seq<Visit>)
    requires d.Dir? && WalkedHere(env, d, rel, wc, l) && n in Subdirs(env, d, rel, Configured(env, rel, wc, l.ds))
    requires CallsBack(env, d.entries[n], EntryRel(rel, n), Configured(env, rel, wc, l.ds), ms, visits)
    ensures Each(env, d, rel, wc, Prefixed(n, ms), visits) && InOrder(Prefixed(n, ms))
    ensures BelowThrough(env, d, rel, wc, [n], Prefixed(n, ms))
  {
    hide Enters, Calls, WalkedHere, Configured, Subdirs;
    var next, sub, ns := Configured(env, rel, wc, l.ds), EntryRel(rel, n), Prefixed(n, ms);
    SubdirIs(env, d, rel, next, n);
    forall i | 0 <= i < |ns| ensures Called(env, d, rel, wc, ns[i], visits[i]) {
      assert Called(env, d.entries[n], sub, next, ms[i], visits[i]);
      var rest :| IsCall(env, d.entries[n], sub, next, ms[i], rest, visits[i]);
      var way := [l] + rest;
      EntersShape(env, Walking, d.entries[n], sub, next.excludes, next.validBuildFileNames, ms[i], rest);
      assert ns[i][1..] == ms[i] && way[1..] == rest;
      EntersChild(env, d, rel, wc, ns[i], way);
      CallDeeper(env, d, rel, wc, ns[i], way, visits[i]);
      assert IsCall(env, d, rel, wc, ns[i], way, visits[i]);
    }
    forall i, j | 0 <= i < j < |ns| ensures Before(ns[i], ns[j]) {
      assert ns[i][1..] == ms[i] && ns[j][1..] == ms[j];
    }
    forall names, way | Enters(env, Walking, d, rel, wc.excludes, wc.validBuildFileNames, names, way)
                        && names != [] && names[0] in [n]
      ensures names in ns
    {
      EntersFirst(env, d, rel, wc, names, way);
      WalkedOnce(env, d, rel, wc, l, way[0]);
      EntersChild(env, d, rel, wc, names, way);
      var i :| 0 <= i < |ms| && ms[i] == names[1..];
      assert ns[i] == names;
    }
  }

  lemma SubdirIs(env: Env, d: Node, rel: string, wc: WalkConfig, n: string)
    requires d.Dir? && n in Subdirs(env, d, rel, wc)
    ensures n in d.entries && d.entries[n].Dir?
  {
  }

  /** A build file says one thing. */
  lemma WalkedOnce(env: Env, d: Node, rel: string, wc: WalkConfig, l: Local, m: Local)
    requires d.Dir? && WalkedHere(env, d, rel, wc, l) && WalkedHere(env, d, rel, wc, m)
    ensures l == m
  {
    WalkedIs(env, d, rel, wc, l);
    WalkedIs(env, d, rel, wc, m);
    hide WalkedHere, ListedName, LocalDirectives, IsExcludedDir, Configured;
  }

  /** The callbacks of one more subdirectory. */
  lemma OneMoreChild(env: Env, d: Node, rel: string, wc: WalkConfig, subs: seq<string>, n: string,
        before: seq<seq<string>>, ms: seq<seq<string>>, a: seq<Visit>, b: seq<Visit>)
    requires Each(env, d, rel, wc, before, a) && InOrder(before) && BelowThrough(env, d, rel, wc, subs, before)
    requires Each(env, d, rel, wc, Prefixed(n, ms), b) && InOrder(Prefixed(n, ms))
    requires BelowThrough(env, d, rel, wc, [n], Prefixed(n, ms))
    requires forall m | m in subs :: StringLeq(m, n) && m != n
    ensures Each(env, d, rel, wc, before + Prefixed(n, ms), a + b) && InOrder(before + Prefixed(n, ms))
    ensures BelowThrough(env, d, rel, wc, subs + [n], before + Prefixed(n, ms))
  {
    hide Called, Enters, StringLeq;
    var late := Prefixed(n, ms);
    var ns := before + late;
    forall i | 0 <= i < |ns| ensures Called(env, d, rel, wc, ns[i], (a + b)[i]) {
      if i < |before| {
        assert ns[i] == before[i] && (a + b)[i] == a[i];
      } else {
        assert ns[i] == late[i - |before|] && (a + b)[i] == b[i - |before|];
      }
    }
    forall i, j | 0 <= i < j < |ns| ensures Before(ns[i], ns[j]) {
      if j < |before| {
        assert ns[i] == before[i] && ns[j] == before[j];
      } else if i >= |before| {
        assert ns[i] == late[i - |before|] && ns[j] == late[j - |before|];
      } else {
        assert ns[i] in before && ns[j] == late[j - |before|] && ns[j][0] == n;
      }
    }
    forall m | m in ns ensures m != [] && m[0] in subs + [n] {
      assert m in before || m in late;
    }
    forall names, way | Enters(env, Walking, d, rel, wc.excludes, wc.validBuildFileNames, names, way)
                        && names != [] && names[0] in subs + [n]
      ensures names in ns
    {
      assert names[0] in subs || names[0] in [n];
    }
  }

  lemma {:induction false} CallsBelow(env: Env, d: Node, rel: string, wc: WalkConfig, l: Local, subs: seq<string>)
    returns (ns: seq<seq<string>>)
    requires d.Dir? && WalkedHere(env, d, rel, wc, l) && Sorted(subs) && NoDuplicates(subs)
    requires forall n | n in subs ::
               n in d.entries && d.entries[n].Dir? && n in Subdirs(env, d, rel, Configured(env, rel, wc, l.ds))
    requires VisitChildren(env, d, rel, Configured(env, rel, wc, l.ds), subs).Ok?
    ensures Each(env, d, rel, wc, ns, VisitChildren(env, d, rel, Configured(env, rel, wc, l.ds), subs).value)
    ensures InOrder(ns) && BelowThrough(env, d, rel, wc, subs, ns)
    decreases d, 0, |subs|
  {
    hide Called, Enters, WalkedHere, Visits, IsExcludedDir, Configured, StringLeq, Before;
    hide CallsBack, Each, InOrder, BelowThrough, Subdirs;
    ns := [];
    if subs == [] {
      NoneBelow(env, d, rel, wc);
    } else {
      var next, init, n := Configured(env, rel, wc, l.ds), subs[..|subs| - 1], subs[|subs| - 1];
      assert n in subs && subs == init + [n];
      ns := CallsBelow(env, d, rel, wc, l, init);
      var ms := VisitsAre(env, d.entries[n], EntryRel(rel, n), next);
      var visits := Visits(env, d.entries[n], EntryRel(rel, n), next).value;
      CallsOfChild(env, d, rel, wc, l, n, ms, visits);
      LastIsLater(subs, init, n);
      OneMoreChild(env, d, rel, wc, init, n, ns, ms, VisitChildren(env, d, rel, next, init).value, visits);
      ns := ns + Prefixed(n, ms);
    }
  }

  lemma NoneBelow(env: Env, d: Node, rel: string, wc: WalkConfig)
    ensures Each(env, d, rel, wc, [], []) && InOrder([]) && BelowThrough(env, d, rel, wc, [], [])
  {
  }

  lemma LastIsLater(subs: seq<string>, init: seq<string>, n: string)
    requires Sorted(subs) && NoDuplicates(subs) && subs == init + [n]
    ensures forall m | m in init :: StringLeq(m, n) && m != n
  {
    hide StringLeq;
    forall m | m in init ensures StringLeq(m, n) && m != n {
      var i :| 0 <= i < |init| && init[i] == m;
      assert subs[i] == m && subs[|init|] == n;
    }
  }

  /** Nothing is gone into where the directory itself is not. */
  lemma NothingCalled(env: Env, d: Node, rel: string, wc: WalkConfig)
    requires forall l :: !WalkedHere(env, d, rel, wc, l)
    ensures CallsBack(env, d, rel, wc, [], [])
  {
    hide Enters, WalkedHere;
    forall names, way | Enters(env, Walking, d, rel, wc.excludes, wc.validBuildFileNames, names, way) ensures false {
      EntersFirst(env, d, rel, wc, names, way);
    }
  }

  /** The callbacks of the subdirectories and then that of the directory are all. */
  lemma WithItself(env: Env, d: Node, rel: string, wc: WalkConfig, l: Local, subs: seq<string>,
        ns: seq<seq<string>>, below: seq<Visit>, v: Visit)
    requires d.Dir? && WalkedHere(env, d, rel, wc, l) && Calls(env, d, rel, wc.excludes, [], [l], v)
    requires Each(env, d, rel, wc, ns, below) && InOrder(ns) && BelowThrough(env, d, rel, wc, subs, ns)
    requires Elements(subs) == Subdirs(env, d, rel, Configured(env, rel, wc, l.ds))
    ensures CallsBack(env, d, rel, wc, ns + [[]], below + [v])
  {
    assert IsCall(env, d, rel, wc, [], [l], v);
    hide Called, Enters, Calls, WalkedHere, Subdirs, Configured, StringLeq;
    var all, visits := ns + [[]], below + [v];
    forall i | 0 <= i < |all| ensures Called(env, d, rel, wc, all[i], visits[i]) {
      if i < |ns| {
        assert all[i] == ns[i] && visits[i] == below[i];
      } else {
        assert Called(env, d, rel, wc, [], v) by { ItselfCalled(env, d, rel, wc, l, v); }
      }
    }
    forall i, j | 0 <= i < j < |all| ensures Before(all[i], all[j]) {
      assert all[i] == ns[i] && ns[i] in ns;
      assert j < |ns| ==> all[j] == ns[j];
    }
    forall names, way | Enters(env, Walking, d, rel, wc.excludes, wc.validBuildFileNames, names, way)
      ensures names in all
    {
      if names == [] {
        assert all[|ns|] == names;
      } else {
        EntersFirst(env, d, rel, wc, names, way);
        WalkedOnce(env, d, rel, wc, l, way[0]);
        EntersChild(env, d, rel, wc, names, way);
        assert names[0] in Elements(subs);
        assert names in ns;
      }
    }
  }

  lemma ItselfCalled(env: Env, d: Node, rel: string, wc: WalkConfig, l: Local, v: Visit)
    requires WalkedHere(env, d, rel, wc, l) && Calls(env, d, rel, wc.excludes, [], [l], v)
    ensures Called(env, d, rel, wc, [], v)
  {
    hide Enters, Calls;
    assert IsCall(env, d, rel, wc, [], [l], v);
  }

  /** The walk calls back exactly the packages of the directories it goes into, with what
      nothing in force there excludes, subdirectories first and by name. */
  lemma {:induction false} VisitsAre(env: Env, d: Node, rel: string, wc: WalkConfig) returns (ns: seq<seq<string>>)
    requires d.Dir? && Visits(env, d, rel, wc).Ok?
    ensures CallsBack(env, d, rel, wc, ns, Visits(env, d, rel, wc).value)
    decreases d, 1, 0
  {
    hide Enters, WalkedHere, Calls, IsExcludedDir, Configured, ListedName, LocalDirectives, CallsBack, Each, InOrder;
    forall m ensures WalkedHere(env, d, rel, wc, m) <==>
            && m.buildFile == ListedName(wc.validBuildFileNames, d)
            && LocalDirectives(env, d.entries, m.buildFile) == Ok(m.ds)
            && !IsExcludedDir(env, Configured(env, rel, wc, m.ds).excludes, rel)
      ensures WalkedHere(env, d, rel, wc, m) ==> !IsExcludedDir(env, wc.excludes, rel)
    {
      WalkedIs(env, d, rel, wc, m);
    }
    ns := [];
    if rel != "" && IsExcludedDir(env, wc.excludes, rel) {
      NothingCalled(env, d, rel, wc);
      return;
    }
    var name := ListedName(wc.validBuildFileNames, d);
    var l := Local(name, LocalDirectives(env, d.entries, name).value);
    var next := Configured(env, rel, wc, l.ds);
    if IsExcludedDir(env, next.excludes, rel) {
      NothingCalled(env, d, rel, wc);
      return;
    }
    var subs := Listing(Subdirs(env, d, rel, next));
    assert forall n | n in subs :: n in Elements(subs);
    var below := CallsBelow(env, d, rel, wc, l, subs);
    CallHere(env, d, rel, wc, l);
    WithItself(env, d, rel, wc, l, subs, below, VisitChildren(env, d, rel, next, subs).value,
               Visit(rel, BuildFile(d, name), !next.ignore, Listing(RegularFiles(env, d, rel, next))));
    ns := below + [[]];
  }

  // -------------------------------------------------------------- when the walk fails

  /** Where the walk stops, if it fails. */
  lemma {:induction false} WalkStopsWhere(env: Env, d: Node, rel: string, wc: WalkConfig)
    returns (names: seq<string>, way: seq<Local>)
    requires d.Dir? && Visits(env, d, rel, wc).Err?
    ensures Fails(env, Walking, d, rel, wc.excludes, wc.validBuildFileNames, names, way)
    decreases d
  {
    var name := ListedName(wc.validBuildFileNames, d);
    NothingSays(env, Walking, d, wc.validBuildFileNames);
    BarredIs(env, wc.excludes, rel);
    names, way := [], [];
    if LocalDirectives(env, d.entries, name).Ok? {
      var ds := LocalDirectives(env, d.entries, name).value;
      var l, next := Local(name, ds), Configured(env, rel, wc, ds);
      var subs := Listing(Subdirs(env, d, rel, next));
      assert forall n | n in subs :: n in Elements(subs);
      assert !IsExcludedDir(env, next.excludes, rel) && VisitChildren(env, d, rel, next, subs).Err?;
      hide ListedName, LocalDirectives, Configured, IsExcludedDir, Says, Barred, Enters, Fails, Visits, VisitChildren;
      ChildrenOkIff(env, d, rel, next, subs);
      var n :| n in subs && Visits(env, d.entries[n], EntryRel(rel, n), next).Err?;
      WalkedIs(env, d, rel, wc, l);
      var rest, below := WalkStopsWhere(env, d.entries[n], EntryRel(rel, n), next);
      names, way := [n] + rest, [l] + below;
      FailsShape(env, Walking, d.entries[n], EntryRel(rel, n), next.excludes, next.validBuildFileNames, rest, below);
      assert names[1..] == rest && way[1..] == below && way[..1] == [l];
      ConfiguredIs(env, rel, wc, ds);
      BarredIs(env, next.excludes, EntryRel(rel, n));
      FailsDeeper(env, Walking, d, rel, wc.excludes, next.excludes, wc.validBuildFileNames, names, way);
    }
  }

  /** Where a build file cannot be read, the walk fails. */
  lemma {:induction false} WalkFailsIfStops(env: Env, d: Node, rel: string, wc: WalkConfig, names: seq<string>,
        way: seq<Local>)
    requires d.Dir? && Fails(env, Walking, d, rel, wc.excludes, wc.validBuildFileNames, names, way)
    ensures Visits(env, d, rel, wc).Err?
    decreases |names|
  {
    FailsShape(env, Walking, d, rel, wc.excludes, wc.validBuildFileNames, names, way);
    if names == [] {
      NothingSays(env, Walking, d, wc.validBuildFileNames);
      BarredIs(env, wc.excludes, rel);
      assert NodeAt(d, names).value == d && NamesBelow(wc.validBuildFileNames, way) == wc.validBuildFileNames;
      hide ListedName, LocalDirectives, IsExcludedDir, Says, Barred, VisitChildren;
    } else {
      hide ListedName, LocalDirectives, Configured, IsExcludedDir, Says, Barred, Enters, Fails, Visits, VisitChildren;
      var n, l := names[0], way[0];
      NodeBelow(d, names);
      var next, sub := Configured(env, rel, wc, l.ds), EntryRel(rel, n);
      ConfiguredIs(env, rel, wc, l.ds);
      FailsDeeper(env, Walking, d, rel, wc.excludes, next.excludes, wc.validBuildFileNames, names, way);
      assert way[..1] == [l];
      DirOnTheWay(d.entries[n], names[1..]);
      WalkFailsIfStops(env, d.entries[n], sub, next, names[1..], way[1..]);
      BarredIs(env, next.excludes, sub);
      ChildStopsWalk(env, d, rel, wc, l, n);
    }
  }

  lemma ChildStopsWalk(env: Env, d: Node, rel: string, wc: WalkConfig, l: Local, n: string)
    requires d.Dir? && WalkedHere(env, d, rel, wc, l) && n in d.entries && d.entries[n].Dir?
    requires !IsExcludedDir(env, Configured(env, rel, wc, l.ds).excludes, EntryRel(rel, n))
    requires Visits(env, d.entries[n], EntryRel(rel, n), Configured(env, rel, wc, l.ds)).Err?
    ensures Visits(env, d, rel, wc).Err?
  {
    hide WalkedHere, ListedName, LocalDirectives, Configured, IsExcludedDir, VisitChildren;
    WalkedIs(env, d, rel, wc, l);
    var next := Configured(env, rel, wc, l.ds);
    var subs := Listing(Subdirs(env, d, rel, next));
    assert n in Elements(subs);
    assert forall m | m in subs :: m in Elements(subs);
    ChildrenOkIff(env, d, rel, next, subs);
  }

  lemma WalkFailsIff(env: Env, d: Node, rel: string, wc: WalkConfig)
    requires d.Dir?
    ensures Visits(env, d, rel, wc).Err? <==>
            exists names, way :: Fails(env, Walking, d, rel, wc.excludes, wc.validBuildFileNames, names, way)
  {
    hide Visits, Fails;
    if Visits(env, d, rel, wc).Err? {
      var names, way := WalkStopsWhere(env, d, rel, wc);
    }
    if names, way :| Fails(env, Walking, d, rel, wc.excludes, wc.validBuildFileNames, names, way) {
      WalkFailsIfStops(env, d, rel, wc, names, way);
    }
  }

  // --------------------------------------------------------------- the whole repository

  /** Builds a repository's snapshot and walks it. If no directory that the build comes to,
      and none that the walk comes to, has a build file that cannot be read, then the
      packages called back are those of the directories of the repository on whose path
      nothing is excluded; `ns` are their names from the root. */
  method WalkRepository(env: Env, root: Node, cfg: TraversalConfig, wc: WalkConfig)
    returns (r: Built<seq<Visit>>, ghost ns: seq<seq<string>>)
    requires root.Dir? && ValidNames(root) && Covers(wc, cfg)
    ensures (exists names, way :: Fails(env, Building, root, "", cfg.excludes, cfg.validBuildFileNames, names, way))
              ==> r.Err?
    ensures (forall names, way ::
               && !Fails(env, Building, root, "", cfg.excludes, cfg.validBuildFileNames, names, way)
               && !Fails(env, Walking, root, "", wc.excludes, wc.validBuildFileNames, names, way))
              ==> r.Ok? && CallsBack(env, root, "", wc, ns, r.value)
                  && forall i | 0 <= i < |ns| :: r.value[i].rel == P.Join(ns[i])
  {
    hide Prune, Visits, FindsFiles, Fails, CallsBack, ValidNames, Covers;
    BuildFailsIff(env, root, cfg);
    WalkFailsIff(env, root, "", wc);
    r := BuildAndWalk(env, root, cfg, wc);
    ns := [];
    if Prune(env, root, "", cfg).Ok? && Visits(env, root, "", wc).Ok? {
      PruningPreservesWalk(env, root, "", cfg, wc);
      ns := VisitsAre(env, root, "", wc);
      PathsCalled(env, root, wc, ns, r.value);
    }
  }

  lemma PathsCalled(env: Env, root: Node, wc: WalkConfig, ns: seq<seq<string>>, visits: seq<Visit>)
    requires root.Dir? && ValidNames(root) && CallsBack(env, root, "", wc, ns, visits)
    ensures |ns| == |visits| && forall i | 0 <= i < |ns| :: visits[i].rel == P.Join(ns[i])
  {
    hide Enters, ValidNames;
    forall i | 0 <= i < |ns| ensures visits[i].rel == P.Join(ns[i]) {
      assert Called(env, root, "", wc, ns[i], visits[i]);
      var way :| IsCall(env, root, "", wc, ns[i], way, visits[i]);
      NamesAreValid(root, ns[i]);
      SubIsJoin(ns[i]);
    }
  }
}
