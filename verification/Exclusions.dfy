/** Which directories and files are excluded, in terms of the tree, the patterns, and what
    the build files on the way say; and that building and walking keep exactly the rest. */
module Exclusions {
  import opened Options
  import opened Sorting
  import opened TreeBuild
  import opened PrunedWalk
  import P = Paths

  /** The build takes any entry but a directory for a build file, the walk any that is
      listed. */
  datatype Pass = Building | Walking

  /** What a directory's build file is, and what it says; nothing if there is none. */
  datatype Local = Local(buildFile: Option<string>, ds: seq<Directive>)

  // ------------------------------------------------------------- places in a tree

  function NodeAt(d: Node, names: seq<string>): Option<Node> {
    if names == [] then Some(d)
    else if d.Dir? && names[0] in d.entries then NodeAt(d.entries[names[0]], names[1..])
    else None
  }

  /** The path of the place that `names` lead to from the directory at `rel`. */
  function Sub(rel: string, names: seq<string>): string
    decreases |names|
  {
    if names == [] then rel else Sub(EntryRel(rel, names[0]), names[1..])
  }

  // -------------------------------------------------------------------- directives

  predicate Bears(pass: Pass, entries: map<string, Node>, name: string) {
    name in entries && if pass.Building? then !entries[name].Dir? else !entries[name].Other?
  }

  /** The first valid name that is borne by what the pass takes for a build file. */
  ghost predicate FirstName(pass: Pass, entries: map<string, Node>, valid: seq<string>, name: Option<string>) {
    match name
    case None => forall i | 0 <= i < |valid| :: !Bears(pass, entries, valid[i])
    case Some(n) =>
      exists i :: 0 <= i < |valid| && valid[i] == n && Bears(pass, entries, n)
        && forall j | 0 <= j < i :: !Bears(pass, entries, valid[j])
  }

  /** The directory's build file says this. */
  ghost predicate Says(env: Env, pass: Pass, d: Node, valid: seq<string>, l: Local) {
    && d.Dir? && FirstName(pass, d.entries, valid, l.buildFile)
    && match l.buildFile
       case None => l.ds == []
       case Some(n) => n in d.entries && d.entries[n].File? && env.directives(d.entries[n].content) == Some(l.ds)
  }

  /** The valid names after some directives: the last one that sets them counts. */
  function NamesAfter(valid: seq<string>, ds: seq<Directive>): seq<string> {
    if ds == [] then valid
    else if ds[|ds| - 1].key == "build_file_name" then SplitComma(ds[|ds| - 1].value)
    else NamesAfter(valid, ds[..|ds| - 1])
  }

  function NamesBelow(valid: seq<string>, way: seq<Local>): seq<string>
    decreases |way|
  {
    if way == [] then valid else NamesBelow(NamesAfter(valid, way[0].ds), way[1..])
  }

  /** The directives in the directory at `rel` exclude this pattern. */
  ghost predicate Excludes(env: Env, rel: string, ds: seq<Directive>, g: string) {
    exists d :: d in ds && d.key == "exclude" && g == env.join(rel, d.value) && env.validGlob(g)
  }

  // --------------------------------------------------------------------- exclusion

  /** The pattern is in force in the directory after the first `k` names: it was from the
      start, or a build file on the way excludes it. */
  ghost predicate InForce(env: Env, excludes: seq<string>, rel: string, names: seq<string>, way: seq<Local>, k: nat,
        g: string)
    requires k <= |names| && k < |way|
  {
    g in excludes || exists i :: 0 <= i <= k && Excludes(env, Sub(rel, names[..i]), way[i].ds, g)
  }

  /** The path is that of a directory excluded by what is in force there. */
  ghost predicate DirExcluded(env: Env, excludes: seq<string>, rel: string, names: seq<string>, way: seq<Local>,
        k: nat, p: string)
    requires k <= |names| && k < |way|
  {
    || P.PathBase(p) == ".git"
    || p in env.ignorePaths
    || (exists g :: g in env.ignoreDirectoryGlobs && env.globMatches(g, p))
    || (exists g :: InForce(env, excludes, rel, names, way, k, g) && env.globMatches(g, p))
  }

  ghost predicate FileExcluded(env: Env, excludes: seq<string>, rel: string, names: seq<string>, way: seq<Local>,
        k: nat, p: string)
    requires k <= |names| && k < |way|
  {
    || p in env.ignorePaths
    || (exists g :: InForce(env, excludes, rel, names, way, k, g) && env.globMatches(g, p))
  }

  /** The names lead through directories whose build files say `way`. */
  ghost predicate Leads(env: Env, pass: Pass, d: Node, valid: seq<string>, names: seq<string>, way: seq<Local>) {
    && |way| == |names| + 1
    && forall i | 0 <= i <= |names| ::
         && NodeAt(d, names[..i]).Some?
         && Says(env, pass, NodeAt(d, names[..i]).value, NamesBelow(valid, way[..i]), way[i])
  }

  /** And none of them is excluded, by its own build file or those above it. The build does
      not ask about the root. */
  ghost predicate Enters(env: Env, pass: Pass, d: Node, rel: string, excludes: seq<string>, valid: seq<string>,
        names: seq<string>, way: seq<Local>)
  {
    && Leads(env, pass, d, valid, names, way)
    && forall i | 0 <= i <= |names| && (pass.Walking? || Sub(rel, names[..i]) != "") ::
         !DirExcluded(env, excludes, rel, names, way, i, Sub(rel, names[..i]))
  }

  // ----------------------------------------------------------- one directory deeper

  lemma Deeper(names: seq<string>, way: seq<Local>, i: nat)
    requires names != [] && |way| == |names| + 1 && i < |names|
    ensures names[..i + 1][0] == names[0] && names[..i + 1][1..] == names[1..][..i]
    ensures way[..i + 1][0] == way[0] && way[..i + 1][1..] == way[1..][..i]
  {
  }

  lemma SubDeeper(rel: string, names: seq<string>, i: nat)
    requires names != [] && i < |names|
    ensures Sub(rel, names[..i + 1]) == Sub(EntryRel(rel, names[0]), names[1..][..i])
  {
    assert names[..i + 1][0] == names[0] && names[..i + 1][1..] == names[1..][..i];
  }

  /** The patterns in force below, when `more` are those of the directory itself. */
  ghost predicate Extends(env: Env, excludes: seq<string>, rel: string, ds: seq<Directive>, more: seq<string>) {
    forall g :: g in more <==> g in excludes || Excludes(env, rel, ds, g)
  }

  lemma InForceDeeper(env: Env, excludes: seq<string>, more: seq<string>, rel: string, names: seq<string>,
        way: seq<Local>, k: nat, g: string)
    requires names != [] && |way| == |names| + 1 && k < |names| && Extends(env, excludes, rel, way[0].ds, more)
    ensures InForce(env, excludes, rel, names, way, k + 1, g) <==>
            InForce(env, more, EntryRel(rel, names[0]), names[1..], way[1..], k, g)
  {
    var sub, rest := names[1..], way[1..];
    if i :| 0 <= i <= k && Excludes(env, Sub(EntryRel(rel, names[0]), sub[..i]), rest[i].ds, g) {
      SubDeeper(rel, names, i);
      assert Excludes(env, Sub(rel, names[..i + 1]), way[i + 1].ds, g);
    }
    assert Sub(rel, names[..0]) == rel;
    if g in more && g !in excludes {
      assert Excludes(env, Sub(rel, names[..0]), way[0].ds, g);
    }
    if i :| 0 <= i <= k + 1 && Excludes(env, Sub(rel, names[..i]), way[i].ds, g) {
      if i > 0 {
        SubDeeper(rel, names, i - 1);
        assert Excludes(env, Sub(EntryRel(rel, names[0]), sub[..i - 1]), rest[i - 1].ds, g);
      }
    }
  }

  lemma ExcludedDeeper(env: Env, excludes: seq<string>, more: seq<string>, rel: string, names: seq<string>,
        way: seq<Local>, k: nat, p: string)
    requires names != [] && |way| == |names| + 1 && k < |names| && Extends(env, excludes, rel, way[0].ds, more)
    ensures DirExcluded(env, excludes, rel, names, way, k + 1, p) <==>
            DirExcluded(env, more, EntryRel(rel, names[0]), names[1..], way[1..], k, p)
    ensures FileExcluded(env, excludes, rel, names, way, k + 1, p) <==>
            FileExcluded(env, more, EntryRel(rel, names[0]), names[1..], way[1..], k, p)
  {
    hide InForce;
    forall g ensures InForce(env, excludes, rel, names, way, k + 1, g) <==>
                     InForce(env, more, EntryRel(rel, names[0]), names[1..], way[1..], k, g)
    {
      InForceDeeper(env, excludes, more, rel, names, way, k, g);
    }
  }

  lemma LeadsDeeper(env: Env, pass: Pass, d: Node, valid: seq<string>, names: seq<string>, way: seq<Local>)
    requires names != [] && |way| == |names| + 1
    ensures Leads(env, pass, d, valid, names, way) <==>
            && Says(env, pass, d, valid, way[0]) && d.Dir? && names[0] in d.entries
            && Leads(env, pass, d.entries[names[0]], NamesAfter(valid, way[0].ds), names[1..], way[1..])
  {
    hide Says, NamesAfter;
    LeadsFirst(env, pass, d, valid, names, way);
    if Says(env, pass, d, valid, way[0]) && d.Dir? && names[0] in d.entries {
      forall i | 0 <= i < |names|
        ensures NodeAt(d, names[..i + 1]) == NodeAt(d.entries[names[0]], names[1..][..i])
        ensures NamesBelow(valid, way[..i + 1]) == NamesBelow(NamesAfter(valid, way[0].ds), way[1..][..i])
      {
        Deeper(names, way, i);
      }
      LeadsShift(env, pass, d, valid, names, way);
    }
  }

  lemma LeadsFirst(env: Env, pass: Pass, d: Node, valid: seq<string>, names: seq<string>, way: seq<Local>)
    requires names != [] && |way| == |names| + 1
    ensures Leads(env, pass, d, valid, names, way) ==>
              Says(env, pass, d, valid, way[0]) && d.Dir? && names[0] in d.entries
  {
    hide Says, NamesAfter;
    if Leads(env, pass, d, valid, names, way) {
      Here(d, valid, names, way);
      assert NodeAt(d, names[..0]).Some?;
      SaysDir(env, pass, d, valid, way[0]);
      assert NodeAt(d, names[..1]).Some?;
      assert names[..1][0] == names[0];
    }
  }

  lemma SaysDir(env: Env, pass: Pass, d: Node, valid: seq<string>, l: Local)
    ensures Says(env, pass, d, valid, l) ==> d.Dir?
  {
  }

  lemma LeadsShift(env: Env, pass: Pass, d: Node, valid: seq<string>, names: seq<string>, way: seq<Local>)
    requires names != [] && |way| == |names| + 1
    requires Says(env, pass, d, valid, way[0]) && d.Dir? && names[0] in d.entries
    requires forall i | 0 <= i < |names| ::
               && NodeAt(d, names[..i + 1]) == NodeAt(d.entries[names[0]], names[1..][..i])
               && NamesBelow(valid, way[..i + 1]) == NamesBelow(NamesAfter(valid, way[0].ds), way[1..][..i])
    ensures Leads(env, pass, d, valid, names, way) <==>
            Leads(env, pass, d.entries[names[0]], NamesAfter(valid, way[0].ds), names[1..], way[1..])
  {
    hide Says, NamesAfter, NamesBelow, NodeAt;
    if Leads(env, pass, d, valid, names, way) {
      forall i | 0 <= i <= |names[1..]|
        ensures NodeAt(d.entries[names[0]], names[1..][..i]).Some?
        ensures Says(env, pass, NodeAt(d.entries[names[0]], names[1..][..i]).value,
                     NamesBelow(NamesAfter(valid, way[0].ds), way[1..][..i]), way[1..][i])
      {
        assert NodeAt(d, names[..i + 1]).Some?;
      }
    }
    if Leads(env, pass, d.entries[names[0]], NamesAfter(valid, way[0].ds), names[1..], way[1..]) {
      forall i | 0 <= i <= |names|
        ensures NodeAt(d, names[..i]).Some?
        ensures Says(env, pass, NodeAt(d, names[..i]).value, NamesBelow(valid, way[..i]), way[i])
      {
        if i == 0 {
          Here(d, valid, names, way);
        } else {
          assert NodeAt(d.entries[names[0]], names[1..][..i - 1]).Some?;
          assert way[1..][i - 1] == way[i];
        }
      }
    }
  }

  lemma Here(d: Node, valid: seq<string>, names: seq<string>, way: seq<Local>)
    ensures NodeAt(d, names[..0]) == Some(d) && NamesBelow(valid, way[..0]) == valid
  {
  }

  /** A directory below is entered exactly if this one is, and it is from here. */
  lemma EntersDeeper(env: Env, pass: Pass, d: Node, rel: string, excludes: seq<string>, more: seq<string>,
        valid: seq<string>, names: seq<string>, way: seq<Local>)
    requires names != [] && |way| == |names| + 1 && Extends(env, excludes, rel, way[0].ds, more)
    ensures Enters(env, pass, d, rel, excludes, valid, names, way) <==>
            && Enters(env, pass, d, rel, excludes, valid, [], way[..1]) && d.Dir? && names[0] in d.entries
            && Enters(env, pass, d.entries[names[0]], EntryRel(rel, names[0]), more, NamesAfter(valid, way[0].ds),
                      names[1..], way[1..])
  {
    hide Says, NamesAfter, DirExcluded, Leads;
    LeadsDeeper(env, pass, d, valid, names, way);
    LeadsHere(env, pass, d, valid, way[..1]);
    SaysDir(env, pass, d, valid, way[0]);
    assert names[..0] == [] && way[..1][0] == way[0];
    FirstExcluded(env, excludes, rel, names, way);
    var sub := EntryRel(rel, names[0]);
    forall i | 0 <= i < |names|
      ensures Sub(rel, names[..i + 1]) == Sub(sub, names[1..][..i])
      ensures DirExcluded(env, excludes, rel, names, way, i + 1, Sub(rel, names[..i + 1])) <==>
              DirExcluded(env, more, sub, names[1..], way[1..], i, Sub(sub, names[1..][..i]))
    {
      SubDeeper(rel, names, i);
      ExcludedDeeper(env, excludes, more, rel, names, way, i, Sub(rel, names[..i + 1]));
    }
    ExclusionShift(env, pass, excludes, more, rel, names, way);
  }

  lemma LeadsHere(env: Env, pass: Pass, d: Node, valid: seq<string>, way: seq<Local>)
    requires |way| == 1
    ensures Leads(env, pass, d, valid, [], way) <==> Says(env, pass, d, valid, way[0])
  {
    hide Says;
    assert way[..0] == [];
    var none: seq<string> := [];
    assert none[..0] == [];
  }

  lemma FirstExcluded(env: Env, excludes: seq<string>, rel: string, names: seq<string>, way: seq<Local>)
    requires |way| == |names| + 1
    ensures DirExcluded(env, excludes, rel, names, way, 0, Sub(rel, names[..0])) <==>
            DirExcluded(env, excludes, rel, [], way[..1], 0, rel)
  {
    var none: seq<string> := [];
    assert names[..0] == [] && none[..0] == [] && way[..1][0] == way[0];
    forall g
      ensures InForce(env, excludes, rel, names, way, 0, g) <==> InForce(env, excludes, rel, [], way[..1], 0, g)
    {
      assert Excludes(env, Sub(rel, names[..0]), way[0].ds, g) <==>
             Excludes(env, Sub(rel, none[..0]), way[..1][0].ds, g);
    }
  }

  ghost predicate NoneExcluded(env: Env, pass: Pass, excludes: seq<string>, rel: string, names: seq<string>,
        way: seq<Local>)
    requires |way| == |names| + 1
  {
    forall i | 0 <= i <= |names| && (pass.Walking? || Sub(rel, names[..i]) != "") ::
      !DirExcluded(env, excludes, rel, names, way, i, Sub(rel, names[..i]))
  }

  lemma ExclusionShift(env: Env, pass: Pass, excludes: seq<string>, more: seq<string>, rel: string,
        names: seq<string>, way: seq<Local>)
    requires names != [] && |way| == |names| + 1
    requires forall i | 0 <= i < |names| ::
               && Sub(rel, names[..i + 1]) == Sub(EntryRel(rel, names[0]), names[1..][..i])
               && (DirExcluded(env, excludes, rel, names, way, i + 1, Sub(rel, names[..i + 1])) <==>
                   DirExcluded(env, more, EntryRel(rel, names[0]), names[1..], way[1..], i,
                               Sub(EntryRel(rel, names[0]), names[1..][..i])))
    requires DirExcluded(env, excludes, rel, names, way, 0, Sub(rel, names[..0])) <==>
             DirExcluded(env, excludes, rel, [], way[..1], 0, rel)
    ensures NoneExcluded(env, pass, excludes, rel, names, way) <==>
            && NoneExcluded(env, pass, excludes, rel, [], way[..1])
            && NoneExcluded(env, pass, more, EntryRel(rel, names[0]), names[1..], way[1..])
  {
    hide DirExcluded;
    var sub := EntryRel(rel, names[0]);
    var none: seq<string> := [];
    assert names[..0] == [] && none[..0] == [] && Sub(rel, names[..0]) == rel;
    if NoneExcluded(env, pass, excludes, rel, names, way) {
      forall i | 0 <= i <= |names[1..]| && (pass.Walking? || Sub(sub, names[1..][..i]) != "")
        ensures !DirExcluded(env, more, sub, names[1..], way[1..], i, Sub(sub, names[1..][..i]))
      {
        assert !DirExcluded(env, excludes, rel, names, way, i + 1, Sub(rel, names[..i + 1]));
      }
    }
    if NoneExcluded(env, pass, excludes, rel, [], way[..1])
       && NoneExcluded(env, pass, more, sub, names[1..], way[1..]) {
      forall i | 0 <= i <= |names| && (pass.Walking? || Sub(rel, names[..i]) != "")
        ensures !DirExcluded(env, excludes, rel, names, way, i, Sub(rel, names[..i]))
      {
        if i > 0 {
          assert Sub(rel, names[..i - 1 + 1]) == Sub(sub, names[1..][..i - 1]);
        } else {
          assert Sub(rel, none[..0]) == rel;
        }
      }
    }
  }

  /** The parts of a "build_file_name" value put together again. */
  function Commas(parts: seq<string>): string {
    if parts == [] then "" else if |parts| == 1 then parts[0] else parts[0] + "," + Commas(parts[1..])
  }

  /** The valid names that a value gives are its parts between the commas. */
  lemma {:induction false} SplitCommaIs(s: string)
    ensures SplitComma(s) != [] && Commas(SplitComma(s)) == s
    ensures forall i | 0 <= i < |SplitComma(s)| :: ',' !in SplitComma(s)[i]
  {
    if s != "" {
      var rest := SplitComma(s[1..]);
      SplitCommaIs(s[1..]);
      assert s == [s[0]] + s[1..];
      if s[0] == ',' {
        assert ([""] + rest)[1..] == rest;
      } else {
        assert ([[s[0]] + rest[0]] + rest[1..])[1..] == rest[1..];
      }
    }
  }

  // ---------------------------------------------------- what the passes themselves ask

  lemma {:induction false} BuildNameIff(entries: map<string, Node>, valid: seq<string>, name: Option<string>)
    ensures FirstName(Building, entries, valid, name) <==> name == BuildName(valid, entries)
  {
    if valid != [] {
      BuildNameIff(entries, valid[1..], name);
      FirstNameTail(Building, entries, valid, name);
    }
  }

  lemma {:induction false} ListedNameIff(d: Node, valid: seq<string>, name: Option<string>)
    requires d.Dir?
    ensures FirstName(Walking, d.entries, valid, name) <==> name == ListedName(valid, d)
  {
    if valid != [] {
      ListedNameIff(d, valid[1..], name);
      FirstNameTail(Walking, d.entries, valid, name);
    }
  }

  lemma FirstNameTail(pass: Pass, entries: map<string, Node>, valid: seq<string>, name: Option<string>)
    requires valid != []
    ensures FirstName(pass, entries, valid, name) <==>
            if Bears(pass, entries, valid[0]) then name == Some(valid[0])
            else FirstName(pass, entries, valid[1..], name)
  {
    hide Bears;
    var rest := valid[1..];
    assert forall i | 0 <= i < |rest| :: rest[i] == valid[i + 1];
    if name.Some? {
      if i :| 0 <= i < |valid| && valid[i] == name.value && Bears(pass, entries, name.value)
              && forall j | 0 <= j < i :: !Bears(pass, entries, valid[j]) {
        if i > 0 {
          assert rest[i - 1] == name.value;
          assert forall j | 0 <= j < i - 1 :: !Bears(pass, entries, rest[j]);
        }
      }
      if i :| 0 <= i < |rest| && rest[i] == name.value && Bears(pass, entries, name.value)
              && forall j | 0 <= j < i :: !Bears(pass, entries, rest[j]) {
        if !Bears(pass, entries, valid[0]) {
          forall j | 0 <= j < i + 1 ensures !Bears(pass, entries, valid[j]) {
            if j > 0 { assert valid[j] == rest[j - 1]; }
          }
          assert valid[i + 1] == name.value;
        }
      }
    }
  }

  /** What a build file says is what the build and the walk read from it. */
  lemma SaysIff(env: Env, d: Node, valid: seq<string>, l: Local)
    requires d.Dir?
    ensures Says(env, Building, d, valid, l) <==>
            && l.buildFile == BuildName(valid, d.entries)
            && LocalDirectives(env, d.entries, l.buildFile) == Ok(l.ds)
    ensures Says(env, Walking, d, valid, l) <==>
            && l.buildFile == ListedName(valid, d)
            && LocalDirectives(env, d.entries, l.buildFile) == Ok(l.ds)
  {
    BuildNameIff(d.entries, valid, l.buildFile);
    ListedNameIff(d, valid, l.buildFile);
    hide FirstName, BuildName, ListedName;
  }

  lemma ExtendsOne(env: Env, excludes: seq<string>, rel: string, ds: seq<Directive>, more: seq<string>,
        d: Directive, next: seq<string>)
    requires Extends(env, excludes, rel, ds, more)
    requires next == if d.key == "exclude" && env.validGlob(env.join(rel, d.value)) then more + [env.join(rel, d.value)]
                     else more
    ensures Extends(env, excludes, rel, ds + [d], next)
  {
    var all := ds + [d];
    forall g ensures g in next <==> g in excludes || Excludes(env, rel, all, g) {
      if e :| e in ds && e.key == "exclude" && g == env.join(rel, e.value) && env.validGlob(g) {
        assert e in all;
      }
      if e :| e in all && e.key == "exclude" && g == env.join(rel, e.value) && env.validGlob(g) {
        assert e in ds || e == d;
      }
      assert d in all;
    }
  }

  /** The build's configuration below a directory, in terms of its directives. */
  lemma {:induction false} AfterDirectivesIs(env: Env, rel: string, cfg: TraversalConfig, ds: seq<Directive>)
    ensures AfterDirectives(env, rel, cfg, ds).validBuildFileNames == NamesAfter(cfg.validBuildFileNames, ds)
    ensures Extends(env, cfg.excludes, rel, ds, AfterDirectives(env, rel, cfg, ds).excludes)
  {
    if ds != [] {
      var init, last := ds[..|ds| - 1], ds[|ds| - 1];
      AfterDirectivesIs(env, rel, cfg, init);
      ExtendsOne(env, cfg.excludes, rel, init, AfterDirectives(env, rel, cfg, init).excludes, last,
                 AfterDirectives(env, rel, cfg, ds).excludes);
      assert init + [last] == ds;
    }
  }

  /** The walk's configuration of a directory. The last "build_file_name" counts, and
      "ignore" is not inherited. */
  lemma {:induction false} ConfiguredIs(env: Env, rel: string, wc: WalkConfig, ds: seq<Directive>)
    ensures Configured(env, rel, wc, ds).validBuildFileNames == NamesAfter(wc.validBuildFileNames, ds)
    ensures Extends(env, wc.excludes, rel, ds, Configured(env, rel, wc, ds).excludes)
    ensures Configured(env, rel, wc, ds).ignore <==> exists d :: d in ds && d.key == "ignore"
  {
    if ds != [] {
      var init, last := ds[..|ds| - 1], ds[|ds| - 1];
      ConfiguredIs(env, rel, wc, init);
      ExtendsOne(env, wc.excludes, rel, init, Configured(env, rel, wc, init).excludes, last,
                 Configured(env, rel, wc, ds).excludes);
      assert init + [last] == ds;
      assert last in ds && forall d :: d in ds <==> d in init || d == last;
    }
  }

  lemma MatchesIff(env: Env, globs: seq<string>, p: string)
    ensures MatchesAny(env, globs, p) <==> exists g :: g in globs && env.globMatches(g, p)
  {
    if g :| g in globs && env.globMatches(g, p) {
      var i :| 0 <= i < |globs| && globs[i] == g;
    }
  }

  /** What the passes ask in a directory is whether what is in force there excludes the
      path, and what is inherited is among it. */
  lemma ExcludedIff(env: Env, excludes: seq<string>, more: seq<string>, rel: string, names: seq<string>,
        way: seq<Local>, p: string)
    requires way != [] && Extends(env, excludes, rel, way[0].ds, more)
    ensures IsExcludedDir(env, more, p) <==> DirExcluded(env, excludes, rel, names, way, 0, p)
    ensures IsExcludedFile(env, more, p) <==> FileExcluded(env, excludes, rel, names, way, 0, p)
    ensures IsExcludedDir(env, excludes, p) ==> DirExcluded(env, excludes, rel, names, way, 0, p)
  {
    MatchesIff(env, env.ignoreDirectoryGlobs, p);
    MatchesIff(env, more, p);
    MatchesIff(env, excludes, p);
    hide MatchesAny;
    assert names[..0] == [] && Sub(rel, names[..0]) == rel;
    forall g ensures g in more <==> InForce(env, excludes, rel, names, way, 0, g) {
      assert Excludes(env, rel, way[0].ds, g) <==> Excludes(env, Sub(rel, names[..0]), way[0].ds, g);
    }
  }

  lemma EntersHere(env: Env, pass: Pass, d: Node, rel: string, excludes: seq<string>, valid: seq<string>, l: Local)
    ensures Enters(env, pass, d, rel, excludes, valid, [], [l]) <==>
            && Says(env, pass, d, valid, l)
            && (pass.Walking? || rel != "" ==> !DirExcluded(env, excludes, rel, [], [l], 0, rel))
  {
    hide Says, DirExcluded;
    LeadsHere(env, pass, d, valid, [l]);
    var none: seq<string> := [];
    assert none[..0] == [] && Sub(rel, none[..0]) == rel;
  }

  /** Below the root and the path of a directory's entries. */
  lemma {:induction false} SubOfEntry(rel: string, names: seq<string>, n: string)
    ensures Sub(rel, names + [n]) == EntryRel(Sub(rel, names), n)
    decreases |names|
  {
    if names == [] {
      assert (names + [n])[1..] == [];
    } else {
      SubOfEntry(EntryRel(rel, names[0]), names[1..], n);
      assert (names + [n])[1..] == names[1..] + [n];
    }
  }

  /** From the root, the path of a place is made of the names with slashes between. */
  lemma {:induction false} SubIsJoin(names: seq<string>)
    requires P.ValidElements(names)
    ensures Sub("", names) == P.Join(names)
  {
    if names != [] {
      var init, last := names[..|names| - 1], names[|names| - 1];
      assert names == init + [last];
      SubOfEntry("", init, last);
      SubIsJoin(init);
      if init != [] {
        P.JoinConcat(init, [last]);
        P.LastIsNoSlash(init);
      }
    }
  }

  // ---------------------------------------------------------------- what cannot be read

  /** Excluded by what is inherited. */
  ghost predicate Barred(env: Env, excludes: seq<string>, p: string) {
    || P.PathBase(p) == ".git"
    || p in env.ignorePaths
    || (exists g :: g in env.ignoreDirectoryGlobs && env.globMatches(g, p))
    || (exists g :: g in excludes && env.globMatches(g, p))
  }

  /** The pass comes to the directory there: it goes into the one above, and nothing in
      force there excludes this one. But its build file cannot be read. */
  ghost predicate Fails(env: Env, pass: Pass, d: Node, rel: string, excludes: seq<string>, valid: seq<string>,
        names: seq<string>, way: seq<Local>)
  {
    && |way| == |names| && NodeAt(d, names).Some? && NodeAt(d, names).value.Dir?
    && (forall l :: !Says(env, pass, NodeAt(d, names).value, NamesBelow(valid, way), l))
    && if names == [] then rel == "" || !Barred(env, excludes, rel)
       else
         var up := names[..|names| - 1];
         && Enters(env, pass, d, rel, excludes, valid, up, way)
         && !DirExcluded(env, excludes, rel, up, way, |up|, Sub(rel, names))
  }

  lemma FailsDeeper(env: Env, pass: Pass, d: Node, rel: string, excludes: seq<string>, more: seq<string>,
        valid: seq<string>, names: seq<string>, way: seq<Local>)
    requires names != [] && |way| == |names| && Extends(env, excludes, rel, way[0].ds, more)
    requires EntryRel(rel, names[0]) != "" || pass.Walking?
    ensures Fails(env, pass, d, rel, excludes, valid, names, way) <==>
            && Enters(env, pass, d, rel, excludes, valid, [], way[..1]) && d.Dir? && names[0] in d.entries
            && !Barred(env, more, EntryRel(rel, names[0]))
            && Fails(env, pass, d.entries[names[0]], EntryRel(rel, names[0]), more, NamesAfter(valid, way[0].ds),
                     names[1..], way[1..])
  {
    hide Says, NamesAfter, DirExcluded, Enters, Barred, NodeAt;
    var sub, up := EntryRel(rel, names[0]), names[..|names| - 1];
    NodeBelow(d, names);
    assert NamesBelow(valid, way) == NamesBelow(NamesAfter(valid, way[0].ds), way[1..]);
    assert Sub(rel, names) == Sub(sub, names[1..]);
    if |names| == 1 {
      assert up == [] && way[..1] == way && names[1..] == [];
      BarredIff(env, excludes, more, rel, up, way, sub);
      assert Sub(rel, names) == sub;
    } else {
      var rest := names[1..];
      assert up[0] == names[0] && up[1..] == rest[..|rest| - 1];
      EntersDeeper(env, pass, d, rel, excludes, more, valid, up, way);
      ExcludedDeeper(env, excludes, more, rel, up, way, |up| - 1, Sub(rel, names));
      if d.Dir? && names[0] in d.entries {
        EnteredNotBarred(env, pass, d.entries[names[0]], sub, more, NamesAfter(valid, way[0].ds), up[1..], way[1..]);
      }
    }
    EntersDir(env, pass, d, rel, excludes, valid, way[..1]);
  }

  lemma NodeBelow(d: Node, names: seq<string>)
    requires names != []
    ensures d.Dir? && names[0] in d.entries ==> NodeAt(d, names) == NodeAt(d.entries[names[0]], names[1..])
    ensures NodeAt(d, names).Some? ==> d.Dir? && names[0] in d.entries
  {
  }

  lemma EntersDir(env: Env, pass: Pass, d: Node, rel: string, excludes: seq<string>, valid: seq<string>,
        way: seq<Local>)
    ensures Enters(env, pass, d, rel, excludes, valid, [], way) ==> |way| == 1 && d.Dir?
  {
    if Enters(env, pass, d, rel, excludes, valid, [], way) {
      LeadsHere(env, pass, d, valid, way);
    }
  }

  lemma BarredIff(env: Env, excludes: seq<string>, more: seq<string>, rel: string, names: seq<string>,
        way: seq<Local>, p: string)
    requires way != [] && Extends(env, excludes, rel, way[0].ds, more)
    ensures Barred(env, more, p) <==> DirExcluded(env, excludes, rel, names, way, 0, p)
  {
    ExcludedIff(env, excludes, more, rel, names, way, p);
    BarredIs(env, more, p);
    hide IsExcludedDir, DirExcluded, Barred;
  }

  lemma BarredIs(env: Env, excludes: seq<string>, p: string)
    ensures Barred(env, excludes, p) <==> IsExcludedDir(env, excludes, p)
  {
    MatchesIff(env, env.ignoreDirectoryGlobs, p);
    MatchesIff(env, excludes, p);
    hide MatchesAny;
  }

  lemma EnteredNotBarred(env: Env, pass: Pass, d: Node, rel: string, excludes: seq<string>, valid: seq<string>,
        names: seq<string>, way: seq<Local>)
    requires rel != "" || pass.Walking?
    ensures Enters(env, pass, d, rel, excludes, valid, names, way) ==> !Barred(env, excludes, rel)
  {
    hide Says;
    if Enters(env, pass, d, rel, excludes, valid, names, way) {
      assert names[..0] == [] && Sub(rel, names[..0]) == rel;
      BarredStays(env, excludes, rel, names, way, 0, rel);
    }
  }

  /** What is inherited stays in force. */
  lemma BarredStays(env: Env, excludes: seq<string>, rel: string, names: seq<string>, way: seq<Local>, k: nat,
        p: string)
    requires k <= |names| && k < |way|
    ensures Barred(env, excludes, p) ==> DirExcluded(env, excludes, rel, names, way, k, p)
  {
    assert forall g :: g in excludes ==> InForce(env, excludes, rel, names, way, k, g);
  }
}
