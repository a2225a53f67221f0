/** Building the snapshot of a repository: directories that directives or ignore files
    exclude are pruned while the tree is read. */
module TreeBuild {
  import opened Options
  import opened Sorting
  import Paths

  datatype Directive = Directive(key: string, value: string)

  /** What stands for library code and for the ignore files at the root: glob matching,
      path joining, and the directives of a build file, none if it does not parse. */
  datatype Env = Env(
    ignorePaths: set<string>,
    ignoreDirectoryGlobs: seq<string>,
    globMatches: (string, string) -> bool,
    validGlob: string -> bool,
    join: (string, string) -> string,
    directives: Bytes -> Option<seq<Directive>>)

  /** What is on disk. `Other` is neither a regular file nor a directory. */
  datatype Node =
    | File(content: Bytes)
    | Dir(entries: map<string, Node>)
    | Other

  /** A build file cannot be read or does not parse. */
  datatype TreeError = BuildFileFails

  type Built<+T> = Result<T, TreeError>

  datatype TraversalConfig = TraversalConfig(excludes: seq<string>, validBuildFileNames: seq<string>)

  // -------------------------------------------------------------- paths and globs

  function EntryRel(rel: string, name: string): string {
    if rel == "" then name else rel + "/" + name
  }

  predicate MatchesAny(env: Env, globs: seq<string>, p: string) {
    exists i | 0 <= i < |globs| :: env.globMatches(globs[i], p)
  }

  predicate IsExcludedDir(env: Env, excludes: seq<string>, p: string) {
    || Paths.PathBase(p) == ".git" || p in env.ignorePaths
    || MatchesAny(env, env.ignoreDirectoryGlobs, p) || MatchesAny(env, excludes, p)
  }

  predicate IsExcludedFile(env: Env, excludes: seq<string>, p: string) {
    p in env.ignorePaths || MatchesAny(env, excludes, p)
  }

  function SplitComma(s: string): seq<string> {
    if s == "" then [""]
    else
      var rest := SplitComma(s[1..]);
      if s[0] == ',' then [""] + rest
      else if rest == [] then [[s[0]]] else [[s[0]] + rest[0]] + rest[1..]
  }

  // ------------------------------------------------------------------ directives

  function AfterDirective(env: Env, rel: string, cfg: TraversalConfig, d: Directive): TraversalConfig {
    if d.key == "build_file_name" then cfg.(validBuildFileNames := SplitComma(d.value))
    else if d.key == "exclude" && env.validGlob(env.join(rel, d.value)) then
      cfg.(excludes := cfg.excludes + [env.join(rel, d.value)])
    else cfg
  }

  function AfterDirectives(env: Env, rel: string, cfg: TraversalConfig, ds: seq<Directive>): TraversalConfig {
    if ds == [] then cfg
    else AfterDirective(env, rel, AfterDirectives(env, rel, cfg, ds[..|ds| - 1]), ds[|ds| - 1])
  }

  method ApplyTraversalDirectives(env: Env, rel: string, cfg: TraversalConfig, ds: seq<Directive>)
    returns (next: TraversalConfig)
    ensures next == AfterDirectives(env, rel, cfg, ds)
  {
    next := cfg;
    for i := 0 to |ds|
      invariant next == AfterDirectives(env, rel, cfg, ds[..i])
    {
      var d := ds[i];
      assert ds[..i + 1][..i] == ds[..i];
      match d.key {
        case "build_file_name" => next := next.(validBuildFileNames := SplitComma(d.value));
        case "exclude" =>
          var p := env.join(rel, d.value);
          if !env.validGlob(p) {
            continue;
          }
          next := next.(excludes := next.excludes + [p]);
        case _ =>
      }
    }
    assert ds[..|ds|] == ds;
  }

  // ------------------------------------------------------------------ build files

  /** The first valid name that an entry other than a directory bears. */
  function BuildName(names: seq<string>, entries: map<string, Node>): Option<string> {
    if names == [] then None
    else if names[0] in entries && !entries[names[0]].Dir? then Some(names[0])
    else BuildName(names[1..], entries)
  }

  /** What a directory's build file says, if it has one. */
  function LocalDirectives(env: Env, entries: map<string, Node>, name: Option<string>): Built<seq<Directive>> {
    if name.None? then Ok([])
    else if name.value !in entries || !entries[name.value].File? then Err(BuildFileFails)
    else
      match env.directives(entries[name.value].content)
      case None => Err(BuildFileFails)
      case Some(ds) => Ok(ds)
  }

  method LoadBuildData(names: seq<string>, entries: map<string, Node>) returns (r: Option<string>)
    ensures r == BuildName(names, entries)
  {
    for i := 0 to |names|
      invariant BuildName(names, entries) == BuildName(names[i..], entries)
    {
      if names[i] in entries && !entries[names[i]].Dir? {
        return Some(names[i]);
      }
      assert names[i..][1..] == names[i + 1..];
    }
    return None;
  }

  // --------------------------------------------------------------- pruning a tree

  /** The directory with what is excluded left out; none if it is excluded itself. */
  ghost function Prune(env: Env, d: Node, rel: string, cfg: TraversalConfig): (r: Built<Option<Node>>)
    requires d.Dir?
    ensures r.Ok? && r.value.Some? ==> r.value.value.Dir?
    decreases d, 1
  {
    if rel != "" && IsExcludedDir(env, cfg.excludes, rel) then Ok(None)
    else
      var name := BuildName(cfg.validBuildFileNames, d.entries);
      match LocalDirectives(env, d.entries, name)
      case Err(_) => Err(BuildFileFails)
      case Ok(ds) =>
        var next := AfterDirectives(env, rel, cfg, ds);
        if rel != "" && IsExcludedDir(env, next.excludes, rel) then Ok(None)
        else if exists n :: n in d.entries && PruneEntry(env, d, rel, next, name, n).Err? then Err(BuildFileFails)
        else Ok(Some(Dir(map n | n in d.entries && PruneEntry(env, d, rel, next, name, n).value.Some?
                           :: PruneEntry(env, d, rel, next, name, n).value.value)))
  }

  /** What is left of an entry. The build file itself always stays. */
  ghost function PruneEntry(env: Env, d: Node, rel: string, next: TraversalConfig, buildName: Option<string>,
        n: string): Built<Option<Node>>
    requires d.Dir? && n in d.entries
    decreases d, 0
  {
    var p := EntryRel(rel, n);
    match d.entries[n]
    case Other => Ok(None)
    case File(_) =>
      Ok(if buildName == Some(n) || !IsExcludedFile(env, next.excludes, p) then Some(d.entries[n]) else None)
    case Dir(_) => if IsExcludedDir(env, next.excludes, p) then Ok(None) else Prune(env, d.entries[n], p, next)
  }

  // --------------------------------------------------------- trees as path tables

  /** A tree as the snapshot holds it: contents by path, sorted names by directory. */
  datatype Tables = Tables(files: map<string, Bytes>, dirs: map<string, seq<string>>)

  const NOTHING := Tables(map[], map[])

  predicate ValidName(n: string) {
    n != "" && '/' !in n
  }

  ghost predicate ValidNames(d: Node)
    requires d.Dir?
    decreases d
  {
    forall n | n in d.entries :: ValidName(n) && (d.entries[n].Dir? ==> ValidNames(d.entries[n]))
  }

  /** The entries a snapshot lists. */
  ghost function Listed(d: Node): set<string>
    requires d.Dir?
  {
    set n | n in d.entries && !d.entries[n].Other?
  }

  /** The tables hold the tree at `rel`. */
  ghost predicate Holds(t: Tables, d: Node, rel: string)
    requires d.Dir?
    decreases d, 1
  {
    && rel in t.dirs && rel !in t.files && SortedListing(t.dirs[rel], Listed(d))
    && forall n | n in d.entries :: HoldsEntry(t, d, rel, n)
  }

  ghost predicate HoldsEntry(t: Tables, d: Node, rel: string, n: string)
    requires d.Dir? && n in d.entries
    decreases d, 0
  {
    var p := EntryRel(rel, n);
    match d.entries[n]
    case Other => true
    case File(content) => p in t.files && t.files[p] == content && p !in t.dirs
    case Dir(_) => Holds(t, d.entries[n], p)
  }

  /** A file of the tree has this path. */
  ghost predicate HasFile(d: Node, rel: string, path: string)
    requires d.Dir?
    decreases d
  {
    exists n | n in d.entries ::
      var p := EntryRel(rel, n);
      (d.entries[n].File? && path == p) || (d.entries[n].Dir? && HasFile(d.entries[n], p, path))
  }

  ghost predicate HasDir(d: Node, rel: string, path: string)
    requires d.Dir?
    decreases d
  {
    path == rel || exists n | n in d.entries && d.entries[n].Dir? :: HasDir(d.entries[n], EntryRel(rel, n), path)
  }

  /** Nothing else is in the tables. */
  ghost predicate Exact(t: Tables, d: Node, rel: string)
    requires d.Dir?
  {
    && (forall path | path in t.files :: HasFile(d, rel, path))
    && (forall path | path in t.dirs :: HasDir(d, rel, path))
  }

  predicate Under(rel: string, path: string) {
    rel == "" || path == rel || rel + "/" <= path
  }

  ghost predicate AllUnder(t: Tables, rel: string) {
    (forall path | path in t.files :: Under(rel, path)) && (forall path | path in t.dirs :: Under(rel, path))
  }

  lemma UnderEntry(rel: string, n: string, path: string)
    requires Under(EntryRel(rel, n), path) && ValidName(n)
    ensures Under(rel, path) && path != rel && path != ""
  {
    var p := EntryRel(rel, n);
    if rel != "" {
      assert p == rel + "/" + n && rel + "/" <= p;
      if path != p { assert rel + "/" <= p + "/" <= path; }
    }
  }

  /** What lies under one entry does not lie under another. */
  lemma EntriesApart(rel: string, a: string, b: string, path: string)
    requires ValidName(a) && ValidName(b) && a != b
    requires Under(EntryRel(rel, a), path)
    ensures !Under(EntryRel(rel, b), path)
  {
    var pre := if rel == "" then "" else rel + "/";
    assert EntryRel(rel, a) == pre + a && EntryRel(rel, b) == pre + b;
    if Under(EntryRel(rel, b), path) {
      var tail := path[|pre|..];
      assert path == pre + tail;
      assert tail == a || a + "/" <= tail by {
        if path != pre + a { assert path[..|pre + a + "/"|] == pre + a + "/"; }
      }
      assert tail == b || b + "/" <= tail by {
        if path != pre + b { assert path[..|pre + b + "/"|] == pre + b + "/"; }
      }
      SlashAfter(tail, a);
      SlashAfter(tail, b);
    }
  }

  /** The first element of a path is the part before the first slash. */
  lemma {:induction false} SlashAfter(tail: string, a: string)
    requires '/' !in a && (tail == a || a + "/" <= tail)
    ensures IndexOf(tail, '/') == |a| && |a| <= |tail| && tail[..|a|] == a
  {
    if a != "" {
      assert a[0] in a && a == [a[0]] + a[1..];
      if tail == a {
        assert tail[1..] == a[1..];
      } else {
        assert tail[..|a| + 1] == a + "/";
        assert tail[1..][..|a|] == a[1..] + "/";
      }
      SlashAfter(tail[1..], a[1..]);
    }
  }

  /** Only what lies under `rel` matters for the tree there. */
  lemma {:induction false} HoldsFrame(t: Tables, u: Tables, d: Node, rel: string)
    requires d.Dir? && ValidNames(d) && Holds(t, d, rel)
    requires forall p | Under(rel, p) :: (p in t.files <==> p in u.files) && (p in t.files ==> t.files[p] == u.files[p])
    requires forall p | Under(rel, p) :: (p in t.dirs <==> p in u.dirs) && (p in t.dirs ==> t.dirs[p] == u.dirs[p])
    ensures Holds(u, d, rel)
    decreases d
  {
    forall n | n in d.entries ensures HoldsEntry(u, d, rel, n) {
      var p := EntryRel(rel, n);
      assert HoldsEntry(t, d, rel, n);
      UnderEntry(rel, n, p);
      if d.entries[n].Dir? {
        forall q | Under(p, q) ensures Under(rel, q) { UnderEntry(rel, n, q); }
        HoldsFrame(t, u, d.entries[n], p);
      }
    }
  }

  // ------------------------------------------------------------- building the tables

  /** The tables of what is left of one entry. */
  ghost predicate EntryBuilt(t: Tables, e: Option<Node>, p: string) {
    match e
    case None => t == NOTHING
    case Some(Other) => false
    case Some(File(content)) => t == Tables(map[p := content], map[])
    case Some(Dir(es)) => Holds(t, Dir(es), p) && Exact(t, Dir(es), p) && AllUnder(t, p) && ValidNames(Dir(es))
  }

  /** A map put together from a family of maps. */
  ghost predicate Unites<T>(m: map<string, T>, family: map<string, map<string, T>>) {
    && (forall path | path in m :: exists n :: n in family && path in family[n])
    && (forall n, path | n in family && path in family[n] :: path in m && m[path] == family[n][path])
  }

  lemma UniteOneMore<T>(m: map<string, T>, family: map<string, map<string, T>>, n: string, part: map<string, T>)
    requires Unites(m, family) && n !in family
    requires forall k, path | k in family && path in family[k] :: path !in part
    ensures Unites(m + part, family[n := part])
  {
    var all := family[n := part];
    forall path | path in m + part ensures exists k :: k in all && path in all[k] {
      if path in part {
        assert n in all && path in all[n];
      } else {
        var k :| k in family && path in family[k];
        assert k in all && path in all[k];
      }
    }
    forall k, path | k in all && path in all[k] ensures path in m + part && (m + part)[path] == all[k][path] {}
  }

  /** What has been put together so far: the tables of the entries, what is left of
      each of them, and the two maps. */
  datatype Progress = Progress(
    fileParts: map<string, map<string, Bytes>>,
    dirParts: map<string, map<string, seq<string>>>,
    left: map<string, Option<Node>>)

  function Part(g: Progress, n: string): Tables
    requires n in g.fileParts && n in g.dirParts
  {
    Tables(g.fileParts[n], g.dirParts[n])
  }

  ghost predicate PutTogether(g: Progress, rel: string, t: Tables) {
    && PartsBuilt(g, rel)
    && Unites(t.files, g.fileParts) && Unites(t.dirs, g.dirParts)
  }

  function Join(a: Tables, b: Tables): Tables {
    Tables(a.files + b.files, a.dirs + b.dirs)
  }

  function AddPart(g: Progress, n: string, part: Tables, e: Option<Node>): Progress {
    Progress(g.fileParts[n := part.files], g.dirParts[n := part.dirs], g.left[n := e])
  }

  lemma EntryUnder(t: Tables, e: Option<Node>, p: string)
    requires EntryBuilt(t, e, p)
    ensures AllUnder(t, p)
  {
  }

  lemma PathApart(g: Progress, rel: string, n: string, part: Tables, e: Option<Node>, k: string, path: string)
    requires k in g.left && k in g.fileParts && k in g.dirParts && EntryBuilt(Part(g, k), g.left[k], EntryRel(rel, k))
    requires EntryBuilt(part, e, EntryRel(rel, n)) && ValidName(k) && ValidName(n) && k != n
    ensures path in g.fileParts[k] || path in g.dirParts[k] ==> path !in part.files && path !in part.dirs
  {
    if path in g.fileParts[k] || path in g.dirParts[k] {
      EntryUnder(part, e, EntryRel(rel, n));
      EntryUnder(Part(g, k), g.left[k], EntryRel(rel, k));
      EntriesApart(rel, k, n, path);
    }
  }

  /** The tables of one more entry can be added: they have no path in common with the
      others, so the order does not matter. */
  lemma PutOneMore(g: Progress, rel: string, t: Tables, n: string, part: Tables, e: Option<Node>)
    requires PutTogether(g, rel, t) && n !in g.left && ValidName(n) && EntryBuilt(part, e, EntryRel(rel, n))
    ensures PutTogether(AddPart(g, n, part, e), rel, Join(t, part))
  {
    forall k, path | k in g.fileParts && path in g.fileParts[k] ensures path !in part.files {
      PathApart(g, rel, n, part, e, k, path);
    }
    forall k, path | k in g.dirParts && path in g.dirParts[k] ensures path !in part.dirs {
      PathApart(g, rel, n, part, e, k, path);
    }
    UniteOneMore(t.files, g.fileParts, n, part.files);
    UniteOneMore(t.dirs, g.dirParts, n, part.dirs);
    PartsAdded(g, rel, n, part, e);
  }

  ghost predicate PartsBuilt(g: Progress, rel: string) {
    && g.fileParts.Keys == g.left.Keys && g.dirParts.Keys == g.left.Keys
    && (forall n | n in g.left :: ValidName(n))
    && (forall n {:trigger Part(g, n)} | n in g.left :: EntryBuilt(Part(g, n), g.left[n], EntryRel(rel, n)))
  }

  lemma PartsAdded(g: Progress, rel: string, n: string, part: Tables, e: Option<Node>)
    requires PartsBuilt(g, rel) && n !in g.left && ValidName(n) && EntryBuilt(part, e, EntryRel(rel, n))
    ensures PartsBuilt(AddPart(g, n, part, e), rel)
  {
    var h := AddPart(g, n, part, e);
    assert Part(h, n) == part;
    forall k | k in g.left ensures Part(h, k) == Part(g, k) {}
  }

  /** What is left of a directory whose entries have been dealt with. */
  ghost function LeftDir(left: map<string, Option<Node>>): Node {
    Dir(map n | n in left && left[n].Some? :: left[n].value)
  }

  ghost function LeftNames(left: map<string, Option<Node>>): set<string> {
    set n | n in left && left[n].Some?
  }

  function WithListing(t: Tables, rel: string, names: seq<string>): Tables {
    Tables(t.files, t.dirs[rel := names])
  }

  /** A path that is under an entry is found in that entry's tables or nowhere. */
  lemma OnlyInPart(g: Progress, rel: string, t: Tables, names: seq<string>, n: string, path: string)
    requires PutTogether(g, rel, t) && n in g.left && Under(EntryRel(rel, n), path)
    ensures var u := WithListing(t, rel, names);
            && (path in u.files <==> path in g.fileParts[n])
            && (path in u.files ==> u.files[path] == g.fileParts[n][path])
            && (path in u.dirs <==> path in g.dirParts[n]) && (path in u.dirs ==> u.dirs[path] == g.dirParts[n][path])
  {
    UnderEntry(rel, n, path);
    forall k | k in g.left && (path in g.fileParts[k] || path in g.dirParts[k]) ensures k == n {
      EntryUnder(Part(g, k), g.left[k], EntryRel(rel, k));
      if k != n { EntriesApart(rel, k, n, path); }
    }
  }

  /** With its own listing the directory is complete. */
  lemma DirBuilt(g: Progress, rel: string, t: Tables, names: seq<string>)
    requires PutTogether(g, rel, t) && SortedListing(names, LeftNames(g.left))
    ensures EntryBuilt(WithListing(t, rel, names), Some(LeftDir(g.left)), rel)
  {
    var u, d := WithListing(t, rel, names), LeftDir(g.left);
    DirExact(g, rel, t, names);
    forall n | n in d.entries
      ensures HoldsEntry(u, d, rel, n) && !d.entries[n].Other? && ValidName(n)
      ensures d.entries[n].Dir? ==> ValidNames(d.entries[n])
    {
      EntryHeld(g, rel, t, names, n);
    }
    assert Listed(d) == LeftNames(g.left);
  }

  lemma EntryHeld(g: Progress, rel: string, t: Tables, names: seq<string>, n: string)
    requires PutTogether(g, rel, t) && n in g.left && g.left[n].Some?
    ensures var d := LeftDir(g.left);
            n in d.entries && HoldsEntry(WithListing(t, rel, names), d, rel, n) && !d.entries[n].Other?
            && (d.entries[n].Dir? ==> ValidNames(d.entries[n]))
  {
    var u, p := WithListing(t, rel, names), EntryRel(rel, n);
    assert EntryBuilt(Part(g, n), g.left[n], p);
    forall path | Under(p, path)
      ensures path in u.files <==> path in g.fileParts[n]
      ensures path in u.files ==> u.files[path] == g.fileParts[n][path]
      ensures (path in u.dirs <==> path in g.dirParts[n]) && (path in u.dirs ==> u.dirs[path] == g.dirParts[n][path])
    {
      OnlyInPart(g, rel, t, names, n, path);
    }
    if g.left[n].value.Dir? {
      HoldsFrame(Part(g, n), u, g.left[n].value, p);
    }
  }

  lemma DirExact(g: Progress, rel: string, t: Tables, names: seq<string>)
    requires PutTogether(g, rel, t)
    ensures var u, d := WithListing(t, rel, names), LeftDir(g.left);
            Exact(u, d, rel) && AllUnder(u, rel) && rel !in u.files
  {
    var u, d := WithListing(t, rel, names), LeftDir(g.left);
    forall path | path in u.files ensures HasFile(d, rel, path) && Under(rel, path) && path != rel {
      var n :| n in g.fileParts && path in g.fileParts[n];
      EntryExact(g, rel, t, n, path);
    }
    forall path | path in u.dirs ensures HasDir(d, rel, path) && Under(rel, path) {
      if path != rel {
        var n :| n in g.dirParts && path in g.dirParts[n];
        EntryExact(g, rel, t, n, path);
      }
    }
  }

  lemma EntryExact(g: Progress, rel: string, t: Tables, n: string, path: string)
    requires PutTogether(g, rel, t) && n in g.left
    ensures path in g.fileParts[n] ==> HasFile(LeftDir(g.left), rel, path) && Under(rel, path) && path != rel
    ensures path in g.dirParts[n] ==> HasDir(LeftDir(g.left), rel, path) && Under(rel, path)
  {
    var d := LeftDir(g.left);
    assert EntryBuilt(Part(g, n), g.left[n], EntryRel(rel, n));
    if g.left[n].Some? {
      assert n in d.entries && d.entries[n] == g.left[n].value;
      if path in g.fileParts[n] || path in g.dirParts[n] {
        EntryUnder(Part(g, n), g.left[n], EntryRel(rel, n));
        UnderEntry(rel, n, path);
      }
    }
  }

  // ------------------------------------------------------------------ the method

  /** The entries dealt with are what pruning leaves of them. */
  ghost predicate Dealt(env: Env, d: Node, rel: string, next: TraversalConfig, buildName: Option<string>, g: Progress)
    requires d.Dir?
  {
    forall n | n in g.left :: n in d.entries && PruneEntry(env, d, rel, next, buildName, n) == Ok(g.left[n])
  }

  /** The state of a directory being read: which entries have been dealt with, which
      are set apart, and the listing of what is left of the first and of all the second. */
  ghost predicate Reading(env: Env, d: Node, rel: string, next: TraversalConfig, buildName: Option<string>,
        g: Progress, t: Tables, listing: seq<string>, children: set<string>)
    requires d.Dir?
  {
    && Dealt(env, d, rel, next, buildName, g) && PutTogether(g, rel, t)
    && g.left.Keys !! children
    && (forall n | n in children ::
           n in d.entries && d.entries[n].Dir? && !IsExcludedDir(env, next.excludes, EntryRel(rel, n)))
    && NoDuplicates(listing) && Elements(listing) == LeftNames(g.left) + children
  }

  lemma ListOne(listing: seq<string>, n: string)
    requires NoDuplicates(listing) && n !in Elements(listing)
    ensures NoDuplicates(listing + [n]) && Elements(listing + [n]) == Elements(listing) + {n}
  {
    ElementsConcat(listing, [n]);
  }

  lemma ReadStart(env: Env, d: Node, rel: string, next: TraversalConfig, buildName: Option<string>)
    requires d.Dir?
    ensures Reading(env, d, rel, next, buildName, Progress(map[], map[], map[]), NOTHING, [], {})
  {
    hide PruneEntry, EntryBuilt;
  }

  lemma ReadOne(env: Env, d: Node, rel: string, next: TraversalConfig, buildName: Option<string>, g: Progress,
        t: Tables, listing: seq<string>, children: set<string>, n: string, part: Tables, e: Option<Node>)
    requires d.Dir? && ValidNames(d) && Reading(env, d, rel, next, buildName, g, t, listing, children)
    requires n in d.entries && n !in g.left && n !in children
    requires PruneEntry(env, d, rel, next, buildName, n) == Ok(e) && EntryBuilt(part, e, EntryRel(rel, n))
    ensures var listed := if e.Some? then listing + [n] else listing;
            Reading(env, d, rel, next, buildName, AddPart(g, n, part, e), Join(t, part), listed, children)
  {
    assert ValidName(n);
    hide PutTogether, EntryBuilt, PruneEntry, ValidNames, IsExcludedDir, LeftNames, Dealt, EntryRel, Join;
    PutOneMore(g, rel, t, n, part, e);
    DealtOne(env, d, rel, next, buildName, g, n, part, e);
    LeftNamesOne(g.left, n, e);
    ListOne(listing, n);
  }

  lemma DealtOne(env: Env, d: Node, rel: string, next: TraversalConfig, buildName: Option<string>, g: Progress,
        n: string, part: Tables, e: Option<Node>)
    requires d.Dir? && n in d.entries && Dealt(env, d, rel, next, buildName, g)
    requires PruneEntry(env, d, rel, next, buildName, n) == Ok(e)
    ensures Dealt(env, d, rel, next, buildName, AddPart(g, n, part, e))
  {
    hide PruneEntry;
  }

  lemma LeftNamesOne(left: map<string, Option<Node>>, n: string, e: Option<Node>)
    requires n !in left
    ensures LeftNames(left[n := e]) == LeftNames(left) + (if e.Some? then {n} else {}) && n !in LeftNames(left)
  {
  }

  /** A directory to descend into is set apart. */
  lemma ReadChild(env: Env, d: Node, rel: string, next: TraversalConfig, buildName: Option<string>, g: Progress,
        t: Tables, listing: seq<string>, children: set<string>, n: string)
    requires d.Dir? && Reading(env, d, rel, next, buildName, g, t, listing, children)
    requires n in d.entries && n !in g.left && n !in children
    requires d.entries[n].Dir? && !IsExcludedDir(env, next.excludes, EntryRel(rel, n))
    ensures Reading(env, d, rel, next, buildName, g, t, listing + [n], children + {n})
  {
    hide PutTogether, PruneEntry, IsExcludedDir;
    ListOne(listing, n);
  }

  /** Deals with the entries of a directory that are not to be descended into, and sets
      the others apart. */
  method BuildLocal(env: Env, d: Node, rel: string, next: TraversalConfig, buildName: Option<string>)
    returns (t: Tables, listing: seq<string>, children: set<string>, ghost g: Progress)
    requires d.Dir? && ValidNames(d)
    ensures Reading(env, d, rel, next, buildName, g, t, listing, children)
    ensures g.left.Keys + children == d.entries.Keys
  {
    hide Reading, ValidNames, IsExcludedDir;
    t, listing, children, g := NOTHING, [], {}, Progress(map[], map[], map[]);
    var names := CollectSorted(d.entries.Keys);
    ReadStart(env, d, rel, next, buildName);
    for i := 0 to |names|
      invariant Reading(env, d, rel, next, buildName, g, t, listing, children)
      invariant g.left.Keys + children == Elements(names[..i])
    {
      var n := names[i];
      NextElement(names, i);
      if d.entries[n].Dir? && !IsExcludedDir(env, next.excludes, EntryRel(rel, n)) {
        ReadChild(env, d, rel, next, buildName, g, t, listing, children, n);
        children, listing := children + {n}, listing + [n];
      } else {
        t, listing, g := BuildEntry(env, d, rel, next, buildName, t, listing, children, g, n);
      }
    }
    assert names[..|names|] == names;
  }

  method BuildEntry(env: Env, d: Node, rel: string, next: TraversalConfig, buildName: Option<string>,
        t0: Tables, listing0: seq<string>, ghost children: set<string>, ghost g0: Progress, n: string)
    returns (t: Tables, listing: seq<string>, ghost g: Progress)
    requires d.Dir? && ValidNames(d) && Reading(env, d, rel, next, buildName, g0, t0, listing0, children)
    requires n in d.entries && n !in g0.left && n !in children
    requires d.entries[n].Dir? ==> IsExcludedDir(env, next.excludes, EntryRel(rel, n))
    ensures Reading(env, d, rel, next, buildName, g, t, listing, children)
    ensures g.left.Keys == g0.left.Keys + {n}
  {
    hide Reading, ValidNames, IsExcludedDir, IsExcludedFile, EntryBuilt, PruneEntry, EntryRel, Join;
    var p := EntryRel(rel, n);
    LeftOfEntry(env, d, rel, next, buildName, n);
    if d.entries[n].File? && (buildName == Some(n) || !IsExcludedFile(env, next.excludes, p)) {
      ghost var part := Tables(map[p := d.entries[n].content], map[]);
      ReadOne(env, d, rel, next, buildName, g0, t0, listing0, children, n, part, Some(d.entries[n]));
      JoinFile(t0, p, d.entries[n].content);
      g := AddPart(g0, n, part, Some(d.entries[n]));
      t, listing := Tables(t0.files[p := d.entries[n].content], t0.dirs), listing0 + [n];
    } else {
      ReadOne(env, d, rel, next, buildName, g0, t0, listing0, children, n, NOTHING, None);
      JoinFile(t0, p, []);
      g := AddPart(g0, n, NOTHING, None);
      t, listing := t0, listing0;
    }
  }

  lemma JoinFile(t: Tables, p: string, content: Bytes)
    ensures Join(t, Tables(map[p := content], map[])) == Tables(t.files[p := content], t.dirs)
    ensures Join(t, NOTHING) == t
  {
  }

  lemma LeftOfEntry(env: Env, d: Node, rel: string, next: TraversalConfig, buildName: Option<string>, n: string)
    requires d.Dir? && n in d.entries && (d.entries[n].Dir? ==> IsExcludedDir(env, next.excludes, EntryRel(rel, n)))
    ensures var p, e := EntryRel(rel, n), d.entries[n];
            if e.File? && (buildName == Some(n) || !IsExcludedFile(env, next.excludes, p))
            then
              && PruneEntry(env, d, rel, next, buildName, n) == Ok(Some(e))
              && EntryBuilt(Tables(map[p := e.content], map[]), Some(e), p)
            else PruneEntry(env, d, rel, next, buildName, n) == Ok(None) && EntryBuilt(NOTHING, None, p)
  {
    hide IsExcludedDir, IsExcludedFile;
  }

  method RemoveString(values: seq<string>, target: string) returns (out: seq<string>)
    requires NoDuplicates(values)
    ensures NoDuplicates(out) && Elements(out) == Elements(values) - {target}
  {
    out := [];
    for i := 0 to |values|
      invariant NoDuplicates(out) && Elements(out) == Elements(values[..i]) - {target}
    {
      NextElement(values, i);
      if values[i] != target {
        ListOne(out, values[i]);
        out := out + [values[i]];
      }
    }
    assert values[..|values|] == values;
  }

  /** The tables of a child join those of the directory. */
  lemma ReadBack(env: Env, d: Node, rel: string, next: TraversalConfig, buildName: Option<string>, g: Progress,
        t: Tables, listing: seq<string>, children: set<string>, n: string, part: Tables, e: Option<Node>,
        shorter: seq<string>)
    requires d.Dir? && ValidNames(d) && Reading(env, d, rel, next, buildName, g, t, listing, children) && n in children
    requires PruneEntry(env, d, rel, next, buildName, n) == Ok(e) && EntryBuilt(part, e, EntryRel(rel, n))
    requires if e.Some? then shorter == listing
             else NoDuplicates(shorter) && Elements(shorter) == Elements(listing) - {n}
    ensures Reading(env, d, rel, next, buildName, AddPart(g, n, part, e), Join(t, part), shorter, children - {n})
  {
    assert ValidName(n);
    hide PutTogether, EntryBuilt, PruneEntry, ValidNames, IsExcludedDir, Dealt;
    PutOneMore(g, rel, t, n, part, e);
    DealtOne(env, d, rel, next, buildName, g, n, part, e);
    ListedBack(g.left, children, n, e);
  }

  lemma ListedBack(left: map<string, Option<Node>>, children: set<string>, n: string, e: Option<Node>)
    requires n in children && left.Keys !! children
    ensures LeftNames(left[n := e]) + (children - {n}) == LeftNames(left) + children - (if e.Some? then {} else {n})
  {
    LeftNamesOne(left, n, e);
  }

  /** What a child comes to. */
  lemma ChildBuilt(env: Env, d: Node, rel: string, next: TraversalConfig, buildName: Option<string>, n: string,
        t: Tables, e: Option<Node>)
    requires d.Dir? && n in d.entries && d.entries[n].Dir? && !IsExcludedDir(env, next.excludes, EntryRel(rel, n))
    requires Prune(env, d.entries[n], EntryRel(rel, n), next) == Ok(e) && EntryBuilt(t, e, EntryRel(rel, n))
    ensures PruneEntry(env, d, rel, next, buildName, n) == Ok(e)
    ensures e.Some? <==> |t.dirs| != 0 || |t.files| != 0
  {
    hide IsExcludedDir, Prune;
    if e.Some? {
      assert EntryRel(rel, n) in t.dirs;
    }
  }

  lemma PruneIs(env: Env, d: Node, rel: string, cfg: TraversalConfig, ds: seq<Directive>, g: Progress)
    requires d.Dir? && (rel != "" ==> !IsExcludedDir(env, cfg.excludes, rel))
    requires LocalDirectives(env, d.entries, BuildName(cfg.validBuildFileNames, d.entries)) == Ok(ds)
    requires rel != "" ==> !IsExcludedDir(env, AfterDirectives(env, rel, cfg, ds).excludes, rel)
    requires Dealt(env, d, rel, AfterDirectives(env, rel, cfg, ds), BuildName(cfg.validBuildFileNames, d.entries), g)
    requires g.left.Keys == d.entries.Keys
    ensures Prune(env, d, rel, cfg) == Ok(Some(LeftDir(g.left)))
  {
    hide IsExcludedDir, PruneEntry, AfterDirectives, BuildName, LocalDirectives;
    var name := BuildName(cfg.validBuildFileNames, d.entries);
    var next := AfterDirectives(env, rel, cfg, ds);
    forall n | n in d.entries ensures PruneEntry(env, d, rel, next, name, n) == Ok(g.left[n]) {}
    assert (map n | n in d.entries && PruneEntry(env, d, rel, next, name, n).value.Some?
             :: PruneEntry(env, d, rel, next, name, n).value.value) == LeftDir(g.left).entries;
  }

  lemma PruneFails(env: Env, d: Node, rel: string, cfg: TraversalConfig, ds: seq<Directive>, n: string)
    requires d.Dir? && (rel != "" ==> !IsExcludedDir(env, cfg.excludes, rel))
    requires LocalDirectives(env, d.entries, BuildName(cfg.validBuildFileNames, d.entries)) == Ok(ds)
    requires rel != "" ==> !IsExcludedDir(env, AfterDirectives(env, rel, cfg, ds).excludes, rel)
    requires n in d.entries && d.entries[n].Dir?
    requires !IsExcludedDir(env, AfterDirectives(env, rel, cfg, ds).excludes, EntryRel(rel, n))
    requires Prune(env, d.entries[n], EntryRel(rel, n), AfterDirectives(env, rel, cfg, ds)).Err?
    ensures Prune(env, d, rel, cfg).Err?
  {
    hide IsExcludedDir, AfterDirectives, BuildName, LocalDirectives;
    var next, name := AfterDirectives(env, rel, cfg, ds), BuildName(cfg.validBuildFileNames, d.entries);
    assert PruneEntry(env, d, rel, next, name, n).Err?;
  }

  /** What comes of one child. */
  method BuildChild(env: Env, d: Node, rel: string, next: TraversalConfig, ghost buildName: Option<string>,
        t0: Tables, listing0: seq<string>, ghost children: set<string>, ghost g0: Progress, n: string)
    returns (failed: bool, t: Tables, listing: seq<string>, ghost g: Progress)
    requires d.Dir? && ValidNames(d) && Reading(env, d, rel, next, buildName, g0, t0, listing0, children)
    requires n in children && n in d.entries && d.entries[n].Dir?
    requires !IsExcludedDir(env, next.excludes, EntryRel(rel, n))
    ensures failed <==> Prune(env, d.entries[n], EntryRel(rel, n), next).Err?
    ensures !failed ==>
              && Reading(env, d, rel, next, buildName, g, t, listing, children - {n})
              && g.left.Keys == g0.left.Keys + {n}
    decreases d, 0
  {
    assert ValidNames(d.entries[n]);
    hide Reading, ValidNames, IsExcludedDir, Prune, PruneEntry, EntryBuilt, EntryRel, Join;
    failed, t, listing, g := false, t0, listing0, g0;
    var child := BuildTree(env, d.entries[n], EntryRel(rel, n), next);
    if child.Err? {
      failed := true;
      return;
    }
    ghost var e := Prune(env, d.entries[n], EntryRel(rel, n), next).value;
    ChildBuilt(env, d, rel, next, buildName, n, child.value, e);
    t, listing, g := JoinChild(env, d, rel, next, buildName, t0, listing0, children, g0, n, child.value, e);
  }

  /** The tables of a child join those of the directory. A child that comes to nothing is
      no longer listed. */
  method JoinChild(ghost env: Env, ghost d: Node, ghost rel: string, ghost next: TraversalConfig,
        ghost buildName: Option<string>, t0: Tables, listing0: seq<string>, ghost children: set<string>,
        ghost g0: Progress, n: string, child: Tables, ghost e: Option<Node>)
    returns (t: Tables, listing: seq<string>, ghost g: Progress)
    requires d.Dir? && ValidNames(d) && Reading(env, d, rel, next, buildName, g0, t0, listing0, children)
    requires n in children && n in d.entries
    requires PruneEntry(env, d, rel, next, buildName, n) == Ok(e) && EntryBuilt(child, e, EntryRel(rel, n))
    requires e.Some? <==> |child.dirs| != 0 || |child.files| != 0
    ensures Reading(env, d, rel, next, buildName, g, t, listing, children - {n}) && g.left.Keys == g0.left.Keys + {n}
  {
    hide Reading, ValidNames, IsExcludedDir, PruneEntry, EntryBuilt, EntryRel, Join;
    listing := RelistChild(env, d, rel, next, buildName, g0, t0, listing0, children, n, child, e);
    ReadBack(env, d, rel, next, buildName, g0, t0, listing0, children, n, child, e, listing);
    g, t := AddPart(g0, n, child, e), Join(t0, child);
  }

  method RelistChild(ghost env: Env, ghost d: Node, ghost rel: string, ghost next: TraversalConfig,
        ghost buildName: Option<string>, ghost g: Progress, ghost t: Tables, listing0: seq<string>,
        ghost children: set<string>, n: string, child: Tables, ghost e: Option<Node>)
    returns (listing: seq<string>)
    requires d.Dir? && Reading(env, d, rel, next, buildName, g, t, listing0, children)
    requires e.Some? <==> |child.dirs| != 0 || |child.files| != 0
    ensures if e.Some? then listing == listing0
            else NoDuplicates(listing) && Elements(listing) == Elements(listing0) - {n}
  {
    hide PutTogether, Dealt, IsExcludedDir, LeftNames;
    listing := listing0;
    if |child.dirs| == 0 && |child.files| == 0 {
      listing := RemoveString(listing0, n);
    }
  }

  /** What comes of the children, in whatever order their workers finish. */
  method BuildChildren(env: Env, d: Node, rel: string, next: TraversalConfig, ghost buildName: Option<string>,
        t0: Tables, listing0: seq<string>, children0: set<string>, ghost g0: Progress)
    returns (failed: Option<string>, t: Tables, listing: seq<string>, ghost g: Progress)
    requires d.Dir? && ValidNames(d) && Reading(env, d, rel, next, buildName, g0, t0, listing0, children0)
    requires g0.left.Keys + children0 == d.entries.Keys
    ensures failed.None? ==> Reading(env, d, rel, next, buildName, g, t, listing, {}) && g.left.Keys == d.entries.Keys
    ensures failed.Some? ==>
              && failed.value in d.entries && d.entries[failed.value].Dir?
              && !IsExcludedDir(env, next.excludes, EntryRel(rel, failed.value))
              && Prune(env, d.entries[failed.value], EntryRel(rel, failed.value), next).Err?
    decreases d, 1
  {
    hide ValidNames, IsExcludedDir, Prune, EntryRel, Reading;
    var children := children0;
    failed, t, listing, g := None, t0, listing0, g0;
    while children != {}
      invariant Reading(env, d, rel, next, buildName, g, t, listing, children)
      invariant g.left.Keys + children == d.entries.Keys
      decreases children
    {
      var n :| n in children;
      ReadingChild(env, d, rel, next, buildName, g, t, listing, children, n);
      var err;
      err, t, listing, g := BuildChild(env, d, rel, next, buildName, t, listing, children, g, n);
      if err {
        return Some(n), t, listing, g;
      }
      children := children - {n};
    }
  }

  lemma ReadingChild(env: Env, d: Node, rel: string, next: TraversalConfig, buildName: Option<string>,
        g: Progress, t: Tables, listing: seq<string>, children: set<string>, n: string)
    requires d.Dir? && Reading(env, d, rel, next, buildName, g, t, listing, children) && n in children
    ensures n in d.entries && d.entries[n].Dir? && !IsExcludedDir(env, next.excludes, EntryRel(rel, n))
  {
  }

  lemma ReadingListed(env: Env, d: Node, rel: string, next: TraversalConfig, buildName: Option<string>,
        g: Progress, t: Tables, listing: seq<string>, children: set<string>)
    requires d.Dir? && Reading(env, d, rel, next, buildName, g, t, listing, children)
    ensures NoDuplicates(listing) && Elements(listing) == LeftNames(g.left) + children
    ensures PutTogether(g, rel, t) && Dealt(env, d, rel, next, buildName, g)
  {
  }

  method BuildTree(env: Env, d: Node, rel: string, cfg: TraversalConfig) returns (r: Built<Tables>)
    requires d.Dir? && ValidNames(d)
    ensures match Prune(env, d, rel, cfg)
            case Err(_) => r.Err?
            case Ok(e) => r.Ok? && EntryBuilt(r.value, e, rel)
    decreases d, 2
  {
    if rel != "" && IsExcludedDir(env, cfg.excludes, rel) {
      return Ok(NOTHING);
    }
    var name := LoadBuildData(cfg.validBuildFileNames, d.entries);
    var ds := ParseBuildDirectives(env, d.entries, name);
    if ds.Err? {
      return Err(BuildFileFails);
    }
    var next := ApplyTraversalDirectives(env, rel, cfg, ds.value);
    if rel != "" && IsExcludedDir(env, next.excludes, rel) {
      return Ok(NOTHING);
    }
    var t, listing, children, g := BuildLocal(env, d, rel, next, name);
    var failed;
    failed, t, listing, g := BuildChildren(env, d, rel, next, name, t, listing, children, g);
    if failed.Some? {
      PruneFails(env, d, rel, cfg, ds.value, failed.value);
      return Err(BuildFileFails);
    }
    ReadingListed(env, d, rel, next, name, g, t, listing, {});
    PruneIs(env, d, rel, cfg, ds.value, g);
    SortIsListing(listing);
    DirBuilt(g, rel, t, Sort(listing));
    return Ok(WithListing(t, rel, Sort(listing)));
  }

  method ParseBuildDirectives(env: Env, entries: map<string, Node>, name: Option<string>)
    returns (r: Built<seq<Directive>>)
    ensures r == LocalDirectives(env, entries, name)
  {
    if name.None? {
      return Ok([]);
    }
    if name.value !in entries || !entries[name.value].File? {
      return Err(BuildFileFails);
    }
    var ds := env.directives(entries[name.value].content);
    if ds.None? {
      return Err(BuildFileFails);
    }
    return Ok(ds.value);
  }
}
