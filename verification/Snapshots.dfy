/** The repository as a stack of overlays: each layer adds files and directory listings
    and hides others of the layers below. Paths are slash-separated and clean. */
module Snapshots {
  import opened Options
  import opened Sorting
  import opened ParsedCache
  import P = Paths

  /** A file; its content may have been left on disk. */
  datatype File = File(path: string, content: Option<Bytes>, hash: string)

  datatype Snapshot = Snapshot(
    base: Option<Snapshot>,
    files: map<string, File>,
    deletedFiles: set<string>,
    dirs: map<string, seq<string>>,
    deletedDirs: set<string>)

  function LookupFile(s: Snapshot, rel: string): Option<File> {
    if rel in s.deletedFiles then None
    else if rel in s.files then Some(s.files[rel])
    else if s.base.Some? then LookupFile(s.base.value, rel)
    else None
  }

  function LookupDir(s: Snapshot, rel: string): Option<seq<string>> {
    if rel in s.deletedDirs then None
    else if rel in s.dirs then Some(s.dirs[rel])
    else if s.base.Some? then LookupDir(s.base.value, rel)
    else None
  }

  // --------------------------------------------------------------- flattening

  function Overlay<T>(below: map<string, T>, own: map<string, T>, deleted: set<string>): map<string, T> {
    (below + own) - deleted
  }

  function FlatFiles(s: Snapshot): map<string, File> {
    Overlay(if s.base.Some? then FlatFiles(s.base.value) else map[], s.files, s.deletedFiles)
  }

  function FlatDirs(s: Snapshot): map<string, seq<string>> {
    Overlay(if s.base.Some? then FlatDirs(s.base.value) else map[], s.dirs, s.deletedDirs)
  }

  function At<T>(m: map<string, T>, key: string): Option<T> {
    if key in m then Some(m[key]) else None
  }

  /** Looking through the layers is looking into the flattened map. */
  lemma {:induction false} LookupIsFlat(s: Snapshot, rel: string)
    ensures LookupFile(s, rel) == At(FlatFiles(s), rel) && LookupDir(s, rel) == At(FlatDirs(s), rel)
  {
    if s.base.Some? {
      LookupIsFlat(s.base.value, rel);
    }
  }

  /** The keys a layer shows, over those of the layers below. */
  method VisibleKeys<T>(own: map<string, T>, deleted: set<string>, below: seq<string>) returns (keys: seq<string>)
    ensures SortedListing(keys, (Elements(below) + own.Keys) - deleted)
  {
    var found := set key | key in own && key !in deleted;
    for i := 0 to |below|
      invariant found == (Elements(below[..i]) + own.Keys) - deleted
    {
      assert below[..i + 1] == below[..i] + [below[i]];
      ElementsConcat(below[..i], [below[i]]);
      if below[i] in deleted || below[i] in own {
        continue;
      }
      found := found + {below[i]};
    }
    assert below[..|below|] == below;
    keys := CollectSorted(found);
  }

  /** All visible files, in order. */
  method FilePaths(s: Snapshot) returns (keys: seq<string>)
    ensures SortedListing(keys, FlatFiles(s).Keys)
  {
    var below: seq<string> := [];
    if s.base.Some? {
      below := FilePaths(s.base.value);
    }
    keys := VisibleKeys(s.files, s.deletedFiles, below);
  }

  method DirPaths(s: Snapshot) returns (keys: seq<string>)
    ensures SortedListing(keys, FlatDirs(s).Keys)
  {
    var below: seq<string> := [];
    if s.base.Some? {
      below := DirPaths(s.base.value);
    }
    keys := VisibleKeys(s.dirs, s.deletedDirs, below);
  }

  // ------------------------------------------------------- files written back

  /** Where the last element of a path begins. */
  function BaseStart(rel: string): (i: nat)
    ensures i <= |rel|
  {
    if rel == "" || rel[|rel| - 1] == '/' then |rel| else BaseStart(rel[..|rel| - 1])
  }

  function Parent(rel: string): string {
    if BaseStart(rel) == 0 then "" else rel[..BaseStart(rel) - 1]
  }

  /** The names that updates bring into a directory. */
  function NewNames(updated: set<string>, dir: string): set<string> {
    set rel | rel in updated && rel != "" && Parent(rel) == dir :: P.PathBase(rel)
  }

  /** The name that a path brings into a directory. */
  function NameIn(rel: string, dir: string): set<string> {
    if rel != "" && Parent(rel) == dir then {P.PathBase(rel)} else {}
  }

  /** The parent of a path has all its elements but the last, which is the name in it. */
  lemma ParentOfPath(parts: seq<string>)
    requires P.ValidElements(parts) && parts != []
    ensures Parent(P.Join(parts)) == P.Join(parts[..|parts| - 1])
    ensures P.PathBase(P.Join(parts)) == parts[|parts| - 1]
  {
    hide P.Join, BaseStart;
    var p, k := P.Join(parts), |parts| - 1;
    P.BaseIsLast(parts);
    P.JoinSplitAt(parts, k);
    P.SlashBefore(parts, k);
    assert parts[..k + 1] == parts;
    var pre := p[..P.StartOf(parts, k)];
    StartOfLast(pre, parts[k]);
    if k == 0 {
      P.NothingJoined();
      assert parts[..k] == [];
    } else {
      UpToLast(parts);
    }
  }

  lemma UpToLast(parts: seq<string>)
    requires |parts| > 1
    ensures var init := P.Join(parts[..|parts| - 1]);
            |init| <= |P.Join(parts)| && P.Join(parts)[..|init|] == init
  {
    hide P.Join;
    var k := |parts| - 1;
    P.JoinConcat(parts[..k], parts[k..]);
    assert parts[..k] + parts[k..] == parts;
    var init, rest := P.Join(parts[..k]), P.Join(parts[k..]);
    assert init + "/" + rest == init + ("/" + rest);
    P.Dropped(init, "/" + rest);
  }

  lemma {:induction false} StartOfLast(pre: string, last: string)
    requires '/' !in last && (pre == "" || pre[|pre| - 1] == '/')
    ensures BaseStart(pre + last) == |pre|
  {
    if last == "" {
      assert pre + last == pre;
    } else {
      var init := last[..|last| - 1];
      assert (pre + last)[..|pre + last| - 1] == pre + init && last == init + [last[|last| - 1]];
      assert last[|last| - 1] in last;
      StartOfLast(pre, init);
    }
  }

  /** Updates bring a name into a directory exactly if they write the file of that name
      in it. */
  lemma NewNamesIff(updated: set<string>, dir: seq<string>, n: string)
    requires P.ValidElements(dir) && (forall rel | rel in updated :: P.Clean(rel)) && n != "" && '/' !in n
    ensures n in NewNames(updated, P.Join(dir)) <==> P.Join(dir + [n]) in updated
  {
    hide P.Join, Parent, P.PathBase, P.Split;
    var path := dir + [n];
    ParentOfPath(path);
    P.LastIsNoSlash(path);
    assert path[..|path| - 1] == dir;
    if n in NewNames(updated, P.Join(dir)) {
      var rel :| rel in updated && rel != "" && Parent(rel) == P.Join(dir) && P.PathBase(rel) == n;
      var parts := P.Elems(rel);
      P.JoinOfElems(rel);
      ParentOfPath(parts);
      var init := parts[..|parts| - 1];
      JoinInjective(init, dir);
      assert parts == init + [n];
    }
  }

  lemma JoinInjective(a: seq<string>, b: seq<string>)
    requires P.ValidElements(a) && P.ValidElements(b) && P.Join(a) == P.Join(b)
    ensures a == b
  {
    hide P.Join;
    P.NothingJoined();
    if a != [] { P.SplitOfJoin(a); P.LastIsNoSlash(a); }
    if b != [] { P.SplitOfJoin(b); P.LastIsNoSlash(b); }
  }

  /** The names of a directory once updates have been written: a sorted list stays
      sorted, and one that lacks nothing stays as it is. */
  ghost predicate ListsNames(listing: Option<seq<string>>, before: Option<seq<string>>, names: set<string>) {
    var was := if before.Some? then before.value else [];
    if names == {} then listing == before
    else
      && listing.Some? && Elements(listing.value) == Elements(was) + names
      && (SortedListing(was, Elements(was)) ==> SortedListing(listing.value, Elements(was) + names))
      && (names <= Elements(was) ==> listing.value == was)
  }

  /** The file as it is recorded. The content of an empty file is as if it had been left
      on disk. */
  function FileOf(rel: string, data: Bytes, digest: Bytes -> string): File {
    File(rel, if data == [] then None else Some(data), digest(data))
  }

  ghost predicate Written(s: Snapshot, updates: map<string, Bytes>, done: set<string>, digest: Bytes -> string,
        out: Snapshot)
  {
    && out.base == Some(s) && out.deletedFiles == {} && out.deletedDirs == {}
    && (forall rel :: LookupFile(out, rel) ==
          if rel in done && rel in updates && rel != "" then
            Some(File(rel, if |updates[rel]| == 0 then None else Some(updates[rel]), digest(updates[rel])))
          else LookupFile(s, rel))
    && (forall dir :: ListsNames(LookupDir(out, dir), LookupDir(s, dir), NewNames(done, dir)))
  }

  /** The overlay with files as they were written, whatever the order they come in. */
  method WithFileContents(s: Snapshot, updates: map<string, Bytes>, digest: Bytes -> string) returns (out: Snapshot)
    ensures updates == map[] ==> out == s
    ensures updates != map[] ==> Written(s, updates, updates.Keys, digest, out)
  {
    if updates == map[] {
      return s;
    }
    out := Snapshot(Some(s), map[], {}, map[], {});
    var todo := updates.Keys;
    WriteStart(s, updates, digest);
    while todo != {}
      invariant todo <= updates.Keys
      invariant Written(s, updates, updates.Keys - todo, digest, out)
      decreases todo
    {
      var rel :| rel in todo;
      assert updates.Keys - (todo - {rel}) == (updates.Keys - todo) + {rel};
      out := WriteFile(s, updates, updates.Keys - todo, digest, out, rel);
      todo := todo - {rel};
    }
    assert updates.Keys - {} == updates.Keys;
  }

  method WriteFile(s: Snapshot, updates: map<string, Bytes>, ghost done: set<string>, digest: Bytes -> string,
        out: Snapshot, rel: string)
    returns (next: Snapshot)
    requires Written(s, updates, done, digest, out) && rel in updates
    ensures Written(s, updates, done + {rel}, digest, next)
  {
    if rel == "" {
      SkipRoot(s, updates, done, digest, out);
      return out;
    }
    var entries := AddName(LookupDir(out, Parent(rel)), P.PathBase(rel));
    WriteStep(s, updates, done, digest, out, rel, entries);
    next := out.(files := out.files[rel := FileOf(rel, updates[rel], digest)],
                dirs := out.dirs[Parent(rel) := entries]);
  }

  lemma WriteStart(s: Snapshot, updates: map<string, Bytes>, digest: Bytes -> string)
    ensures Written(s, updates, {}, digest, Snapshot(Some(s), map[], {}, map[], {}))
    ensures updates.Keys - updates.Keys == {}
  {
  }

  lemma SkipRoot(s: Snapshot, updates: map<string, Bytes>, done: set<string>, digest: Bytes -> string, out: Snapshot)
    requires Written(s, updates, done, digest, out)
    ensures Written(s, updates, done + {""}, digest, out)
  {
    NamesGrow(done, "");
    forall dir ensures ListsNames(LookupDir(out, dir), LookupDir(s, dir), NewNames(done + {""}, dir)) {
      assert NewNames(done + {""}, dir) == NewNames(done, dir);
    }
  }

  /** A listing with a name added, unless it is there. */
  ghost predicate NameAdded(before: seq<string>, name: string, after: seq<string>) {
    if name in before then after == before
    else
      && Elements(after) == Elements(before) + {name} && Sorted(after)
      && multiset(after) == multiset(before) + multiset{name}
  }

  method AddName(before: Option<seq<string>>, name: string) returns (entries: seq<string>)
    ensures NameAdded(if before.Some? then before.value else [], name, entries)
  {
    entries := if before.Some? then before.value else [];
    var found := false;
    for i := 0 to |entries|
      invariant !found && name !in entries[..i]
    {
      if entries[i] == name {
        return entries;
      }
    }
    assert entries[..|entries|] == entries;
    ghost var was := entries;
    entries := entries + [name];
    ElementsConcat(was, [name]);
    SameMultisetSameElements(entries, Sort(entries));
    entries := Sort(entries);
  }

  lemma NamesGrow(done: set<string>, rel: string)
    ensures forall dir :: NewNames(done + {rel}, dir) == NewNames(done, dir) + NameIn(rel, dir)
  {
    forall dir ensures NewNames(done + {rel}, dir) == NewNames(done, dir) + NameIn(rel, dir) {
      var a, b := NewNames(done + {rel}, dir), NewNames(done, dir) + NameIn(rel, dir);
      forall x ensures x in a <==> x in b {}
    }
  }

  lemma ListingGrows(now: Option<seq<string>>, before: Option<seq<string>>, names: set<string>, name: string,
        after: seq<string>)
    requires ListsNames(now, before, names)
    requires NameAdded(if now.Some? then now.value else [], name, after)
    ensures ListsNames(Some(after), before, names + {name})
  {
    var was := if before.Some? then before.value else [];
    var cur := if now.Some? then now.value else [];
    assert Elements(cur) == Elements(was) + names;
    assert name in cur <==> name in Elements(cur);
    assert Elements(after) == Elements(was) + (names + {name});
    if SortedListing(was, Elements(was)) && name !in cur {
      assert NoDuplicates(cur);
      AddedOnce(cur, name, after);
    }
  }

  lemma AddedOnce(cur: seq<string>, name: string, after: seq<string>)
    requires NoDuplicates(cur) && name !in cur && multiset(after) == multiset(cur) + multiset{name}
    ensures NoDuplicates(after)
  {
    NoDuplicatesIsMultiset(cur);
    assert name !in multiset(cur);
    forall i, j | 0 <= i < j < |after| ensures after[i] != after[j] {
      assert multiset(after)[after[i]] <= 1;
      if after[i] == after[j] { TwoOccurrences(after, i, j); }
    }
  }

  lemma WriteStep(s: Snapshot, updates: map<string, Bytes>, done: set<string>, digest: Bytes -> string,
        out: Snapshot, rel: string, listing: seq<string>)
    requires Written(s, updates, done, digest, out) && rel in updates && rel != ""
    requires var before := LookupDir(out, Parent(rel));
             NameAdded(if before.Some? then before.value else [], P.PathBase(rel), listing)
    ensures Written(s, updates, done + {rel}, digest,
                    out.(files := out.files[rel := FileOf(rel, updates[rel], digest)],
                        dirs := out.dirs[Parent(rel) := listing]))
  {
    var next := out.(files := out.files[rel := FileOf(rel, updates[rel], digest)],
                    dirs := out.dirs[Parent(rel) := listing]);
    NamesGrow(done, rel);
    forall r ensures LookupFile(next, r) == if r == rel then Some(next.files[rel]) else LookupFile(out, r) {}
    forall dir ensures ListsNames(LookupDir(next, dir), LookupDir(s, dir), NewNames(done + {rel}, dir)) {
      if dir == Parent(rel) {
        ListingGrows(LookupDir(out, dir), LookupDir(s, dir), NewNames(done, dir), P.PathBase(rel), listing);
      } else {
        assert LookupDir(next, dir) == LookupDir(out, dir);
        assert NewNames(done + {rel}, dir) == NewNames(done, dir);
      }
    }
  }
}
