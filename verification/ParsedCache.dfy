/** The parsed-model cache: a stack of layers, each with entries of its own and
    tombstones that hide entries of the layers below. */
module ParsedCache {
  import opened Options
  import opened Sorting
  import P = Paths

  /** What a parser makes of a file; its content is the parser's business. */
  datatype Model = Model(repr: Bytes)

  type Fallible<+T> = Result<T, string>

  /** A parser: the key it is registered under, the version of its results, and its
      three functions. */
  datatype Parser = Parser(
    key: string,
    cacheVersion: string,
    parse: (string, Bytes) -> Fallible<Model>,
    encode: Model -> Fallible<Bytes>,
    decode: Bytes -> Fallible<Model>)

  datatype Key = Key(path: string, parserKey: string)

  datatype Entry = Entry(
    path: string,
    parserKey: string,
    parserVersion: string,
    contentHash: string,
    modelHash: string,
    encodedModel: Bytes)

  /** What a pending load comes to. */
  datatype Future = Ready(cache: Option<Cache>) | Failed(error: string)

  /** One layer. Below it is another layer, a pending cache, or one pending cache per
      parser. */
  datatype Cache = Cache(
    base: Option<Cache>,
    future: Option<Future>,
    futures: map<string, Future>,
    entries: map<Key, Entry>,
    deletedPaths: set<string>,
    deletedSubtrees: seq<string>)

  /** A path is removed together with a subtree. */
  predicate Under(prefix: string, path: string) {
    path == prefix || prefix + "/" <= path
  }

  predicate IsDeleted(c: Cache, path: string) {
    path in c.deletedPaths || exists i | 0 <= i < |c.deletedSubtrees| :: Under(c.deletedSubtrees[i], path)
  }

  function LookupEntry(c: Cache, key: Key): Fallible<Option<Entry>>
    decreases c
  {
    if key in c.entries then Ok(Some(c.entries[key]))
    else if IsDeleted(c, key.path) then Ok(None)
    else if c.base.Some? then LookupEntry(c.base.value, key)
    else if key.parserKey in c.futures then LookupFuture(c.futures[key.parserKey], key)
    else if c.future.Some? then LookupFuture(c.future.value, key)
    else Ok(None)
  }

  function LookupFuture(f: Future, key: Key): Fallible<Option<Entry>>
    decreases f
  {
    match f
    case Failed(error) => Err(error)
    case Ready(None) => Ok(None)
    case Ready(Some(c)) => LookupEntry(c, key)
  }

  /** Nothing below the layer's own entries. */
  function Bare(entries: map<Key, Entry>): Cache {
    Cache(None, None, map[], entries, {}, [])
  }

  function NewBuilder(seed: Option<Cache>): Cache {
    Cache(seed, None, map[], map[], {}, [])
  }

  function EntryKey(e: Entry): Key {
    Key(e.path, e.parserKey)
  }

  /** The shape every cache is given: at most one kind of layer below, entries under
      their own keys, and per-parser loads that hold entries of their parser only. */
  ghost predicate WellFormed(c: Cache)
    decreases c
  {
    && (c.base.Some? ==> c.future.None? && c.futures == map[] && WellFormed(c.base.value))
    && (c.future.Some? ==> c.futures == map[] && WellFormedFuture(c.future.value))
    && (forall k | k in c.futures :: WellFormedFuture(c.futures[k]) && OfParser(c.futures[k], k))
    && (forall k | k in c.entries :: EntryKey(c.entries[k]) == k)
  }

  ghost predicate WellFormedFuture(f: Future)
    decreases f
  {
    f.Ready? && f.cache.Some? ==> WellFormed(f.cache.value)
  }

  ghost predicate OfParser(f: Future, parserKey: string) {
    forall key: Key | LookupFuture(f, key).Ok? && LookupFuture(f, key).value.Some? :: key.parserKey == parserKey
  }

  // --------------------------------------------------------------- flattening

  /** Some pending load below has failed. */
  ghost predicate HasFailure(c: Cache)
    decreases c
  {
    || (c.base.Some? && HasFailure(c.base.value))
    || (c.future.Some? && FutureFailed(c.future.value))
    || exists k | k in c.futures :: FutureFailed(c.futures[k])
  }

  ghost predicate FutureFailed(f: Future)
    decreases f
  {
    f.Failed? || (f.cache.Some? && HasFailure(f.cache.value))
  }

  function Get(m: map<Key, Entry>, key: Key): Option<Entry> {
    if key in m then Some(m[key]) else None
  }

  /** `m` holds, at every key, what a lookup finds. */
  ghost predicate Flattens(m: map<Key, Entry>, c: Cache) {
    forall key :: LookupEntry(c, key) == Ok(Get(m, key))
  }

  ghost predicate FlattensFuture(m: map<Key, Entry>, f: Future) {
    forall key :: LookupFuture(f, key) == Ok(Get(m, key))
  }

  /** The entries of a stack of layers as one map. It fails when a pending load has
      failed, and otherwise agrees with lookup at every key. */
  method FlattenEntries(c: Cache) returns (r: Fallible<map<Key, Entry>>)
    requires WellFormed(c)
    ensures r.Err? <==> HasFailure(c)
    ensures r.Ok? ==> Flattens(r.value, c)
    decreases c
  {
    var entries: map<Key, Entry> := map[];
    if c.base.Some? {
      var below := FlattenEntries(c.base.value);
      if below.Err? {
        return below;
      }
      entries := below.value;
    } else if c.future.Some? {
      var below := FlattenFuture(c.future.value);
      if below.Err? {
        return below;
      }
      entries := below.value;
    } else {
      var todo := c.futures.Keys;
      while todo != {}
        invariant todo <= c.futures.Keys
        invariant forall k | k in c.futures.Keys - todo :: !FutureFailed(c.futures[k])
        invariant forall key: Key :: key.parserKey in c.futures.Keys - todo ==>
            LookupFuture(c.futures[key.parserKey], key) == Ok(Get(entries, key))
        invariant forall key: Key :: key.parserKey !in c.futures.Keys - todo ==> key !in entries
        decreases todo
      {
        var k :| k in todo;
        assert WellFormedFuture(c.futures[k]) && OfParser(c.futures[k], k);
        var below := FlattenFuture(c.futures[k]);
        if below.Err? {
          return below;
        }
        forall key | key in below.value ensures key.parserKey == k {
          assert LookupFuture(c.futures[k], key) == Ok(Get(below.value, key));
        }
        entries := entries + below.value;
        todo := todo - {k};
      }
    }
    ghost var below := entries;
    entries := map key | key in entries && !IsDeleted(c, key.path) :: entries[key];
    r := Ok(entries + c.entries);
    forall key ensures LookupEntry(c, key) == Ok(Get(r.value, key)) {
      LookupBelow(c, key, below);
    }
  }

  method FlattenFuture(f: Future) returns (r: Fallible<map<Key, Entry>>)
    requires WellFormedFuture(f)
    ensures r.Err? <==> FutureFailed(f)
    ensures r.Ok? ==> FlattensFuture(r.value, f)
    decreases f
  {
    match f
    case Failed(error) => r := Err(error);
    case Ready(None) => r := Ok(map[]);
    case Ready(Some(c)) => r := FlattenEntries(c);
  }

  lemma LookupBelow(c: Cache, key: Key, below: map<Key, Entry>)
    requires WellFormed(c)
    requires if c.base.Some? then Flattens(below, c.base.value)
             else if c.future.Some? then FlattensFuture(below, c.future.value)
             else if key.parserKey in c.futures then LookupFuture(c.futures[key.parserKey], key) == Ok(Get(below, key))
             else key !in below
    ensures LookupEntry(c, key) ==
            if key in c.entries then Ok(Some(c.entries[key]))
            else if IsDeleted(c, key.path) then Ok(None)
            else Ok(Get(below, key))
  {
  }

  /** Two maps that a cache flattens to are the same map. */
  lemma FlatteningUnique(a: map<Key, Entry>, b: map<Key, Entry>, c: Cache)
    requires Flattens(a, c) && Flattens(b, c)
    ensures a == b
  {
    forall key ensures Get(a, key) == Get(b, key) {
      assert Ok(Get(a, key)) == LookupEntry(c, key) == Ok(Get(b, key));
    }
    assert forall key :: (key in a <==> key in b) && (key in a ==> a[key] == b[key]) by {
      forall key ensures (key in a <==> key in b) && (key in a ==> a[key] == b[key]) {
        assert Get(a, key) == Get(b, key);
      }
    }
  }

  // ---------------------------------------------- persisting parser by parser

  /** The entries grouped by parser, each group sorted by path. */
  ghost predicate GroupedByParser(groups: map<string, seq<Entry>>, flat: map<Key, Entry>) {
    && (forall k :: k in groups <==> exists key :: key in flat && key.parserKey == k)
    && (forall k | k in groups :: GroupOf(groups[k], flat, k))
  }

  ghost predicate GroupOf(group: seq<Entry>, flat: map<Key, Entry>, parserKey: string) {
    && (forall e: Entry :: e in group <==> Key(e.path, parserKey) in flat && flat[Key(e.path, parserKey)] == e)
    && SortedListing(Paths(group), set key | key in flat && key.parserKey == parserKey :: key.path)
  }

  function Paths(group: seq<Entry>): seq<string> {
    seq(|group|, i requires 0 <= i < |group| => group[i].path)
  }

  method SnapshotByParser(flat: map<Key, Entry>) returns (groups: map<string, seq<Entry>>)
    requires forall key | key in flat :: EntryKey(flat[key]) == key
    ensures GroupedByParser(groups, flat)
  {
    groups := map[];
    var parsers := set key | key in flat :: key.parserKey;
    var todo := parsers;
    while todo != {}
      invariant todo <= parsers && groups.Keys == parsers - todo
      invariant forall k | k in groups :: GroupOf(groups[k], flat, k)
      decreases todo
    {
      var k :| k in todo;
      var paths := CollectSorted(set key | key in flat && key.parserKey == k :: key.path);
      var group: seq<Entry> := [];
      for i := 0 to |paths|
        invariant |group| == i
        invariant forall j | 0 <= j < i :: Key(paths[j], k) in flat && group[j] == flat[Key(paths[j], k)]
      {
        assert paths[i] in Elements(paths);
        group := group + [flat[Key(paths[i], k)]];
      }
      assert Paths(group) == paths;
      forall e: Entry | Key(e.path, k) in flat && flat[Key(e.path, k)] == e ensures e in group {
        assert e.path in Elements(paths);
        var j :| 0 <= j < |paths| && paths[j] == e.path;
        assert group[j] == e;
      }
      groups := groups[k := group];
      todo := todo - {k};
    }
  }

  /** The map of a list of entries, later entries replacing earlier ones. */
  function LoadEntries(list: seq<Entry>): map<Key, Entry> {
    if list == [] then map[]
    else LoadEntries(list[..|list| - 1])[EntryKey(list[|list| - 1]) := list[|list| - 1]]
  }

  function Load(list: seq<Entry>): Cache {
    Bare(LoadEntries(list))
  }

  /** A cache whose parsers' entries are still being loaded. */
  function PendingByParser(loads: map<string, Future>): Cache {
    Cache(None, None, loads, map[], {}, [])
  }

  function Reattach(groups: map<string, seq<Entry>>): Cache {
    PendingByParser(map k | k in groups :: Ready(Some(Load(groups[k]))))
  }

  lemma {:induction false} LoadedEntry(list: seq<Entry>, key: Key)
    requires forall i, j | 0 <= i < j < |list| :: EntryKey(list[i]) != EntryKey(list[j])
    ensures forall i | 0 <= i < |list| && EntryKey(list[i]) == key :: Get(LoadEntries(list), key) == Some(list[i])
    ensures (forall i | 0 <= i < |list| :: EntryKey(list[i]) != key) ==> key !in LoadEntries(list)
  {
    if list != [] {
      LoadedEntry(list[..|list| - 1], key);
    }
  }

  lemma GroupLoads(list: seq<Entry>, flat: map<Key, Entry>, key: Key)
    requires forall k | k in flat :: EntryKey(flat[k]) == k
    requires GroupOf(list, flat, key.parserKey)
    ensures Get(LoadEntries(list), key) == Get(flat, key)
  {
    forall i | 0 <= i < |list| ensures EntryKey(list[i]) == Key(list[i].path, key.parserKey) {
      assert list[i] in list;
    }
    forall i, j | 0 <= i < j < |list| ensures EntryKey(list[i]) != EntryKey(list[j]) {
      assert Paths(list)[i] != Paths(list)[j];
    }
    LoadedEntry(list, key);
    if key in flat {
      assert flat[key].path == key.path;
      assert flat[key] in list;
      var i :| 0 <= i < |list| && list[i] == flat[key];
    } else {
      forall i | 0 <= i < |list| ensures EntryKey(list[i]) != key {
        assert list[i] in list;
      }
    }
  }

  lemma BareLookup(entries: map<Key, Entry>, key: Key)
    ensures LookupEntry(Bare(entries), key) == Ok(Get(entries, key))
  {
  }

  /** Splitting the entries by parser and attaching the parts as pending loads changes
      no lookup. */
  lemma ReattachPreservesLookup(groups: map<string, seq<Entry>>, flat: map<Key, Entry>)
    requires forall key | key in flat :: EntryKey(flat[key]) == key
    requires GroupedByParser(groups, flat)
    ensures Flattens(flat, Reattach(groups))
  {
    forall key ensures LookupEntry(Reattach(groups), key) == Ok(Get(flat, key)) {
      if key.parserKey in groups {
        GroupLoads(groups[key.parserKey], flat, key);
        BareLookup(LoadEntries(groups[key.parserKey]), key);
        assert Reattach(groups).futures[key.parserKey] == Ready(Some(Load(groups[key.parserKey])));
      } else {
        assert key !in flat;
      }
    }
  }

  // ------------------------------------------------------ the mutable builder

  /** What a lookup by content says: the stored model, or that it must be parsed. */
  datatype LookupResult = LookupResult(model: Model, contentHash: string, modelHash: string, cacheHit: bool)

  predicate Fresh(e: Option<Entry>, parser: Parser, contentHash: string) {
    e.Some? && e.value.parserVersion == parser.cacheVersion && e.value.contentHash == contentHash
  }

  /** A lookup checked against a content hash. None is a miss. */
  function CheckHash(c: Cache, path: string, contentHash: string, parser: Parser): Fallible<Option<LookupResult>> {
    if parser.key == "" || parser.cacheVersion == "" then Err("invalid parser")
    else
      match LookupEntry(c, Key(path, parser.key))
      case Err(error) => Err(error)
      case Ok(found) =>
        if !Fresh(found, parser, contentHash) then Ok(None)
        else
          match parser.decode(found.value.encodedModel)
          case Err(error) => Err(error)
          case Ok(model) => Ok(Some(LookupResult(model, found.value.contentHash, found.value.modelHash, true)))
  }

  /** A check fails exactly if the parser has no key or no version, the lookup fails, or
      the model that is stored for this content and version does not decode. */
  lemma CheckFailsIff(c: Cache, path: string, contentHash: string, parser: Parser)
    ensures CheckHash(c, path, contentHash, parser).Err? <==>
            || parser.key == "" || parser.cacheVersion == "" || LookupEntry(c, Key(path, parser.key)).Err?
            || exists e: Entry ::
                 && LookupEntry(c, Key(path, parser.key)) == Ok(Some(e))
                 && e.parserVersion == parser.cacheVersion && e.contentHash == contentHash
                 && parser.decode(e.encodedModel).Err?
  {
    var found := LookupEntry(c, Key(path, parser.key));
    if found.Ok? && Fresh(found.value, parser, contentHash) {
      assert found == Ok(Some(found.value.value));
    }
    hide LookupEntry;
  }

  /** The entry of a fresh parse, as Parse and the workers make it. */
  function ParsedEntry(path: string, data: Bytes, parser: Parser, digest: Bytes -> string): Fallible<Entry> {
    match parser.parse(path, data)
    case Err(error) => Err(error)
    case Ok(model) =>
      match parser.encode(model)
      case Err(error) => Err(error)
      case Ok(encoded) => Ok(Entry(path, parser.key, parser.cacheVersion, digest(data), digest(encoded), encoded))
  }

  // The layers an operation on the builder leaves behind.
  function Insert(c: Cache, e: Entry): Cache {
    c.(entries := c.entries[EntryKey(e) := e])
  }

  function StoreInto(c: Cache, e: Entry): Cache {
    c.(deletedPaths := c.deletedPaths - {e.path}, entries := c.entries[EntryKey(e) := e])
  }

  function RemovePath(c: Cache, path: string): Cache {
    c.(entries := map key | key in c.entries && key.path != path :: c.entries[key],
       deletedPaths := c.deletedPaths + {path})
  }

  function RemoveSubtree(c: Cache, prefix: string): Cache {
    c.(entries := map key | key in c.entries && !Under(prefix, key.path) :: c.entries[key],
       deletedSubtrees := c.deletedSubtrees + [prefix])
  }

  class CacheBuilder {
    const digest: Bytes -> string
    const clean: string -> string
    const base: Option<Cache>
    var entries: map<Key, Entry>
    var deletedPaths: set<string>
    var deletedSubtrees: seq<string>

    /** The builder as a layer. */
    ghost function Layer(): Cache
      reads this
    {
      Cache(base, None, map[], entries, deletedPaths, deletedSubtrees)
    }

    /** `clean` stands for the library's path cleaning. */
    constructor (seed: Option<Cache>, digest: Bytes -> string, clean: string -> string)
      ensures this.digest == digest && this.clean == clean && Layer() == NewBuilder(seed)
    {
      this.digest, this.clean, base := digest, clean, seed;
      entries, deletedPaths, deletedSubtrees := map[], {}, [];
    }

    method Lookup(key: Key) returns (r: Fallible<Option<Entry>>)
      ensures r == LookupEntry(Layer(), key)
    {
      if key in entries {
        return Ok(Some(entries[key]));
      }
      if key.path in deletedPaths {
        return Ok(None);
      }
      for i := 0 to |deletedSubtrees|
        invariant forall j | 0 <= j < i :: !Under(deletedSubtrees[j], key.path)
      {
        if Under(deletedSubtrees[i], key.path) {
          return Ok(None);
        }
      }
      if base.None? {
        return Ok(None);
      }
      r := LookupEntry(base.value, key);
    }

    /** Returns the stored model when content and version match, and otherwise parses
        and stores. */
    method Parse(path: string, data: Bytes, parser: Parser) returns (r: Fallible<LookupResult>)
      modifies this`entries
      ensures var hit := CheckHash(old(Layer()), path, digest(data), parser);
              match hit
              case Err(error) => r == Err(error) && Layer() == old(Layer())
              case Ok(Some(stored)) => r == Ok(stored) && Layer() == old(Layer())
              case Ok(None) =>
                match ParsedEntry(path, data, parser, digest)
                case Err(error) => r == Err(error) && Layer() == old(Layer())
                case Ok(e) =>
                  && r.Ok? && parser.parse(path, data) == Ok(r.value.model) && !r.value.cacheHit
                  && r.value.contentHash == e.contentHash && r.value.modelHash == e.modelHash
                  && Layer() == Insert(old(Layer()), e)
    {
      if parser.key == "" || parser.cacheVersion == "" {
        return Err("invalid parser");
      }
      var contentHash := digest(data);
      var found := Lookup(Key(path, parser.key));
      if found.Err? {
        return Err(found.error);
      }
      if Fresh(found.value, parser, contentHash) {
        var decoded := parser.decode(found.value.value.encodedModel);
        if decoded.Err? {
          return Err(decoded.error);
        }
        return Ok(LookupResult(decoded.value, found.value.value.contentHash, found.value.value.modelHash, true));
      }
      var model := parser.parse(path, data);
      if model.Err? {
        return Err(model.error);
      }
      var encoded := parser.encode(model.value);
      if encoded.Err? {
        return Err(encoded.error);
      }
      var e := Entry(path, parser.key, parser.cacheVersion, contentHash, digest(encoded.value), encoded.value);
      entries := entries[Key(path, parser.key) := e];
      r := Ok(LookupResult(model.value, contentHash, e.modelHash, false));
    }

    method StoreEntry(e: Entry)
      modifies this`entries, this`deletedPaths
      ensures Layer() == StoreInto(old(Layer()), e)
    {
      deletedPaths := deletedPaths - {e.path};
      entries := entries[Key(e.path, e.parserKey) := e];
    }

    method DeletePath(path: string)
      modifies this`entries, this`deletedPaths
      ensures Layer() == RemovePath(old(Layer()), clean(path))
    {
      var p := clean(path);
      var todo := entries.Keys;
      while todo != {}
        invariant entries == map key | key in old(entries) && (key in todo || key.path != p) :: old(entries)[key]
        invariant deletedPaths == old(deletedPaths)
        decreases todo
      {
        var key :| key in todo;
        if key.path == p {
          entries := entries - {key};
        }
        todo := todo - {key};
      }
      deletedPaths := deletedPaths + {p};
    }

    method DeleteSubtree(prefix: string)
      modifies this`entries, this`deletedSubtrees
      ensures Layer() == RemoveSubtree(old(Layer()), clean(prefix))
    {
      var p := clean(prefix);
      var todo := entries.Keys;
      while todo != {}
        invariant entries == map key | key in old(entries) && (key in todo || !Under(p, key.path)) :: old(entries)[key]
        invariant deletedSubtrees == old(deletedSubtrees)
        decreases todo
      {
        var key :| key in todo;
        if Under(p, key.path) {
          entries := entries - {key};
        }
        todo := todo - {key};
      }
      deletedSubtrees := deletedSubtrees + [p];
    }

    /** Hands the layer over; the builder is left empty. */
    method Freeze() returns (c: Cache)
      modifies this
      ensures c == old(Layer())
      ensures Layer() == NewBuilder(base)
    {
      c := Cache(base, None, map[], entries, deletedPaths, deletedSubtrees);
      entries, deletedPaths, deletedSubtrees := map[], {}, [];
    }
  }

  // ----------------------------------------- what the operations do to lookups

  /** A stored entry is found, and no other lookup changes. */
  lemma InsertLaw(c: Cache, e: Entry, key: Key)
    ensures LookupEntry(Insert(c, e), key) == if key == EntryKey(e) then Ok(Some(e)) else LookupEntry(c, key)
  {
  }

  lemma RemovePathLaw(c: Cache, path: string, key: Key)
    ensures LookupEntry(RemovePath(c, path), key) == if key.path == path then Ok(None) else LookupEntry(c, key)
  {
  }

  lemma RemoveSubtreeLaw(c: Cache, prefix: string, key: Key)
    ensures LookupEntry(RemoveSubtree(c, prefix), key) ==
            if Under(prefix, key.path) then Ok(None) else LookupEntry(c, key)
  {
    var c' := RemoveSubtree(c, prefix);
    assert c'.deletedSubtrees[|c.deletedSubtrees|] == prefix;
    assert forall i | 0 <= i < |c.deletedSubtrees| :: c'.deletedSubtrees[i] == c.deletedSubtrees[i];
    assert IsDeleted(c', key.path) <==> IsDeleted(c, key.path) || Under(prefix, key.path);
  }

  /** In terms of the elements of paths: removing the subtree of a directory hides what is
      in it or below, and nothing beside it, whatever its name begins with. */
  lemma RemoveSubtreeByElements(c: Cache, prefix: string, key: Key)
    requires P.Clean(prefix) && P.Clean(key.path) && prefix != ""
    ensures LookupEntry(RemoveSubtree(c, prefix), key) ==
            if P.Elems(prefix) <= P.Elems(key.path) then Ok(None) else LookupEntry(c, key)
  {
    RemoveSubtreeLaw(c, prefix, key);
    P.BelowIff(key.path, prefix);
  }

  /** A path lies in the subtree of a directory; every path lies in that of the root. */
  predicate InSubtree(prefix: string, path: string) {
    prefix == "" || path == prefix || prefix + "/" <= path
  }

  /** Removing a subtree removes all of it, for every cache, if and only if it is not
      the subtree of the root. */
  lemma RemoveSubtreeIsWhole(prefix: string)
    ensures prefix != "" <==>
            forall c: Cache, key: Key | InSubtree(prefix, key.path) ::
              LookupEntry(RemoveSubtree(c, prefix), key) == Ok(None)
  {
    forall c: Cache, key: Key | prefix != "" && InSubtree(prefix, key.path)
      ensures LookupEntry(RemoveSubtree(c, prefix), key) == Ok(None)
    {
      RemoveSubtreeLaw(c, prefix, key);
    }
    if prefix == "" {
      var key := Key("a", "parser");
      var e := Entry("a", "parser", "1", "", "", []);
      RemoveSubtreeLaw(Bare(map[key := e]), "", key);
      assert "" + "/" == "/" && "/"[0] != "a"[0];
      assert LookupEntry(RemoveSubtree(Bare(map[key := e]), ""), key) == Ok(Some(e));
    }
  }

  /** Storing an entry also lifts the tombstone of its path. Other parsers' entries for
      that path, in layers below, are found again unless a subtree tombstone hides
      them; all other lookups stay. */
  lemma StoreLaw(c: Cache, e: Entry, key: Key)
    ensures LookupEntry(StoreInto(c, e), key) ==
            if key == EntryKey(e) then Ok(Some(e))
            else if key.path == e.path && key !in c.entries && e.path in c.deletedPaths
                    && forall i | 0 <= i < |c.deletedSubtrees| :: !Under(c.deletedSubtrees[i], e.path)
            then LookupEntry(c.(entries := map[], deletedPaths := {}, deletedSubtrees := []), key)
            else LookupEntry(c, key)
  {
    assert IsDeleted(StoreInto(c, e), key.path) <==>
           (key.path in c.deletedPaths && key.path != e.path) || exists i | 0 <= i < |c.deletedSubtrees| ::
             Under(c.deletedSubtrees[i], key.path);
  }

  /** A path tombstone is all that hides what another parser has for the path below. */
  ghost predicate TombstoneHides(c: Cache, path: string, parserKey: string) {
    && path in c.deletedPaths
    && (forall i | 0 <= i < |c.deletedSubtrees| :: !Under(c.deletedSubtrees[i], path))
    && Key(path, parserKey) !in c.entries
    && LookupEntry(c.(entries := map[], deletedPaths := {}, deletedSubtrees := []), Key(path, parserKey)) != Ok(None)
  }

  /** Storing is a plain insertion exactly when the path's tombstone hides nothing of
      another parser. */
  lemma StoreIsInsertIff(c: Cache, e: Entry)
    ensures (forall key :: LookupEntry(StoreInto(c, e), key) == LookupEntry(Insert(c, e), key)) <==>
            !exists k :: k != e.parserKey && TombstoneHides(c, e.path, k)
  {
    forall key
      ensures LookupEntry(StoreInto(c, e), key) != LookupEntry(Insert(c, e), key) <==>
              key.path == e.path && key.parserKey != e.parserKey && TombstoneHides(c, e.path, key.parserKey)
    {
      StoreLaw(c, e, key);
      InsertLaw(c, e, key);
    }
    if k :| k != e.parserKey && TombstoneHides(c, e.path, k) {
      assert LookupEntry(StoreInto(c, e), Key(e.path, k)) != LookupEntry(Insert(c, e), Key(e.path, k));
    }
  }

  /** Freezing and building on the result changes no lookup. */
  lemma ReseedLaw(c: Cache, key: Key)
    ensures LookupEntry(NewBuilder(Some(c)), key) == LookupEntry(c, key)
  {
  }
}
