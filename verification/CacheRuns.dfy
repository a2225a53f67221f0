/** Whole runs of the parsed-model cache: whatever is parsed, stored, removed, frozen,
    persisted and reattached, a checked hit is what a fresh parse would return, and
    the stack of layers behaves as one plain map. */
module CacheRuns {
  import opened Options
  import opened ParsedCache

  /** What the cache relies on: the content digest, and the parser meant by a key and
      a cache version. */
  datatype World = World(digest: Bytes -> string, parsers: (string, string) -> Parser)

  /** Digests do not collide, and decoding undoes encoding. */
  ghost predicate Lawful(w: World) {
    && (forall a, b | w.digest(a) == w.digest(b) :: a == b)
    && (forall key, version, m | w.parsers(key, version).encode(m).Ok? ::
          w.parsers(key, version).decode(w.parsers(key, version).encode(m).value) == Ok(m))
  }

  /** A parser is determined by its key and its version. */
  ghost predicate Known(w: World, parser: Parser) {
    w.parsers(parser.key, parser.cacheVersion) == parser && parser.key != "" && parser.cacheVersion != ""
  }

  /** The entry is that of a fresh parse of some content. */
  ghost predicate Faithful(w: World, e: Entry) {
    exists data ::
      var parser := w.parsers(e.parserKey, e.parserVersion);
      Known(w, parser) && ParsedEntry(e.path, data, parser, w.digest) == Ok(e)
  }

  /** All entries of all layers are faithful, hidden ones included. */
  ghost predicate AllFaithful(w: World, c: Cache)
    decreases c
  {
    && (forall key | key in c.entries :: EntryKey(c.entries[key]) == key && Faithful(w, c.entries[key]))
    && (c.base.Some? ==> AllFaithful(w, c.base.value))
    && (c.future.Some? ==> FutureFaithful(w, c.future.value))
    && (forall k | k in c.futures :: FutureFaithful(w, c.futures[k]))
  }

  ghost predicate FutureFaithful(w: World, f: Future)
    decreases f
  {
    f.Ready? && f.cache.Some? ==> AllFaithful(w, f.cache.value)
  }

  lemma {:induction false} FoundIsFaithful(w: World, c: Cache, key: Key)
    requires AllFaithful(w, c) && LookupEntry(c, key).Ok? && LookupEntry(c, key).value.Some?
    ensures EntryKey(LookupEntry(c, key).value.value) == key && Faithful(w, LookupEntry(c, key).value.value)
    decreases c
  {
    if key !in c.entries {
      if c.base.Some? {
        FoundIsFaithful(w, c.base.value, key);
      } else if key.parserKey in c.futures {
        FoundInFuture(w, c.futures[key.parserKey], key);
      } else {
        FoundInFuture(w, c.future.value, key);
      }
    }
  }

  lemma {:induction false} FoundInFuture(w: World, f: Future, key: Key)
    requires FutureFaithful(w, f) && LookupFuture(f, key).Ok? && LookupFuture(f, key).value.Some?
    ensures EntryKey(LookupFuture(f, key).value.value) == key && Faithful(w, LookupFuture(f, key).value.value)
    decreases f
  {
    FoundIsFaithful(w, f.cache.value, key);
  }

  /** A hit checked against the digest of `data` is what parsing `data` returns, and
      the check never fails on a stored entry. */
  lemma HitIsFreshParse(w: World, c: Cache, path: string, data: Bytes, parser: Parser)
    requires Lawful(w) && Known(w, parser) && AllFaithful(w, c)
    ensures match CheckHash(c, path, w.digest(data), parser)
            case Err(_) => LookupEntry(c, Key(path, parser.key)).Err?
            case Ok(None) =>
              && LookupEntry(c, Key(path, parser.key)).Ok?
              && var stored := LookupEntry(c, Key(path, parser.key)).value;
                 stored.Some? ==> stored.value.parserVersion != parser.cacheVersion
                                  || stored.value.contentHash != w.digest(data)
            case Ok(Some(r)) =>
              && parser.parse(path, data) == Ok(r.model) && r.cacheHit
              && parser.encode(r.model).Ok?
              && r.contentHash == w.digest(data)
              && r.modelHash == w.digest(parser.encode(r.model).value)
  {
    var found := LookupEntry(c, Key(path, parser.key));
    if found.Ok? && Fresh(found.value, parser, w.digest(data)) {
      var e := found.value.value;
      FoundIsFaithful(w, c, Key(path, parser.key));
      var stored :| ParsedEntry(e.path, stored, parser, w.digest) == Ok(e);
      assert w.digest(stored) == w.digest(data);
      var model := parser.parse(path, stored).value;
      assert w.parsers(parser.key, parser.cacheVersion).encode(model).Ok?;
    }
  }

  // --------------------------------------------------------------------- runs

  /** The operations on a cache. A worker's entry is stored as it was parsed; Reseed is
      Freeze followed by building on the frozen cache; Persist also splits the frozen
      cache by parser and reattaches the parts as pending loads. */
  datatype Op =
    | ParseOp(path: string, data: Bytes, parser: Parser)
    | StoreOp(path: string, data: Bytes, parser: Parser)
    | DeletePathOp(path: string)
    | DeleteSubtreeOp(path: string)
    | ReseedOp
    | PersistOp(groups: map<string, seq<Entry>>)

  ghost predicate Persists(groups: map<string, seq<Entry>>, c: Cache) {
    exists flat :: Flattens(flat, c) && GroupedByParser(groups, flat)
  }

  ghost predicate Legal(w: World, c: Cache, op: Op) {
    match op
    case ParseOp(_, _, parser) => Known(w, parser)
    case StoreOp(_, _, parser) => Known(w, parser)
    case PersistOp(groups) => Persists(groups, c)
    case _ => true
  }

  ghost function Step(w: World, c: Cache, op: Op): Cache {
    match op
    case ParseOp(path, data, parser) =>
      var e := ParsedEntry(path, data, parser, w.digest);
      if CheckHash(c, path, w.digest(data), parser) == Ok(None) && e.Ok? then Insert(c, e.value) else c
    case StoreOp(path, data, parser) =>
      var e := ParsedEntry(path, data, parser, w.digest);
      if e.Ok? then StoreInto(c, e.value) else c
    case DeletePathOp(path) => RemovePath(c, path)
    case DeleteSubtreeOp(path) => RemoveSubtree(c, path)
    case ReseedOp => NewBuilder(Some(c))
    case PersistOp(groups) => NewBuilder(Some(Reattach(groups)))
  }

  ghost function Run(w: World, c: Cache, ops: seq<Op>): Cache
    decreases |ops|
  {
    if ops == [] then c else Run(w, Step(w, c, ops[0]), ops[1..])
  }

  ghost predicate LegalRun(w: World, c: Cache, ops: seq<Op>)
    decreases |ops|
  {
    ops == [] || (Legal(w, c, ops[0]) && LegalRun(w, Step(w, c, ops[0]), ops[1..]))
  }

  lemma ParsedIsFaithful(w: World, path: string, data: Bytes, parser: Parser)
    requires Known(w, parser) && ParsedEntry(path, data, parser, w.digest).Ok?
    ensures Faithful(w, ParsedEntry(path, data, parser, w.digest).value)
  {
  }

  lemma {:induction false} LoadedFaithful(w: World, list: seq<Entry>)
    requires forall e | e in list :: Faithful(w, e)
    ensures forall key | key in LoadEntries(list) ::
              EntryKey(LoadEntries(list)[key]) == key && Faithful(w, LoadEntries(list)[key])
  {
    if list != [] {
      assert list[|list| - 1] in list;
      forall e | e in list[..|list| - 1] ensures Faithful(w, e) {
        assert e in list;
      }
      LoadedFaithful(w, list[..|list| - 1]);
    }
  }

  lemma GroupFaithful(w: World, c: Cache, flat: map<Key, Entry>, k: string, group: seq<Entry>)
    requires AllFaithful(w, c) && Flattens(flat, c) && GroupOf(group, flat, k)
    ensures forall e | e in group :: Faithful(w, e)
  {
    hide AllFaithful, Faithful;
    forall e | e in group ensures Faithful(w, e) {
      var key := Key(e.path, k);
      assert LookupEntry(c, key) == Ok(Get(flat, key));
      FoundIsFaithful(w, c, key);
    }
  }

  lemma ReattachFaithful(w: World, c: Cache, groups: map<string, seq<Entry>>)
    requires AllFaithful(w, c) && Persists(groups, c)
    ensures AllFaithful(w, Reattach(groups))
  {
    var flat :| Flattens(flat, c) && GroupedByParser(groups, flat);
    forall k | k in groups ensures FutureFaithful(w, Reattach(groups).futures[k]) {
      GroupFaithful(w, c, flat, k, groups[k]);
      LoadedFaithful(w, groups[k]);
    }
  }

  lemma StepFaithful(w: World, c: Cache, op: Op)
    requires AllFaithful(w, c) && Legal(w, c, op)
    ensures AllFaithful(w, Step(w, c, op))
  {
    match op
    case ParseOp(path, data, parser) =>
      if ParsedEntry(path, data, parser, w.digest).Ok? { ParsedIsFaithful(w, path, data, parser); }
    case StoreOp(path, data, parser) =>
      if ParsedEntry(path, data, parser, w.digest).Ok? { ParsedIsFaithful(w, path, data, parser); }
    case PersistOp(groups) => ReattachFaithful(w, c, groups);
    case _ =>
  }

  lemma {:induction false} RunFaithful(w: World, c: Cache, ops: seq<Op>)
    requires AllFaithful(w, c) && LegalRun(w, c, ops)
    ensures AllFaithful(w, Run(w, c, ops))
    decreases |ops|
  {
    if ops != [] {
      StepFaithful(w, c, ops[0]);
      RunFaithful(w, Step(w, c, ops[0]), ops[1..]);
    }
  }

  /** After any run of operations from an empty cache, a hit checked against the
      content returns the model, and the hashes, a fresh parse would return. */
  lemma CacheIsTransparent(w: World, ops: seq<Op>, path: string, data: Bytes, parser: Parser, r: LookupResult)
    requires Lawful(w) && Known(w, parser) && LegalRun(w, NewBuilder(None), ops)
    requires CheckHash(Run(w, NewBuilder(None), ops), path, w.digest(data), parser) == Ok(Some(r))
    ensures parser.parse(path, data) == Ok(r.model) && parser.encode(r.model).Ok?
    ensures r.contentHash == w.digest(data) && r.modelHash == w.digest(parser.encode(r.model).value)
  {
    RunFaithful(w, NewBuilder(None), ops);
    HitIsFreshParse(w, Run(w, NewBuilder(None), ops), path, data, parser);
  }

  // ------------------------------------------------- the layers as a plain map

  /** What an operation does to a plain map of entries. */
  ghost function PlainStep(w: World, m: map<Key, Entry>, op: Op): map<Key, Entry> {
    match op
    case ParseOp(path, data, parser) =>
      var e := ParsedEntry(path, data, parser, w.digest);
      if Fresh(Get(m, Key(path, parser.key)), parser, w.digest(data)) || e.Err? then m
      else m[EntryKey(e.value) := e.value]
    case StoreOp(path, data, parser) =>
      var e := ParsedEntry(path, data, parser, w.digest);
      if e.Err? then m else m[EntryKey(e.value) := e.value]
    case DeletePathOp(path) => map key | key in m && key.path != path :: m[key]
    case DeleteSubtreeOp(path) => map key | key in m && !Under(path, key.path) :: m[key]
    case ReseedOp => m
    case PersistOp(_) => m
  }

  ghost function PlainRun(w: World, m: map<Key, Entry>, ops: seq<Op>): map<Key, Entry>
    decreases |ops|
  {
    if ops == [] then m else PlainRun(w, PlainStep(w, m, ops[0]), ops[1..])
  }

  /** The operation does not lift a tombstone that hides something of another parser. */
  ghost predicate PlainOp(w: World, c: Cache, op: Op) {
    op.StoreOp? && ParsedEntry(op.path, op.data, op.parser, w.digest).Ok? ==>
      !exists k :: k != op.parser.key && TombstoneHides(c, op.path, k)
  }

  /** No store of the run does. */
  ghost predicate StoresArePlain(w: World, c: Cache, ops: seq<Op>)
    decreases |ops|
  {
    ops == [] || (PlainOp(w, c, ops[0]) && StoresArePlain(w, Step(w, c, ops[0]), ops[1..]))
  }

  /** Before the run and after each of its operations the layers come to the plain map. */
  ghost predicate AgreesThroughout(w: World, c: Cache, m: map<Key, Entry>, ops: seq<Op>)
    decreases |ops|
  {
    Flattens(m, c) && (ops == [] || AgreesThroughout(w, Step(w, c, ops[0]), PlainStep(w, m, ops[0]), ops[1..]))
  }

  lemma PlainStepRefined(w: World, c: Cache, m: map<Key, Entry>, op: Op)
    requires Lawful(w) && AllFaithful(w, c) && Legal(w, c, op) && Flattens(m, c)
    requires PlainOp(w, c, op)
    ensures Flattens(PlainStep(w, m, op), Step(w, c, op))
  {
    match op
    case ParseOp(path, data, parser) => PlainParse(w, c, m, path, data, parser);
    case StoreOp(path, data, parser) =>
      var e := ParsedEntry(path, data, parser, w.digest);
      if e.Ok? {
        StoreIsInsertIff(c, e.value);
        forall key ensures LookupEntry(StoreInto(c, e.value), key) == Ok(Get(PlainStep(w, m, op), key)) {
          InsertLaw(c, e.value, key);
          assert LookupEntry(StoreInto(c, e.value), key) == LookupEntry(Insert(c, e.value), key);
        }
      }
    case DeletePathOp(path) =>
      forall key ensures LookupEntry(Step(w, c, op), key) == Ok(Get(PlainStep(w, m, op), key)) {
        RemovePathLaw(c, path, key);
      }
    case DeleteSubtreeOp(path) =>
      forall key ensures LookupEntry(Step(w, c, op), key) == Ok(Get(PlainStep(w, m, op), key)) {
        RemoveSubtreeLaw(c, path, key);
      }
    case ReseedOp =>
      forall key ensures LookupEntry(Step(w, c, op), key) == Ok(Get(m, key)) {
        ReseedLaw(c, key);
      }
    case PersistOp(groups) =>
      var flat :| Flattens(flat, c) && GroupedByParser(groups, flat);
      FlatteningUnique(flat, m, c);
      forall key | key in flat ensures EntryKey(flat[key]) == key {
        assert LookupEntry(c, key) == Ok(Get(flat, key));
        FoundIsFaithful(w, c, key);
      }
      ReattachPreservesLookup(groups, flat);
      forall key ensures LookupEntry(Step(w, c, op), key) == Ok(Get(m, key)) {
        ReseedLaw(Reattach(groups), key);
      }
  }

  lemma PlainParse(w: World, c: Cache, m: map<Key, Entry>, path: string, data: Bytes, parser: Parser)
    requires Lawful(w) && AllFaithful(w, c) && Known(w, parser) && Flattens(m, c)
    ensures var op := ParseOp(path, data, parser);
            Flattens(PlainStep(w, m, op), Step(w, c, op))
  {
    var key := Key(path, parser.key);
    assert LookupEntry(c, key) == Ok(Get(m, key));
    HitIsFreshParse(w, c, path, data, parser);
    var e := ParsedEntry(path, data, parser, w.digest);
    if e.Ok? {
      forall k ensures LookupEntry(Insert(c, e.value), k) == Ok(Get(m[EntryKey(e.value) := e.value], k)) {
        InsertLaw(c, e.value, k);
      }
    }
  }

  /** An operation that agrees lifts no such tombstone. */
  lemma AgreeingIsPlain(w: World, c: Cache, m: map<Key, Entry>, op: Op)
    requires Flattens(m, c) && Flattens(PlainStep(w, m, op), Step(w, c, op))
    ensures PlainOp(w, c, op)
  {
    if op.StoreOp? && ParsedEntry(op.path, op.data, op.parser, w.digest).Ok? {
      var e := ParsedEntry(op.path, op.data, op.parser, w.digest).value;
      forall key ensures LookupEntry(StoreInto(c, e), key) == LookupEntry(Insert(c, e), key) {
        InsertLaw(c, e, key);
        assert LookupEntry(c, key) == Ok(Get(m, key));
        assert LookupEntry(Step(w, c, op), key) == Ok(Get(PlainStep(w, m, op), key));
      }
      StoreIsInsertIff(c, e);
    }
  }

  /** A run on a stack of layers is the run on the flattened map, at every step, exactly
      if no store lifts a tombstone that hides something of another parser. */
  lemma {:induction false} LayersRefinePlainMapIff(w: World, c: Cache, m: map<Key, Entry>, ops: seq<Op>)
    requires Lawful(w) && AllFaithful(w, c) && LegalRun(w, c, ops) && Flattens(m, c)
    ensures AgreesThroughout(w, c, m, ops) <==> StoresArePlain(w, c, ops)
    ensures StoresArePlain(w, c, ops) ==> Flattens(PlainRun(w, m, ops), Run(w, c, ops))
    decreases |ops|
  {
    hide PlainOp, PlainStep, Step, Flattens, Lawful, AllFaithful, Legal;
    if ops != [] {
      StepFaithful(w, c, ops[0]);
      if PlainOp(w, c, ops[0]) {
        PlainStepRefined(w, c, m, ops[0]);
        LayersRefinePlainMapIff(w, Step(w, c, ops[0]), PlainStep(w, m, ops[0]), ops[1..]);
      } else if AgreesThroughout(w, c, m, ops) {
        NowAgrees(w, Step(w, c, ops[0]), PlainStep(w, m, ops[0]), ops[1..]);
        AgreeingIsPlain(w, c, m, ops[0]);
      }
    }
  }

  lemma NowAgrees(w: World, c: Cache, m: map<Key, Entry>, ops: seq<Op>)
    requires AgreesThroughout(w, c, m, ops)
    ensures Flattens(m, c)
  {
  }
}
