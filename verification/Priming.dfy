/** Priming: before the repository is frozen, every file is parsed by every parser that
    applies to it, so that the frozen snapshot never has to parse. */
module Priming {
  import opened Options
  import opened Sorting
  import opened ParsedCache
  import opened CacheRuns
  import opened Snapshots

  /** A parser with its path matchers; one without matchers applies everywhere. */
  datatype Registered = Registered(parser: Parser, matchers: seq<string -> bool>)

  type Registry = map<string, Registered>

  predicate Applies(r: Registered, path: string) {
    r.matchers == [] || exists i | 0 <= i < |r.matchers| :: r.matchers[i](path)
  }

  ghost predicate ValidRegistry(w: World, registry: Registry) {
    forall k | k in registry :: registry[k].parser.key == k && Known(w, registry[k].parser)
  }

  /** The keys of the parsers that apply to a path, in order. */
  method MatchingParsers(registry: Registry, path: string) returns (keys: seq<string>)
    ensures SortedListing(keys, set k | k in registry && Applies(registry[k], path))
    ensures forall k | k in registry && registry[k].matchers == [] :: k in keys
    ensures forall k | k in registry && registry[k].matchers != [] ::
              k in keys <==> exists i | 0 <= i < |registry[k].matchers| :: registry[k].matchers[i](path)
  {
    var applying := set k | k in registry && Applies(registry[k], path);
    keys := CollectSorted(applying);
    assert forall k :: k in keys <==> k in Elements(keys);
  }

  // ------------------------------------------------------ lookups of the frozen repo

  /** A lookup that does not check the content. */
  function CheckPath(c: Cache, path: string, parser: Parser): Fallible<Option<LookupResult>> {
    if parser.key == "" || parser.cacheVersion == "" then Err("invalid parser")
    else
      match LookupEntry(c, Key(path, parser.key))
      case Err(error) => Err(error)
      case Ok(found) =>
        if found.None? || found.value.parserVersion != parser.cacheVersion then Ok(None)
        else
          match parser.decode(found.value.encodedModel)
          case Err(error) => Err(error)
          case Ok(model) => Ok(Some(LookupResult(model, found.value.contentHash, found.value.modelHash, true)))
  }

  /** Without checking the content, any entry of the parser's version is a hit. */
  lemma CheckPathIff(c: Cache, path: string, parser: Parser)
    ensures CheckPath(c, path, parser) == Ok(None) <==>
            && parser.key != "" && parser.cacheVersion != ""
            && (|| LookupEntry(c, Key(path, parser.key)) == Ok(None)
                || exists e: Entry ::
                     LookupEntry(c, Key(path, parser.key)) == Ok(Some(e)) && e.parserVersion != parser.cacheVersion)
    ensures forall r: LookupResult :: CheckPath(c, path, parser) == Ok(Some(r)) <==>
                        && parser.key != "" && parser.cacheVersion != "" && r.cacheHit
                        && exists e: Entry ::
                             && LookupEntry(c, Key(path, parser.key)) == Ok(Some(e))
                             && e.parserVersion == parser.cacheVersion && parser.decode(e.encodedModel) == Ok(r.model)
                             && e.contentHash == r.contentHash && e.modelHash == r.modelHash
  {
    hide LookupEntry;
    var found := LookupEntry(c, Key(path, parser.key));
    if found.Ok? && found.value.Some? {
      assert found == Ok(Some(found.value.value));
    }
  }

  /** What is stored for a file: for the digest of its content or, without content, for its
      recorded hash or failing that for its path. */
  function HitFor(c: Cache, file: File, parser: Parser, digest: Bytes -> string): Fallible<Option<LookupResult>> {
    if file.content.Some? then CheckHash(c, file.path, digest(file.content.value), parser)
    else if file.hash != "" then CheckHash(c, file.path, file.hash, parser)
    else CheckPath(c, file.path, parser)
  }

  /** A model from a frozen snapshot, which decodes but never parses. */
  function FrozenModel(registry: Registry, files: Snapshot, c: Cache, digest: Bytes -> string, path: string,
        parserKey: string): Fallible<LookupResult>
  {
    match LookupFile(files, path)
    case None => Err("file does not exist")
    case Some(file) =>
      if parserKey !in registry then Err("parser not registered")
      else
        match HitFor(c, file, registry[parserKey].parser, digest)
        case Err(error) => Err(error)
        case Ok(None) => Err("frozen cache miss")
        case Ok(Some(r)) => Ok(r)
  }

  // ------------------------------------------------------------------ the state

  /** Files are stored under their own paths, those with content under its digest. */
  ghost predicate ValidFiles(w: World, files: Snapshot) {
    forall path | LookupFile(files, path).Some? ::
      var file := LookupFile(files, path).value;
      file.path == path && (file.content.Some? ==> file.hash == w.digest(file.content.value))
  }

  /** The content a file has: what is stored, or what is on disk. */
  function ContentOf(file: File, disk: string -> Fallible<Bytes>): Fallible<Bytes> {
    if file.content.Some? then Ok(file.content.value) else disk(file.path)
  }

  /** What is on disk agrees with the recorded hash, if one is recorded. */
  ghost predicate Agrees(w: World, file: File, disk: string -> Fallible<Bytes>) {
    file.content.None? && file.hash != "" && disk(file.path).Ok? ==> w.digest(disk(file.path).value) == file.hash
  }

  /** A parser applies to a file of the repository. */
  ghost predicate Wanted(registry: Registry, files: Snapshot, path: string, k: string) {
    LookupFile(files, path).Some? && k in registry && Applies(registry[k], path)
  }

  /** A model for this content is stored. */
  ghost predicate Stored(c: Cache, path: string, contentHash: string, parser: Parser) {
    CheckHash(c, path, contentHash, parser).Ok? && CheckHash(c, path, contentHash, parser).value.Some?
  }

  /** The hash the first check of a file goes by. */
  function RecordedHash(file: File, digest: Bytes -> string): string {
    if file.content.Some? then digest(file.content.value) else file.hash
  }

  // ---------------------------------------------------------------------- scan

  datatype ParseJob = ParseJob(file: File, parser: Parser)

  /** A job for a registered parser and a visible file, with the content the file has. */
  ghost predicate ValidJob(w: World, registry: Registry, files: Snapshot, disk: string -> Fallible<Bytes>,
        j: ParseJob)
  {
    && j.parser.key in registry && j.parser == registry[j.parser.key].parser
    && LookupFile(files, j.file.path).Some?
    && j.file.content.Some? && ContentOf(LookupFile(files, j.file.path).value, disk) == Ok(j.file.content.value)
    && j.file.hash == w.digest(j.file.content.value)
  }

  ghost predicate ValidJobs(w: World, registry: Registry, files: Snapshot, disk: string -> Fallible<Bytes>,
        jobs: seq<ParseJob>)
  {
    forall j | j in jobs :: ValidJob(w, registry, files, disk, j)
  }

  function JobKey(j: ParseJob): Key {
    Key(j.file.path, j.parser.key)
  }

  ghost function JobKeys(jobs: seq<ParseJob>): set<Key> {
    set j | j in jobs :: JobKey(j)
  }

  /** What the scan finds out about a file and a parser: a model is stored for the
      recorded hash or for the content, or there is a job. */
  ghost predicate Scanned(w: World, c: Cache, file: File, disk: string -> Fallible<Bytes>, parser: Parser,
        jobs: seq<ParseJob>)
  {
    || Stored(c, file.path, RecordedHash(file, w.digest), parser)
    || (ContentOf(file, disk).Ok? && Stored(c, file.path, w.digest(ContentOf(file, disk).value), parser))
    || Key(file.path, parser.key) in JobKeys(jobs)
  }

  /** The file as it was found, or with the content read meanwhile. */
  ghost predicate Read(w: World, file0: File, disk: string -> Fallible<Bytes>, file: File) {
    file == file0 ||
    (&& file0.content.None? && disk(file0.path).Ok?
     && file == File(file0.path, Some(disk(file0.path).value), w.digest(disk(file0.path).value)))
  }

  /** Scans one file for the parsers that apply to it. Once its content has been read
      for one parser, the others are checked against that content. */
  method ScanFile(ghost w: World, registry: Registry, ghost files: Snapshot, builder: CacheBuilder,
        disk: string -> Fallible<Bytes>, file0: File, keys: seq<string>, jobs0: seq<ParseJob>)
    returns (r: Fallible<seq<ParseJob>>)
    requires ValidRegistry(w, registry) && ValidFiles(w, files) && builder.digest == w.digest
    requires LookupFile(files, file0.path) == Some(file0) && (forall k | k in keys :: k in registry)
    requires ValidJobs(w, registry, files, disk, jobs0)
    ensures r.Ok? ==>
              && jobs0 <= r.value && ValidJobs(w, registry, files, disk, r.value)
              && forall k | k in keys :: Scanned(w, builder.Layer(), file0, disk, registry[k].parser, r.value)
  {
    var file, jobs := file0, jobs0;
    for i := 0 to |keys|
      invariant Read(w, file0, disk, file)
      invariant jobs0 <= jobs && ValidJobs(w, registry, files, disk, jobs)
      invariant forall n | 0 <= n < i :: Scanned(w, builder.Layer(), file0, disk, registry[keys[n]].parser, jobs)
    {
      assert keys[i] in keys;
      var parser := registry[keys[i]].parser;
      ghost var before := jobs;
      var hash := if file.content.None? then file.hash else builder.digest(file.content.value);
      var hit := CheckBuilder(builder, file.path, hash, parser);
      if hit.Err? {
        return Err(hit.error);
      }
      if hit.value.Some? {
        continue;
      }
      if file.content.None? {
        var content := disk(file.path);
        if content.Err? {
          return Err(content.error);
        }
        file := file.(content := Some(content.value), hash := builder.digest(content.value));
      }
      var job := ParseJob(file, parser);
      jobs := jobs + [job];
      assert job in jobs && JobKey(job) in JobKeys(jobs);
      MoreJobs(w, builder.Layer(), file0, disk, registry, keys, i, before, jobs);
    }
    return Ok(jobs);
  }

  lemma MoreJobs(w: World, c: Cache, file: File, disk: string -> Fallible<Bytes>, registry: Registry,
        keys: seq<string>, n: nat, before: seq<ParseJob>, jobs: seq<ParseJob>)
    requires before <= jobs && n <= |keys| && forall k | k in keys :: k in registry
    requires forall i | 0 <= i < n :: Scanned(w, c, file, disk, registry[keys[i]].parser, before)
    ensures forall i | 0 <= i < n :: Scanned(w, c, file, disk, registry[keys[i]].parser, jobs)
  {
    assert forall j | j in before :: j in jobs;
  }

  /** Check and CheckHash of the builder. */
  method CheckBuilder(builder: CacheBuilder, path: string, contentHash: string, parser: Parser)
    returns (r: Fallible<Option<LookupResult>>)
    ensures r == CheckHash(builder.Layer(), path, contentHash, parser)
  {
    if parser.key == "" || parser.cacheVersion == "" {
      return Err("invalid parser");
    }
    var found := builder.Lookup(Key(path, parser.key));
    if found.Err? {
      return Err(found.error);
    }
    if !Fresh(found.value, parser, contentHash) {
      return Ok(None);
    }
    var model := parser.decode(found.value.value.encodedModel);
    if model.Err? {
      return Err(model.error);
    }
    return Ok(Some(LookupResult(model.value, found.value.value.contentHash, found.value.value.modelHash, true)));
  }

  /** All files and the parsers that apply to them have been scanned. */
  ghost predicate AllScanned(w: World, registry: Registry, files: Snapshot, c: Cache,
        disk: string -> Fallible<Bytes>, paths: set<string>, jobs: seq<ParseJob>)
  {
    forall path, k | path in paths && Wanted(registry, files, path, k) ::
      Scanned(w, c, LookupFile(files, path).value, disk, registry[k].parser, jobs)
  }

  lemma OneMoreScanned(w: World, registry: Registry, files: Snapshot, c: Cache, disk: string -> Fallible<Bytes>,
        paths: set<string>, path: string, keys: seq<string>, before: seq<ParseJob>, jobs: seq<ParseJob>)
    requires AllScanned(w, registry, files, c, disk, paths, before) && before <= jobs
    requires LookupFile(files, path).Some?
    requires Elements(keys) == set k | k in registry && Applies(registry[k], path)
    requires forall k | k in keys && k in registry ::
               Scanned(w, c, LookupFile(files, path).value, disk, registry[k].parser, jobs)
    ensures AllScanned(w, registry, files, c, disk, paths + {path}, jobs)
  {
    assert forall j | j in before :: j in jobs;
    forall p, k | p in paths + {path} && Wanted(registry, files, p, k)
      ensures Scanned(w, c, LookupFile(files, p).value, disk, registry[k].parser, jobs)
    {
      if p == path {
        assert k in Elements(keys);
      } else {
        assert Scanned(w, c, LookupFile(files, p).value, disk, registry[k].parser, before);
      }
    }
  }

  method Scan(ghost w: World, registry: Registry, files: Snapshot, builder: CacheBuilder,
        disk: string -> Fallible<Bytes>)
    returns (r: Fallible<seq<ParseJob>>)
    requires ValidRegistry(w, registry) && ValidFiles(w, files) && builder.digest == w.digest
    ensures r.Ok? ==>
              && ValidJobs(w, registry, files, disk, r.value)
              && AllScanned(w, registry, files, builder.Layer(), disk, FlatFiles(files).Keys, r.value)
  {
    var paths := FilePaths(files);
    var jobs: seq<ParseJob> := [];
    for i := 0 to |paths|
      invariant ValidJobs(w, registry, files, disk, jobs)
      invariant AllScanned(w, registry, files, builder.Layer(), disk, Elements(paths[..i]), jobs)
    {
      assert paths[i] in Elements(paths);
      LookupIsFlat(files, paths[i]);
      var file := LookupFile(files, paths[i]).value;
      var keys := MatchingParsers(registry, paths[i]);
      assert forall k | k in keys :: k in Elements(keys);
      ghost var before := jobs;
      var scanned := ScanFile(w, registry, files, builder, disk, file, keys, jobs);
      if scanned.Err? {
        return scanned;
      }
      jobs := scanned.value;
      OneMoreScanned(w, registry, files, builder.Layer(), disk, Elements(paths[..i]), paths[i], keys, before, jobs);
      assert paths[..i + 1] == paths[..i] + [paths[i]];
      ElementsConcat(paths[..i], [paths[i]]);
    }
    assert paths[..|paths|] == paths;
    return Ok(jobs);
  }

  // ------------------------------------------------------------- parse and store

  /** The entry a worker makes of a job. */
  function WorkerEntry(w: World, j: ParseJob): Fallible<Entry>
    requires j.file.content.Some?
  {
    ParsedEntry(j.file.path, j.file.content.value, j.parser, w.digest)
  }

  predicate Finds(c: Cache, key: Key) {
    LookupEntry(c, key).Ok? && LookupEntry(c, key).value.Some?
  }

  /** The jobs in `done` are stored, and what was found before is found as before. */
  ghost predicate StoredJobs(w: World, c0: Cache, done: set<ParseJob>, c: Cache) {
    && (forall j | j in done ::
          && j.file.content.Some? && WorkerEntry(w, j).Ok?
          && LookupEntry(c, JobKey(j)) == Ok(Some(WorkerEntry(w, j).value)))
    && (forall key: Key | (forall j | j in done :: JobKey(j) != key) && Finds(c0, key) ::
          LookupEntry(c, key) == LookupEntry(c0, key))
  }

  /** Storing an entry takes nothing away from what is found. */
  lemma FoundStaysFound(c: Cache, e: Entry, key: Key)
    requires key != EntryKey(e) && Finds(c, key)
    ensures LookupEntry(StoreInto(c, e), key) == LookupEntry(c, key)
  {
    StoreLaw(c, e, key);
  }

  /** Jobs of one file and one parser have the same content, so it does not matter in
      which order they are stored. */
  lemma SameKeySameEntry(w: World, registry: Registry, files: Snapshot, disk: string -> Fallible<Bytes>,
        a: ParseJob, b: ParseJob)
    requires ValidJob(w, registry, files, disk, a) && ValidJob(w, registry, files, disk, b) && JobKey(a) == JobKey(b)
    ensures WorkerEntry(w, a) == WorkerEntry(w, b)
  {
  }

  lemma StoreOneJob(w: World, registry: Registry, files: Snapshot, disk: string -> Fallible<Bytes>, c0: Cache,
        done: set<ParseJob>, c: Cache, j: ParseJob)
    requires StoredJobs(w, c0, done, c) && ValidJob(w, registry, files, disk, j) && WorkerEntry(w, j).Ok?
    requires forall d | d in done :: ValidJob(w, registry, files, disk, d)
    ensures StoredJobs(w, c0, done + {j}, StoreInto(c, WorkerEntry(w, j).value))
  {
    var e := WorkerEntry(w, j).value;
    forall d | d in done + {j}
      ensures d.file.content.Some? && WorkerEntry(w, d).Ok?
      ensures LookupEntry(StoreInto(c, e), JobKey(d)) == Ok(Some(WorkerEntry(w, d).value))
    {
      if JobKey(d) == JobKey(j) {
        SameKeySameEntry(w, registry, files, disk, d, j);
      } else {
        FoundStaysFound(c, e, JobKey(d));
      }
    }
    forall key: Key | (forall d | d in done + {j} :: JobKey(d) != key) && Finds(c0, key)
      ensures LookupEntry(StoreInto(c, e), key) == LookupEntry(c0, key)
    {
      assert j in done + {j} && key != EntryKey(e);
      assert forall d | d in done :: JobKey(d) != key;
      FoundStaysFound(c, e, key);
    }
  }

  function UpTo(n: nat): (r: set<nat>)
    ensures forall i: int :: i in r <==> 0 <= i < n
  {
    if n == 0 then {} else UpTo(n - 1) + {n - 1}
  }

  /** The workers' results arrive in any order; the coordinator stores them. */
  method ParseAndStore(ghost w: World, ghost registry: Registry, ghost files: Snapshot,
        ghost disk: string -> Fallible<Bytes>, builder: CacheBuilder, jobs: seq<ParseJob>)
    returns (r: Fallible<()>)
    requires ValidRegistry(w, registry) && ValidJobs(w, registry, files, disk, jobs) && builder.digest == w.digest
    requires AllFaithful(w, builder.Layer())
    modifies builder`entries, builder`deletedPaths
    ensures AllFaithful(w, builder.Layer())
    ensures r.Ok? ==> StoredJobs(w, old(builder.Layer()), Elements(jobs), builder.Layer())
  {
    ghost var c0 := builder.Layer();
    var running := UpTo(|jobs|);
    ghost var done: set<ParseJob> := {};
    while running != {}
      invariant (forall i | i in running :: 0 <= i < |jobs|) && (forall d | d in done :: d in jobs)
      invariant forall i | 0 <= i < |jobs| && i !in running :: jobs[i] in done
      invariant AllFaithful(w, builder.Layer()) && StoredJobs(w, c0, done, builder.Layer())
      decreases running
    {
      var i :| i in running;
      var j := jobs[i];
      assert j in jobs && ValidJob(w, registry, files, disk, j);
      var e := RunWorker(w, builder.digest, j);
      if e.Err? {
        return Err(e.error);
      }
      ParsedIsFaithful(w, j.file.path, j.file.content.value, j.parser);
      StoreOneJob(w, registry, files, disk, c0, done, builder.Layer(), j);
      ghost var layer := builder.Layer();
      builder.StoreEntry(e.value);
      StoreFaithful(w, layer, e.value);
      running, done := running - {i}, done + {j};
    }
    assert done == Elements(jobs);
    return Ok(());
  }

  lemma StoreFaithful(w: World, c: Cache, e: Entry)
    requires AllFaithful(w, c) && Faithful(w, e)
    ensures AllFaithful(w, StoreInto(c, e))
  {
  }

  /** What a worker does with a job. */
  method RunWorker(ghost w: World, digest: Bytes -> string, j: ParseJob) returns (r: Fallible<Entry>)
    requires digest == w.digest && j.file.content.Some? && j.file.hash == w.digest(j.file.content.value)
    ensures r == WorkerEntry(w, j)
  {
    var model := j.parser.parse(j.file.path, j.file.content.value);
    if model.Err? {
      return Err(model.error);
    }
    var encoded := j.parser.encode(model.value);
    if encoded.Err? {
      return Err(encoded.error);
    }
    return Ok(Entry(j.file.path, j.parser.key, j.parser.cacheVersion, j.file.hash, digest(encoded.value),
               encoded.value));
  }

  // ------------------------------------------------------------------- priming

  /** What priming leaves behind: everything was scanned, and all jobs are stored. */
  ghost predicate Primed(w: World, registry: Registry, files: Snapshot, disk: string -> Fallible<Bytes>,
        c0: Cache, c: Cache)
  {
    exists jobs ::
      && ValidJobs(w, registry, files, disk, jobs)
      && AllScanned(w, registry, files, c0, disk, FlatFiles(files).Keys, jobs)
      && StoredJobs(w, c0, Elements(jobs), c)
  }

  method PrimeParsers(ghost w: World, registry: Registry, files: Snapshot, disk: string -> Fallible<Bytes>,
        builder: CacheBuilder)
    returns (r: Fallible<()>)
    requires ValidRegistry(w, registry) && ValidFiles(w, files) && builder.digest == w.digest
    requires AllFaithful(w, builder.Layer())
    modifies builder`entries, builder`deletedPaths
    ensures AllFaithful(w, builder.Layer())
    ensures r.Ok? ==> Primed(w, registry, files, disk, old(builder.Layer()), builder.Layer())
  {
    var jobs := Scan(w, registry, files, builder, disk);
    if jobs.Err? {
      return Err(jobs.error);
    }
    r := ParseAndStore(w, registry, files, disk, builder, jobs.value);
  }

  /** A stored model is found by its content hash and by its path. */
  ghost predicate StoredAs(c: Cache, path: string, parser: Parser, contentHash: string) {
    && LookupEntry(c, Key(path, parser.key)).Ok? && LookupEntry(c, Key(path, parser.key)).value.Some?
    && var e := LookupEntry(c, Key(path, parser.key)).value.value;
       e.parserVersion == parser.cacheVersion && e.contentHash == contentHash && parser.decode(e.encodedModel).Ok?
  }

  /** After priming, every wanted model is stored: for the recorded hash, if it was
      there before, or else for the content. */
  lemma PrimedIsStored(w: World, registry: Registry, files: Snapshot, disk: string -> Fallible<Bytes>,
        c0: Cache, c: Cache, path: string, k: string)
    requires Lawful(w) && ValidRegistry(w, registry) && ValidFiles(w, files)
    requires Primed(w, registry, files, disk, c0, c) && Wanted(registry, files, path, k)
    ensures var file, parser := LookupFile(files, path).value, registry[k].parser;
            || (&& Stored(c0, path, RecordedHash(file, w.digest), parser)
                && StoredAs(c, path, parser, RecordedHash(file, w.digest)))
            || (ContentOf(file, disk).Ok? && StoredAs(c, path, parser, w.digest(ContentOf(file, disk).value)))
  {
    var file, parser := LookupFile(files, path).value, registry[k].parser;
    var jobs :|
      && ValidJobs(w, registry, files, disk, jobs)
      && AllScanned(w, registry, files, c0, disk, FlatFiles(files).Keys, jobs)
      && StoredJobs(w, c0, Elements(jobs), c);
    LookupIsFlat(files, path);
    assert Scanned(w, c0, file, disk, parser, jobs);
    if Key(path, k) in JobKeys(jobs) {
      JobIsStored(w, registry, files, disk, c0, c, path, k, jobs);
    } else {
      forall j | j in Elements(jobs) ensures JobKey(j) != Key(path, k) {
        assert JobKey(j) in JobKeys(jobs);
      }
    }
  }

  lemma JobIsStored(w: World, registry: Registry, files: Snapshot, disk: string -> Fallible<Bytes>, c0: Cache,
        c: Cache, path: string, k: string, jobs: seq<ParseJob>)
    requires Lawful(w) && ValidRegistry(w, registry) && k in registry
    requires ValidJobs(w, registry, files, disk, jobs) && StoredJobs(w, c0, Elements(jobs), c)
    requires Key(path, k) in JobKeys(jobs) && LookupFile(files, path).Some?
    ensures var file, parser := LookupFile(files, path).value, registry[k].parser;
            ContentOf(file, disk).Ok? && StoredAs(c, path, parser, w.digest(ContentOf(file, disk).value))
  {
    var parser := registry[k].parser;
    var j :| j in jobs && JobKey(j) == Key(path, k);
    assert j in Elements(jobs) && ValidJob(w, registry, files, disk, j);
    var model := parser.parse(path, j.file.content.value).value;
    assert w.parsers(parser.key, parser.cacheVersion).encode(model).Ok?;
  }

  /** Priming is complete: the frozen snapshot has a model for every visible file and
      every parser that applies to it, provided disk and recorded hash agree. */
  lemma PrimingIsComplete(w: World, registry: Registry, files: Snapshot, disk: string -> Fallible<Bytes>,
        c0: Cache, c: Cache, path: string, k: string)
    requires Lawful(w) && ValidRegistry(w, registry) && ValidFiles(w, files)
    requires Primed(w, registry, files, disk, c0, c) && Wanted(registry, files, path, k)
    requires Agrees(w, LookupFile(files, path).value, disk)
    ensures FrozenModel(registry, files, c, w.digest, path, k).Ok?
  {
    PrimedIsStored(w, registry, files, disk, c0, c, path, k);
  }

  /** A parser is primed for every file if it has no matchers, and otherwise for those that
      one of them accepts. */
  lemma WantedIff(registry: Registry, files: Snapshot, path: string, k: string)
    ensures Wanted(registry, files, path, k) <==>
            && LookupFile(files, path).Some? && k in registry
            && (registry[k].matchers != [] ==>
                exists i | 0 <= i < |registry[k].matchers| :: registry[k].matchers[i](path))
  {
  }

  /** The proviso is needed: where disk and recorded hash disagree, and no model was
      stored for the recorded hash, the frozen snapshot has none. */
  lemma DisagreementMisses(w: World, registry: Registry, files: Snapshot, disk: string -> Fallible<Bytes>,
        c0: Cache, c: Cache, path: string, k: string)
    requires Lawful(w) && ValidRegistry(w, registry) && ValidFiles(w, files)
    requires Primed(w, registry, files, disk, c0, c) && Wanted(registry, files, path, k)
    requires !Stored(c0, path, RecordedHash(LookupFile(files, path).value, w.digest), registry[k].parser)
    ensures FrozenModel(registry, files, c, w.digest, path, k).Ok? <==> Agrees(w, LookupFile(files, path).value, disk)
  {
    PrimedIsStored(w, registry, files, disk, c0, c, path, k);
  }

  /** A model of the frozen snapshot, found for content or by hash, is what parsing the
      file's content gives. */
  lemma FrozenModelIsFresh(w: World, registry: Registry, files: Snapshot, disk: string -> Fallible<Bytes>,
        c: Cache, path: string, k: string)
    requires Lawful(w) && ValidRegistry(w, registry) && ValidFiles(w, files) && AllFaithful(w, c)
    requires FrozenModel(registry, files, c, w.digest, path, k).Ok?
    requires var file := LookupFile(files, path).value; file.content.Some? || file.hash != ""
    ensures var file := LookupFile(files, path).value;
            ContentOf(file, disk).Ok? && Agrees(w, file, disk) ==>
            registry[k].parser.parse(path, ContentOf(file, disk).value) ==
              Ok(FrozenModel(registry, files, c, w.digest, path, k).value.model)
    ensures FrozenModel(registry, files, c, w.digest, path, k).value.cacheHit
  {
    var file := LookupFile(files, path).value;
    if ContentOf(file, disk).Ok? && Agrees(w, file, disk) {
      HitIsFreshParse(w, c, path, ContentOf(file, disk).value, registry[k].parser);
    }
  }

  // ------------------------------------------------------- the snapshot being built

  class BuildSnapshot {
    const registry: Registry
    const disk: string -> Fallible<Bytes>
    const builder: CacheBuilder
    var files: Snapshot

    ghost predicate Valid(w: World)
      reads this, builder
    {
      && Lawful(w) && ValidRegistry(w, registry) && ValidFiles(w, files)
      && builder.digest == w.digest && AllFaithful(w, builder.Layer())
    }

    constructor (registry: Registry, disk: string -> Fallible<Bytes>, builder: CacheBuilder, files: Snapshot)
      ensures this.registry == registry && this.disk == disk && this.builder == builder && this.files == files
    {
      this.registry, this.disk, this.builder, this.files := registry, disk, builder, files;
    }

    /** Leaves what is read from disk in the snapshot's own layer. */
    method LoadFile(ghost w: World, file: File) returns (r: Fallible<File>)
      requires Valid(w) && LookupFile(files, file.path) == Some(file) && file.content.None?
      modifies this`files
      ensures Valid(w)
      ensures r.Err? ==> disk(file.path).Err? && files == old(files)
      ensures r.Ok? ==>
                && disk(file.path).Ok?
                && r.value == File(file.path, Some(disk(file.path).value), w.digest(disk(file.path).value))
                && forall p ::
                     LookupFile(files, p) == if p == file.path then Some(r.value) else old(LookupFile(files, p))
    {
      var content := disk(file.path);
      if content.Err? {
        return Err(content.error);
      }
      var loaded := File(file.path, Some(content.value), builder.digest(content.value));
      Shadow(files, loaded);
      files := files.(files := files.files[file.path := loaded], deletedFiles := files.deletedFiles - {file.path});
      return Ok(loaded);
    }

    /** A model during the build, parsed unless one for the same content is stored. */
    method GetModel(ghost w: World, path: string, parserKey: string) returns (r: Fallible<LookupResult>)
      requires Valid(w)
      modifies this`files, builder`entries
      ensures Valid(w)
      ensures forall p :: LookupFile(files, p) == old(LookupFile(files, p)) ||
                (p == path && old(LookupFile(files, p)).Some? && LookupFile(files, p).Some?
                 && ContentOf(LookupFile(files, p).value, disk) == ContentOf(old(LookupFile(files, p)).value, disk))
      ensures old(LookupFile(files, path)).None? || parserKey !in registry ==>
                r.Err? && builder.Layer() == old(builder.Layer())
      ensures old(LookupFile(files, path)).Some? && parserKey in registry ==>
                var hit := HitFor(old(builder.Layer()), old(LookupFile(files, path)).value, registry[parserKey].parser,
                                  w.digest);
                hit.Err? || hit.value.Some? ==>
                  && r == (if hit.Ok? then Ok(hit.value.value) else Err(hit.error))
                  && files == old(files) && builder.Layer() == old(builder.Layer())
      ensures old(LookupFile(files, path)).Some? && parserKey in registry ==>
                var file, parser := old(LookupFile(files, path)).value, registry[parserKey].parser;
                (file.content.Some? || file.hash != "") && Agrees(w, file, disk) && ContentOf(file, disk).Ok? ==>
                  if r.Ok? then parser.parse(path, ContentOf(file, disk).value) == Ok(r.value.model)
                  else || ParsedEntry(path, ContentOf(file, disk).value, parser, w.digest).Err?
                       || LookupEntry(old(builder.Layer()), Key(path, parserKey)).Err?
    {
      var found := LookupFile(files, path);
      if found.None? {
        return Err("file does not exist");
      }
      if parserKey !in registry {
        return Err("parser not registered");
      }
      var file, parser := found.value, registry[parserKey].parser;
      ghost var c := builder.Layer();
      if file.content.None? {
        if disk(path).Ok? { HitIsFreshParse(w, c, path, disk(path).value, parser); }
        var hit := CheckStored(builder, file, parser);
        if hit.Err? {
          return Err(hit.error);
        }
        if hit.value.Some? {
          return Ok(hit.value.value);
        }
        var loaded := LoadFile(w, file);
        if loaded.Err? {
          return Err(loaded.error);
        }
        file := loaded.value;
      }
      r := ParseContent(w, path, file.content.value, parser);
    }

    /** The model of some content, parsed unless it is stored. */
    method ParseContent(ghost w: World, path: string, data: Bytes, parser: Parser)
      returns (r: Fallible<LookupResult>)
      requires Valid(w) && Known(w, parser)
      modifies builder`entries
      ensures Valid(w)
      ensures var hit := CheckHash(old(builder.Layer()), path, w.digest(data), parser);
              hit.Err? || hit.value.Some? ==>
                && r == (if hit.Ok? then Ok(hit.value.value) else Err(hit.error))
                && builder.Layer() == old(builder.Layer())
      ensures if r.Ok? then parser.parse(path, data) == Ok(r.value.model)
              else || ParsedEntry(path, data, parser, w.digest).Err?
                   || LookupEntry(old(builder.Layer()), Key(path, parser.key)).Err?
    {
      HitIsFreshParse(w, builder.Layer(), path, data, parser);
      if ParsedEntry(path, data, parser, w.digest).Ok? {
        ParsedIsFaithful(w, path, data, parser);
      }
      r := builder.Parse(path, data, parser);
    }
  }

  /** A file put into the own layer hides what was there, and nothing else. */
  lemma Shadow(files: Snapshot, file: File)
    ensures var next := files.(files := files.files[file.path := file],
                deletedFiles := files.deletedFiles - {file.path});
            forall p :: LookupFile(next, p) == if p == file.path then Some(file) else LookupFile(files, p)
  {
  }

  /** Without content, a file is checked by its hash, or failing that by its path. */
  method CheckStored(builder: CacheBuilder, file: File, parser: Parser) returns (r: Fallible<Option<LookupResult>>)
    ensures r == if file.hash != "" then CheckHash(builder.Layer(), file.path, file.hash, parser)
                 else CheckPath(builder.Layer(), file.path, parser)
  {
    if file.hash != "" {
      r := CheckBuilder(builder, file.path, file.hash, parser);
    } else {
      r := CheckBuilderPath(builder, file.path, parser);
    }
  }

  method CheckBuilderPath(builder: CacheBuilder, path: string, parser: Parser)
    returns (r: Fallible<Option<LookupResult>>)
    ensures r == CheckPath(builder.Layer(), path, parser)
  {
    if parser.key == "" || parser.cacheVersion == "" {
      return Err("invalid parser");
    }
    var found := builder.Lookup(Key(path, parser.key));
    if found.Err? {
      return Err(found.error);
    }
    if found.value.None? || found.value.value.parserVersion != parser.cacheVersion {
      return Ok(None);
    }
    var model := parser.decode(found.value.value.encodedModel);
    if model.Err? {
      return Err(model.error);
    }
    return Ok(Some(LookupResult(model.value, found.value.value.contentHash, found.value.value.modelHash, true)));
  }
}
