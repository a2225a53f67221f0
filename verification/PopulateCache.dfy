/** The parallel loading of directory information: one visitor per directory, a
    semaphore that bounds the visitors holding it, a shared once-per-directory cache,
    and other threads that read the same cache meanwhile. */
module PopulateCache {
  import opened Paths

  /** A directory, as the names on its path from the repository root. */
  type Dir = seq<string>

  const ROOT: Dir := []
  const CAPACITY: nat := 6

  function Parent(d: Dir): Dir {
    if d == ROOT then ROOT else d[..|d| - 1]
  }

  /** What the traversal finds: the directories, the subdirectories each one lists,
      those that should be visited, and those whose loading returns an error. A reader
      is another thread that makes requests, one after the other. */
  datatype Repo = Repo(
    dirs: set<Dir>,
    subdirs: map<Dir, seq<Dir>>,
    shouldVisit: set<Dir>,
    failing: set<Dir>,
    readers: map<nat, seq<Request>>)

  /** A request for a directory asks for those on the way to it, from the root on, and
      then for itself; an excluded directory or an error stops it before it has made all
      its `asks`. */
  datatype Request = Request(dir: Dir, asks: nat)

  function OnTheWay(d: Dir): seq<Dir> {
    seq(|d| + 1, i requires 0 <= i <= |d| => d[..i])
  }

  function Asked(requests: seq<Request>): seq<Dir> {
    if requests == [] then []
    else
      var r := requests[|requests| - 1];
      Asked(requests[..|requests| - 1]) + if r.asks <= |r.dir| then OnTheWay(r.dir)[..r.asks] else OnTheWay(r.dir)
  }

  function Subdirs(r: Repo, d: Dir): seq<Dir> {
    if d in r.subdirs then r.subdirs[d] else []
  }

  function Asks(r: Repo, id: nat): seq<Dir> {
    if id in r.readers then Asked(r.readers[id]) else []
  }

  ghost predicate ValidRepo(r: Repo) {
    && ROOT in r.dirs
    && (forall d, i | 0 <= i < |Subdirs(r, d)| :: IsSubdir(r, d, Subdirs(r, d)[i]))
    && (forall d, i, j | 0 <= i < j < |Subdirs(r, d)| :: Subdirs(r, d)[i] != Subdirs(r, d)[j])
  }

  ghost predicate IsSubdir(r: Repo, d: Dir, c: Dir) {
    c in r.dirs && c != ROOT && Parent(c) == d
  }

  /** A reader asks for a directory after having asked for its parent. */
  ghost predicate ParentsFirst(asks: seq<Dir>) {
    forall j | 0 <= j < |asks| && asks[j] != ROOT :: exists i :: 0 <= i < j && asks[i] == Parent(asks[j])
  }

  lemma {:induction false} AskedParentsFirst(requests: seq<Request>)
    ensures ParentsFirst(Asked(requests))
  {
    if requests != [] {
      var init, r := requests[..|requests| - 1], requests[|requests| - 1];
      var before, after := Asked(init), if r.asks <= |r.dir| then OnTheWay(r.dir)[..r.asks] else OnTheWay(r.dir);
      AskedParentsFirst(init);
      var asks := before + after;
      forall j | 0 <= j < |asks| && asks[j] != ROOT ensures exists i :: 0 <= i < j && asks[i] == Parent(asks[j]) {
        if j >= |before| {
          var k := j - |before|;
          assert asks[j] == after[k] == r.dir[..k] && asks[j - 1] == after[k - 1] == r.dir[..k - 1];
          assert Parent(r.dir[..k]) == r.dir[..k - 1];
        } else {
          var i :| 0 <= i < j && before[i] == Parent(before[j]);
          assert asks[i] == before[i];
        }
      }
    }
  }

  lemma AsksParentsFirst(r: Repo, id: nat)
    ensures ParentsFirst(Asks(r, id))
  {
    if id in r.readers { AskedParentsFirst(r.readers[id]); }
  }

  /** The prefixes of a path are the paths of the directories on the way to it. */
  lemma PrefixesAreOnTheWay(d: Dir)
    requires ValidElements(d)
    ensures |PrefixesOf(Join(d))| == |OnTheWay(d)|
    ensures forall i | 0 <= i < |OnTheWay(d)| :: PrefixesOf(Join(d))[i] == Join(OnTheWay(d)[i])
  {
    hide PrefixesOf, Join, PathsOnTheWay;
    PrefixesOfPath(d);
  }

  /** A visitor gets its directory's entry, loading it itself (Loading, then Holding)
      or waiting for another thread's load; then it gives up the semaphore and starts
      a visitor for one subdirectory after the other. */
  datatype Visitor = Absent | Getting | Loading | Holding | Spawning(next: nat) | Finished

  datatype Reader = Asking(pos: nat) | Reading(pos: nat) | Answered

  datatype Agent = VisitorOf(dir: Dir) | ReaderOf(id: nat)

  datatype Entry = Missing | Pending(owner: Agent) | Complete

  datatype State = State(
    visitors: map<Dir, Visitor>,
    readers: map<nat, Reader>,
    entries: map<Dir, Entry>,
    tokens: int,
    running: int,
    returned: bool)

  function VisitorAt(s: State, d: Dir): Visitor {
    if d in s.visitors then s.visitors[d] else Absent
  }

  function ReaderAt(s: State, id: nat): Reader {
    if id in s.readers then s.readers[id] else Asking(0)
  }

  function EntryAt(s: State, d: Dir): Entry {
    if d in s.entries then s.entries[d] else Missing
  }

  /** One thread starts the traversal holding the semaphore; nothing is cached. */
  const INITIAL := State(map[ROOT := Getting], map[], map[], 1, 0, false)

  datatype Step =
    | StartLoad(d: Dir)
    | FinishLoad(d: Dir)
    | Release(d: Dir)
    | Skip(d: Dir)
    | Spawn(d: Dir)
    | Finish(d: Dir)
    | Ask(id: nat)
    | FinishRead(id: nat)
    | GiveUp(id: nat)
    | WaitReturns

  /** The loader of a directory reads its parent's entry, which must be complete. */
  predicate MayLoad(s: State, d: Dir) {
    d == ROOT || EntryAt(s, Parent(d)) == Complete
  }

  /** The visitor of `d` is at the i-th subdirectory. */
  predicate Spawns(r: Repo, s: State, d: Dir) {
    VisitorAt(s, d).Spawning? && VisitorAt(s, d).next < |Subdirs(r, d)|
  }

  function NextSubdir(r: Repo, s: State, d: Dir): Dir
    requires Spawns(r, s, d)
  {
    Subdirs(r, d)[VisitorAt(s, d).next]
  }

  predicate AsksNow(r: Repo, s: State, id: nat) {
    ReaderAt(s, id).Asking? && ReaderAt(s, id).pos < |Asks(r, id)|
  }

  predicate ReadsNow(r: Repo, s: State, id: nat) {
    ReaderAt(s, id).Reading? && ReaderAt(s, id).pos < |Asks(r, id)|
  }

  function AskedDir(r: Repo, s: State, id: nat): Dir
    requires AsksNow(r, s, id) || ReadsNow(r, s, id)
  {
    Asks(r, id)[ReaderAt(s, id).pos]
  }

  predicate Enabled(r: Repo, s: State, step: Step) {
    match step
    case StartLoad(d) => VisitorAt(s, d) == Getting && EntryAt(s, d) == Missing
    case FinishLoad(d) => VisitorAt(s, d) == Loading
    case Release(d) => (VisitorAt(s, d) == Getting && EntryAt(s, d) == Complete) || VisitorAt(s, d) == Holding
    case Skip(d) => Spawns(r, s, d) && NextSubdir(r, s, d) !in r.shouldVisit
    case Spawn(d) => Spawns(r, s, d) && NextSubdir(r, s, d) in r.shouldVisit && s.tokens < CAPACITY
    case Finish(d) => VisitorAt(s, d).Spawning? && !Spawns(r, s, d)
    case Ask(id) => AsksNow(r, s, id) && !EntryAt(s, AskedDir(r, s, id)).Pending?
    case FinishRead(id) => ReadsNow(r, s, id)
    case GiveUp(id) => id in r.readers && ReaderAt(s, id).Asking?
    case WaitReturns => VisitorAt(s, ROOT) == Finished && s.running == 0 && !s.returned
  }

  /** What a thread's step does. A goroutine that is over leaves the wait group; the
      root's visitor is not in it. */
  function Do(r: Repo, s: State, step: Step): State
    requires Enabled(r, s, step)
  {
    match step
    case StartLoad(d) => s.(visitors := s.visitors[d := Loading], entries := s.entries[d := Pending(VisitorOf(d))])
    case FinishLoad(d) => s.(visitors := s.visitors[d := Holding], entries := s.entries[d := Complete])
    case Release(d) =>
      s.(visitors := s.visitors[d := if d in r.failing then Finished else Spawning(0)],
         tokens := s.tokens - 1,
         running := if d in r.failing && d != ROOT then s.running - 1 else s.running)
    case Skip(d) => s.(visitors := s.visitors[d := Spawning(VisitorAt(s, d).next + 1)])
    case Spawn(d) =>
      s.(visitors := s.visitors[d := Spawning(VisitorAt(s, d).next + 1)][NextSubdir(r, s, d) := Getting],
         tokens := s.tokens + 1, running := s.running + 1)
    case Finish(d) =>
      s.(visitors := s.visitors[d := Finished], running := if d != ROOT then s.running - 1 else s.running)
    case Ask(id) =>
      var pos := ReaderAt(s, id).pos;
      if EntryAt(s, AskedDir(r, s, id)) == Missing then
        s.(readers := s.readers[id := Reading(pos)], entries := s.entries[AskedDir(r, s, id) := Pending(ReaderOf(id))])
      else s.(readers := s.readers[id := Asking(pos + 1)])
    case FinishRead(id) =>
      s.(readers := s.readers[id := Asking(ReaderAt(s, id).pos + 1)],
          entries := s.entries[AskedDir(r, s, id) := Complete])
    case GiveUp(id) => s.(readers := s.readers[id := Answered])
    case WaitReturns => s.(returned := true)
  }

  // --------------------------------------------------------------- invariant

  predicate HoldsToken(v: Visitor) {
    v.Getting? || v.Loading? || v.Holding?
  }

  predicate Passed(v: Visitor) {
    v.Spawning? || v.Finished?
  }

  function Holders(visitors: map<Dir, Visitor>): set<Dir> {
    set d | d in visitors && HoldsToken(visitors[d])
  }

  function Unfinished(visitors: map<Dir, Visitor>): set<Dir> {
    set d | d in visitors && d != ROOT && visitors[d] != Finished
  }

  /** The semaphore counts the holders, the wait group the goroutines still running. */
  ghost predicate Counted(s: State) {
    && s.tokens == |Holders(s.visitors)| && s.tokens <= CAPACITY && s.running == |Unfinished(s.visitors)|
    && forall d | d in s.visitors :: s.visitors[d] != Absent
  }

  /** The traversal should go from the parent of `d` to `d`. */
  ghost predicate Wants(r: Repo, d: Dir) {
    Parent(d) !in r.failing && d in r.shouldVisit && d in Subdirs(r, Parent(d))
  }

  /** The visitor of a subdirectory was started by the visitor of its parent. */
  ghost predicate Started(r: Repo, s: State, d: Dir) {
    && (VisitorAt(s, d) != Absent ==> d in r.dirs && (d != ROOT ==> Passed(VisitorAt(s, Parent(d))) && Wants(r, d)))
    && (VisitorAt(s, d).Spawning? ==> d !in r.failing && VisitorAt(s, d).next <= |Subdirs(r, d)|)
  }

  /** Which visitors of its subdirectories a visitor has started: none while it holds
      the semaphore, those before its position, and all it should when it is done. */
  ghost predicate Spawned(r: Repo, s: State, d: Dir, i: nat)
    requires i < |Subdirs(r, d)|
  {
    var c := VisitorAt(s, Subdirs(r, d)[i]);
    match VisitorAt(s, d)
    case Spawning(n) => if i < n then Subdirs(r, d)[i] in r.shouldVisit ==> c != Absent else c == Absent
    case Finished => d !in r.failing && Subdirs(r, d)[i] in r.shouldVisit ==> c != Absent
    case _ => c == Absent
  }

  /** A pending entry has its owner at work on it; a visitor that is past its entry
      finds it complete; no entry is begun before its parent's is complete. */
  ghost predicate Cached(r: Repo, s: State, d: Dir) {
    && (EntryAt(s, d).Pending? && EntryAt(s, d).owner.VisitorOf? ==>
           EntryAt(s, d).owner.dir == d && VisitorAt(s, d) == Loading)
    && (EntryAt(s, d).Pending? && EntryAt(s, d).owner.ReaderOf? ==>
          ReadsNow(r, s, EntryAt(s, d).owner.id) && AskedDir(r, s, EntryAt(s, d).owner.id) == d)
    && (VisitorAt(s, d) == Loading ==> EntryAt(s, d) == Pending(VisitorOf(d)))
    && (VisitorAt(s, d) == Holding || Passed(VisitorAt(s, d)) ==> EntryAt(s, d) == Complete)
    && (EntryAt(s, d) != Missing ==> MayLoad(s, d))
  }

  /** A reader has complete entries for all it has asked for, and owns what it reads. */
  ghost predicate ReadSoFar(r: Repo, s: State, id: nat) {
    && (ReaderAt(s, id).Reading? ==> ReadsNow(r, s, id) && EntryAt(s, AskedDir(r, s, id)) == Pending(ReaderOf(id)))
    && (!ReaderAt(s, id).Answered? ==>
          forall i | 0 <= i < ReaderAt(s, id).pos && i < |Asks(r, id)| :: EntryAt(s, Asks(r, id)[i]) == Complete)
  }

  ghost predicate AllStarted(r: Repo, s: State) { forall d :: Started(r, s, d) }
  ghost predicate AllSpawned(r: Repo, s: State) { forall d, i | 0 <= i < |Subdirs(r, d)| :: Spawned(r, s, d, i) }
  ghost predicate AllCached(r: Repo, s: State) { forall d :: Cached(r, s, d) }
  ghost predicate AllRead(r: Repo, s: State) { forall id :: ReadSoFar(r, s, id) }

  ghost predicate Inv(r: Repo, s: State) {
    && Counted(s) && AllStarted(r, s) && AllSpawned(r, s) && AllCached(r, s) && AllRead(r, s)
    && VisitorAt(s, ROOT) != Absent
    && (s.returned ==> Unfinished(s.visitors) == {} && VisitorAt(s, ROOT) == Finished)
  }

  lemma InitialInv(r: Repo)
    requires ValidRepo(r)
    ensures Inv(r, INITIAL)
  {
    assert Holders(INITIAL.visitors) == {ROOT};
    assert Unfinished(INITIAL.visitors) == {};
    forall d, i | 0 <= i < |Subdirs(r, d)| ensures Spawned(r, INITIAL, d, i) {
      assert IsSubdir(r, d, Subdirs(r, d)[i]);
    }
  }

  // --------------------------------------- the counters follow the visitors

  lemma HoldersUpdate(m: map<Dir, Visitor>, d: Dir, v: Visitor)
    ensures Holders(m[d := v]) == if HoldsToken(v) then Holders(m) + {d} else Holders(m) - {d}
  {
  }

  lemma UnfinishedUpdate(m: map<Dir, Visitor>, d: Dir, v: Visitor)
    ensures Unfinished(m[d := v]) == if d != ROOT && v != Finished then Unfinished(m) + {d} else Unfinished(m) - {d}
  {
  }

  lemma UpdateCounts(m: map<Dir, Visitor>, d: Dir, v: Visitor)
    ensures var before := if d in m then m[d] else Finished;
            && |Holders(m[d := v])| ==
                 |Holders(m)| + (if HoldsToken(v) then 1 else 0) - (if HoldsToken(before) then 1 else 0)
            && |Unfinished(m[d := v])| == |Unfinished(m)|
                 + (if d != ROOT && v != Finished then 1 else 0) - (if d != ROOT && before != Finished then 1 else 0)
  {
    HoldersUpdate(m, d, v);
    UnfinishedUpdate(m, d, v);
    assert d in Holders(m) <==> d in m && HoldsToken(m[d]);
    assert d in Unfinished(m) <==> d in m && d != ROOT && m[d] != Finished;
  }

  lemma CountedSpawn(r: Repo, s: State, d: Dir)
    requires Counted(s) && Enabled(r, s, Spawn(d))
    requires VisitorAt(s, NextSubdir(r, s, d)) == Absent && NextSubdir(r, s, d) != ROOT
    ensures Counted(Do(r, s, Spawn(d)))
  {
    hide Asks, Subdirs;
    var v := Spawning(VisitorAt(s, d).next + 1);
    UpdateCounts(s.visitors, d, v);
    UpdateCounts(s.visitors[d := v], NextSubdir(r, s, d), Getting);
  }

  lemma CountedKept(r: Repo, s: State, step: Step)
    requires Counted(s) && Enabled(r, s, step)
    requires step.Spawn? ==> VisitorAt(s, NextSubdir(r, s, step.d)) == Absent && NextSubdir(r, s, step.d) != ROOT
    ensures Counted(Do(r, s, step))
  {
    hide Asks, Subdirs;
    match step
    case StartLoad(d) => UpdateCounts(s.visitors, d, Loading);
    case FinishLoad(d) => UpdateCounts(s.visitors, d, Holding);
    case Release(d) => UpdateCounts(s.visitors, d, if d in r.failing then Finished else Spawning(0));
    case Skip(d) => UpdateCounts(s.visitors, d, Spawning(VisitorAt(s, d).next + 1));
    case Spawn(d) => CountedSpawn(r, s, d);
    case Finish(d) => UpdateCounts(s.visitors, d, Finished);
    case _ =>
  }

  // --------------------------------------- every step keeps the invariant

  /** The visitor a step starts is new. */
  lemma SpawnsNew(r: Repo, s: State, d: Dir)
    requires ValidRepo(r) && AllSpawned(r, s) && Spawns(r, s, d)
    ensures VisitorAt(s, NextSubdir(r, s, d)) == Absent && IsSubdir(r, d, NextSubdir(r, s, d))
    ensures NextSubdir(r, s, d) != d
  {
    var i := VisitorAt(s, d).next;
    assert Spawned(r, s, d, i);
    assert IsSubdir(r, d, Subdirs(r, d)[i]);
  }

  lemma StartedKept(r: Repo, s: State, step: Step)
    requires ValidRepo(r) && AllStarted(r, s) && AllSpawned(r, s) && Enabled(r, s, step)
    ensures AllStarted(r, Do(r, s, step))
  {
    var s' := Do(r, s, step);
    if step.Spawn? {
      SpawnsNew(r, s, step.d);
      assert Started(r, s, step.d);
    }
    forall d ensures Started(r, s', d) {
      assert Started(r, s, d);
    }
  }

  lemma SpawnedKept(r: Repo, s: State, step: Step)
    requires ValidRepo(r) && AllStarted(r, s) && AllSpawned(r, s) && Enabled(r, s, step)
    ensures AllSpawned(r, Do(r, s, step))
  {
    hide Spawned, Enabled, Do, ValidRepo, Started;
    forall d, i | 0 <= i < |Subdirs(r, d)| ensures Spawned(r, Do(r, s, step), d, i) {
      SpawnedStep(r, s, step, d, i);
    }
  }

  lemma SpawnedStep(r: Repo, s: State, step: Step, d: Dir, i: nat)
    requires ValidRepo(r) && AllStarted(r, s) && AllSpawned(r, s) && Enabled(r, s, step) && i < |Subdirs(r, d)|
    ensures Spawned(r, Do(r, s, step), d, i)
  {
    var c := Subdirs(r, d)[i];
    assert Spawned(r, s, d, i) && IsSubdir(r, d, c);
    if step.Spawn? {
      SpawnsNew(r, s, step.d);
      var child := NextSubdir(r, s, step.d);
      assert Started(r, s, c);
      if d == step.d && i != VisitorAt(s, d).next {
        assert c != child;
      }
      assert d != step.d ==> c != child;
    }
  }

  lemma CachedKept(r: Repo, s: State, step: Step)
    requires AllCached(r, s) && AllRead(r, s) && Enabled(r, s, step)
    requires step.StartLoad? ==> MayLoad(s, step.d)
    requires step.Ask? && EntryAt(s, AskedDir(r, s, step.id)) == Missing ==> MayLoad(s, AskedDir(r, s, step.id))
    requires step.Spawn? ==> VisitorAt(s, NextSubdir(r, s, step.d)) == Absent
    ensures AllCached(r, Do(r, s, step))
  {
    var s' := Do(r, s, step);
    forall d ensures Cached(r, s', d) {
      assert Cached(r, s, d);
      CachedStep(r, s, step, d);
    }
  }

  lemma CachedStep(r: Repo, s: State, step: Step, d: Dir)
    requires Cached(r, s, d) && AllCached(r, s) && AllRead(r, s) && Enabled(r, s, step)
    requires step.StartLoad? ==> MayLoad(s, step.d)
    requires step.Ask? && EntryAt(s, AskedDir(r, s, step.id)) == Missing ==> MayLoad(s, AskedDir(r, s, step.id))
    requires step.Spawn? ==> VisitorAt(s, NextSubdir(r, s, step.d)) == Absent
    ensures Cached(r, Do(r, s, step), d)
  {
    if step.FinishRead? || step.Ask? || step.GiveUp? {
      CachedReaderStep(r, s, step, d);
    } else {
      assert step.FinishLoad? ==> Cached(r, s, step.d);
      assert d != ROOT ==> |Parent(d)| < |d|;
    }
  }

  lemma CachedAsk(r: Repo, s: State, id: nat, d: Dir)
    requires Cached(r, s, d) && Enabled(r, s, Ask(id))
    requires EntryAt(s, AskedDir(r, s, id)) == Missing ==> MayLoad(s, AskedDir(r, s, id))
    ensures Cached(r, Do(r, s, Ask(id)), d)
  {
    hide Asks, Subdirs;
    assert d != ROOT ==> |Parent(d)| < |d|;
  }

  lemma CachedFinishRead(r: Repo, s: State, id: nat, d: Dir)
    requires Cached(r, s, d) && ReadSoFar(r, s, id) && Enabled(r, s, FinishRead(id))
    ensures Cached(r, Do(r, s, FinishRead(id)), d)
  {
    hide Asks, Subdirs;
    assert d != ROOT ==> |Parent(d)| < |d|;
  }

  lemma CachedReaderStep(r: Repo, s: State, step: Step, d: Dir)
    requires Cached(r, s, d) && AllRead(r, s) && Enabled(r, s, step)
    requires step.Ask? || step.FinishRead? || step.GiveUp?
    requires step.Ask? && EntryAt(s, AskedDir(r, s, step.id)) == Missing ==> MayLoad(s, AskedDir(r, s, step.id))
    ensures Cached(r, Do(r, s, step), d)
  {
    hide Asks, Subdirs;
    assert ReadSoFar(r, s, step.id);
    match step
    case Ask(id) => CachedAsk(r, s, id, d);
    case FinishRead(id) => CachedFinishRead(r, s, id, d);
    case GiveUp(_) => assert d != ROOT ==> |Parent(d)| < |d|;
  }

  lemma ReadKept(r: Repo, s: State, step: Step)
    requires AllCached(r, s) && AllRead(r, s) && Enabled(r, s, step)
    ensures AllRead(r, Do(r, s, step))
  {
    hide Asks, Subdirs;
    var s' := Do(r, s, step);
    forall id ensures ReadSoFar(r, s', id) {
      assert ReadSoFar(r, s, id);
      if step.FinishLoad? { assert Cached(r, s, step.d); }
      if step.FinishRead? { assert ReadSoFar(r, s, step.id); }
    }
  }

  /** The threads that start a load find the parent's entry complete, so the loader
      cannot fail to find it. */
  lemma LoadFindsParent(r: Repo, s: State, step: Step)
    requires ValidRepo(r) && Inv(r, s) && Enabled(r, s, step)
    ensures step.StartLoad? ==> MayLoad(s, step.d)
    ensures step.Ask? && EntryAt(s, AskedDir(r, s, step.id)) == Missing ==> MayLoad(s, AskedDir(r, s, step.id))
  {
    match step
    case StartLoad(d) =>
      assert Started(r, s, d) && Cached(r, s, Parent(d));
    case Ask(id) =>
      var asks, d := Asks(r, id), AskedDir(r, s, id);
      AsksParentsFirst(r, id);
      assert ReadSoFar(r, s, id);
      if d != ROOT {
        var i :| 0 <= i < ReaderAt(s, id).pos && asks[i] == Parent(d);
      }
    case _ =>
  }

  lemma StepKeepsInv(r: Repo, s: State, step: Step)
    requires ValidRepo(r) && Inv(r, s) && Enabled(r, s, step)
    ensures Inv(r, Do(r, s, step))
  {
    LoadFindsParent(r, s, step);
    if step.Spawn? { SpawnsNew(r, s, step.d); }
    CountedKept(r, s, step);
    StartedKept(r, s, step);
    SpawnedKept(r, s, step);
    CachedKept(r, s, step);
    ReadKept(r, s, step);
    ReturnedKept(r, s, step);
  }

  /** Once the wait is over no goroutine is left to move a visitor. */
  lemma ReturnedKept(r: Repo, s: State, step: Step)
    requires Inv(r, s) && Enabled(r, s, step)
    ensures var s' := Do(r, s, step);
            && VisitorAt(s', ROOT) != Absent
            && (s'.returned ==> Unfinished(s'.visitors) == {} && VisitorAt(s', ROOT) == Finished)
  {
    if s.returned {
      forall d ensures VisitorAt(s, d) == Finished || VisitorAt(s, d) == Absent {
        assert d in Unfinished(s.visitors) <==> d in s.visitors && d != ROOT && s.visitors[d] != Finished;
      }
    }
  }

  // ------------------------------------------------------------------ progress

  /** Until the wait is over, some thread can take a step, and not by giving up. */
  lemma NoDeadlock(r: Repo, s: State) returns (step: Step)
    requires ValidRepo(r) && Inv(r, s) && !s.returned
    ensures Enabled(r, s, step) && !step.GiveUp?
  {
    if Holders(s.visitors) != {} {
      var d :| d in Holders(s.visitors);
      step := HolderStep(r, s, d);
    } else if VisitorAt(s, ROOT) != Finished {
      assert ROOT in s.visitors && ROOT !in Holders(s.visitors);
      step := SpawnerStep(r, s, ROOT);
    } else if Unfinished(s.visitors) != {} {
      var d :| d in Unfinished(s.visitors);
      assert d !in Holders(s.visitors);
      step := SpawnerStep(r, s, d);
    } else {
      step := WaitReturns;
    }
  }

  /** Whoever owns the entry a visitor waits for can go on. */
  lemma HolderStep(r: Repo, s: State, d: Dir) returns (step: Step)
    requires Inv(r, s) && HoldsToken(VisitorAt(s, d))
    ensures Enabled(r, s, step) && !step.GiveUp?
  {
    assert Cached(r, s, d);
    match VisitorAt(s, d)
    case Getting =>
      match EntryAt(s, d) {
        case Missing => step := StartLoad(d);
        case Complete => step := Release(d);
        case Pending(owner) => step := FinishRead(owner.id);
      }
    case Loading => step := FinishLoad(d);
    case _ => step := Release(d);
  }

  lemma SpawnerStep(r: Repo, s: State, d: Dir) returns (step: Step)
    requires VisitorAt(s, d).Spawning? && s.tokens < CAPACITY
    ensures Enabled(r, s, step) && !step.GiveUp?
  {
    if !Spawns(r, s, d) {
      step := Finish(d);
    } else if NextSubdir(r, s, d) in r.shouldVisit {
      step := Spawn(d);
    } else {
      step := Skip(d);
    }
  }

  // ------------------------------------------------- every run is finite

  ghost function Sum<T>(s: set<T>, f: T -> nat): nat {
    if s == {} then 0
    else
      var x :| x in s;
      f(x) + Sum(s - {x}, f)
  }

  lemma {:induction false} SumWithout<T>(s: set<T>, f: T -> nat, x: T)
    requires x in s
    ensures Sum(s, f) == f(x) + Sum(s - {x}, f)
  {
    var y :| y in s && Sum(s, f) == f(y) + Sum(s - {y}, f);
    if x != y {
      SumWithout(s - {y}, f, x);
      SumWithout(s - {x}, f, y);
      assert s - {y} - {x} == s - {x} - {y};
    }
  }

  lemma {:induction false} SumEqual<T>(s: set<T>, f: T -> nat, g: T -> nat)
    requires forall x | x in s :: f(x) == g(x)
    ensures Sum(s, f) == Sum(s, g)
  {
    if s != {} {
      var x :| x in s;
      SumWithout(s, f, x);
      SumWithout(s, g, x);
      SumEqual(s - {x}, f, g);
    }
  }

  lemma SumChange<T>(s: set<T>, f: T -> nat, g: T -> nat, x: T)
    requires x in s && forall y | y in s && y != x :: f(y) == g(y)
    ensures Sum(s, g) == Sum(s, f) - f(x) + g(x)
  {
    SumWithout(s, f, x);
    SumWithout(s, g, x);
    SumEqual(s - {x}, f, g);
  }

  /** How many steps a visitor may still take, and one more if it is not started. */
  function VisitorWeight(r: Repo, d: Dir, v: Visitor): nat {
    var n := |Subdirs(r, d)|;
    match v
    case Absent => n + 5
    case Getting => n + 4
    case Loading => n + 3
    case Holding => n + 2
    case Spawning(i) => if i <= n then n - i + 1 else 0
    case Finished => 0
  }

  function ReaderWeight(r: Repo, id: nat, x: Reader): nat {
    var n := |Asks(r, id)|;
    match x
    case Asking(pos) => if pos <= n then 2 * (n - pos) + 1 else 1
    case Reading(pos) => if pos <= n then 2 * (n - pos) else 0
    case Answered => 0
  }

  function VisitorWeights(r: Repo, s: State): Dir -> nat {
    d => VisitorWeight(r, d, VisitorAt(s, d))
  }

  function ReaderWeights(r: Repo, s: State): nat -> nat {
    id => ReaderWeight(r, id, ReaderAt(s, id))
  }

  ghost function Measure(r: Repo, s: State): nat {
    Sum(r.dirs, VisitorWeights(r, s)) + Sum(r.readers.Keys, ReaderWeights(r, s)) + if s.returned then 0 else 1
  }

  lemma StepDecreases(r: Repo, s: State, step: Step)
    requires ValidRepo(r) && AllStarted(r, s) && AllSpawned(r, s) && Enabled(r, s, step)
    ensures Measure(r, Do(r, s, step)) < Measure(r, s)
  {
    if step.Ask? || step.FinishRead? || step.GiveUp? {
      ReaderDecreases(r, s, step);
      VisitorsUntouched(r, s, step);
    } else {
      ReadersUntouched(r, s, step);
      if step.Spawn? {
        SpawnDecreases(r, s, step.d);
      } else if step.WaitReturns? {
        VisitorsUntouched(r, s, step);
      } else {
        VisitorDecreases(r, s, step);
      }
    }
  }

  lemma VisitorsUntouched(r: Repo, s: State, step: Step)
    requires Enabled(r, s, step) && (step.Ask? || step.FinishRead? || step.GiveUp? || step.WaitReturns?)
    ensures Sum(r.dirs, VisitorWeights(r, Do(r, s, step))) == Sum(r.dirs, VisitorWeights(r, s))
  {
    SumEqual(r.dirs, VisitorWeights(r, s), VisitorWeights(r, Do(r, s, step)));
  }

  lemma ReadersUntouched(r: Repo, s: State, step: Step)
    requires Enabled(r, s, step) && !step.Ask? && !step.FinishRead? && !step.GiveUp?
    ensures Sum(r.readers.Keys, ReaderWeights(r, Do(r, s, step))) == Sum(r.readers.Keys, ReaderWeights(r, s))
  {
    SumEqual(r.readers.Keys, ReaderWeights(r, s), ReaderWeights(r, Do(r, s, step)));
  }

  lemma ReaderDecreases(r: Repo, s: State, step: Step)
    requires Enabled(r, s, step) && (step.Ask? || step.FinishRead? || step.GiveUp?)
    ensures Sum(r.readers.Keys, ReaderWeights(r, Do(r, s, step))) < Sum(r.readers.Keys, ReaderWeights(r, s))
  {
    SumChange(r.readers.Keys, ReaderWeights(r, s), ReaderWeights(r, Do(r, s, step)), step.id);
  }

  /** A step of one visitor other than starting another lowers its weight. */
  lemma VisitorMoves(r: Repo, s: State, step: Step)
    requires AllStarted(r, s) && Enabled(r, s, step)
    requires step.StartLoad? || step.FinishLoad? || step.Release? || step.Skip? || step.Finish?
    ensures step.d in r.dirs
    ensures VisitorWeight(r, step.d, VisitorAt(Do(r, s, step), step.d)) < VisitorWeight(r, step.d, VisitorAt(s, step.d))
    ensures forall d | d != step.d :: VisitorAt(Do(r, s, step), d) == VisitorAt(s, d)
  {
    assert Started(r, s, step.d);
  }

  lemma VisitorDecreases(r: Repo, s: State, step: Step)
    requires AllStarted(r, s) && Enabled(r, s, step)
    requires step.StartLoad? || step.FinishLoad? || step.Release? || step.Skip? || step.Finish?
    ensures Sum(r.dirs, VisitorWeights(r, Do(r, s, step))) < Sum(r.dirs, VisitorWeights(r, s))
  {
    hide AllStarted, Enabled, Do, VisitorWeight, VisitorAt;
    VisitorMoves(r, s, step);
    SumChange(r.dirs, VisitorWeights(r, s), VisitorWeights(r, Do(r, s, step)), step.d);
  }

  lemma SpawnDecreases(r: Repo, s: State, d: Dir)
    requires ValidRepo(r) && AllStarted(r, s) && AllSpawned(r, s) && Enabled(r, s, Spawn(d))
    ensures Sum(r.dirs, VisitorWeights(r, Do(r, s, Spawn(d)))) < Sum(r.dirs, VisitorWeights(r, s))
  {
    var s' := Do(r, s, Spawn(d));
    var child := NextSubdir(r, s, d);
    SpawnsNew(r, s, d);
    assert Started(r, s, d);
    var mid := s.(visitors := s.visitors[d := s'.visitors[d]]);
    SumChange(r.dirs, VisitorWeights(r, s), VisitorWeights(r, mid), d);
    SumChange(r.dirs, VisitorWeights(r, mid), VisitorWeights(r, s'), child);
  }

  // ---------------------------------------------------------------------- runs

  ghost predicate LegalRun(r: Repo, s: State, steps: seq<Step>)
    decreases |steps|
  {
    steps == [] || (Enabled(r, s, steps[0]) && LegalRun(r, Do(r, s, steps[0]), steps[1..]))
  }

  ghost function Run(r: Repo, s: State, steps: seq<Step>): State
    requires LegalRun(r, s, steps)
    decreases |steps|
  {
    if steps == [] then s else Run(r, Do(r, s, steps[0]), steps[1..])
  }

  /** Every interleaving keeps the invariant and takes a bounded number of steps. */
  lemma {:induction false} RunKeepsInv(r: Repo, s: State, steps: seq<Step>)
    requires ValidRepo(r) && Inv(r, s) && LegalRun(r, s, steps)
    ensures Inv(r, Run(r, s, steps))
    ensures |steps| + Measure(r, Run(r, s, steps)) <= Measure(r, s)
    decreases |steps|
  {
    if steps != [] {
      StepKeepsInv(r, s, steps[0]);
      StepDecreases(r, s, steps[0]);
      RunKeepsInv(r, Do(r, s, steps[0]), steps[1..]);
    }
  }

  /** The directories the traversal is meant to visit. */
  ghost predicate Wanted(r: Repo, d: Dir)
    decreases |d|
  {
    d == ROOT || (Wants(r, d) && Wanted(r, Parent(d)))
  }

  lemma {:induction false} VisitedAtEnd(r: Repo, s: State, d: Dir)
    requires ValidRepo(r) && Inv(r, s) && s.returned
    ensures Wanted(r, d) ==> VisitorAt(s, d) == Finished && EntryAt(s, d) == Complete
    decreases |d|
  {
    assert Cached(r, s, d);
    if d != ROOT && Wanted(r, d) {
      VisitedAtEnd(r, s, Parent(d));
      var i :| 0 <= i < |Subdirs(r, Parent(d))| && Subdirs(r, Parent(d))[i] == d;
      assert Spawned(r, s, Parent(d), i);
      assert d in Unfinished(s.visitors) <==> d in s.visitors && s.visitors[d] != Finished;
    }
  }

  lemma {:induction false} VisitedIsWanted(r: Repo, s: State, d: Dir)
    requires AllStarted(r, s) && VisitorAt(s, d) != Absent
    ensures Wanted(r, d)
    decreases |d|
  {
    assert Started(r, s, d);
    if d != ROOT {
      VisitedIsWanted(r, s, Parent(d));
    }
  }

  /** The whole of it. In every interleaving at most six visitors hold the
      semaphore, no load begins before the parent's entry is complete, and either a
      step is possible or the wait is over; when it is over exactly the wanted
      directories have been visited, each to the end and with its entry complete. */
  lemma PopulateCacheIsSafe(r: Repo, steps: seq<Step>)
    requires ValidRepo(r) && LegalRun(r, INITIAL, steps)
    ensures var s := Run(r, INITIAL, steps);
            && |Holders(s.visitors)| <= 6
            && (forall d | EntryAt(s, d) != Missing && d != [] :: EntryAt(s, d[..|d| - 1]) == Complete)
            && (s.returned || exists step :: Enabled(r, s, step) && !step.GiveUp?)
            && (s.returned ==> forall d ::
                  if Wanted(r, d) then VisitorAt(s, d) == Finished && EntryAt(s, d) == Complete
                  else VisitorAt(s, d) == Absent)
            && |steps| <= Measure(r, INITIAL)
  {
    InitialInv(r);
    RunKeepsInv(r, INITIAL, steps);
    var s := Run(r, INITIAL, steps);
    forall d | EntryAt(s, d) != Missing ensures MayLoad(s, d) {
      assert Cached(r, s, d);
    }
    if s.returned {
      forall d
        ensures if Wanted(r, d) then VisitorAt(s, d) == Finished && EntryAt(s, d) == Complete
                else VisitorAt(s, d) == Absent
      {
        VisitedAtEnd(r, s, d);
        if VisitorAt(s, d) != Absent { VisitedIsWanted(r, s, d); }
      }
    } else {
      var step := NoDeadlock(r, s);
    }
  }
}
