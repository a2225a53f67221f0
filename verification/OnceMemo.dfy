/** The once-per-key caches: callers look a key up, the first one to insert an entry
    loads it, and the others wait until that entry is complete. */
module OnceMemo {
  import opened Options
  import opened Sorting

  /** The result of a load: a value or an error, as both are kept. */
  datatype Value = Value(repr: int)

  /** How a caller proceeds. Optimistic reads first and inserts in a second step, so
      another caller may insert between the two; Locked looks up and inserts under one
      lock; Peek never loads. */
  datatype Kind = Optimistic | Locked | Peek

  datatype Caller = Caller(kind: Kind, key: string)

  /** Entries are told apart by who made them; some may be complete from the start. */
  datatype EntryId = Prefilled(key: string) | MadeBy(caller: nat)

  datatype PC =
    | Start
    | Missed
    | Loading(entry: EntryId)
    | Waiting(entry: EntryId)
    | Returned(result: Option<Value>)

  /** `index` is the shared map, `complete` holds the entries whose channel is closed,
      and `loads` lists the keys the load function was called for. */
  datatype State = State(
    pcs: map<nat, PC>,
    index: map<string, EntryId>,
    complete: map<EntryId, Value>,
    loads: seq<string>)

  function At(s: State, c: nat): PC {
    if c in s.pcs then s.pcs[c] else Start
  }

  /** Before any call: only prefilled entries, all complete. */
  ghost predicate IsInitial(s: State) {
    && s.pcs == map[] && s.loads == []
    && (forall k | k in s.index :: s.index[k] == Prefilled(k) && Prefilled(k) in s.complete)
    && (forall e | e in s.complete :: e.Prefilled? && e.key in s.index)
  }

  /** A caller can take its next step; waiting ends when the entry is complete. */
  predicate Enabled(callers: map<nat, Caller>, s: State, c: nat) {
    c in callers &&
    match At(s, c)
    case Waiting(e) => e in s.complete
    case Returned(_) => false
    case _ => true
  }

  /** The next step of caller `c`; `loaded` is what the load returns if this step
      completes one. */
  function Do(callers: map<nat, Caller>, s: State, c: nat, loaded: Value): State
    requires Enabled(callers, s, c)
  {
    var key := callers[c].key;
    match At(s, c)
    case Start =>
      if key in s.index then s.(pcs := s.pcs[c := Waiting(s.index[key])])
      else if callers[c].kind == Optimistic then s.(pcs := s.pcs[c := Missed])
      else if callers[c].kind == Locked then Insert(s, c, key)
      else s.(pcs := s.pcs[c := Returned(None)])
    case Missed =>
      if key in s.index then s.(pcs := s.pcs[c := Waiting(s.index[key])]) else Insert(s, c, key)
    case Loading(e) => s.(pcs := s.pcs[c := Returned(Some(loaded))], complete := s.complete[e := loaded])
    case Waiting(e) => s.(pcs := s.pcs[c := Returned(Some(s.complete[e]))])
  }

  /** Inserts the caller's entry and calls the load function. */
  function Insert(s: State, c: nat, key: string): State {
    s.(pcs := s.pcs[c := Loading(MadeBy(c))], index := s.index[key := MadeBy(c)], loads := s.loads + [key])
  }

  // ---------------------------------------------------------------- invariant

  /** What is known of one caller. */
  ghost predicate CallerOK(callers: map<nat, Caller>, s: State, c: nat) {
    match At(s, c)
    case Start => MadeBy(c) !in s.complete
    case Missed => c in callers && MadeBy(c) !in s.complete
    case Loading(e) =>
      && c in callers && e == MadeBy(c) && e !in s.complete
      && callers[c].key in s.index && s.index[callers[c].key] == e
    case Waiting(e) => c in callers && callers[c].key in s.index && s.index[callers[c].key] == e
    case Returned(None) => c in callers && callers[c].kind == Peek
    case Returned(Some(v)) =>
      && c in callers && callers[c].key in s.index
      && s.index[callers[c].key] in s.complete && s.complete[s.index[callers[c].key]] == v
  }

  /** What is known of one key: an entry that is not complete is being loaded by its
      maker, and the load function was called for the keys of made entries only. */
  ghost predicate KeyOK(callers: map<nat, Caller>, s: State, k: string) {
    && (k in s.index && s.index[k] !in s.complete ==>
          s.index[k].MadeBy? && At(s, s.index[k].caller) == Loading(s.index[k]))
    && (k in s.index && s.index[k].MadeBy? ==>
          (&& s.index[k].caller in callers && callers[s.index[k].caller].key == k
           && At(s, s.index[k].caller) != Start && At(s, s.index[k].caller) != Missed))
    && (k in s.loads <==> k in s.index && s.index[k].MadeBy?)
  }

  ghost predicate AllCallersOK(callers: map<nat, Caller>, s: State) { forall c :: CallerOK(callers, s, c) }
  ghost predicate AllKeysOK(callers: map<nat, Caller>, s: State) { forall k :: KeyOK(callers, s, k) }

  ghost predicate Inv(callers: map<nat, Caller>, s: State) {
    AllCallersOK(callers, s) && AllKeysOK(callers, s) && NoDuplicates(s.loads)
  }

  lemma InitialInv(callers: map<nat, Caller>, s: State)
    requires IsInitial(s)
    ensures Inv(callers, s)
  {
  }

  lemma StepKeepsInv(callers: map<nat, Caller>, s: State, c: nat, loaded: Value)
    requires Inv(callers, s) && Enabled(callers, s, c)
    ensures Inv(callers, Do(callers, s, c, loaded))
  {
    var s' := Do(callers, s, c, loaded);
    assert CallerOK(callers, s, c) && KeyOK(callers, s, callers[c].key);
    forall d ensures CallerOK(callers, s', d) {
      assert CallerOK(callers, s, d);
    }
    forall k ensures KeyOK(callers, s', k) {
      assert KeyOK(callers, s, k);
    }
  }

  /** An entry, once in the map, is never replaced, and once complete never changes. */
  lemma EntriesStay(callers: map<nat, Caller>, s: State, c: nat, loaded: Value)
    requires Inv(callers, s) && Enabled(callers, s, c)
    ensures var s' := Do(callers, s, c, loaded);
            && (forall k | k in s.index :: k in s'.index && s'.index[k] == s.index[k])
            && (forall e | e in s.complete :: e in s'.complete && s'.complete[e] == s.complete[e])
  {
    assert CallerOK(callers, s, c);
  }

  // --------------------------------------------------------- progress and runs

  /** As long as a caller has not returned, one can go on. */
  lemma SomeCallerGoesOn(callers: map<nat, Caller>, s: State, c: nat) returns (d: nat)
    requires Inv(callers, s) && c in callers && !At(s, c).Returned?
    ensures Enabled(callers, s, d)
  {
    assert CallerOK(callers, s, c) && KeyOK(callers, s, callers[c].key);
    d := c;
    if At(s, c).Waiting? && At(s, c).entry !in s.complete {
      d := At(s, c).entry.caller;
    }
  }

  /** How many steps a caller may still take. */
  function Remaining(s: State, c: nat): nat {
    match At(s, c)
    case Start => 3
    case Missed => 2
    case Loading(_) => 1
    case Waiting(_) => 1
    case Returned(_) => 0
  }

  ghost function TotalRemaining(s: State, callers: set<nat>): nat {
    if callers == {} then 0
    else
      var c :| c in callers;
      Remaining(s, c) + TotalRemaining(s, callers - {c})
  }

  lemma {:induction false} TotalWithout(s: State, callers: set<nat>, c: nat)
    requires c in callers
    ensures TotalRemaining(s, callers) == Remaining(s, c) + TotalRemaining(s, callers - {c})
  {
    var d :| d in callers && TotalRemaining(s, callers) == Remaining(s, d) + TotalRemaining(s, callers - {d});
    if c != d {
      TotalWithout(s, callers - {d}, c);
      TotalWithout(s, callers - {c}, d);
      assert callers - {d} - {c} == callers - {c} - {d};
    }
  }

  lemma {:induction false} TotalSame(s: State, s': State, callers: set<nat>)
    requires forall c | c in callers :: Remaining(s, c) == Remaining(s', c)
    ensures TotalRemaining(s, callers) == TotalRemaining(s', callers)
  {
    if callers != {} {
      var c :| c in callers;
      TotalWithout(s, callers, c);
      TotalWithout(s', callers, c);
      TotalSame(s, s', callers - {c});
    }
  }

  lemma StepDecreases(callers: map<nat, Caller>, s: State, c: nat, loaded: Value)
    requires Enabled(callers, s, c)
    ensures TotalRemaining(Do(callers, s, c, loaded), callers.Keys) < TotalRemaining(s, callers.Keys)
  {
    var s' := Do(callers, s, c, loaded);
    TotalWithout(s, callers.Keys, c);
    TotalWithout(s', callers.Keys, c);
    TotalSame(s, s', callers.Keys - {c});
  }

  /** A schedule names the caller of each step and what a load returns there. */
  ghost predicate LegalRun(callers: map<nat, Caller>, s: State, schedule: seq<(nat, Value)>)
    decreases |schedule|
  {
    schedule == [] ||
    (&& Enabled(callers, s, schedule[0].0)
     && LegalRun(callers, Do(callers, s, schedule[0].0, schedule[0].1), schedule[1..]))
  }

  ghost function Run(callers: map<nat, Caller>, s: State, schedule: seq<(nat, Value)>): State
    requires LegalRun(callers, s, schedule)
    decreases |schedule|
  {
    if schedule == [] then s
    else Run(callers, Do(callers, s, schedule[0].0, schedule[0].1), schedule[1..])
  }

  lemma {:induction false} RunKeepsInv(callers: map<nat, Caller>, s: State, schedule: seq<(nat, Value)>)
    requires Inv(callers, s) && LegalRun(callers, s, schedule)
    ensures Inv(callers, Run(callers, s, schedule))
    ensures |schedule| + TotalRemaining(Run(callers, s, schedule), callers.Keys) <= TotalRemaining(s, callers.Keys)
    decreases |schedule|
  {
    if schedule != [] {
      var (c, loaded) := schedule[0];
      StepKeepsInv(callers, s, c, loaded);
      StepDecreases(callers, s, c, loaded);
      RunKeepsInv(callers, Do(callers, s, c, loaded), schedule[1..]);
    }
  }

  /** In every interleaving of any callers: the load function runs at most once per
      key, and not at all for a prefilled one; all results returned for a key are the
      same and are the content of its completed entry; only a caller that does not
      load may find nothing; and a state in which nobody can go on is one in which
      everybody has returned. */
  lemma OncePerKey(callers: map<nat, Caller>, s0: State, schedule: seq<(nat, Value)>)
    requires IsInitial(s0) && LegalRun(callers, s0, schedule)
    ensures var s := Run(callers, s0, schedule);
            && NoDuplicates(s.loads)
            && (forall k | k in s.loads :: k in s.index && s.index[k].MadeBy?)
            && (forall c, d | c in callers && d in callers && callers[c].key == callers[d].key
                  && At(s, c).Returned? && At(s, c).result.Some? && At(s, d).Returned? && At(s, d).result.Some? ::
                  At(s, c).result == At(s, d).result)
            && (forall c | At(s, c) == Returned(None) :: c in callers && callers[c].kind == Peek)
            && ((forall c :: !Enabled(callers, s, c)) ==> forall c | c in callers :: At(s, c).Returned?)
            && |schedule| <= TotalRemaining(s0, callers.Keys)
  {
    InitialInv(callers, s0);
    RunKeepsInv(callers, s0, schedule);
    var s := Run(callers, s0, schedule);
    forall k | k in s.loads ensures k in s.index && s.index[k].MadeBy? {
      assert KeyOK(callers, s, k);
    }
    forall c, d | c in callers && d in callers && callers[c].key == callers[d].key
                  && At(s, c).Returned? && At(s, c).result.Some? && At(s, d).Returned? && At(s, d).result.Some?
      ensures At(s, c).result == At(s, d).result
    {
      assert CallerOK(callers, s, c) && CallerOK(callers, s, d);
    }
    forall c | At(s, c) == Returned(None) ensures c in callers && callers[c].kind == Peek {
      assert CallerOK(callers, s, c);
    }
    if forall c :: !Enabled(callers, s, c) {
      forall c | c in callers ensures At(s, c).Returned? {
        if !At(s, c).Returned? {
          var d := SomeCallerGoesOn(callers, s, c);
        }
      }
    }
  }
}
