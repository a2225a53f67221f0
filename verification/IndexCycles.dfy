/** What the index holds of rules that embed each other in a circle: how much of the
    closures is found depends on where in the circle the collection starts. */
module IndexCycles {
  import opened Labels
  import opened Options
  import opened Sorting
  import opened EmbedGraph
  import opened RuleIndexes

  function Next(rules: seq<RuleRecord>, i: nat): nat {
    if i + 1 < |rules| then i + 1 else 0
  }

  /** Rules of one language with labels of their own, each of which embeds the next, and
      the last the first; each provides an import that no other does. */
  ghost predicate Circle(rules: seq<RuleRecord>) {
    && rules != []
    && (forall i, j | 0 <= i < j < |rules| :: rules[i].id != rules[j].id)
    && (forall i | 0 <= i < |rules| :: rules[i].lang == rules[0].lang)
    && (forall i | 0 <= i < |rules| :: EmbedsNext(rules, i))
    && (forall i | 0 <= i < |rules| :: HasOwnImport(rules, i))
  }

  ghost predicate EmbedsNext(rules: seq<RuleRecord>, i: nat) {
    i < |rules| && rules[i].embeds == [rules[Next(rules, i)].id]
  }

  ghost predicate HasOwnImport(rules: seq<RuleRecord>, i: nat) {
    exists s :: OwnImport(rules, i, s)
  }

  ghost predicate OwnImport(rules: seq<RuleRecord>, i: nat, s: ImportSpec) {
    i < |rules| && s in rules[i].importedAs && forall j | 0 <= j < |rules| && s in rules[j].importedAs :: i == j
  }

  // --------------------------------------------------------------- the graph

  lemma CircleGraph(rules: seq<RuleRecord>, i: nat)
    requires Circle(rules) && i < |rules|
    ensures rules[i].id in LabelMap(rules) && LabelMap(rules)[rules[i].id] == rules[i]
  {
    hide LabelMap;
    FirstOfLabel(rules, i);
    assert rules[i] in rules;
  }

  lemma CircleEdge(rules: seq<RuleRecord>, i: nat)
    requires Circle(rules) && i < |rules|
    ensures SameLangEdge(LabelMap(rules), rules[i].id, rules[Next(rules, i)].id)
  {
    assert EmbedsNext(rules, i);
    CircleGraph(rules, i);
    CircleGraph(rules, Next(rules, i));
  }

  /** Every rule of a circle is reached from every other. */
  lemma {:induction false} CircleReaches(rules: seq<RuleRecord>, i: nat, j: nat, same: bool)
    requires Circle(rules) && i < |rules| && j < |rules|
    ensures Reaches(LabelMap(rules), rules[i].id, rules[j].id, same)
    decreases if i <= j then j - i else |rules| - i + j
  {
    hide LabelMap, Circle, Reaches;
    if i == j {
      CircleGraph(rules, i);
      ReachesItself(LabelMap(rules), rules[i].id, same);
    } else {
      CircleReaches(rules, Next(rules, i), j, same);
      CircleEdge(rules, i);
      ReachesThrough(LabelMap(rules), rules[i].id, rules[Next(rules, i)].id, rules[j].id, same);
    }
  }

  lemma CircleNotEmpty(rules: seq<RuleRecord>)
    requires Circle(rules)
    ensures rules != []
  {
  }

  lemma CircleIsCyclic(rules: seq<RuleRecord>)
    requires Circle(rules)
    ensures !Acyclic(LabelMap(rules))
  {
    hide LabelMap, Circle;
    assert rules != [] by { CircleNotEmpty(rules); }
    var g, a, b := LabelMap(rules), rules[0].id, rules[Next(rules, 0)].id;
    CircleEdge(rules, 0);
    CircleReaches(rules, Next(rules, 0), 0, false);
    var p :| Links(g, p, b, a, false);
    var q := [a] + p;
    forall i | 0 <= i < |q| - 1 ensures Edge(g, q[i], q[i + 1]) {
      if i > 0 { assert q[i] == p[i - 1] && q[i + 1] == p[i]; }
    }
    assert IsPath(g, q, false) && |q| > 1 && q[0] == q[|q| - 1];
  }

  lemma RuleOfLabel(rules: seq<RuleRecord>, l: Label) returns (i: nat)
    requires Circle(rules) && l in LabelMap(rules)
    ensures i < |rules| && rules[i].id == l && LabelMap(rules)[l] == rules[i]
  {
    LabelMapRule(rules, l);
    i :| 0 <= i < |rules| && rules[i] == LabelMap(rules)[l];
  }

  /** The closures are all imports and all labels of the circle. */
  lemma CircleClosures(rules: seq<RuleRecord>, i: nat)
    requires Circle(rules) && i < |rules|
    ensures forall s :: ImportClosure(LabelMap(rules), rules[i].id, s) <==>
                        exists j :: 0 <= j < |rules| && s in rules[j].importedAs
    ensures forall x :: EmbedClosure(LabelMap(rules), rules[i].id, x) <==>
                        exists j :: 0 <= j < |rules| && x in rules[j].embeds
  {
    hide LabelMap, Circle, Reaches;
    var g := LabelMap(rules);
    forall m | m in g ensures exists j :: 0 <= j < |rules| && g[m] == rules[j] {
      var j := RuleOfLabel(rules, m);
    }
    forall j | 0 <= j < |rules|
      ensures rules[j].id in g && g[rules[j].id] == rules[j]
      ensures Reaches(g, rules[i].id, rules[j].id, false) && Reaches(g, rules[i].id, rules[j].id, true)
    {
      CircleGraph(rules, j);
      CircleReaches(rules, i, j, false);
      CircleReaches(rules, i, j, true);
    }
  }

  // ------------------------------------------------------------------ the run

  /** The state when the first `k` rules have been entered. */
  ghost function Entered(rules: seq<RuleRecord>, k: nat): State
    requires k <= |rules|
  {
    if k == 0 then Initial(LabelMap(rules)) else Enter(Entered(rules, k - 1), rules[k - 1])
  }

  lemma EnterAt(st: State, r: RuleRecord, l: Label)
    ensures var st' := Enter(st, r);
            && (l in st'.order <==> l in st.order || l == r.id)
            && Lookup(st'.imports, l) == Lookup(st.imports, l)
            && Lookup(st'.embeds, l) == if l == r.id then r.embeds else Lookup(st.embeds, l)
  {
  }

  lemma {:induction false} EnteredState(rules: seq<RuleRecord>, k: nat, l: nat)
    requires Circle(rules) && k <= |rules| && l < |rules|
    ensures rules[l].id in Entered(rules, k).order <==> l < k
    ensures Lookup(Entered(rules, k).imports, rules[l].id) == rules[l].importedAs
    ensures l < k ==> Lookup(Entered(rules, k).embeds, rules[l].id) == rules[l].embeds
  {
    CircleGraph(rules, l);
    assert k > 0 && l != k - 1 ==> rules[l].id != rules[k - 1].id;
    hide LabelMap, Circle, Enter;
    if k > 0 {
      EnteredState(rules, k - 1, l);
      EnterAt(Entered(rules, k - 1), rules[k - 1], rules[l].id);
    }
  }

  /** Expanding a rule with one embed. */
  lemma LastEmbed(g: Graph, st: State, r: RuleRecord, er: RuleRecord)
    requires Keyed(g) && r.id in g && g[r.id] == r && er.id in g && g[er.id] == er
    requires r.embeds == [er.id] && r.id !in st.order
    ensures Collect(g, st, r) == Absorb(Collect(g, Enter(st, r), er), r, er)
  {
    var st1 := Enter(st, r);
    assert CollectEmbeds(g, st1, r, 0) == CollectEmbeds(g, Absorb(Collect(g, st1, er), r, er), r, 1);
  }

  /** What is collected for the i-th rule: from itself on to the last, then the first. */
  ghost function TailImports(rules: seq<RuleRecord>, i: nat): seq<ImportSpec>
    requires i < |rules|
    decreases |rules| - i
  {
    rules[i].importedAs + if i + 1 < |rules| then TailImports(rules, i + 1) else rules[0].importedAs
  }

  ghost function TailEmbeds(rules: seq<RuleRecord>, i: nat): seq<Label>
    requires i < |rules|
    decreases |rules| - i
  {
    rules[i].embeds + if i + 1 < |rules| then TailEmbeds(rules, i + 1) else rules[0].embeds
  }

  /** The run from the k-th rule on, when those before it are being expanded. */
  ghost predicate RunFrom(rules: seq<RuleRecord>, k: nat, st: State)
    requires k < |rules|
  {
    && (forall l | 0 <= l < |rules| :: rules[l].id in st.order)
    && (forall l | 0 <= l < |rules| ::
          && Lookup(st.imports, rules[l].id) == (if l < k then rules[l].importedAs else TailImports(rules, l))
          && Lookup(st.embeds, rules[l].id) == (if l < k then rules[l].embeds else TailEmbeds(rules, l)))
  }

  lemma {:induction false} CircleRun(rules: seq<RuleRecord>, k: nat)
    requires Circle(rules) && k < |rules|
    requires rules[k].id in LabelMap(rules)
    ensures RunFrom(rules, k, Collect(LabelMap(rules), Entered(rules, k), rules[k]))
    decreases |rules| - k
  {
    var g, st := LabelMap(rules), Entered(rules, k);
    var next := Next(rules, k);
    assert EmbedsNext(rules, k);
    CircleGraph(rules, k);
    CircleGraph(rules, next);
    EnteredState(rules, k, k);
    LastEmbed(g, st, rules[k], rules[next]);
    var inner := Collect(g, Entered(rules, k + 1), rules[next]);
    if k + 1 < |rules| {
      CircleRun(rules, k + 1);
    } else {
      EnteredState(rules, k + 1, 0);
      assert inner == Entered(rules, k + 1);
    }
    BackFrom(rules, k, inner);
  }

  /** Before the k-th rule takes over from the next. */
  lemma InnerAt(rules: seq<RuleRecord>, k: nat, inner: State, l: nat)
    requires Circle(rules) && k < |rules| && l < |rules|
    requires if k + 1 < |rules| then RunFrom(rules, k + 1, inner) else inner == Entered(rules, k + 1)
    ensures rules[l].id in inner.order
    ensures Lookup(inner.imports, rules[l].id) == if l <= k then rules[l].importedAs else TailImports(rules, l)
    ensures Lookup(inner.embeds, rules[l].id) == if l <= k then rules[l].embeds else TailEmbeds(rules, l)
  {
    hide Circle, Entered, TailImports, TailEmbeds;
    if k + 1 == |rules| {
      EnteredState(rules, k + 1, l);
    }
  }

  /** And afterwards. */
  lemma BackAt(rules: seq<RuleRecord>, k: nat, inner: State, l: nat)
    requires Circle(rules) && k < |rules| && l < |rules|
    requires if k + 1 < |rules| then RunFrom(rules, k + 1, inner) else inner == Entered(rules, k + 1)
    ensures var st := Absorb(inner, rules[k], rules[Next(rules, k)]);
            && rules[l].id in st.order
            && Lookup(st.imports, rules[l].id) == (if l < k then rules[l].importedAs else TailImports(rules, l))
            && Lookup(st.embeds, rules[l].id) == (if l < k then rules[l].embeds else TailEmbeds(rules, l))
  {
    hide Entered, RunFrom, Absorb;
    InnerAt(rules, k, inner, l);
    InnerAt(rules, k, inner, Next(rules, k));
    assert rules[k].lang == rules[0].lang == rules[Next(rules, k)].lang;
    assert l != k ==> rules[l].id != rules[k].id;
    AbsorbAt(inner, rules[k], rules[Next(rules, k)], rules[l].id);
  }

  lemma AbsorbAt(st: State, r: RuleRecord, er: RuleRecord, id: Label)
    requires r.lang == er.lang
    ensures var after := Absorb(st, r, er);
            && after.order == st.order
            && Lookup(after.imports, id) ==
               Lookup(st.imports, id) + (if id == r.id then Lookup(st.imports, er.id) else [])
            && Lookup(after.embeds, id) ==
               Lookup(st.embeds, id) + (if id == r.id then Lookup(st.embeds, er.id) else [])
  {
  }

  /** Taking over from the next rule. */
  lemma BackFrom(rules: seq<RuleRecord>, k: nat, inner: State)
    requires Circle(rules) && k < |rules|
    requires if k + 1 < |rules| then RunFrom(rules, k + 1, inner) else inner == Entered(rules, k + 1)
    ensures RunFrom(rules, k, Absorb(inner, rules[k], rules[Next(rules, k)]))
  {
    hide Circle, Absorb, Entered, TailImports, TailEmbeds;
    var st := Absorb(inner, rules[k], rules[Next(rules, k)]);
    forall l | 0 <= l < |rules|
      ensures rules[l].id in st.order
      ensures Lookup(st.imports, rules[l].id) == if l < k then rules[l].importedAs else TailImports(rules, l)
      ensures Lookup(st.embeds, rules[l].id) == if l < k then rules[l].embeds else TailEmbeds(rules, l)
    {
      BackAt(rules, k, inner, l);
    }
  }

  /** Once all rules have been expanded, nothing more happens. */
  lemma {:induction false} NothingLeft(g: Graph, st: State, rules: seq<RuleRecord>, i: nat)
    requires Keyed(g) && i <= |rules| && forall r | r in rules :: r.id in g && r.id in st.order
    ensures CollectAll(g, st, rules, i) == st
    decreases |rules| - i
  {
    if i < |rules| {
      CollectAllStep(g, st, rules, i);
      NothingLeft(g, st, rules, i + 1);
    }
  }

  lemma CircleCollected(rules: seq<RuleRecord>)
    requires Circle(rules)
    ensures RunFrom(rules, 0, Collected(rules))
  {
    hide LabelMap, Circle;
    var g, st := LabelMap(rules), Initial(LabelMap(rules));
    CircleNotEmpty(rules);
    CircleGraph(rules, 0);
    CircleRun(rules, 0);
    CollectAllStep(g, st, rules, 0);
    var after := Collect(g, st, rules[0]);
    assert Entered(rules, 0) == st;
    forall r | r in rules ensures r.id in g && r.id in after.order {
      var j :| 0 <= j < |rules| && rules[j] == r;
    }
    NothingLeft(g, after, rules, 1);
  }

  // ---------------------------------------------------------------- what is found

  lemma {:induction false} TailMembers(rules: seq<RuleRecord>, i: nat)
    requires i < |rules|
    ensures forall s :: s in TailImports(rules, i) <==>
                        exists j :: 0 <= j < |rules| && (j == 0 || i <= j) && s in rules[j].importedAs
    ensures forall x :: x in TailEmbeds(rules, i) <==>
                        exists j :: 0 <= j < |rules| && (j == 0 || i <= j) && x in rules[j].embeds
    decreases |rules| - i
  {
    if i + 1 < |rules| {
      TailMembers(rules, i + 1);
    }
  }

  /** What is found for the i-th rule: what is there from it on, and at the first. */
  lemma CircleFound(rules: seq<RuleRecord>, i: nat)
    requires Circle(rules) && i < |rules|
    ensures forall s :: s in Lookup(Collected(rules).imports, rules[i].id) <==>
                        exists j :: 0 <= j < |rules| && (j == 0 || i <= j) && s in rules[j].importedAs
    ensures forall x :: x in Lookup(Collected(rules).embeds, rules[i].id) <==>
                        exists j :: 0 <= j < |rules| && (j == 0 || i <= j) && x in rules[j].embeds
  {
    hide LabelMap, Collected, Circle;
    CircleCollected(rules);
    TailMembers(rules, i);
  }

  /** In a circle exactly the first two rules added get the closures: every later one
      misses the imports of the second and its embeds. */
  lemma CircleIff(rules: seq<RuleRecord>, i: nat)
    requires Circle(rules) && i < |rules|
    ensures ExactImports(LabelMap(rules), Collected(rules), rules[i].id) <==> i <= 1
    ensures ExactEmbeds(LabelMap(rules), Collected(rules), rules[i].id) <==> i <= 1
    ensures !Acyclic(LabelMap(rules))
  {
    hide LabelMap, Collected, ImportClosure, EmbedClosure, Acyclic, Circle;
    CircleIsCyclic(rules);
    CircleFound(rules, i);
    CircleClosures(rules, i);
    if i > 1 {
      var s := OwnImportOf(rules, 1);
      OwnIsMissed(rules, i, s);
      SecondIsMissed(rules, i);
    }
  }

  lemma OwnImportOf(rules: seq<RuleRecord>, i: nat) returns (s: ImportSpec)
    requires Circle(rules) && i < |rules|
    ensures OwnImport(rules, i, s)
  {
    assert HasOwnImport(rules, i);
    s :| OwnImport(rules, i, s);
  }

  /** The second rule's own import is provided by no other. */
  lemma OwnIsMissed(rules: seq<RuleRecord>, i: nat, s: ImportSpec)
    requires OwnImport(rules, 1, s) && 1 < i < |rules|
    requires s in Lookup(Collected(rules).imports, rules[i].id) <==>
             exists j :: 0 <= j < |rules| && (j == 0 || i <= j) && s in rules[j].importedAs
    requires ImportClosure(LabelMap(rules), rules[i].id, s) <==>
             exists j :: 0 <= j < |rules| && s in rules[j].importedAs
    ensures !ExactImports(LabelMap(rules), Collected(rules), rules[i].id)
  {
    hide LabelMap, Collected, ImportClosure;
  }

  /** The label that the second rule embeds is embedded by no other. */
  lemma SecondIsMissed(rules: seq<RuleRecord>, i: nat)
    requires Circle(rules) && 1 < i < |rules|
    requires forall x :: x in Lookup(Collected(rules).embeds, rules[i].id) <==>
                         exists j :: 0 <= j < |rules| && (j == 0 || i <= j) && x in rules[j].embeds
    requires forall x :: EmbedClosure(LabelMap(rules), rules[i].id, x) <==>
                         exists j :: 0 <= j < |rules| && x in rules[j].embeds
    ensures !ExactEmbeds(LabelMap(rules), Collected(rules), rules[i].id)
  {
    hide LabelMap, Collected, EmbedClosure;
    var x := rules[2].id;
    assert EmbedsNext(rules, 1) && x in rules[1].embeds;
    forall j | 0 <= j < |rules| && (j == 0 || i <= j) ensures x !in rules[j].embeds {
      assert EmbedsNext(rules, j);
      assert Next(rules, j) != 2;
    }
    assert EmbedClosure(LabelMap(rules), rules[i].id, x);
    assert x !in Lookup(Collected(rules).embeds, rules[i].id);
  }

  /** So the index of a circle is exact exactly if it is a circle of at most two rules. */
  lemma CircleIndexIff(rules: seq<RuleRecord>)
    requires Circle(rules)
    ensures (forall l | l in LabelMap(rules) :: Exact(LabelMap(rules), Collected(rules), l)) <==> |rules| <= 2
  {
    hide LabelMap, Collected, Circle, ExactImports, ExactEmbeds;
    forall i | 0 <= i < |rules| ensures Exact(LabelMap(rules), Collected(rules), rules[i].id) <==> i <= 1 {
      CircleIff(rules, i);
    }
    if |rules| <= 2 {
      forall l | l in LabelMap(rules) ensures Exact(LabelMap(rules), Collected(rules), l) {
        var i := RuleOfLabel(rules, l);
      }
    } else {
      CircleGraph(rules, 2);
    }
  }

  // -------------------------------------------------------------------- an instance

  /** A rule named `name` that provides `name` and embeds the rule named `embed`. */
  function Link(name: string, embed: string): RuleRecord {
    RuleRecord(Target(name), [ImportSpec("go", name)], [Target(embed)], "go")
  }

  function Target(name: string): Label {
    Label("", "", name, false, false)
  }

  /** Of three rules that embed each other in a circle, the last one expanded never hears
      of the second one's import; the second one hears of all. */
  lemma CyclicIndexLosesImports()
    ensures var rules := [Link("a", "b"), Link("b", "c"), Link("c", "a")];
            && ExactImports(LabelMap(rules), Collected(rules), Target("b"))
            && ImportClosure(LabelMap(rules), Target("c"), ImportSpec("go", "b"))
            && ImportSpec("go", "b") !in Lookup(Collected(rules).imports, Target("c"))
  {
    hide LabelMap, Collected, ImportClosure, EmbedClosure, ExactImports, TailImports, TailEmbeds;
    var rules := [Link("a", "b"), Link("b", "c"), Link("c", "a")];
    assert OwnImport(rules, 0, ImportSpec("go", "a")) && OwnImport(rules, 1, ImportSpec("go", "b"))
        && OwnImport(rules, 2, ImportSpec("go", "c"));
    assert HasOwnImport(rules, 0) && HasOwnImport(rules, 1) && HasOwnImport(rules, 2);
    assert EmbedsNext(rules, 0) && EmbedsNext(rules, 1) && EmbedsNext(rules, 2);
    assert Circle(rules);
    hide Circle;
    CircleIff(rules, 1);
    CircleFound(rules, 2);
    CircleClosures(rules, 2);
    assert ImportSpec("go", "b") in rules[1].importedAs;
  }
}
