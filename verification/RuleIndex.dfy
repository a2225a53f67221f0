/** The index of rules by label and by import: what adding rules, finishing the index
    and looking up an import come to. */
module RuleIndexes {
  import opened Labels
  import opened Sorting
  import opened EmbedGraph
  import opened Options

  /** What the resolver of a rule's kind says about the rule. `imports` is None for a
      rule that is not to be indexed. */
  datatype Resolved = Resolved(lang: string, imports: Option<seq<ImportSpec>>, embeds: seq<Label>)

  datatype FindResult = FindResult(id: Label, embeds: seq<Label>)

  predicate IsSelfImport(r: FindResult, from: Label) {
    Equal(from, r.id) || exists i | 0 <= i < |r.embeds| :: Equal(from, r.embeds[i])
  }

  predicate PassesLanguageFilter(langs: seq<string>, lang: string) {
    langs == [] || lang in langs
  }

  /** The rules by label; of several with one label, the first added. */
  ghost function LabelMap(rules: seq<RuleRecord>): (g: Graph)
    ensures Keyed(g)
    ensures forall r | r in rules :: r.id in g
  {
    if rules == [] then map[]
    else
      var g := LabelMap(rules[..|rules| - 1]);
      var r := rules[|rules| - 1];
      assert rules == rules[..|rules| - 1] + [r];
      if r.id in g then g else g[r.id := r]
  }

  /** The tables before the embeds are collected. */
  ghost function Initial(g: Graph): State {
    State([], map[], {}, map l | l in g :: g[l].importedAs)
  }

  ghost function Collected(rules: seq<RuleRecord>): State {
    CollectAll(LabelMap(rules), Initial(LabelMap(rules)), rules, 0)
  }

  /** The rules an import finds, in the order they were added. */
  function Matching(rules: seq<RuleRecord>, st: State, imp: ImportSpec): seq<RuleRecord> {
    if rules == [] then []
    else
      var r := rules[|rules| - 1];
      Matching(rules[..|rules| - 1], st, imp)
      + if r.id !in st.embedded && imp in Lookup(st.imports, r.id) then [r] else []
  }

  function Results(matches: seq<RuleRecord>, st: State, lang: string): seq<FindResult> {
    if matches == [] then []
    else
      var m := matches[|matches| - 1];
      Results(matches[..|matches| - 1], st, lang)
      + if m.lang == lang then [FindResult(m.id, Lookup(st.embeds, m.id))] else []
  }

  lemma CollectAllEnd(g: Graph, st: State, rules: seq<RuleRecord>)
    requires Keyed(g) && forall r | r in rules :: r.id in g
    ensures CollectAll(g, st, rules, |rules|) == st
  {
  }

  /** The labels made absolute from a package. */
  function AbsAll(labels: seq<Label>, repo: string, pkg: string): seq<Label> {
    if labels == [] then []
    else AbsAll(labels[..|labels| - 1], repo, pkg) + [Abs(labels[|labels| - 1], repo, pkg)]
  }

  /** The rules that labels name from a package: a relative label one of that package, any
      other the one it says. */
  ghost predicate AreAbsolute(labels: seq<Label>, repo: string, pkg: string, absolute: seq<Label>) {
    && |absolute| == |labels|
    && forall i | 0 <= i < |labels| ::
         var l, a := labels[i], absolute[i];
         if l.relative then a.repo == repo && a.pkg == pkg && a.name == l.name && !a.relative && !a.canonical
         else a == l
  }

  lemma {:induction false} AbsAllIs(labels: seq<Label>, repo: string, pkg: string)
    ensures AreAbsolute(labels, repo, pkg, AbsAll(labels, repo, pkg))
  {
    if labels != [] {
      AbsAllIs(labels[..|labels| - 1], repo, pkg);
    }
  }

  lemma CollectAllStep(g: Graph, st: State, rules: seq<RuleRecord>, i: nat)
    requires Keyed(g) && i < |rules| && forall r | r in rules :: r.id in g
    ensures CollectAll(g, st, rules, i) == CollectAll(g, Collect(g, st, rules[i]), rules, i + 1)
  {
  }

  lemma NoLabels()
    ensures LabelMap([]) == map[] && Initial(map[]).imports == map[]
  {
  }

  lemma OneMoreLabel(rules: seq<RuleRecord>, i: nat)
    requires i < |rules|
    ensures var g, r := LabelMap(rules[..i]), rules[i];
            && LabelMap(rules[..i + 1]) == (if r.id in g then g else g[r.id := r])
            && Initial(g[r.id := r]).imports == Initial(g).imports[r.id := r.importedAs]
  {
    assert rules[..i + 1][..i] == rules[..i];
  }

  class RuleIndex {
    var rules: seq<RuleRecord>
    var indexed: bool
    var labelMap: Graph
    var importMap: map<ImportSpec, seq<RuleRecord>>
    var embedded: set<Label>
    var embeds: map<Label, seq<Label>>
    var imports: map<Label, seq<ImportSpec>>
    ghost var order: seq<Label>

    ghost function Tables(): State
      reads this
    {
      State(order, embeds, embedded, imports)
    }

    /** The tables are those of the rules added. */
    ghost predicate Indexed()
      reads this
    {
      && indexed
      && labelMap == LabelMap(rules)
      && Tables() == Collected(rules)
      && forall imp :: Lookup(importMap, imp) == Matching(rules, Collected(rules), imp)
    }

    constructor ()
      ensures rules == [] && !indexed
    {
      rules, indexed, labelMap, importMap := [], false, map[], map[];
      embedded, embeds, imports, order := {}, map[], map[], [];
    }

    /** Adds a rule if its resolver is known, its language wanted and its imports not
        None; the labels it embeds are made absolute. */
    method AddRule(repo: string, pkg: string, name: string, langs: seq<string>, resolver: Option<Resolved>)
      requires !indexed
      modifies this`rules
      ensures if resolver.Some? && (langs == [] || resolver.value.lang in langs) && resolver.value.imports.Some? then
                var r := resolver.value;
                && rules == old(rules) + [RuleRecord(
                     Label(repo, pkg, name, false, false), r.imports.value, AbsAll(r.embeds, repo, pkg), r.lang)]
                && AreAbsolute(r.embeds, repo, pkg, rules[|rules| - 1].embeds)
              else rules == old(rules)
    {
      if resolver.None? || !PassesLanguageFilter(langs, resolver.value.lang) || resolver.value.imports.None? {
        return;
      }
      var r := resolver.value;
      var absolute: seq<Label> := [];
      for i := 0 to |r.embeds|
        invariant rules == old(rules)
        invariant absolute == AbsAll(r.embeds[..i], repo, pkg)
      {
        assert r.embeds[..i + 1][..i] == r.embeds[..i];
        absolute := absolute + [Abs(r.embeds[i], repo, pkg)];
      }
      assert r.embeds[..|r.embeds|] == r.embeds;
      AbsAllIs(r.embeds, repo, pkg);
      rules := rules + [RuleRecord(Label(repo, pkg, name, false, false), r.imports.value, absolute, r.lang)];
    }

    method Finish()
      modifies this
      ensures rules == old(rules) && Indexed()
    {
      LabelRules();
      CollectAllEmbeds();
      BuildImportIndex();
      indexed := true;
    }

    method LabelRules()
      modifies this`labelMap, this`imports
      ensures labelMap == LabelMap(rules) && imports == Initial(labelMap).imports
    {
      hide LabelMap, Initial;
      labelMap, imports := map[], map[];
      NoLabels();
      for i := 0 to |rules|
        invariant labelMap == LabelMap(rules[..i])
        invariant imports == Initial(labelMap).imports
      {
        var r := rules[i];
        OneMoreLabel(rules, i);
        if r.id in labelMap {
          continue;
        }
        labelMap := labelMap[r.id := r];
        imports := imports[r.id := r.importedAs];
      }
      assert rules[..|rules|] == rules;
    }

    method CollectAllEmbeds()
      requires labelMap == LabelMap(rules) && imports == Initial(labelMap).imports
      modifies this`embeds, this`embedded, this`imports, this`order
      ensures Tables() == Collected(rules)
    {
      embeds, embedded, order := map[], {}, [];
      ghost var g, rs := labelMap, rules;
      ghost var goal := CollectAll(g, Tables(), rs, 0);
      assert goal == Collected(rs) by { assert Tables() == Initial(g); }
      var did: set<Label> := {};
      for i := 0 to |rules|
        invariant did == Elements(order)
        invariant CollectAll(g, Tables(), rs, i) == goal
      {
        ghost var before := Tables();
        assert rules[i] in rs;
        did := CollectRecordEmbeds(rules[i], did);
        CollectAllStep(g, before, rs, i);
      }
      CollectAllEnd(g, Tables(), rs);
    }

    /** One step of the depth-first collection; `did` holds the labels expanded. */
    method CollectRecordEmbeds(r: RuleRecord, did0: set<Label>) returns (did: set<Label>)
      requires Keyed(labelMap) && r.id in labelMap && did0 == Elements(order)
      modifies this`embeds, this`embedded, this`imports, this`order
      ensures Tables() == Collect(labelMap, old(Tables()), r)
      ensures did == Elements(order) && did0 <= did
      decreases labelMap.Keys - did0
    {
      did := did0;
      if r.id in did {
        return;
      }
      did := did + {r.id};
      order := order + [r.id];
      embeds := embeds[r.id := r.embeds];
      assert Tables() == Enter(old(Tables()), r);
      for i := 0 to |r.embeds|
        invariant did == Elements(order) && did0 + {r.id} <= did
        invariant CollectEmbeds(labelMap, Tables(), r, i) == Collect(labelMap, old(Tables()), r)
      {
        var e := r.embeds[i];
        if e !in labelMap {
          continue;
        }
        var er := labelMap[e];
        ghost var before := Tables();
        assert labelMap.Keys - did < labelMap.Keys - did0 by {
          assert r.id in labelMap.Keys - did0 && r.id !in labelMap.Keys - did;
        }
        did := CollectRecordEmbeds(er, did);
        if r.lang == er.lang {
          embedded := embedded + {er.id};
          embeds := embeds[r.id := Lookup(embeds, r.id) + Lookup(embeds, er.id)];
        }
        imports := imports[r.id := Lookup(imports, r.id) + Lookup(imports, er.id)];
        assert Tables() == Absorb(Collect(labelMap, before, er), r, er);
      }
    }

    method BuildImportIndex()
      modifies this`importMap
      ensures forall imp :: Lookup(importMap, imp) == Matching(rules, Tables(), imp)
    {
      importMap := map[];
      for i := 0 to |rules|
        invariant forall imp :: Lookup(importMap, imp) == Matching(rules[..i], Tables(), imp)
      {
        var r := rules[i];
        assert rules[..i + 1][..i] == rules[..i];
        if r.id in embedded {
          continue;
        }
        IndexRule(r);
      }
      assert rules[..|rules|] == rules;
    }

    /** Lists `r` once under each of its imports. */
    method IndexRule(r: RuleRecord)
      modifies this`importMap
      ensures forall imp ::
                (Lookup(importMap, imp) ==
                 old(Lookup(importMap, imp)) + if imp in Lookup(imports, r.id) then [r] else [])
    {
      var specs := Lookup(imports, r.id);
      var done: set<ImportSpec> := {};
      for i := 0 to |specs|
        invariant done == Elements(specs[..i])
        invariant forall imp ::
            (Lookup(importMap, imp) ==
             old(Lookup(importMap, imp)) + if imp in done then [r] else [])
      {
        var imp := specs[i];
        assert specs[..i + 1] == specs[..i] + [imp];
        assert Elements(specs[..i + 1]) == Elements(specs[..i]) + {imp};
        if imp in done {
          continue;
        }
        done := done + {imp};
        importMap := importMap[imp := Lookup(importMap, imp) + [r]];
      }
      assert specs[..|specs|] == specs;
    }

    method FindRulesByImport(imp: ImportSpec, lang: string) returns (results: seq<FindResult>)
      requires Indexed()
      ensures results == Results(Matching(rules, Collected(rules), imp), Collected(rules), lang)
      ensures forall r | r in results :: forall x | x in r.embeds :: EmbedClosure(LabelMap(rules), r.id, x)
      ensures forall r | r in results && Tame(LabelMap(rules), r.id) ::
                forall x | EmbedClosure(LabelMap(rules), r.id, x) :: x in r.embeds
    {
      hide LabelMap, Collected, Matching, Tame;
      var matches := Lookup(importMap, imp);
      results := [];
      for i := 0 to |matches|
        invariant results == Results(matches[..i], Collected(rules), lang)
      {
        var m := matches[i];
        assert matches[..i + 1][..i] == matches[..i];
        if m.lang != lang {
          continue;
        }
        results := results + [FindResult(m.id, Lookup(embeds, m.id))];
      }
      assert matches[..|matches|] == matches;
      forall r | r in results
        ensures forall x | x in r.embeds :: EmbedClosure(LabelMap(rules), r.id, x)
        ensures Tame(LabelMap(rules), r.id) ==> forall x | EmbedClosure(LabelMap(rules), r.id, x) :: x in r.embeds
      {
        FoundEmbeds(rules, imp, lang, r);
      }
    }
  }

  // ---------------------------------------------------- what is in the tables

  /** The rules of the map are among the rules added. */
  lemma {:induction false} LabelMapRule(rules: seq<RuleRecord>, l: Label)
    requires l in LabelMap(rules)
    ensures LabelMap(rules)[l] in rules
  {
    var init := rules[..|rules| - 1];
    assert rules == init + [rules[|rules| - 1]];
    if l in LabelMap(init) {
      LabelMapRule(init, l);
    }
  }

  lemma {:induction false} LabelStays(rules: seq<RuleRecord>, n: nat, l: Label)
    requires n <= |rules| && l in LabelMap(rules[..n])
    ensures l in LabelMap(rules) && LabelMap(rules)[l] == LabelMap(rules[..n])[l]
    decreases |rules| - n
  {
    hide LabelMap;
    if n == |rules| {
      assert rules[..n] == rules;
    } else {
      OneMoreLabel(rules, n);
      LabelStays(rules, n + 1, l);
    }
  }

  lemma FirstOfLabel(rules: seq<RuleRecord>, i: nat)
    requires i < |rules|
    ensures LabelMap(rules)[rules[i].id] == rules[i] || exists j :: 0 <= j < i && rules[j].id == rules[i].id
  {
    hide LabelMap;
    var r := rules[i];
    OneMoreLabel(rules, i);
    LabelStays(rules, i + 1, r.id);
    if r.id in LabelMap(rules[..i]) {
      LabelMapRule(rules[..i], r.id);
      var first := LabelMap(rules[..i])[r.id];
      var j :| 0 <= j < i && rules[..i][j] == first;
      assert rules[j].id == r.id;
    }
  }

  /** What holds between the records of the outer loop. */
  ghost predicate Between(g: Graph, st: State, rules: seq<RuleRecord>, i: nat)
    requires i <= |rules|
  {
    && Sound(g, st) && Marked(g, st, {}) && Settled(g, st, [])
    && forall j | 0 <= j < i :: rules[j].id in st.order
  }

  lemma BetweenStep(rules: seq<RuleRecord>, st: State, i: nat)
    requires i < |rules| && Between(LabelMap(rules), st, rules, i)
    ensures Between(LabelMap(rules), Collect(LabelMap(rules), st, rules[i]), rules, i + 1)
  {
    hide LabelMap, Sound, Marked, Tame, CollectEmbeds, Complete;
    var g, r := LabelMap(rules), rules[i];
    FirstOfLabel(rules, i);
    if g[r.id] != r {
      var j :| 0 <= j < i && rules[j].id == r.id;
      assert r.id in st.order;
    }
    var st' := Collect(g, st, r);
    CollectSound(g, st, r);
    CollectMarks(g, st, r, {});
    if r.id !in st.order {
      assert Open(g, st, [], r.id);
      CollectCompletes(g, st, r, []);
    }
    forall j | 0 <= j < i + 1 ensures rules[j].id in st'.order {
      assert rules[j].id in Elements(st'.order) by {
        if j < i { assert rules[j].id in Elements(st.order); }
      }
    }
  }

  lemma {:induction false} AllBetween(rules: seq<RuleRecord>, st: State, i: nat)
    requires i <= |rules| && Between(LabelMap(rules), st, rules, i)
    ensures Between(LabelMap(rules), CollectAll(LabelMap(rules), st, rules, i), rules, |rules|)
    decreases |rules| - i
  {
    hide Between, Collect, LabelMap;
    if i < |rules| {
      BetweenStep(rules, st, i);
      AllBetween(rules, Collect(LabelMap(rules), st, rules[i]), i + 1);
    }
  }

  lemma InitialBetween(rules: seq<RuleRecord>)
    ensures Between(LabelMap(rules), Initial(LabelMap(rules)), rules, 0)
  {
    var g := LabelMap(rules);
    var st := Initial(g);
    forall l, s | s in Lookup(st.imports, l) ensures ImportClosure(g, l, s) {
      ReachesItself(g, l, false);
    }
  }

  /** Finishing the index of any rules, whatever embeds what: every label is expanded
      exactly once, the embedded rules are those embedded by a rule of their
      language, and nothing that cannot be reached is collected. */
  lemma FinishOnAnyGraph(rules: seq<RuleRecord>)
    ensures var g, st := LabelMap(rules), Collected(rules);
            && NoDuplicates(st.order) && Elements(st.order) == g.Keys
            && (forall b :: b in st.embedded <==> exists a :: SameLangEdge(g, a, b))
            && (forall l, x | x in Lookup(st.embeds, l) :: EmbedClosure(g, l, x))
            && (forall l, s | s in Lookup(st.imports, l) :: ImportClosure(g, l, s))
  {
    var g, st := LabelMap(rules), Collected(rules);
    InitialBetween(rules);
    AllBetween(rules, Initial(g), 0);
    forall l | l in g ensures l in Elements(st.order) {
      LabelMapRule(rules, l);
      var j :| 0 <= j < |rules| && rules[j] == g[l];
    }
    forall a, b | SameLangEdge(g, a, b) ensures b in st.embedded {
      assert a in Elements(st.order);
    }
  }

  /** Whatever else is in the graph: the tables of a label from which no cycle is reached
      are exactly the closures. */
  lemma FinishWhereTame(rules: seq<RuleRecord>, l: Label)
    requires l in LabelMap(rules) && Tame(LabelMap(rules), l)
    ensures Exact(LabelMap(rules), Collected(rules), l)
  {
    var g, st := LabelMap(rules), Collected(rules);
    FinishOnAnyGraph(rules);
    InitialBetween(rules);
    AllBetween(rules, Initial(g), 0);
    assert l in Elements(st.order);
    assert Complete(g, st, l);
  }

  /** The tables of a label hold the closures and nothing else. */
  ghost predicate ExactImports(g: Graph, st: State, l: Label) {
    forall s :: s in Lookup(st.imports, l) <==> ImportClosure(g, l, s)
  }

  ghost predicate ExactEmbeds(g: Graph, st: State, l: Label) {
    forall x :: x in Lookup(st.embeds, l) <==> EmbedClosure(g, l, x)
  }

  ghost predicate Exact(g: Graph, st: State, l: Label) {
    ExactImports(g, st, l) && ExactEmbeds(g, st, l)
  }

  /** When no rule embeds itself, all tables are exactly the closures. */
  lemma FinishOnAcyclicGraph(rules: seq<RuleRecord>)
    requires Acyclic(LabelMap(rules))
    ensures forall l | l in LabelMap(rules) :: Exact(LabelMap(rules), Collected(rules), l)
  {
    forall l | l in LabelMap(rules) ensures Exact(LabelMap(rules), Collected(rules), l) {
      AcyclicIsTame(LabelMap(rules), l);
      FinishWhereTame(rules, l);
    }
  }

  // ------------------------------------------------------ what a lookup finds

  /** The meaning of a lookup: the rules of the language that provide the import and
      are not embedded by a rule of their language, in the order they were added. */
  ghost predicate Provides(g: Graph, r: RuleRecord, imp: ImportSpec, lang: string) {
    && r.lang == lang
    && !(exists a :: SameLangEdge(g, a, r.id))
    && ImportClosure(g, r.id, imp)
  }

  ghost function Providers(g: Graph, rules: seq<RuleRecord>, imp: ImportSpec, lang: string): seq<Label> {
    if rules == [] then []
    else
      var r := rules[|rules| - 1];
      Providers(g, rules[..|rules| - 1], imp, lang) + if Provides(g, r, imp, lang) then [r.id] else []
  }

  function Ids(results: seq<FindResult>): seq<Label> {
    seq(|results|, i requires 0 <= i < |results| => results[i].id)
  }

  /** A rule that a lookup for the language can return: no rule of its language embeds
      it. */
  ghost predicate Root(g: Graph, r: RuleRecord, lang: string) {
    r.lang == lang && !(exists a :: SameLangEdge(g, a, r.id))
  }

  lemma {:induction false} ResultsAreProviders(g: Graph, rules: seq<RuleRecord>, st: State, imp: ImportSpec,
        lang: string)
    requires forall r | r in rules :: r.id in g
    requires forall b :: b in st.embedded <==> exists a :: SameLangEdge(g, a, b)
    requires forall r | r in rules && Root(g, r, lang) :: ExactImports(g, st, r.id)
    ensures Ids(Results(Matching(rules, st, imp), st, lang)) == Providers(g, rules, imp, lang)
  {
    if rules != [] {
      var init, r := rules[..|rules| - 1], rules[|rules| - 1];
      ResultsAreProviders(g, init, st, imp, lang);
      assert r in rules;
      assert r.id in st.embedded <==> exists a :: SameLangEdge(g, a, r.id);
      if Root(g, r, lang) {
        assert imp in Lookup(st.imports, r.id) <==> ImportClosure(g, r.id, imp);
      }
      var before := Matching(init, st, imp);
      if r.id !in st.embedded && imp in Lookup(st.imports, r.id) {
        assert (before + [r])[..|before|] == before;
      } else {
        assert Matching(rules, st, imp) == before;
      }
    }
  }

  lemma {:induction false} ProvidersOnce(g: Graph, rules: seq<RuleRecord>, imp: ImportSpec, lang: string)
    requires forall i, j | 0 <= i < j < |rules| :: rules[i].id != rules[j].id
    ensures NoDuplicates(Providers(g, rules, imp, lang))
    ensures forall l | l in Providers(g, rules, imp, lang) ::
              exists i :: 0 <= i < |rules| && rules[i].id == l && Provides(g, rules[i], imp, lang)
    ensures forall i | 0 <= i < |rules| && Provides(g, rules[i], imp, lang) ::
              rules[i].id in Providers(g, rules, imp, lang)
  {
    if rules != [] {
      var init := rules[..|rules| - 1];
      ProvidersOnce(g, init, imp, lang);
      forall l | l in Providers(g, init, imp, lang)
        ensures exists i :: 0 <= i < |init| && rules[i].id == l && Provides(g, rules[i], imp, lang)
      {
        var i :| 0 <= i < |init| && init[i].id == l && Provides(g, init[i], imp, lang);
        assert rules[i] == init[i];
      }
      forall i | 0 <= i < |rules| && Provides(g, rules[i], imp, lang)
        ensures rules[i].id in Providers(g, rules, imp, lang)
      {
        if i < |init| { assert rules[i] == init[i]; }
      }
      assert rules[|init|].id !in Providers(g, init, imp, lang);
    }
  }

  /** Each result is that of a match of the language, with the embeds that were collected
      for its label. */
  lemma {:induction false} ResultOf(matches: seq<RuleRecord>, st: State, lang: string, r: FindResult)
    requires r in Results(matches, st, lang)
    ensures r.embeds == Lookup(st.embeds, r.id)
    ensures exists m :: m in matches && m.lang == lang && m.id == r.id
  {
    var init, m := matches[..|matches| - 1], matches[|matches| - 1];
    if r in Results(init, st, lang) {
      ResultOf(init, st, lang, r);
      var n :| n in init && n.lang == lang && n.id == r.id;
      assert n in matches;
    }
  }

  lemma {:induction false} MatchIsRule(rules: seq<RuleRecord>, st: State, imp: ImportSpec, m: RuleRecord)
    requires m in Matching(rules, st, imp)
    ensures m in rules && m.id !in st.embedded
  {
    var init := rules[..|rules| - 1];
    if m in Matching(init, st, imp) {
      MatchIsRule(init, st, imp, m);
    }
  }

  /** The embeds that come with a result: nothing outside the closure on any graph, and the
      whole closure if no cycle is reached from the rule. */
  lemma FoundEmbeds(rules: seq<RuleRecord>, imp: ImportSpec, lang: string, r: FindResult)
    requires r in Results(Matching(rules, Collected(rules), imp), Collected(rules), lang)
    ensures r.id in LabelMap(rules)
    ensures forall x | x in r.embeds :: EmbedClosure(LabelMap(rules), r.id, x)
    ensures Tame(LabelMap(rules), r.id) ==> forall x :: x in r.embeds <==> EmbedClosure(LabelMap(rules), r.id, x)
  {
    hide LabelMap, Collected, Matching;
    ResultOf(Matching(rules, Collected(rules), imp), Collected(rules), lang, r);
    var m :| m in Matching(rules, Collected(rules), imp) && m.lang == lang && m.id == r.id;
    MatchIsRule(rules, Collected(rules), imp, m);
    RuleIsLabelled(rules, m);
    FinishOnAnyGraph(rules);
    if Tame(LabelMap(rules), r.id) {
      FinishWhereTame(rules, r.id);
    }
  }

  lemma RuleIsLabelled(rules: seq<RuleRecord>, r: RuleRecord)
    requires r in rules
    ensures r.id in LabelMap(rules)
  {
  }

  /** A lookup returns exactly the providing rules, in the order they were added, and each
      once if labels are unique, provided that no cycle is reached from a rule that it
      could return. */
  lemma FindIsExact(rules: seq<RuleRecord>, imp: ImportSpec, lang: string)
    requires forall r | r in rules && Root(LabelMap(rules), r, lang) :: Tame(LabelMap(rules), r.id)
    ensures var found := Ids(Results(Matching(rules, Collected(rules), imp), Collected(rules), lang));
            && found == Providers(LabelMap(rules), rules, imp, lang)
            && ((forall i, j | 0 <= i < j < |rules| :: rules[i].id != rules[j].id) ==> NoDuplicates(found))
  {
    FinishOnAnyGraph(rules);
    forall r | r in rules && Root(LabelMap(rules), r, lang)
      ensures ExactImports(LabelMap(rules), Collected(rules), r.id)
    {
      FinishWhereTame(rules, r.id);
    }
    ResultsAreProviders(LabelMap(rules), rules, Collected(rules), imp, lang);
    if forall i, j | 0 <= i < j < |rules| :: rules[i].id != rules[j].id {
      ProvidersOnce(LabelMap(rules), rules, imp, lang);
    }
  }
}
