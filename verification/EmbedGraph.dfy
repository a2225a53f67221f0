/** The embedding graph of an index of rules, and the memoised depth-first
    collection over it as a function from state to state. */
module EmbedGraph {
  import opened Labels
  import opened Options
  import opened Sorting

  /** A library to be imported: an import string of a language. */
  datatype ImportSpec = ImportSpec(lang: string, imp: string)

  datatype RuleRecord = RuleRecord(
    id: Label,
    importedAs: seq<ImportSpec>,
    embeds: seq<Label>,
    lang: string)

  /** Rules by label. */
  type Graph = map<Label, RuleRecord>

  ghost predicate Keyed(g: Graph) {
    forall l | l in g :: g[l].id == l
  }

  /** The tables filled by the collection. `order` lists the labels in the order in
      which they were expanded. */
  datatype State = State(
    order: seq<Label>,
    embeds: map<Label, seq<Label>>,
    embedded: set<Label>,
    imports: map<Label, seq<ImportSpec>>)

  /** Enters a record: it is marked before its embeds are looked at. */
  function Enter(st: State, r: RuleRecord): State {
    st.(order := st.order + [r.id], embeds := st.embeds[r.id := r.embeds])
  }

  /** Takes over what was collected for an embedded record. */
  function Absorb(st: State, r: RuleRecord, er: RuleRecord): State {
    var imports := st.imports[r.id := Lookup(st.imports, r.id) + Lookup(st.imports, er.id)];
    if r.lang == er.lang then
      st.(embedded := st.embedded + {er.id},
          embeds := st.embeds[r.id := Lookup(st.embeds, r.id) + Lookup(st.embeds, er.id)],
          imports := imports)
    else st.(imports := imports)
  }

  /** Collects for one record, unless its label was collected before. */
  ghost function Collect(g: Graph, st: State, r: RuleRecord): (st': State)
    requires Keyed(g) && r.id in g
    ensures Elements(st.order) <= Elements(st'.order)
    decreases g.Keys - Elements(st.order), 0
  {
    if r.id in st.order then st
    else
      assert Elements(Enter(st, r).order) == Elements(st.order) + {r.id};
      CollectEmbeds(g, Enter(st, r), r, 0)
  }

  /** Collects for the embeds of `r` from the i-th on; labels of no rule are skipped. */
  ghost function CollectEmbeds(g: Graph, st: State, r: RuleRecord, i: nat): (st': State)
    requires Keyed(g) && i <= |r.embeds|
    ensures Elements(st.order) <= Elements(st'.order)
    decreases g.Keys - Elements(st.order), 1 + |r.embeds| - i
  {
    if i == |r.embeds| then st
    else if r.embeds[i] !in g then CollectEmbeds(g, st, r, i + 1)
    else
      var er := g[r.embeds[i]];
      CollectEmbeds(g, Absorb(Collect(g, st, er), r, er), r, i + 1)
  }

  /** Collects for all records from the i-th on. */
  ghost function CollectAll(g: Graph, st: State, rules: seq<RuleRecord>, i: nat): State
    requires Keyed(g) && i <= |rules| && forall r | r in rules :: r.id in g
    decreases |rules| - i
  {
    if i == |rules| then st else CollectAll(g, Collect(g, st, rules[i]), rules, i + 1)
  }

  // ------------------------------------------------------------ reachability

  /** `a` embeds `b`, and both are indexed. */
  ghost predicate Edge(g: Graph, a: Label, b: Label) {
    a in g && b in g && b in g[a].embeds
  }

  /** The same, between rules of one language. */
  ghost predicate SameLangEdge(g: Graph, a: Label, b: Label) {
    Edge(g, a, b) && g[a].lang == g[b].lang
  }

  /** A path of edges; of same-language edges if `same`. */
  ghost predicate IsPath(g: Graph, p: seq<Label>, same: bool) {
    && p != []
    && p[0] in g
    && forall i | 0 <= i < |p| - 1 :: if same then SameLangEdge(g, p[i], p[i + 1]) else Edge(g, p[i], p[i + 1])
  }

  ghost predicate Links(g: Graph, p: seq<Label>, a: Label, b: Label, same: bool) {
    IsPath(g, p, same) && p[0] == a && p[|p| - 1] == b
  }

  /** `b` is `a` or is embedded by it, directly or through other rules. */
  ghost predicate Reaches(g: Graph, a: Label, b: Label, same: bool) {
    exists p :: Links(g, p, a, b, same)
  }

  /** No rule embeds itself, directly or through other rules. */
  ghost predicate Acyclic(g: Graph) {
    forall p | IsPath(g, p, false) && |p| > 1 :: p[0] != p[|p| - 1]
  }

  /** No rule reached from `l` embeds itself, directly or through other rules: no path
      from `l` comes back to where it has been. */
  ghost predicate Tame(g: Graph, l: Label) {
    forall p, k | IsPath(g, p, false) && p[0] == l && 0 <= k < |p| - 1 :: p[k] != p[|p| - 1]
  }

  lemma ReachesItself(g: Graph, a: Label, same: bool)
    requires a in g
    ensures Reaches(g, a, a, same)
  {
    assert Links(g, [a], a, a, same);
  }

  lemma ReachesThrough(g: Graph, a: Label, b: Label, c: Label, same: bool)
    requires if same then SameLangEdge(g, a, b) else Edge(g, a, b)
    requires Reaches(g, b, c, same)
    ensures Reaches(g, a, c, same)
  {
    var p :| Links(g, p, b, c, same);
    var q := [a] + p;
    forall i | 0 <= i < |q| - 1 ensures if same then SameLangEdge(g, q[i], q[i + 1]) else Edge(g, q[i], q[i + 1]) {
      if i > 0 { assert q[i] == p[i - 1] && q[i + 1] == p[i]; }
    }
    assert Links(g, q, a, c, same);
  }

  lemma ReachesSplit(g: Graph, a: Label, c: Label, same: bool) returns (b: Label)
    requires Reaches(g, a, c, same) && a != c
    ensures (if same then SameLangEdge(g, a, b) else Edge(g, a, b)) && Reaches(g, b, c, same)
  {
    var p :| Links(g, p, a, c, same);
    assert |p| > 1;
    b := p[1];
    var q := p[1..];
    forall i | 0 <= i < |q| - 1 ensures if same then SameLangEdge(g, q[i], q[i + 1]) else Edge(g, q[i], q[i + 1]) {
      assert q[i] == p[i + 1] && q[i + 1] == p[i + 2];
    }
    assert if same then SameLangEdge(g, p[0], p[0 + 1]) else Edge(g, p[0], p[0 + 1]);
    assert Links(g, q, b, c, same);
  }
  /** What the embeds of `l` are meant to be: the direct embeds of every rule reached
      through same-language edges. */
  ghost predicate EmbedClosure(g: Graph, l: Label, x: Label) {
    exists m :: Reaches(g, l, m, true) && m in g && x in g[m].embeds
  }

  /** What the imports of `l` are meant to be: those of every rule reached. */
  ghost predicate ImportClosure(g: Graph, l: Label, s: ImportSpec) {
    exists m :: Reaches(g, l, m, false) && m in g && s in g[m].importedAs
  }

  lemma EmbedClosureVia(g: Graph, a: Label, b: Label, x: Label)
    requires SameLangEdge(g, a, b) && EmbedClosure(g, b, x)
    ensures EmbedClosure(g, a, x)
  {
    var m :| Reaches(g, b, m, true) && m in g && x in g[m].embeds;
    ReachesThrough(g, a, b, m, true);
  }

  lemma ImportClosureVia(g: Graph, a: Label, b: Label, s: ImportSpec)
    requires Edge(g, a, b) && ImportClosure(g, b, s)
    ensures ImportClosure(g, a, s)
  {
    var m :| Reaches(g, b, m, false) && m in g && s in g[m].importedAs;
    ReachesThrough(g, a, b, m, false);
  }

  lemma EmbedClosureSplit(g: Graph, a: Label, x: Label)
    requires a in g && EmbedClosure(g, a, x)
    ensures x in g[a].embeds || exists b :: SameLangEdge(g, a, b) && EmbedClosure(g, b, x)
  {
    var m :| Reaches(g, a, m, true) && m in g && x in g[m].embeds;
    if m != a {
      var b := ReachesSplit(g, a, m, true);
      assert SameLangEdge(g, a, b) && EmbedClosure(g, b, x);
    }
  }

  lemma ImportClosureSplit(g: Graph, a: Label, s: ImportSpec)
    requires a in g && ImportClosure(g, a, s)
    ensures s in g[a].importedAs || exists b :: Edge(g, a, b) && ImportClosure(g, b, s)
  {
    var m :| Reaches(g, a, m, false) && m in g && s in g[m].importedAs;
    if m != a {
      var b := ReachesSplit(g, a, m, false);
      assert Edge(g, a, b) && ImportClosure(g, b, s);
    }
  }

  // ------------------------------------------- on every graph: nothing wrong

  /** Nothing has been collected that should not be. */
  ghost predicate Sound(g: Graph, st: State) {
    && st.embeds.Keys <= Elements(st.order) <= g.Keys
    && NoDuplicates(st.order)
    && (forall l, x | x in Lookup(st.embeds, l) :: EmbedClosure(g, l, x))
    && (forall l, s | s in Lookup(st.imports, l) :: ImportClosure(g, l, s))
    && (forall b | b in st.embedded :: exists a :: SameLangEdge(g, a, b))
  }

  lemma EnterSound(g: Graph, st: State, r: RuleRecord)
    requires Keyed(g) && r.id in g && g[r.id] == r && r.id !in st.order && Sound(g, st)
    ensures Sound(g, Enter(st, r))
  {
    var st' := Enter(st, r);
    ReachesItself(g, r.id, true);
    assert Elements(st'.order) == Elements(st.order) + {r.id};
    forall l, x | x in Lookup(st'.embeds, l) ensures EmbedClosure(g, l, x) {
      if l != r.id { assert x in Lookup(st.embeds, l); }
    }
  }

  lemma AbsorbSound(g: Graph, st: State, r: RuleRecord, er: RuleRecord)
    requires Keyed(g) && Edge(g, r.id, er.id) && g[r.id] == r && g[er.id] == er
    requires r.id in st.order && Sound(g, st)
    ensures Sound(g, Absorb(st, r, er))
  {
    var st' := Absorb(st, r, er);
    forall l, x | x in Lookup(st'.embeds, l) ensures EmbedClosure(g, l, x) {
      if x !in Lookup(st.embeds, l) {
        assert x in Lookup(st.embeds, er.id);
        EmbedClosureVia(g, r.id, er.id, x);
      }
    }
    forall l, s | s in Lookup(st'.imports, l) ensures ImportClosure(g, l, s) {
      if s !in Lookup(st.imports, l) {
        assert s in Lookup(st.imports, er.id);
        ImportClosureVia(g, r.id, er.id, s);
      }
    }
    if r.lang == er.lang { assert SameLangEdge(g, r.id, er.id); }
  }

  lemma {:induction false} CollectSound(g: Graph, st: State, r: RuleRecord)
    requires Keyed(g) && r.id in g && (g[r.id] == r || r.id in st.order) && Sound(g, st)
    ensures Sound(g, Collect(g, st, r)) && r.id in Collect(g, st, r).order
    decreases g.Keys - Elements(st.order), 0
  {
    if r.id !in st.order {
      EnterSound(g, st, r);
      assert Elements(Enter(st, r).order) == Elements(st.order) + {r.id};
      CollectEmbedsSound(g, Enter(st, r), r, 0);
      assert r.id in Elements(Enter(st, r).order);
      assert r.id in Elements(Collect(g, st, r).order);
    }
  }

  lemma {:induction false} CollectEmbedsSound(g: Graph, st: State, r: RuleRecord, i: nat)
    requires Keyed(g) && r.id in g && g[r.id] == r && r.id in st.order && i <= |r.embeds| && Sound(g, st)
    ensures Sound(g, CollectEmbeds(g, st, r, i))
    decreases g.Keys - Elements(st.order), 1 + |r.embeds| - i
  {
    if i < |r.embeds| {
      if r.embeds[i] !in g {
        CollectEmbedsSound(g, st, r, i + 1);
      } else {
        var er := g[r.embeds[i]];
        var st1 := Collect(g, st, er);
        CollectSound(g, st, er);
        assert r.id in Elements(st.order);
        assert r.id in Elements(st1.order);
        AbsorbSound(g, st1, r, er);
        CollectEmbedsSound(g, Absorb(st1, r, er), r, i + 1);
      }
    }
  }

  // ----------------------------------- on every graph: `embedded` is complete

  /** Every rule already expanded and not in `open` has marked what it embeds. */
  ghost predicate Marked(g: Graph, st: State, open: set<Label>) {
    forall a, b | SameLangEdge(g, a, b) && a in st.order && a !in open :: b in st.embedded
  }

  lemma {:induction false} CollectMarks(g: Graph, st: State, r: RuleRecord, open: set<Label>)
    requires Keyed(g) && r.id in g && (g[r.id] == r || r.id in st.order) && Marked(g, st, open)
    ensures Marked(g, Collect(g, st, r), open) && st.embedded <= Collect(g, st, r).embedded
    decreases g.Keys - Elements(st.order), 0
  {
    if r.id !in st.order {
      assert Elements(Enter(st, r).order) == Elements(st.order) + {r.id};
      CollectEmbedsMarks(g, Enter(st, r), r, 0, open);
    }
  }

  lemma {:induction false} CollectEmbedsMarks(g: Graph, st: State, r: RuleRecord, i: nat, open: set<Label>)
    requires Keyed(g) && r.id in g && g[r.id] == r && i <= |r.embeds|
    requires Marked(g, st, open + {r.id})
    requires forall j | 0 <= j < i && SameLangEdge(g, r.id, r.embeds[j]) :: r.embeds[j] in st.embedded
    ensures Marked(g, CollectEmbeds(g, st, r, i), open) && st.embedded <= CollectEmbeds(g, st, r, i).embedded
    decreases g.Keys - Elements(st.order), 1 + |r.embeds| - i
  {
    if i == |r.embeds| {
      forall a, b | SameLangEdge(g, a, b) && a in st.order && a !in open ensures b in st.embedded {
        if a == r.id {
          var j :| 0 <= j < |r.embeds| && r.embeds[j] == b;
        }
      }
    } else if r.embeds[i] !in g {
      CollectEmbedsMarks(g, st, r, i + 1, open);
    } else {
      var er := g[r.embeds[i]];
      var st1 := Collect(g, st, er);
      CollectMarks(g, st, er, open + {r.id});
      CollectEmbedsMarks(g, Absorb(st1, r, er), r, i + 1, open);
    }
  }

  // ---------------------------------- where no cycle is reached: all is there

  /** Everything that should be collected for `l` has been. */
  ghost predicate Complete(g: Graph, st: State, l: Label) {
    && (forall x | EmbedClosure(g, l, x) :: x in Lookup(st.embeds, l))
    && (forall s | ImportClosure(g, l, s) :: s in Lookup(st.imports, l))
  }

  /** Tame rules expanded and no longer open are complete; all rules have their own
      imports. */
  ghost predicate Settled(g: Graph, st: State, stack: seq<Label>) {
    && (forall l | l in st.order && l !in stack && Tame(g, l) :: Complete(g, st, l))
    && (forall l, s | l in g && s in g[l].importedAs :: s in Lookup(st.imports, l))
  }

  /** The rules being expanded form a path that leads to `next`. */
  ghost predicate Open(g: Graph, st: State, stack: seq<Label>, next: Label) {
    && (forall l | l in stack :: l in st.order)
    && IsPath(g, stack + [next], false)
  }

  /** What was there for the labels expanded before, other than `except`, still is. */
  ghost predicate Kept(st: State, st': State, except: set<Label>) {
    && (forall l | l in st.order :: l in st'.order)
    && forall l | l in st.order && l !in except ::
        Lookup(st'.embeds, l) == Lookup(st.embeds, l) && Lookup(st'.imports, l) == Lookup(st.imports, l)
  }

  /** The first `i` embeds of `r` have been taken over. */
  ghost predicate Absorbed(g: Graph, st: State, r: RuleRecord, i: nat)
    requires i <= |r.embeds|
  {
    && (forall x | x in r.embeds :: x in Lookup(st.embeds, r.id))
    && (forall j, x | 0 <= j < i && SameLangEdge(g, r.id, r.embeds[j]) && EmbedClosure(g, r.embeds[j], x) ::
          x in Lookup(st.embeds, r.id))
    && (forall j, s | 0 <= j < i && Edge(g, r.id, r.embeds[j]) && ImportClosure(g, r.embeds[j], s) ::
          s in Lookup(st.imports, r.id))
  }

  lemma PathTail(g: Graph, p: seq<Label>, k: nat)
    requires IsPath(g, p, false) && k < |p|
    ensures IsPath(g, p[k..], false)
  {
    var q := p[k..];
    forall i | 0 <= i < |q| - 1 ensures Edge(g, q[i], q[i + 1]) {
      assert Edge(g, p[k + i], p[k + i + 1]);
    }
    if k < |p| - 1 { assert Edge(g, p[k], p[k + 1]); } else if k > 0 { assert Edge(g, p[k - 1], p[k]); }
  }

  lemma CycleOnPath(g: Graph, p: seq<Label>, k: nat)
    requires IsPath(g, p, false) && k < |p| - 1 && p[k] == p[|p| - 1]
    ensures !Acyclic(g) && !Tame(g, p[k])
  {
    var q := p[k..];
    PathTail(g, p, k);
    assert IsPath(g, q, false) && |q| > 1 && q[0] == q[|q| - 1];
  }

  /** Without cycles every label is tame. */
  lemma AcyclicIsTame(g: Graph, l: Label)
    requires Acyclic(g)
    ensures Tame(g, l)
  {
    forall p, k | IsPath(g, p, false) && p[0] == l && 0 <= k < |p| - 1 ensures p[k] != p[|p| - 1] {
      if p[k] == p[|p| - 1] { CycleOnPath(g, p, k); }
    }
  }

  /** What a tame rule embeds is tame, and other than it. */
  lemma TameEmbeds(g: Graph, a: Label, b: Label)
    requires Tame(g, a) && Edge(g, a, b)
    ensures Tame(g, b) && a != b
  {
    forall p, k | IsPath(g, p, false) && p[0] == b && 0 <= k < |p| - 1 ensures p[k] != p[|p| - 1] {
      var q := [a] + p;
      forall i | 0 <= i < |q| - 1 ensures Edge(g, q[i], q[i + 1]) {
        if i > 0 { assert q[i] == p[i - 1] && q[i + 1] == p[i]; }
      }
      assert IsPath(g, q, false) && q[k + 1] == p[k];
      assert q[k + 1] != q[|q| - 1];
    }
    var pair := [a, b];
    assert IsPath(g, pair, false) && pair[0] == a;
    assert pair[0] != pair[|pair| - 1];
  }

  lemma OpenIsNew(g: Graph, st: State, stack: seq<Label>, next: Label)
    requires Tame(g, next) && Open(g, st, stack, next)
    ensures next !in stack
  {
    if next in stack {
      var k :| 0 <= k < |stack| && stack[k] == next;
      CycleOnPath(g, stack + [next], k);
    }
  }

  lemma ExtendPath(g: Graph, p: seq<Label>, next: Label)
    requires IsPath(g, p, false) && Edge(g, p[|p| - 1], next)
    ensures IsPath(g, p + [next], false)
  {
    var q := p + [next];
    forall i | 0 <= i < |q| - 1 ensures Edge(g, q[i], q[i + 1]) {
      if i < |p| - 1 { assert q[i] == p[i] && q[i + 1] == p[i + 1]; }
    }
  }

  lemma AbsorbedIsComplete(g: Graph, st: State, r: RuleRecord)
    requires Keyed(g) && r.id in g && g[r.id] == r && Absorbed(g, st, r, |r.embeds|)
    requires forall s | s in r.importedAs :: s in Lookup(st.imports, r.id)
    ensures Complete(g, st, r.id)
  {
    forall x | EmbedClosure(g, r.id, x) ensures x in Lookup(st.embeds, r.id) {
      EmbedClosureSplit(g, r.id, x);
      if x !in r.embeds {
        var b :| SameLangEdge(g, r.id, b) && EmbedClosure(g, b, x);
        var j :| 0 <= j < |r.embeds| && r.embeds[j] == b;
      }
    }
    forall s | ImportClosure(g, r.id, s) ensures s in Lookup(st.imports, r.id) {
      ImportClosureSplit(g, r.id, s);
      if s !in r.importedAs {
        var b :| Edge(g, r.id, b) && ImportClosure(g, b, s);
        var j :| 0 <= j < |r.embeds| && r.embeds[j] == b;
      }
    }
  }

  /** A step completes its label if it is tame, on any graph, and leaves alone what was
      there. */
  lemma {:induction false} CollectCompletes(g: Graph, st: State, r: RuleRecord, stack: seq<Label>)
    requires Keyed(g) && r.id in g && g[r.id] == r
    requires Settled(g, st, stack) && Open(g, st, stack, r.id)
    ensures var st' := Collect(g, st, r);
            Settled(g, st', stack) && Kept(st, st', {}) && (Tame(g, r.id) ==> Complete(g, st', r.id))
    decreases g.Keys - Elements(st.order), 0
  {
    if Tame(g, r.id) { OpenIsNew(g, st, stack, r.id); }
    if r.id !in st.order {
      var st1 := Enter(st, r);
      assert Elements(st1.order) == Elements(st.order) + {r.id};
      EnterSettled(g, st, r, stack);
      CollectEmbedsComplete(g, st1, r, 0, stack);
      EnterKept(st, r);
      KeptTrans(st, st1, Collect(g, st, r), r.id);
    }
  }

  lemma EnterSettled(g: Graph, st: State, r: RuleRecord, stack: seq<Label>)
    requires Settled(g, st, stack) && r.id !in st.order
    ensures Settled(g, Enter(st, r), stack + [r.id])
    ensures Absorbed(g, Enter(st, r), r, 0)
  {
    var st1 := Enter(st, r);
    forall l | l in st1.order && l !in stack + [r.id] && Tame(g, l) ensures Complete(g, st1, l) {
      assert l in st.order && l !in stack;
      assert Complete(g, st, l);
      assert Lookup(st1.embeds, l) == Lookup(st.embeds, l);
    }
  }

  lemma EnterKept(st: State, r: RuleRecord)
    requires r.id !in st.order
    ensures Kept(st, Enter(st, r), {})
  {
  }

  lemma KeptTrans(a: State, b: State, c: State, l: Label)
    requires Kept(a, b, {}) && Kept(b, c, {l}) && l !in a.order
    ensures Kept(a, c, {})
  {
  }

  lemma {:induction false} CollectEmbedsComplete(g: Graph, st: State, r: RuleRecord, i: nat, stack: seq<Label>)
    requires Keyed(g) && r.id in g && g[r.id] == r && i <= |r.embeds|
    requires r.id in st.order && r.id !in stack
    requires Settled(g, st, stack + [r.id]) && Open(g, st, stack, r.id)
    requires Tame(g, r.id) ==> Absorbed(g, st, r, i)
    ensures var st' := CollectEmbeds(g, st, r, i);
            Settled(g, st', stack) && Kept(st, st', {r.id}) && (Tame(g, r.id) ==> Complete(g, st', r.id))
    decreases g.Keys - Elements(st.order), 1 + |r.embeds| - i, 1
  {
    if i == |r.embeds| {
      AllAbsorbed(g, st, r, stack);
    } else if r.embeds[i] !in g {
      CollectEmbedsComplete(g, st, r, i + 1, stack);
    } else {
      hide Complete, Settled, Tame, Open, Absorbed, Kept;
      var er := g[r.embeds[i]];
      EmbedCompletes(g, st, r, i, stack);
      var st2 := Absorb(Collect(g, st, er), r, er);
      CollectEmbedsComplete(g, st2, r, i + 1, stack);
      KeptTwice(st, st2, CollectEmbeds(g, st2, r, i + 1), r.id);
    }
  }

  /** When all embeds have been taken over, the rule is settled as well. */
  lemma AllAbsorbed(g: Graph, st: State, r: RuleRecord, stack: seq<Label>)
    requires Keyed(g) && r.id in g && g[r.id] == r && r.id in st.order
    requires Settled(g, st, stack + [r.id]) && (Tame(g, r.id) ==> Absorbed(g, st, r, |r.embeds|))
    ensures Settled(g, st, stack) && Kept(st, st, {r.id}) && (Tame(g, r.id) ==> Complete(g, st, r.id))
  {
    if Tame(g, r.id) { AbsorbedIsComplete(g, st, r); }
    hide Complete, Absorbed, Tame;
    forall l | l in st.order && l !in stack && Tame(g, l) ensures Complete(g, st, l) {
      if l != r.id { assert l !in stack + [r.id]; }
    }
  }

  lemma KeptTwice(a: State, b: State, c: State, l: Label)
    requires Kept(a, b, {l}) && Kept(b, c, {l})
    ensures Kept(a, c, {l})
  {
  }

  lemma {:induction false} EmbedCompletes(g: Graph, st: State, r: RuleRecord, i: nat, stack: seq<Label>)
    requires Keyed(g) && r.id in g && g[r.id] == r && i < |r.embeds| && r.embeds[i] in g
    requires r.id in st.order
    requires Settled(g, st, stack + [r.id]) && Open(g, st, stack, r.id)
    requires Tame(g, r.id) ==> Absorbed(g, st, r, i)
    ensures var st2 := Absorb(Collect(g, st, g[r.embeds[i]]), r, g[r.embeds[i]]);
            && (Tame(g, r.id) ==> Absorbed(g, st2, r, i + 1))
            && Settled(g, st2, stack + [r.id])
            && Kept(st, st2, {r.id})
            && Open(g, st2, stack, r.id)
            && r.id in st2.order
    decreases g.Keys - Elements(st.order), 1 + |r.embeds| - i, 0
  {
    hide Complete, Tame, Absorbed;
    var er := g[r.embeds[i]];
    var stack' := stack + [r.id];
    assert Edge(g, r.id, er.id);
    ExtendPath(g, stack', er.id);
    CollectCompletes(g, st, er, stack');
    AbsorbSettles(g, st, Collect(g, st, er), r, er, stack);
    if Tame(g, r.id) {
      TameEmbeds(g, r.id, er.id);
      AbsorbProgress(g, st, Collect(g, st, er), r, er, i);
    }
  }

  /** Taking over what was collected for one embed changes only the tables of the rule. */
  lemma AbsorbSettles(g: Graph, st: State, st1: State, r: RuleRecord, er: RuleRecord, stack: seq<Label>)
    requires r.id in st.order && Open(g, st, stack, r.id)
    requires Settled(g, st1, stack + [r.id]) && Kept(st, st1, {})
    ensures var st2 := Absorb(st1, r, er);
            Settled(g, st2, stack + [r.id]) && Kept(st, st2, {r.id}) && Open(g, st2, stack, r.id)
  {
    var st2 := Absorb(st1, r, er);
    forall l | l != r.id
      ensures Lookup(st2.embeds, l) == Lookup(st1.embeds, l) && Lookup(st2.imports, l) == Lookup(st1.imports, l)
    {
    }
    forall l | l in st2.order && l !in stack + [r.id] && Tame(g, l) ensures Complete(g, st2, l) {
      assert Complete(g, st1, l);
    }
  }

  /** And it takes over all of it. */
  lemma AbsorbProgress(g: Graph, st: State, st1: State, r: RuleRecord, er: RuleRecord, i: nat)
    requires i < |r.embeds| && r.embeds[i] == er.id && er.id != r.id && er.id in g && g[er.id] == er
    requires r.id in g && g[r.id] == r
    requires r.id in st.order && Absorbed(g, st, r, i)
    requires Kept(st, st1, {}) && Complete(g, st1, er.id)
    ensures Absorbed(g, Absorb(st1, r, er), r, i + 1)
  {
    var st2 := Absorb(st1, r, er);
    assert Lookup(st1.embeds, r.id) == Lookup(st.embeds, r.id);
    assert Lookup(st1.imports, r.id) == Lookup(st.imports, r.id);
    forall j, x | 0 <= j < i + 1 && SameLangEdge(g, r.id, r.embeds[j]) && EmbedClosure(g, r.embeds[j], x)
      ensures x in Lookup(st2.embeds, r.id)
    {
      if j < i { assert x in Lookup(st.embeds, r.id); } else { assert x in Lookup(st1.embeds, er.id); }
    }
    forall j, s | 0 <= j < i + 1 && Edge(g, r.id, r.embeds[j]) && ImportClosure(g, r.embeds[j], s)
      ensures s in Lookup(st2.imports, r.id)
    {
      if j < i { assert s in Lookup(st.imports, r.id); } else { assert s in Lookup(st1.imports, er.id); }
    }
  }
}
