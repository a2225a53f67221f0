/** What merging makes of the kind of a select, and what is left of it. */
module MergedSelects {
  import opened Options
  import opened Sorting
  import opened BuildExprs
  import opened MergeLists
  import opened MergeDicts

  // ------------------------------------------------------------ kinds of selects

  predicate KeyOfKind(known: Known, k: string, kind: Kind) {
    k == DEFAULT || KeyKind(known, k) == Ok(kind)
  }

  /** All keys of a select are of one kind. */
  predicate OfKind(known: Known, d: Option<Dict>, kind: Kind) {
    d.Some? ==> forall c | c in d.value.cases :: c.key.Str? && KeyOfKind(known, c.key.value, kind)
  }

  ghost predicate CasesOfKind(known: Known, m: Cases, kind: Kind) {
    forall k | k in m :: KeyOfKind(known, k, kind)
  }

  /** No cases besides the default. */
  predicate Bare(m: Cases) {
    m.Keys <= {DEFAULT}
  }

  lemma {:induction false} ReadKeys(known: Known, cases: seq<Case>, unique: bool, kind: Kind)
    requires Read(cases, unique).Ok? && forall c | c in cases :: c.key.Str? && KeyOfKind(known, c.key.value, kind)
    ensures CasesOfKind(known, Read(cases, unique).value, kind)
  {
    if cases != [] {
      ReadKeys(known, cases[..|cases| - 1], unique, kind);
      assert cases[|cases| - 1] in cases;
    }
  }

  ghost function FirstKey(m: Cases): string
    requires !Bare(m)
  {
    NoKeys(m, Listing(m.Keys - {DEFAULT}));
    KeysOf(m)[0]
  }

  /** The first key is the least one besides the default. */
  lemma FirstKeyIsLeast(m: Cases)
    requires !Bare(m)
    ensures FirstKey(m) in m && FirstKey(m) != DEFAULT
    ensures forall k | k in m && k != DEFAULT :: StringLeq(FirstKey(m), k)
  {
    var l := Listing(m.Keys - {DEFAULT});
    NoKeys(m, l);
    assert KeysOf(m)[0] == l[0] && l[0] in Elements(l);
    forall k | k in m && k != DEFAULT ensures StringLeq(l[0], k) {
      assert k in Elements(l);
      var i :| 0 <= i < |l| && l[i] == k;
      StringLeqTotal(k, k);
    }
  }

  /** The first key decides the kind of an assembled select; a default alone does not. */
  lemma KindOfDict(known: Known, m: Cases)
    ensures DictKind(known, DictOf(m).cases) == if Bare(m) then Ok(PlatformKind) else KeyKind(known, FirstKey(m))
  {
    var keys, cases := KeysOf(m), DictOf(m).cases;
    if Bare(m) {
      NoKeys(m, Listing(m.Keys - {DEFAULT}));
      if |cases| > 0 {
        assert cases[1..] == [] && cases[0].key == Str(DEFAULT, false, 0);
      }
    } else {
      FirstKeyIsLeast(m);
      assert cases[0].key == Str(FirstKey(m), false, 0);
    }
  }

  lemma KindOfOneKind(known: Known, m: Cases, kind: Kind)
    requires CasesOfKind(known, m, kind)
    ensures DictKind(known, DictOf(m).cases) == Ok(if Bare(m) then PlatformKind else kind)
  {
    KindOfDict(known, m);
    if !Bare(m) { FirstKeyIsLeast(m); }
  }

  // ------------------------------------------------------------ what is merged

  ghost function SourceCases(src: Option<Dict>): (m: Cases)
    requires Generated(src)
    ensures forall k | k in m :: Plain(m[k])
    ensures if src.Some? then PlainDict(src.value, m) else m == map[]
  {
    if src.None? then map[] else var m :| PlainDict(src.value, m); m
  }

  ghost function MergedOf(src: Option<Dict>, dst: Option<Dict>): Cases
    requires Generated(src) && MergedDict(src, dst).Ok?
  {
    if dst.None? then SourceCases(src) else MergedCases(SourceCases(src), Read(dst.value.cases, true).value)
  }

  /** A merged select is assembled from the merged cases, and can be read again. */
  lemma MergedIsAssembled(src: Option<Dict>, dst: Option<Dict>)
    requires Generated(src) && MergedDict(src, dst).Ok?
    ensures MergedDict(src, dst).value == Assembled(MergedOf(src, dst))
    ensures Read(DictOf(MergedOf(src, dst)).cases, true) == Ok(MergedOf(src, dst))
  {
    ReadOfDict(SourceCases(src), false);
    ReadOfDict(MergedOf(src, dst), true);
    assert Read([], false) == Ok(map[]);
  }

  lemma SourceKinds(known: Known, src: Option<Dict>, kind: Kind)
    requires Generated(src) && OfKind(known, src, kind)
    ensures CasesOfKind(known, SourceCases(src), kind)
  {
    if src.Some? {
      ReadOfDict(SourceCases(src), true);
      ReadKeys(known, src.value.cases, true, kind);
    }
  }

  lemma {:induction false} NoneSurvive(elems: seq<Expr>)
    requires !AnyKeep(elems)
    ensures Survivors({}, elems) == []
  {
    if elems != [] {
      forall e | e in elems[..|elems| - 1] ensures !ShouldKeep(e) { assert e in elems; }
      NoneSurvive(elems[..|elems| - 1]);
      assert elems[|elems| - 1] in elems;
    }
  }

  /** Merged with nothing, a list keeps its marked elements and no others. */
  lemma MergedWithNothing(d: List)
    ensures MergedList(None, Some(d)).Some? <==> AnyKeep(d.elems)
    ensures MergedList(None, Some(d)).Some? ==> AnyKeep(MergedList(None, Some(d)).value.elems)
  {
    assert Strings([]) == {};
    var a := Survivors({}, d.elems);
    assert MergedElems([], d.elems) == a + [] == a;
    if AnyKeep(d.elems) {
      var e :| e in d.elems && ShouldKeep(e);
      SurvivorMember({}, d.elems, e);
    } else {
      NoneSurvive(d.elems);
    }
  }

  /** A case that the source does not have is there because of kept elements. */
  lemma OwnCaseIsKept(ms: Cases, md: Cases, k: string)
    requires k in MergedCases(ms, md) && k !in ms && k != DEFAULT
    ensures AnyKeep(MergedCases(ms, md)[k].elems)
  {
    MergedWithNothing(md[k]);
  }

  /** A case with a kept element stays, and so does one that the source has. */
  lemma CaseStays(ms: Cases, m: Cases, k: string)
    requires k in m && (k in ms ==> Plain(ms[k])) && (k in ms || AnyKeep(m[k].elems))
    ensures k in MergedCases(ms, m)
  {
    if k in ms {
      SourceCaseStays(k, ms[k], Get(m, k));
    } else {
      MergedWithNothing(m[k]);
    }
  }

  /** Merging into a select does not change its kind if its first key stays. */
  lemma KindKept(known: Known, ms: Cases, m: Cases, q: Kind)
    requires CasesOfKind(known, ms, q) && DictKind(known, DictOf(m).cases) == Ok(q)
    requires !Bare(m) ==> FirstKey(m) in MergedCases(ms, m)
    ensures DictKind(known, DictOf(MergedCases(ms, m)).cases) == Ok(q)
  {
    var again := MergedCases(ms, m);
    KindOfDict(known, m);
    KindOfDict(known, again);
    if Bare(m) {
      KindOfOneKind(known, again, q);
    } else {
      FirstKeyIsLeast(m);
      FirstKeyIsLeast(again);
      if FirstKey(again) !in ms {
        StringLeqAntisymmetric(FirstKey(m), FirstKey(again));
      }
    }
  }

  lemma IntoAssembled(src: Option<Dict>, m: Cases)
    requires Generated(src)
    ensures MergedDict(src, Some(DictOf(m))) == Ok(Assembled(MergedCases(SourceCases(src), m)))
  {
    ReadOfDict(m, true);
    ReadOfDict(SourceCases(src), false);
    assert Read([], false) == Ok(map[]);
  }

  /** A merged select that is taken for one of kind `q` is still of that kind when the
      source's select of that kind is merged into it. */
  lemma MovedKind(known: Known, srcP: Option<Dict>, dstP: Option<Dict>, p: Kind, srcQ: Option<Dict>, q: Kind)
    requires Generated(srcP) && OfKind(known, srcP, p) && Generated(srcQ) && OfKind(known, srcQ, q)
    requires p == q ==> srcP == srcQ
    requires MergedDict(srcP, dstP).Ok? && MergedDict(srcP, dstP).value.Some?
    requires DictKind(known, MergedDict(srcP, dstP).value.value.cases) == Ok(q)
    ensures var r := MergedDict(srcQ, MergedDict(srcP, dstP).value);
            r.Ok? && (r.value.Some? ==> DictKind(known, r.value.value.cases) == Ok(q))
  {
    hide DictKind, DictOf, Read, OfKind, MergedOf, CasesOfKind, KeyKind;
    var m, ms := MergedOf(srcP, dstP), SourceCases(srcQ);
    MergedIsAssembled(srcP, dstP);
    SourceKinds(known, srcP, p);
    SourceKinds(known, srcQ, q);
    if !Bare(m) {
      KindOfDict(known, m);
      FirstKeyIsLeast(m);
      FirstStays(known, srcP, dstP, p, srcQ, q);
    }
    IntoAssembled(srcQ, m);
    KindKept(known, ms, m, q);
  }

  lemma FirstStays(known: Known, srcP: Option<Dict>, dstP: Option<Dict>, p: Kind, srcQ: Option<Dict>, q: Kind)
    requires Generated(srcP) && OfKind(known, srcP, p) && Generated(srcQ)
    requires p == q ==> srcP == srcQ
    requires MergedDict(srcP, dstP).Ok? && !Bare(MergedOf(srcP, dstP))
    requires KeyKind(known, FirstKey(MergedOf(srcP, dstP))) == Ok(q)
    ensures FirstKey(MergedOf(srcP, dstP)) in MergedCases(SourceCases(srcQ), MergedOf(srcP, dstP))
  {
    var m := MergedOf(srcP, dstP);
    var k := FirstKey(m);
    FirstKeyIsLeast(m);
    SourceKinds(known, srcP, p);
    if k in SourceCases(srcP) {
      assert KeyOfKind(known, k, p) && p == q;
    } else {
      OwnCaseIsKept(SourceCases(srcP), Read(dstP.value.cases, true).value, k);
    }
    CaseStays(SourceCases(srcQ), m, k);
  }

  // ----------------------------------------------------- what is left, and under what

  /** A kept element in some case. */
  predicate KeptAnywhere(d: Option<Dict>) {
    d.Some? && exists c | c in d.value.cases :: c.value.ListE? && AnyKeep(c.value.list.elems)
  }

  /** A kept element in a case other than the default. */
  predicate KeptUnderKey(d: Option<Dict>) {
    d.Some? && exists c | c in d.value.cases ::
      c.key.Str? && c.key.value != DEFAULT && c.value.ListE? && AnyKeep(c.value.list.elems)
  }

  /** Merging leaves a select. */
  predicate Survives(src: Option<Dict>, dst: Option<Dict>) {
    src.Some? || KeptAnywhere(dst)
  }

  /** Merging leaves a select with a key besides the default. */
  predicate SurvivesWithKey(src: Option<Dict>, dst: Option<Dict>) {
    src.Some? || KeptUnderKey(dst)
  }

  /** The cases of a select are what is read of it. */
  lemma {:induction false} ReadCases(cases: seq<Case>, k: string, v: List)
    requires Read(cases, true).Ok?
    ensures (exists c | c in cases :: c.key.Str? && c.key.value == k && c.value == ListE(v)) <==>
            k in Read(cases, true).value && Read(cases, true).value[k] == v
    ensures forall c | c in cases :: c.key.Str? && c.value.ListE?
  {
    if cases != [] {
      var init, last := cases[..|cases| - 1], cases[|cases| - 1];
      assert cases == init + [last];
      ReadCases(init, k, v);
      if last.key.value == k && last.value == ListE(v) {
        assert last in cases;
      }
      if c :| c in init && c.key.Str? && c.key.value == k && c.value == ListE(v) {
        assert c in cases;
      }
    }
  }

  /** Kept elements, in terms of what is read. */
  lemma KeptRead(d: Dict)
    requires Read(d.cases, true).Ok?
    ensures var md := Read(d.cases, true).value;
            && (KeptAnywhere(Some(d)) <==> exists k | k in md :: AnyKeep(md[k].elems))
            && (KeptUnderKey(Some(d)) <==> exists k | k in md && k != DEFAULT :: AnyKeep(md[k].elems))
  {
    var md := Read(d.cases, true).value;
    ReadCases(d.cases, "", EMPTY);
    forall c | c in d.cases && AnyKeep(c.value.list.elems)
      ensures c.key.value in md && md[c.key.value] == c.value.list
    {
      ReadCases(d.cases, c.key.value, c.value.list);
    }
    forall k | k in md && AnyKeep(md[k].elems)
      ensures exists c | c in d.cases :: c.key.Str? && c.key.value == k && c.value == ListE(md[k])
    {
      ReadCases(d.cases, k, md[k]);
    }
  }

  /** Exactly when a merged select is there, and has keys besides the default. */
  lemma MergedShape(src: Option<Dict>, dst: Option<Dict>)
    requires Generated(src) && MergedDict(src, dst).Ok?
    ensures MergedDict(src, dst).value.Some? <==> Survives(src, dst)
    ensures !Bare(MergedOf(src, dst)) <==> SurvivesWithKey(src, dst)
  {
    MergedIsAssembled(src, dst);
    var ms := SourceCases(src);
    if dst.Some? {
      var md := Read(dst.value.cases, true).value;
      KeptRead(dst.value);
      if src.Some? {
        SomeCaseStays(ms, md);
        var k :| k in ms && k != DEFAULT;
        SourceCaseStays(k, ms[k], Get(md, k));
        assert k in MergedCases(ms, md);
      } else {
        MergedWithNone(md);
      }
    }
  }

  lemma MergedWithNone(md: Cases)
    ensures var m := MergedCases(map[], md);
            && (Assembled(m).Some? <==> exists k | k in md :: AnyKeep(md[k].elems))
            && (!Bare(m) <==> exists k | k in md && k != DEFAULT :: AnyKeep(md[k].elems))
  {
    var m := MergedCases(map[], md);
    forall k | k in md
      ensures k != DEFAULT ==> (k in m <==> AnyKeep(md[k].elems))
      ensures k == DEFAULT ==> k in m && (m[k].elems != [] <==> AnyKeep(md[k].elems))
    {
      MergedWithNothing(md[k]);
    }
    if !Bare(m) {
      var k :| k in m && k != DEFAULT;
      assert k in md && AnyKeep(md[k].elems);
    }
  }

  /** For a source and a destination whose keys are of one kind: the merged select is
      still of that kind exactly if it has a key. */
  lemma MergedKindIff(known: Known, src: Option<Dict>, dst: Option<Dict>, kind: Kind)
    requires Generated(src) && OfKind(known, src, kind) && OfKind(known, dst, kind)
    requires MergedDict(src, dst).Ok? && MergedDict(src, dst).value.Some?
    ensures DictKind(known, MergedDict(src, dst).value.value.cases) ==
            Ok(if SurvivesWithKey(src, dst) then kind else PlatformKind)
  {
    MergedIsAssembled(src, dst);
    MergedShape(src, dst);
    SourceKinds(known, src, kind);
    if dst.Some? {
      ReadKeys(known, dst.value.cases, true, kind);
    }
    KindOfOneKind(known, MergedOf(src, dst), kind);
  }

  // ------------------------------------------------------- selects that stay as they are

  ghost predicate LeavesAlone(src: Option<Dict>, dst: Option<Dict>) {
    MergedDict(src, dst) == Ok(dst)
  }

  /** Merging a generated list into elements gives the same elements exactly if each is
      kept or one of its strings, and all its strings are there. */
  lemma SameElemsIff(src: seq<Expr>, dst: seq<Expr>)
    requires forall e | e in src :: StringValue(e) != "" && !ShouldKeep(e)
    ensures MergedElems(src, dst) == dst <==>
            && (forall e | e in dst :: ShouldKeep(e) || StringValue(e) in Strings(src))
            && Strings(src) <= Strings(dst)
  {
    var a := Survivors(Strings(src), dst);
    var b := Missing(Strings(a), src);
    if forall e | e in dst :: ShouldKeep(e) || StringValue(e) in Strings(src) {
      AllSurvive(Strings(src), dst);
      assert a == dst;
      if Strings(src) <= Strings(dst) {
        forall e | e in src ensures StringValue(e) in Strings(a) { assert StringValue(e) in Strings(src); }
        NoneMissing(Strings(a), src);
        assert a + [] == dst;
      } else {
        var t :| t in Strings(src) && t !in Strings(dst);
        var e :| e in src && StringValue(e) == t;
        MissingMember(Strings(a), src, e);
        assert b != [] && |MergedElems(src, dst)| > |dst|;
      }
    } else {
      var e :| e in dst && !ShouldKeep(e) && StringValue(e) !in Strings(src);
      NotMerged(src, dst, e);
    }
  }

  lemma NotMerged(src: seq<Expr>, dst: seq<Expr>, e: Expr)
    requires (forall x | x in src :: StringValue(x) != "") && !ShouldKeep(e) && StringValue(e) !in Strings(src)
    ensures e !in MergedElems(src, dst)
  {
    var a := Survivors(Strings(src), dst);
    SurvivorMember(Strings(src), dst, e);
    MissingMember(Strings(a), src, e);
  }

  /** A case that merging leaves as it is: its elements are kept or the source's, which
      are all there, and it is spread over lines if it has to be. An empty one is the
      default, or empty in the source too. */
  predicate CaseFits(k: string, src: Option<List>, v: List) {
    var s := if src.Some? then src.value else EMPTY;
    && (forall e | e in v.elems :: ShouldKeep(e) || StringValue(e) in Strings(s.elems))
    && Strings(s.elems) <= Strings(v.elems)
    && (if v.elems == [] then v == EMPTY && (k == DEFAULT || src.Some?)
        else !v.keep && (s.multiLine || AnyKeep(v.elems) ==> v.multiLine))
  }

  lemma CaseFitsIff(k: string, src: Option<List>, v: List)
    requires src.Some? ==> Plain(src.value)
    ensures MergedCase(k, src, Some(v)) == Some(v) <==> CaseFits(k, src, v)
  {
    hide MergedElems, Strings, Survivors;
    var s := if src.Some? then src.value else EMPTY;
    if v.elems == [] {
      IntoEmpty(s.elems);
      NoStrings(s);
    } else {
      SameElemsIff(s.elems, v.elems);
      KeptAmong(s, v);
    }
  }

  lemma IntoEmpty(src: seq<Expr>)
    ensures MergedElems(src, []) == src
  {
    assert Strings([]) == {};
    AllMissing(src);
    assert [] + src == src;
  }

  lemma NoStrings(s: List)
    requires Plain(s)
    ensures Strings(s.elems) <= Strings([]) <==> s.elems == []
  {
    if s.elems != [] {
      assert s.elems[0] in s.elems && StringValue(s.elems[0]) in Strings(s.elems);
    }
  }

  lemma KeptAmong(s: List, v: List)
    ensures AnyKeep(Survivors(Strings(s.elems), v.elems)) <==> AnyKeep(v.elems)
  {
    forall e | e in v.elems && ShouldKeep(e) ensures e in Survivors(Strings(s.elems), v.elems) {
      SurvivorMember(Strings(s.elems), v.elems, e);
    }
    forall e | e in Survivors(Strings(s.elems), v.elems) ensures e in v.elems {
      SurvivorMember(Strings(s.elems), v.elems, e);
    }
  }

  /** A select stays as it is when a generated one is merged into it, exactly if it has
      all cases of the source, each of its cases does, and there is something in it. */
  lemma LeavesAloneIff(src: Option<Dict>, m: Cases)
    requires Generated(src)
    ensures LeavesAlone(src, Some(DictOf(m))) <==>
            && SourceCases(src).Keys <= m.Keys
            && (forall k | k in m :: CaseFits(k, Get(SourceCases(src), k), m[k]))
            && (Bare(m) ==> DEFAULT in m && m[DEFAULT].elems != [])
  {
    hide DictOf, CaseFits;
    var ms := SourceCases(src);
    var merged := MergedCases(ms, m);
    IntoAssembled(src, m);
    ReadOfDict(m, true);
    ReadOfDict(merged, true);
    SameCasesIff(ms, m);
    assert DictOf(merged) == DictOf(m) <==> merged == m;
  }

  lemma SameCasesIff(ms: Cases, m: Cases)
    requires forall k | k in ms :: Plain(ms[k])
    ensures MergedCases(ms, m) == m <==>
            ms.Keys <= m.Keys && forall k | k in m :: CaseFits(k, Get(ms, k), m[k])
  {
    hide CaseFits;
    var merged := MergedCases(ms, m);
    forall k ensures k in m ==> (k in merged && merged[k] == m[k] <==> CaseFits(k, Get(ms, k), m[k]))
             ensures k in ms ==> k in merged
    {
      if k in m { CaseFitsIff(k, Get(ms, k), m[k]); }
      if k in ms { SourceCaseStays(k, ms[k], Get(m, k)); }
    }
    if ms.Keys <= m.Keys && forall k | k in m :: CaseFits(k, Get(ms, k), m[k]) {
      assert merged.Keys == m.Keys;
    }
  }
}
