/** Merging a generated select into the one that is there. */
module MergeDicts {
  import opened Options
  import opened Sorting
  import opened BuildExprs
  import opened MergeLists

  type Cases = map<string, List>

  function Get(m: Cases, k: string): Option<List> {
    if k in m then Some(m[k]) else None
  }

  function ReadCase(c: Case): Matched<(string, List)> {
    if !c.key.Str? then Err(KeyNotString)
    else if !c.value.ListE? then Err(ValueNotList)
    else Ok((c.key.value, c.value.list))
  }

  /** The cases by key: the last one of a key counts, unless keys have to be unique. */
  function Read(cases: seq<Case>, unique: bool): Matched<Cases> {
    if cases == [] then Ok(map[])
    else match Read(cases[..|cases| - 1], unique)
      case Err(err) => Err(err)
      case Ok(m) =>
        match ReadCase(cases[|cases| - 1])
        case Err(err) => Err(err)
        case Ok((k, v)) => if unique && k in m then Err(DuplicateCase) else Ok(m[k := v])
  }

  lemma {:induction false} ReadFails(cases: seq<Case>, unique: bool, i: nat, err: MatchError)
    requires i <= |cases| && Read(cases[..i], unique) == Err(err)
    ensures Read(cases, unique) == Err(err)
  {
    if i == |cases| {
      assert cases[..i] == cases;
    } else {
      assert cases[..|cases| - 1][..i] == cases[..i];
      ReadFails(cases[..|cases| - 1], unique, i, err);
    }
  }

  /** The merged case: the default stays even if empty, and so does a list that the
      source gives as empty. */
  function MergedCase(k: string, src: Option<List>, dst: Option<List>): Option<List> {
    var m := MergedList(src, dst);
    if k == DEFAULT then Some(if m.Some? then m.value else EMPTY)
    else if m.Some? then m
    else if src.Some? && src.value.elems == [] then Some(EMPTY)
    else None
  }

  function MergedCases(src: Cases, dst: Cases): Cases {
    map k | k in src.Keys + dst.Keys && MergedCase(k, Get(src, k), Get(dst, k)).Some?
      :: MergedCase(k, Get(src, k), Get(dst, k)).value
  }

  // ------------------------------------------------------------- dicts from cases

  function CasesOf(keys: seq<string>, m: Cases): seq<Case>
    requires forall k | k in keys :: k in m
  {
    seq(|keys|, i requires 0 <= i < |keys| => Case(Str(keys[i], false, 0), ListE(m[keys[i]])))
  }

  /** All keys in order, the default case last. */
  ghost function KeysOf(m: Cases): (r: seq<string>)
    ensures NoDuplicates(r) && Elements(r) == m.Keys
  {
    var l := Listing(m.Keys - {DEFAULT});
    assert forall k | k in l :: k in Elements(l);
    assert DEFAULT !in l;
    ElementsConcat(l, if DEFAULT in m then [DEFAULT] else []);
    l + if DEFAULT in m then [DEFAULT] else []
  }

  ghost function DictOf(m: Cases): Dict {
    var keys := KeysOf(m);
    assert forall k | k in keys :: k in Elements(keys);
    Dict(CasesOf(keys, m), true, false)
  }

  /** A select with nothing but an empty default is dropped. */
  ghost function Assembled(m: Cases): Option<Dict> {
    if m.Keys <= {DEFAULT} && (DEFAULT in m ==> m[DEFAULT].elems == []) then None else Some(DictOf(m))
  }

  ghost function MergedDict(src: Option<Dict>, dst: Option<Dict>): Matched<Option<Dict>> {
    if dst.None? then Ok(src)
    else match Read(dst.value.cases, true)
      case Err(err) => Err(err)
      case Ok(md) =>
        match Read(if src.Some? then src.value.cases else [], false)
        case Err(err) => Err(err)
        case Ok(ms) => Ok(Assembled(MergedCases(ms, md)))
  }

  // ------------------------------------------------------------------- the method

  datatype DictEntry = DictEntry(dstValue: Option<List>, srcValue: Option<List>)

  ghost predicate EntriesOf(entries: seq<string>, entryMap: map<string, DictEntry>, ms: Cases, md: Cases) {
    && NoDuplicates(entries) && Elements(entries) == entryMap.Keys == ms.Keys + md.Keys
    && forall k | k in entryMap :: entryMap[k] == DictEntry(Get(md, k), Get(ms, k))
  }

method ReadDst(dst: seq<Case>)
    returns (entries: seq<string>, entryMap: map<string, DictEntry>, err: Option<MatchError>, ghost md: Cases)
    ensures err.None? ==> Read(dst, true) == Ok(md) && EntriesOf(entries, entryMap, map[], md)
    ensures err.Some? ==> Read(dst, true) == Err(err.value)
  {
    entries, entryMap, err, md := [], map[], None, map[];
    for i := 0 to |dst|
      invariant Read(dst[..i], true) == Ok(md) && EntriesOf(entries, entryMap, map[], md)
    {
      assert dst[..i + 1][..i] == dst[..i];
      var c := ReadCase(dst[i]);
      if c.Err? {
        ReadFails(dst, true, i + 1, c.error);
        return entries, entryMap, Some(c.error), md;
      }
      var (k, v) := c.value;
      if k in entryMap {
        ReadFails(dst, true, i + 1, DuplicateCase);
        return entries, entryMap, Some(DuplicateCase), md;
      }
      assert k !in Elements(entries);
      ElementsConcat(entries, [k]);
      entries, entryMap, md := entries + [k], entryMap[k := DictEntry(Some(v), None)], md[k := v];
    }
    assert dst[..|dst|] == dst;
  }

  lemma EntryRead(entries: seq<string>, entryMap: map<string, DictEntry>, ms: Cases, md: Cases, k: string, v: List)
    requires EntriesOf(entries, entryMap, ms, md)
    ensures if k in entryMap then EntriesOf(entries, entryMap[k := entryMap[k].(srcValue := Some(v))], ms[k := v], md)
            else EntriesOf(entries + [k], entryMap[k := DictEntry(None, Some(v))], ms[k := v], md)
  {
    ElementsConcat(entries, [k]);
    if k !in entryMap {
      assert k !in Elements(entries);
    }
  }

  method ReadSrc(src: seq<Case>, entries0: seq<string>, entryMap0: map<string, DictEntry>, ghost md: Cases)
    returns (entries: seq<string>, entryMap: map<string, DictEntry>, err: Option<MatchError>, ghost ms: Cases)
    requires EntriesOf(entries0, entryMap0, map[], md)
    ensures err.None? ==> Read(src, false) == Ok(ms) && EntriesOf(entries, entryMap, ms, md)
    ensures err.Some? ==> Read(src, false) == Err(err.value)
  {
    hide EntriesOf;
    entries, entryMap, err, ms := entries0, entryMap0, None, map[];
    for i := 0 to |src|
      invariant Read(src[..i], false) == Ok(ms) && EntriesOf(entries, entryMap, ms, md)
    {
      assert src[..i + 1][..i] == src[..i];
      var c := ReadCase(src[i]);
      if c.Err? {
        ReadFails(src, false, i + 1, c.error);
        return entries, entryMap, Some(c.error), ms;
      }
      var (k, v) := c.value;
      EntryRead(entries, entryMap, ms, md, k, v);
      var e := DictEntry(None, None);
      if k in entryMap {
        e := entryMap[k];
      } else {
        entries := entries + [k];
      }
      entryMap, ms := entryMap[k := e.(srcValue := Some(v))], ms[k := v];
    }
    assert src[..|src|] == src;
  }

  /** The merged cases read so far. */
  ghost predicate MergedSoFar(merged: Cases, keys: seq<string>, haveDefault: bool, all: Cases, done: set<string>) {
    && (forall k :: k in merged <==> k in done && k in all)
    && (forall k | k in merged :: merged[k] == all[k])
    && NoDuplicates(keys) && Elements(keys) == merged.Keys - {DEFAULT}
    && (haveDefault <==> DEFAULT in merged)
  }

  /** One case has been added, if there is one. */
  ghost predicate Entered(k: string, value: Option<List>, merged0: Cases, keys0: seq<string>,
        haveDefault0: bool, merged: Cases, keys: seq<string>, haveDefault: bool)
  {
    match value
    case None => merged == merged0 && keys == keys0 && haveDefault == haveDefault0
    case Some(v) =>
      && merged == merged0[k := v]
      && (if k == DEFAULT then keys == keys0 && haveDefault else keys == keys0 + [k] && haveDefault == haveDefault0)
  }

  lemma MergedStep(ms: Cases, md: Cases, done: set<string>, k: string, merged0: Cases, keys0: seq<string>,
        haveDefault0: bool, merged: Cases, keys: seq<string>, haveDefault: bool)
    requires MergedSoFar(merged0, keys0, haveDefault0, MergedCases(ms, md), done)
    requires k in ms.Keys + md.Keys && k !in done
    requires Entered(k, MergedCase(k, Get(ms, k), Get(md, k)), merged0, keys0, haveDefault0, merged, keys, haveDefault)
    ensures MergedSoFar(merged, keys, haveDefault, MergedCases(ms, md), done + {k})
  {
    assert k !in Elements(keys0);
    ElementsConcat(keys0, [k]);
    assert k !in merged0;
  }

  lemma MergedDone(merged: Cases, keys: seq<string>, haveDefault: bool, all: Cases, done: set<string>)
    requires MergedSoFar(merged, keys, haveDefault, all, done) && all.Keys <= done
    ensures merged == all
  {
    assert merged.Keys == all.Keys;
  }

  method MergeEntries(entries: seq<string>, entryMap: map<string, DictEntry>, ghost ms: Cases, ghost md: Cases)
    returns (merged: Cases, keys: seq<string>, haveDefault: bool)
    requires EntriesOf(entries, entryMap, ms, md)
    ensures merged == MergedCases(ms, md)
    ensures NoDuplicates(keys) && Elements(keys) == merged.Keys - {DEFAULT} && (haveDefault <==> DEFAULT in merged)
  {
    merged, keys, haveDefault := map[], [], false;
    for i := 0 to |entries|
      invariant MergedSoFar(merged, keys, haveDefault, MergedCases(ms, md), Elements(entries[..i]))
    {
      NextElement(entries, i);
      var k := entries[i];
      ghost var merged0, keys0, haveDefault0 := merged, keys, haveDefault;
      merged, keys, haveDefault := MergeEntry(k, entryMap[k], merged, keys, haveDefault);
      MergedStep(ms, md, Elements(entries[..i]), k, merged0, keys0, haveDefault0, merged, keys, haveDefault);
    }
    assert entries[..|entries|] == entries;
    MergedDone(merged, keys, haveDefault, MergedCases(ms, md), Elements(entries));
  }

  method MergeEntry(k: string, e: DictEntry, merged0: Cases, keys0: seq<string>, haveDefault0: bool)
    returns (merged: Cases, keys: seq<string>, haveDefault: bool)
    ensures Entered(k, MergedCase(k, e.srcValue, e.dstValue), merged0, keys0, haveDefault0, merged, keys, haveDefault)
  {
    merged, keys, haveDefault := merged0, keys0, haveDefault0;
    var m := MergeList(e.srcValue, e.dstValue);
    if k == DEFAULT {
      haveDefault := true;
      merged := merged[k := if m.Some? then m.value else List([], false, false)];
    } else if m.Some? {
      keys, merged := keys + [k], merged[k := m.value];
    } else if e.srcValue.Some? && |e.srcValue.value.elems| == 0 {
      keys, merged := keys + [k], merged[k := List([], false, false)];
    }
  }

  method Assemble(merged: Cases, keys0: seq<string>, haveDefault: bool) returns (r: Option<Dict>)
    requires NoDuplicates(keys0) && Elements(keys0) == merged.Keys - {DEFAULT} && (haveDefault <==> DEFAULT in merged)
    ensures r == Assembled(merged)
  {
    NoKeys(merged, keys0);
    if |keys0| == 0 && (!haveDefault || |merged[DEFAULT].elems| == 0) {
      return None;
    }
    SortIsListing(keys0);
    SortedListingUnique(Sort(keys0), Listing(merged.Keys - {DEFAULT}), merged.Keys - {DEFAULT});
    var keys := Sort(keys0);
    if haveDefault {
      keys := keys + [DEFAULT];
    }
    assert keys == KeysOf(merged);
    assert forall k | k in keys :: k in Elements(keys);
    var mergedEntries := seq(|keys|, i requires 0 <= i < |keys| =>
      Case(Str(keys[i], false, 0), ListE(merged[keys[i]])));
    return Some(Dict(mergedEntries, true, false));
  }

  lemma NoKeys(merged: Cases, keys: seq<string>)
    requires Elements(keys) == merged.Keys - {DEFAULT}
    ensures |keys| == 0 <==> merged.Keys <= {DEFAULT}
  {
    if |keys| > 0 {
      assert keys[0] in Elements(keys);
    } else {
      assert merged.Keys - {DEFAULT} == {};
      forall k | k in merged ensures k == DEFAULT {
        assert k !in merged.Keys - {DEFAULT};
      }
    }
  }

  method MergeDict(srcExpr: Option<Dict>, dstExpr: Option<Dict>) returns (r: Matched<Option<Dict>>)
    ensures r == MergedDict(srcExpr, dstExpr)
  {
    if dstExpr.None? {
      return Ok(srcExpr);
    }
    var src := if srcExpr.Some? then srcExpr.value.cases else [];
    var entries, entryMap, err, md := ReadDst(dstExpr.value.cases);
    if err.Some? {
      return Err(err.value);
    }
    ghost var ms;
    entries, entryMap, err, ms := ReadSrc(src, entries, entryMap, md);
    if err.Some? {
      return Err(err.value);
    }
    var merged, keys, haveDefault := MergeEntries(entries, entryMap, ms, md);
    var d := Assemble(merged, keys, haveDefault);
    return Ok(d);
  }

  /** Under each key: exactly the source's strings and the kept ones of the destination. */
  lemma MergedCaseStrings(k: string, src: Option<List>, dst: Option<List>)
    ensures var r := MergedCase(k, src, dst);
            (if r.Some? then Strings(r.value.elems) else {}) ==
            (if src.Some? then Strings(src.value.elems) else {}) +
            (if dst.Some? then KeptStrings(dst.value.elems) else {})
  {
    if dst.Some? {
      MergedStrings(if src.Some? then src.value.elems else [], dst.value.elems);
      assert Strings([]) == {};
    }
  }

  // --------------------------------------------------------------- merging again

  function Restrict(keys: seq<string>, m: Cases): Cases
    requires forall k | k in keys :: k in m
  {
    map k | k in keys :: m[k]
  }

  lemma RestrictOne(keys: seq<string>, k: string, m: Cases)
    requires (forall x | x in keys :: x in m) && k in m && k !in keys
    ensures Restrict(keys + [k], m) == Restrict(keys, m)[k := m[k]] && k !in Restrict(keys, m)
  {
  }

  lemma {:induction false} ReadOfCases(keys: seq<string>, m: Cases, unique: bool)
    requires NoDuplicates(keys) && forall k | k in keys :: k in m
    ensures Read(CasesOf(keys, m), unique) == Ok(Restrict(keys, m))
  {
    if keys == [] {
      assert Restrict(keys, m) == map[];
    } else {
      var n := |keys| - 1;
      assert keys == keys[..n] + [keys[n]];
      assert keys[n] in keys && keys[n] !in keys[..n];
      forall k | k in keys[..n] ensures k in m { assert k in keys; }
      ReadOfCases(keys[..n], m, unique);
      RestrictOne(keys[..n], keys[n], m);
      assert CasesOf(keys, m)[..n] == CasesOf(keys[..n], m);
    }
  }

  /** The cases of an assembled select are in the order of their keys, each key once,
      and the default comes last. */
  lemma CasesInOrder(m: Cases, i: nat, j: nat)
    requires i < j < |DictOf(m).cases|
    ensures var a, b := DictOf(m).cases[i].key, DictOf(m).cases[j].key;
            && a.Str? && b.Str? && a.value != "//conditions:default"
            && (b.value != "//conditions:default" ==> StringLeq(a.value, b.value) && a.value != b.value)
  {
    var keys, l := KeysOf(m), Listing(m.Keys - {DEFAULT});
    assert i < |l| && keys[i] == l[i] && l[i] in Elements(l);
    if j < |l| {
      assert keys[j] == l[j];
    }
  }

  /** A merged select is broken into lines, and is not marked as a whole. */
  lemma MergedForm(src: Option<Dict>, d: Dict)
    requires MergedDict(src, Some(d)).Ok? && MergedDict(src, Some(d)).value.Some?
    ensures MergedDict(src, Some(d)).value.value.multiLine && !MergedDict(src, Some(d)).value.value.keep
  {
    hide CasesOf, Read;
  }

  /** What is assembled can be read again. */
  lemma ReadOfDict(m: Cases, unique: bool)
    ensures Read(DictOf(m).cases, unique) == Ok(m)
  {
    var keys := KeysOf(m);
    assert forall k :: k in keys <==> k in Elements(keys);
    ReadOfCases(keys, m, unique);
    assert Restrict(keys, m) == m;
  }

  /** A generated select: plain lists under at least one key besides the default, the
      keys sorted and the default last. */
  ghost predicate PlainDict(d: Dict, m: Cases) {
    d == DictOf(m) && !(m.Keys <= {DEFAULT}) && forall k | k in m :: Plain(m[k])
  }

  ghost predicate Generated(d: Option<Dict>) {
    d.Some? ==> exists m :: PlainDict(d.value, m)
  }

  lemma CaseIdempotent(k: string, src: Option<List>, dst: Option<List>)
    requires src.Some? ==> Plain(src.value)
    requires MergedCase(k, src, dst).Some?
    ensures MergedCase(k, src, MergedCase(k, src, dst)) == MergedCase(k, src, dst)
  {
    if src.Some? && src.value.elems == [] {
      assert src.value == EMPTY;
      NothingIn(dst);
    } else {
      MergeListIdempotent(src, dst);
      NothingIn(Some(EMPTY));
    }
  }

  /** An empty source is as good as none, once there is a destination. */
  lemma NothingIn(dst: Option<List>)
    ensures dst.Some? ==> MergedList(Some(EMPTY), dst) == MergedList(None, dst)
    ensures MergedList(None, Some(EMPTY)) == None
    ensures MergedList(None, MergedList(None, dst)) == MergedList(None, dst)
  {
    MergeListIdempotent(None, dst);
    assert MergedElems([], []) == [];
  }

  lemma CasesIdempotent(src: Cases, dst: Cases)
    requires forall k | k in src :: Plain(src[k])
    ensures MergedCases(src, MergedCases(src, dst)) == MergedCases(src, dst)
  {
    var m := MergedCases(src, dst);
    var again := MergedCases(src, m);
    forall k ensures k in src && k !in m ==> false
             ensures k in m ==> k in again && again[k] == m[k]
    {
      if k in src { SourceCaseStays(k, src[k], Get(dst, k)); }
      if k in m { CaseIdempotent(k, Get(src, k), Get(dst, k)); }
    }
    assert again.Keys == m.Keys;
  }

  /** No case of the source is lost. */
  lemma SourceCaseStays(k: string, src: List, dst: Option<List>)
    requires Plain(src)
    ensures MergedCase(k, Some(src), dst).Some?
  {
    if src.elems != [] && dst.Some? {
      assert src.elems[0] in src.elems;
      SomethingStays(src.elems, dst.value.elems);
    }
  }

  lemma SrcCasesIntoThemselves(m: Cases)
    requires forall k | k in m :: Plain(m[k])
    ensures MergedCases(m, m) == m
  {
    forall k | k in m ensures MergedCase(k, Some(m[k]), Some(m[k])) == Some(m[k]) {
      if m[k].elems == [] {
        NothingIn(Some(EMPTY));
      } else {
        MergeListIdempotent(Some(m[k]), None);
      }
    }
  }

  /** Merging the same generated select again changes nothing, whatever it was merged
      into. */
  lemma MergeDictIdempotent(src: Option<Dict>, dst: Option<Dict>)
    requires Generated(src) && MergedDict(src, dst).Ok?
    ensures MergedDict(src, MergedDict(src, dst).value) == MergedDict(src, dst)
  {
    if src.None? {
      if dst.Some? { MergeDictTwice(map[], Read(dst.value.cases, true).value); }
    } else {
      var ms :| PlainDict(src.value, ms);
      GeneratedTwice(src.value, ms, dst);
    }
  }

  lemma GeneratedTwice(src: Dict, ms: Cases, dst: Option<Dict>)
    requires PlainDict(src, ms) && MergedDict(Some(src), dst).Ok?
    ensures MergedDict(Some(src), MergedDict(Some(src), dst).value) == MergedDict(Some(src), dst)
  {
    ReadOfDict(ms, true);
    ReadOfDict(ms, false);
    if dst.None? {
      SrcCasesIntoThemselves(ms);
    } else {
      var md := Read(dst.value.cases, true).value;
      MergeDictTwice(ms, md);
      SomeCaseStays(ms, md);
    }
  }

  lemma SomeCaseStays(ms: Cases, md: Cases)
    requires !(ms.Keys <= {DEFAULT}) && forall k | k in ms :: Plain(ms[k])
    ensures Assembled(MergedCases(ms, md)).Some?
  {
    var k :| k in ms && k != DEFAULT;
    SourceCaseStays(k, ms[k], Get(md, k));
    assert k in MergedCases(ms, md);
  }

  lemma MergeDictTwice(ms: Cases, md: Cases)
    requires forall k | k in ms :: Plain(ms[k])
    ensures var r := Assembled(MergedCases(ms, md));
            r.Some? ==>
              && Read(r.value.cases, true) == Ok(MergedCases(ms, md))
              && Assembled(MergedCases(ms, MergedCases(ms, md))) == r
  {
    CasesIdempotent(ms, md);
    ReadOfDict(MergedCases(ms, md), true);
  }
}
