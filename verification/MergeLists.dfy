/** Merging a generated list of strings into the one that is there. */
module MergeLists {
  import opened Options
  import opened Sorting
  import opened BuildExprs

  /** The strings of a list. Elements that are no strings, and empty ones, have none. */
  function Strings(elems: seq<Expr>): set<string> {
    set e | e in elems && StringValue(e) != "" :: StringValue(e)
  }

  /** The strings that are marked to be kept. */
  function KeptStrings(elems: seq<Expr>): set<string> {
    set e | e in elems && StringValue(e) != "" && ShouldKeep(e) :: StringValue(e)
  }

  /** The elements that are marked to be kept, or whose string is in `strings`. */
  function Survivors(strings: set<string>, elems: seq<Expr>): seq<Expr> {
    if elems == [] then []
    else
      var e := elems[|elems| - 1];
      Survivors(strings, elems[..|elems| - 1]) + if ShouldKeep(e) || StringValue(e) in strings then [e] else []
  }

  /** The elements whose string is not in `kept`. */
  function Missing(kept: set<string>, elems: seq<Expr>): seq<Expr> {
    if elems == [] then []
    else
      var e := elems[|elems| - 1];
      Missing(kept, elems[..|elems| - 1]) + if StringValue(e) in kept then [] else [e]
  }

  predicate AnyKeep(elems: seq<Expr>) {
    exists e | e in elems :: ShouldKeep(e)
  }

  const EMPTY := List([], false, false)

  function MergedElems(src: seq<Expr>, dst: seq<Expr>): seq<Expr> {
    var a := Survivors(Strings(src), dst);
    a + Missing(Strings(a), src)
  }

  /** The merged list: what survives of the old one, in its order, then what is new. */
  function MergedList(src: Option<List>, dst: Option<List>): Option<List> {
    match dst
    case None => src
    case Some(d) =>
      var s := if src.Some? then src.value else EMPTY;
      var merged := MergedElems(s.elems, d.elems);
      if merged == [] then None
      else Some(List(merged, s.multiLine || d.multiLine || AnyKeep(Survivors(Strings(s.elems), d.elems)), false))
  }

  /** The merged list is marked neither as a whole nor anew; it is broken into lines if one
      of the two was, or if a marked element of the old one is in it. */
  lemma MergedListForm(src: Option<List>, d: List)
    requires MergedList(src, Some(d)).Some?
    ensures var l := MergedList(src, Some(d)).value;
            && !l.keep
            && (l.multiLine <==> || (src.Some? && src.value.multiLine) || d.multiLine
                                 || exists e :: e in d.elems && ShouldKeep(e))
  {
    var s := if src.Some? then src.value else EMPTY;
    KeptSurvive(Strings(s.elems), d.elems);
  }

  lemma {:induction false} KeptSurvive(strings: set<string>, elems: seq<Expr>)
    ensures AnyKeep(Survivors(strings, elems)) <==> exists e :: e in elems && ShouldKeep(e)
  {
    if elems != [] {
      var init, last := elems[..|elems| - 1], elems[|elems| - 1];
      assert elems == init + [last];
      KeptSurvive(strings, init);
      var left := Survivors(strings, init);
      assert forall e :: e in left + [last] <==> e in left || e == last;
      assert forall e :: e in elems <==> e in init || e == last;
    }
  }

  method SourceSet(src: seq<Expr>) returns (srcSet: set<string>)
    ensures srcSet == Strings(src)
  {
    srcSet := {};
    for i := 0 to |src|
      invariant srcSet == Strings(src[..i])
    {
      var s := StringValue(src[i]);
      assert src[..i + 1] == src[..i] + [src[i]];
      if s != "" {
        srcSet := srcSet + {s};
      }
    }
    assert src[..|src|] == src;
  }

  method KeepMatching(srcSet: set<string>, dst: seq<Expr>)
    returns (merged: seq<Expr>, kept: set<string>, keepComment: bool)
    ensures merged == Survivors(srcSet, dst) && kept == Strings(merged) && keepComment == AnyKeep(merged)
  {
    merged, kept, keepComment := [], {}, false;
    for i := 0 to |dst|
      invariant merged == Survivors(srcSet, dst[..i])
      invariant kept == Strings(merged) && keepComment == AnyKeep(merged)
    {
      var v := dst[i];
      var s, keep := StringValue(v), ShouldKeep(v);
      assert dst[..i + 1][..i] == dst[..i];
      if keep || s in srcSet {
        keepComment := keepComment || keep;
        merged := merged + [v];
        if s != "" {
          kept := kept + {s};
        }
      }
    }
    assert dst[..|dst|] == dst;
  }

  method AppendMissing(merged0: seq<Expr>, kept: set<string>, src: seq<Expr>) returns (merged: seq<Expr>)
    ensures merged == merged0 + Missing(kept, src)
  {
    merged := merged0;
    for i := 0 to |src|
      invariant merged == merged0 + Missing(kept, src[..i])
    {
      var v := src[i];
      assert src[..i + 1][..i] == src[..i];
      if StringValue(v) in kept {
        continue;
      }
      merged := merged + [v];
    }
    assert src[..|src|] == src;
  }

  method MergeList(srcExpr: Option<List>, dstExpr: Option<List>) returns (r: Option<List>)
    ensures r == MergedList(srcExpr, dstExpr)
  {
    if dstExpr.None? {
      return srcExpr;
    }
    var dst, src := dstExpr.value, if srcExpr.Some? then srcExpr.value else EMPTY;
    var srcSet := SourceSet(src.elems);
    var merged, kept, keepComment := KeepMatching(srcSet, dst.elems);
    merged := AppendMissing(merged, kept, src.elems);
    if |merged| == 0 {
      return None;
    }
    return Some(List(merged, src.multiLine || dst.multiLine || keepComment, false));
  }

  // ---------------------------------------------------------------- membership

  lemma {:induction false} SurvivorMember(strings: set<string>, elems: seq<Expr>, e: Expr)
    ensures e in Survivors(strings, elems) <==> e in elems && (ShouldKeep(e) || StringValue(e) in strings)
  {
    if elems != [] {
      SurvivorMember(strings, elems[..|elems| - 1], e);
      assert elems == elems[..|elems| - 1] + [elems[|elems| - 1]];
    }
  }

  lemma {:induction false} MissingMember(kept: set<string>, elems: seq<Expr>, e: Expr)
    ensures e in Missing(kept, elems) <==> e in elems && StringValue(e) !in kept
  {
    if elems != [] {
      MissingMember(kept, elems[..|elems| - 1], e);
      assert elems == elems[..|elems| - 1] + [elems[|elems| - 1]];
    }
  }

  /** Exactly the source's strings and the kept ones of the destination. */
  lemma MergedStrings(src: seq<Expr>, dst: seq<Expr>)
    ensures Strings(MergedElems(src, dst)) == Strings(src) + KeptStrings(dst)
  {
    var a := Survivors(Strings(src), dst);
    var m := MergedElems(src, dst);
    var keeps := KeptStrings(dst);
    forall s ensures s in Strings(m) <==> s in Strings(src) + keeps {
      if e :| e in m && StringValue(e) == s && s != "" {
        SurvivorMember(Strings(src), dst, e);
        MissingMember(Strings(a), src, e);
      }
      if e :| e in src && StringValue(e) == s && s != "" {
        MissingMember(Strings(a), src, e);
        if s in Strings(a) {
          var e' :| e' in a && StringValue(e') == s;
          assert e' in m;
        }
      }
      if e :| e in dst && StringValue(e) == s && s != "" && ShouldKeep(e) {
        SurvivorMember(Strings(src), dst, e);
        assert e in m;
      }
    }
  }

  lemma AppendOne(s: seq<Expr>, e: Expr, kept: set<string>)
    ensures KeptOnly(s + [e]) == KeptOnly(s) + if ShouldKeep(e) then [e] else []
    ensures Missing(kept, s + [e]) == Missing(kept, s) + if StringValue(e) in kept then [] else [e]
    ensures Survivors(kept, s + [e]) == Survivors(kept, s) + if ShouldKeep(e) || StringValue(e) in kept then [e] else []
  {
    assert (s + [e])[..|s|] == s;
  }

  /** Every kept element of the destination stays, in the order of the destination:
      the kept elements that survive are those of the destination. */
  lemma {:induction false} KeptStayInOrder(strings: set<string>, dst: seq<Expr>)
    ensures KeptOnly(Survivors(strings, dst)) == KeptOnly(dst)
  {
    if dst != [] {
      var init, e := dst[..|dst| - 1], dst[|dst| - 1];
      KeptStayInOrder(strings, init);
      var s := Survivors(strings, init);
      AppendOne(s, e, {});
      assert s + [] == s && KeptOnly(s) + [] == KeptOnly(s);
    }
  }

  function KeptOnly(elems: seq<Expr>): seq<Expr> {
    if elems == [] then []
    else
      var e := elems[|elems| - 1];
      KeptOnly(elems[..|elems| - 1]) + if ShouldKeep(e) then [e] else []
  }

  /** No string twice. */
  predicate StringsOnce(elems: seq<Expr>) {
    forall i, j | 0 <= i < j < |elems| && StringValue(elems[i]) != "" :: StringValue(elems[i]) != StringValue(elems[j])
  }

  lemma JoinOnce(a: seq<Expr>, b: seq<Expr>)
    requires StringsOnce(a) && StringsOnce(b) && Strings(a) !! Strings(b)
    ensures StringsOnce(a + b)
  {
    var c := a + b;
    forall i, j | 0 <= i < j < |c| && StringValue(c[i]) != "" ensures StringValue(c[i]) != StringValue(c[j]) {
      if i < |a| <= j {
        assert a[i] in a && b[j - |a|] in b;
        assert StringValue(a[i]) in Strings(a);
        if StringValue(b[j - |a|]) != "" { assert StringValue(b[j - |a|]) in Strings(b); }
      }
    }
  }

  lemma {:induction false} SurvivorsOnce(strings: set<string>, elems: seq<Expr>)
    requires StringsOnce(elems)
    ensures StringsOnce(Survivors(strings, elems))
  {
    if elems != [] {
      var init, e := elems[..|elems| - 1], elems[|elems| - 1];
      SurvivorsOnce(strings, init);
      LastOnce(elems);
      forall x | x in Survivors(strings, init) ensures x in init { SurvivorMember(strings, init, x); }
      JoinOnce(Survivors(strings, init), [e]);
    }
  }

  lemma {:induction false} MissingOnce(kept: set<string>, elems: seq<Expr>)
    requires StringsOnce(elems)
    ensures StringsOnce(Missing(kept, elems))
  {
    if elems != [] {
      var init, e := elems[..|elems| - 1], elems[|elems| - 1];
      MissingOnce(kept, init);
      LastOnce(elems);
      forall x | x in Missing(kept, init) ensures x in init { MissingMember(kept, init, x); }
      JoinOnce(Missing(kept, init), [e]);
    }
  }

  lemma LastOnce(elems: seq<Expr>)
    requires StringsOnce(elems) && elems != []
    ensures StringsOnce(elems[..|elems| - 1]) && Strings(elems[..|elems| - 1]) !! Strings([elems[|elems| - 1]])
  {
    var n := |elems| - 1;
    forall x | x in elems[..n] && StringValue(x) != "" ensures StringValue(x) != StringValue(elems[n]) {
      var i :| 0 <= i < n && elems[i] == x;
    }
  }

  /** Merging brings in no string twice. */
  lemma MergedOnce(src: seq<Expr>, dst: seq<Expr>)
    requires StringsOnce(src) && StringsOnce(dst)
    ensures StringsOnce(MergedElems(src, dst))
  {
    var a := Survivors(Strings(src), dst);
    var b := Missing(Strings(a), src);
    SurvivorsOnce(Strings(src), dst);
    MissingOnce(Strings(a), src);
    forall e | e in b ensures StringValue(e) !in Strings(a) { MissingMember(Strings(a), src, e); }
    JoinOnce(a, b);
  }

  // --------------------------------------------------------------- merging again

  lemma {:induction false} SurvivorsConcat(strings: set<string>, a: seq<Expr>, b: seq<Expr>)
    ensures Survivors(strings, a + b) == Survivors(strings, a) + Survivors(strings, b)
  {
    if b == [] {
      assert a + b == a;
    } else {
      SurvivorsConcat(strings, a, b[..|b| - 1]);
      assert (a + b)[..|a + b| - 1] == a + b[..|b| - 1];
    }
  }

  lemma {:induction false} AllSurvive(strings: set<string>, elems: seq<Expr>)
    requires forall e | e in elems :: ShouldKeep(e) || StringValue(e) in strings
    ensures Survivors(strings, elems) == elems
  {
    if elems != [] {
      forall e | e in elems[..|elems| - 1] ensures e in elems {}
      AllSurvive(strings, elems[..|elems| - 1]);
      assert elems[|elems| - 1] in elems && elems == elems[..|elems| - 1] + [elems[|elems| - 1]];
    }
  }

  /** Which strings are kept matters only as far as they occur. */
  lemma {:induction false} SameMissing(k1: set<string>, k2: set<string>, elems: seq<Expr>)
    requires forall e | e in elems :: StringValue(e) in k1 <==> StringValue(e) in k2
    ensures Missing(k1, elems) == Missing(k2, elems)
  {
    if elems != [] {
      forall e | e in elems[..|elems| - 1] ensures e in elems {}
      SameMissing(k1, k2, elems[..|elems| - 1]);
      assert elems[|elems| - 1] in elems;
    }
  }

  /** The blanks of a list are blanks of what is missing of it. */
  lemma {:induction false} MissingOfMissing(k1: set<string>, k2: set<string>, elems: seq<Expr>)
    requires k1 <= k2
    ensures Missing(k2, Missing(k1, elems)) == Missing(k2, elems)
  {
    if elems != [] {
      var init, e := elems[..|elems| - 1], elems[|elems| - 1];
      MissingOfMissing(k1, k2, init);
      var m := Missing(k1, init);
      AppendOne(m, e, k2);
      assert m + [] == m && Missing(k2, m) + [] == Missing(k2, m);
    }
  }

  /** The result of merging the same source into the result again. */
  lemma MergedTwice(src: seq<Expr>, dst: seq<Expr>)
    ensures var a := Survivors(Strings(src), dst);
            var b := Missing(Strings(a), src);
            && Survivors(Strings(src), MergedElems(src, dst)) == a + Survivors(Strings(src), b)
            && MergedElems(src, MergedElems(src, dst)) == a + Survivors(Strings(src), b) + Missing(Strings(src), b)
  {
    var s := Strings(src);
    var a := Survivors(s, dst);
    var b := Missing(Strings(a), src);
    SurvivorsConcat(s, a, b);
    forall e | e in a ensures ShouldKeep(e) || StringValue(e) in s { SurvivorMember(s, dst, e); }
    AllSurvive(s, a);
    var again := a + Survivors(s, b);
    forall e | e in src ensures StringValue(e) in Strings(again) <==> StringValue(e) in s {
      if StringValue(e) != "" {
        assert StringValue(e) in s;
        MissingMember(Strings(a), src, e);
        SurvivorMember(s, b, e);
        if StringValue(e) in Strings(a) {
          var x :| x in a && StringValue(x) == StringValue(e);
          assert x in again;
        } else {
          assert e in again;
        }
      }
    }
    SameMissing(Strings(again), s, src);
    SameMissing(s, s + Strings(a), src);
    MissingOfMissing(Strings(a), s + Strings(a), src);
    forall e | e in b ensures StringValue(e) in s + Strings(a) <==> StringValue(e) in s {
      MissingMember(Strings(a), src, e);
    }
    SameMissing(s + Strings(a), s, b);
  }

  /** An element without a string, in a list of source elements. */
  predicate BlanksLast(elems: seq<Expr>) {
    forall i, j | 0 <= i < j < |elems| && StringValue(elems[i]) == "" :: StringValue(elems[j]) == ""
  }

  predicate NoKeptBlank(elems: seq<Expr>) {
    forall e | e in elems && StringValue(e) == "" :: !ShouldKeep(e)
  }

  /** A set that has the strings of all elements that have one, and no empty string. */
  predicate Covers(s: set<string>, b: seq<Expr>) {
    forall e | e in b :: StringValue(e) == "" <==> StringValue(e) !in s
  }

  lemma {:induction false} SplitLength(s: set<string>, b: seq<Expr>)
    requires Covers(s, b)
    ensures |Survivors(s, b)| + |Missing(s, b)| >= |b|
    ensures |Survivors(s, b)| + |Missing(s, b)| == |b| ==> NoKeptBlank(b)
  {
    if b != [] {
      var init, e := b[..|b| - 1], b[|b| - 1];
      assert b == init + [e] && e in b;
      SplitLength(s, init);
    }
  }

  lemma {:induction false} SplitIfLast(s: set<string>, b: seq<Expr>)
    requires Covers(s, b) && BlanksLast(b) && NoKeptBlank(b)
    ensures Survivors(s, b) + Missing(s, b) == b
  {
    hide ShouldKeep, StringValue;
    if b != [] {
      var init, e := b[..|b| - 1], b[|b| - 1];
      assert b == init + [e] && e in b;
      InitSettled(s, b);
      SplitIfLast(s, init);
      if StringValue(e) != "" {
        NoBlankBefore(s, b);
        NoneMissing(s, init);
      }
    }
  }

  lemma InitSettled(s: set<string>, b: seq<Expr>)
    requires Covers(s, b) && BlanksLast(b) && NoKeptBlank(b) && b != []
    ensures var init := b[..|b| - 1]; Covers(s, init) && BlanksLast(init) && NoKeptBlank(init)
  {
    hide ShouldKeep, StringValue;
    var init := b[..|b| - 1];
    forall i, j | 0 <= i < j < |init| && StringValue(init[i]) == "" ensures StringValue(init[j]) == "" {
      assert b[i] == init[i] && b[j] == init[j];
    }
  }

  lemma NoBlankBefore(s: set<string>, b: seq<Expr>)
    requires Covers(s, b) && BlanksLast(b) && b != [] && StringValue(b[|b| - 1]) != ""
    ensures forall x | x in b[..|b| - 1] :: StringValue(x) in s
  {
    hide StringValue;
    forall x | x in b[..|b| - 1] ensures StringValue(x) in s {
      var i :| 0 <= i < |b| - 1 && b[i] == x;
      assert x in b;
    }
  }

  lemma LastIfSplit(s: set<string>, b: seq<Expr>)
    requires Covers(s, b) && NoKeptBlank(b) && Survivors(s, b) + Missing(s, b) == b
    ensures BlanksLast(b)
  {
    var n := |Survivors(s, b)|;
    forall i, j | 0 <= i < j < |b| && StringValue(b[i]) == "" ensures StringValue(b[j]) == "" {
      if i < n {
        assert Survivors(s, b)[i] == b[i];
        SurvivorMember(s, b, b[i]);
      } else {
        assert Missing(s, b)[j - n] == b[j];
        MissingMember(s, b, b[j]);
      }
    }
  }

  lemma SplitIff(s: set<string>, b: seq<Expr>)
    requires Covers(s, b)
    ensures Survivors(s, b) + Missing(s, b) == b <==> BlanksLast(b) && NoKeptBlank(b)
  {
    SplitLength(s, b);
    if BlanksLast(b) && NoKeptBlank(b) { SplitIfLast(s, b); }
    if Survivors(s, b) + Missing(s, b) == b { LastIfSplit(s, b); }
  }

  lemma Cancel(a: seq<Expr>, x: seq<Expr>, y: seq<Expr>, b: seq<Expr>)
    ensures a + x + y == a + b <==> x + y == b
  {
    assert (a + x + y)[|a|..] == x + y && (a + b)[|a|..] == b;
    assert a + x + y == a + (x + y);
  }

  lemma {:induction false} NoneMissing(kept: set<string>, elems: seq<Expr>)
    requires forall e | e in elems :: StringValue(e) in kept
    ensures Missing(kept, elems) == []
  {
    if elems != [] {
      forall e | e in elems[..|elems| - 1] ensures e in elems {}
      NoneMissing(kept, elems[..|elems| - 1]);
      assert elems[|elems| - 1] in elems;
    }
  }

  /** Exactly when merging the same elements again changes nothing: of what the first
      merge brings in, elements without a string come last and are not kept. */
  lemma MergeElemsIdempotentIff(src: seq<Expr>, dst: seq<Expr>)
    ensures var b := Missing(Strings(Survivors(Strings(src), dst)), src);
            MergedElems(src, MergedElems(src, dst)) == MergedElems(src, dst) <==> BlanksLast(b) && NoKeptBlank(b)
  {
    var s := Strings(src);
    var a := Survivors(s, dst);
    var b := Missing(Strings(a), src);
    MergedTwice(src, dst);
    forall e | e in b ensures StringValue(e) == "" <==> StringValue(e) !in s { MissingMember(Strings(a), src, e); }
    SplitIff(s, b);
    Cancel(a, Survivors(s, b), Missing(s, b), b);
  }

  /** A generated list: non-empty strings, none marked to be kept. */
  predicate Plain(l: List) {
    !l.keep && (l.elems == [] ==> !l.multiLine) && forall e | e in l.elems :: StringValue(e) != "" && !ShouldKeep(e)
  }

  /** Merging the same generated list again changes nothing, whatever it was merged into. */
  lemma MergeListIdempotent(src: Option<List>, dst: Option<List>)
    requires src.Some? ==> Plain(src.value) && src.value.elems != []
    ensures MergedList(src, MergedList(src, dst)) == MergedList(src, dst)
  {
    var s := if src.Some? then src.value else EMPTY;
    var d := if dst.Some? then dst.value else EMPTY;
    MergePlainTwice(s.elems, d.elems);
    if dst.None? && src.Some? {
      SrcIntoItself(s.elems);
    }
    if src.Some? {
      SomethingStays(s.elems, d.elems);
    }
  }

  lemma SomethingStays(src: seq<Expr>, dst: seq<Expr>)
    requires exists e | e in src :: StringValue(e) != ""
    ensures MergedElems(src, dst) != []
  {
    var e :| e in src && StringValue(e) != "";
    MergedStrings(src, dst);
    assert StringValue(e) in Strings(src);
    assert StringValue(e) in Strings(MergedElems(src, dst));
  }

  lemma MergePlainTwice(src: seq<Expr>, dst: seq<Expr>)
    requires forall e | e in src :: StringValue(e) != "" && !ShouldKeep(e)
    ensures MergedElems(src, MergedElems(src, dst)) == MergedElems(src, dst)
    ensures AnyKeep(Survivors(Strings(src), MergedElems(src, dst))) ==> AnyKeep(Survivors(Strings(src), dst))
  {
    var a := Survivors(Strings(src), dst);
    var b := Missing(Strings(a), src);
    forall e | e in b ensures StringValue(e) != "" && !ShouldKeep(e) { MissingMember(Strings(a), src, e); }
    MergeElemsIdempotentIff(src, dst);
    forall e | e in Survivors(Strings(src), MergedElems(src, dst)) && ShouldKeep(e) ensures e in a {
      SurvivorMember(Strings(src), MergedElems(src, dst), e);
    }
  }

  lemma SrcIntoItself(src: seq<Expr>)
    requires forall e | e in src :: StringValue(e) != "" && !ShouldKeep(e)
    ensures MergedElems(src, src) == src && !AnyKeep(Survivors(Strings(src), src))
  {
    AllSurvive(Strings(src), src);
    NoneMissing(Strings(src), src);
  }

  lemma {:induction false} AllMissing(elems: seq<Expr>)
    ensures Missing({}, elems) == elems
  {
    if elems != [] {
      AllMissing(elems[..|elems| - 1]);
      assert elems == elems[..|elems| - 1] + [elems[|elems| - 1]];
    }
  }

  /** A generated list with a call before a string is not settled by one merge. */
  lemma CallMovesBack(f: Expr, s: Expr)
    requires StringValue(f) == "" && StringValue(s) != ""
    ensures MergedElems([f, s], MergedElems([f, s], [])) != MergedElems([f, s], [])
  {
    MergeElemsIdempotentIff([f, s], []);
    assert Strings([]) == {};
    AllMissing([f, s]);
    assert !BlanksLast([f, s]) by {
      assert StringValue([f, s][0]) == "" && StringValue([f, s][1]) != "";
    }
  }

  /** For a generated list, exactly when merging it again changes nothing: not if it is
      empty and nothing of the destination is kept. */
  lemma MergeListIdempotentIff(src: Option<List>, dst: Option<List>)
    requires src.Some? ==> Plain(src.value)
    ensures MergedList(src, MergedList(src, dst)) == MergedList(src, dst) <==>
            !(src == Some(EMPTY) && (dst.None? || !AnyKeep(dst.value.elems)))
  {
    if src.None? || src.value.elems != [] {
      MergeListIdempotent(src, dst);
    } else {
      assert src == Some(EMPTY) && Strings([]) == {};
      if dst.Some? {
        EmptyIntoList(dst.value);
      }
    }
  }

  lemma EmptyIntoList(dst: List)
    ensures MergedList(Some(EMPTY), Some(dst)).Some? <==> AnyKeep(dst.elems)
    ensures var r := MergedList(Some(EMPTY), Some(dst)); r.Some? ==> MergedList(Some(EMPTY), r) == r
  {
    assert Strings([]) == {};
    var a := Survivors({}, dst.elems);
    assert MergedElems([], dst.elems) == a;
    forall e ensures e in a <==> e in dst.elems && ShouldKeep(e) {
      SurvivorMember({}, dst.elems, e);
    }
    if a != [] {
      assert a[0] in a;
      AllSurvive({}, a);
      assert MergedElems([], a) == a;
    }
  }

  /** An empty generated list comes and goes with every merge. */
  lemma EmptyListOscillates(multiLine: bool)
    ensures var src := Some(List([], multiLine, false));
            MergedList(src, None) == src && MergedList(src, src) == None
  {
    assert Strings([]) == {};
  }
}
