/** What merging a generated rule leaves of each attribute, read off the expressions. */
module MergeOutcomes {
  import opened Options
  import opened BuildExprs
  import opened MergeLists
  import opened MergeDicts
  import opened MergedSelects
  import opened MergeRules
  import opened MergeIdempotence
  import opened MergeLosses

  // ---------------------------------------------------------- strings of expressions

  ghost predicate Holds(elems: seq<Expr>, t: string, keptOnly: bool) {
    exists x :: x in elems && StringValue(x) == t && (keptOnly ==> ShouldKeep(x))
  }

  /** The string, or the string with a mark, is in a list that is an operand. */
  ghost predicate InLists(e: Expr, t: string, keptOnly: bool) {
    exists l: List :: ListE(l) in Operands(e) && Holds(l.elems, t, keptOnly)
  }

  /** It is under this key of a select. */
  ghost predicate UnderKey(d: Dict, k: string, t: string, keptOnly: bool) {
    exists c ::
      c in d.cases && c.key.Str? && c.key.value == k && c.value.ListE? && Holds(c.value.list.elems, t, keptOnly)
  }

  predicate IsSelectOf(o: Expr, d: Dict) {
    o.Call? && o.args == [DictE(d)]
  }

  /** It is under this key of a select that is an operand. */
  ghost predicate InSelects(e: Expr, k: string, t: string, keptOnly: bool) {
    exists o, d :: o in Operands(e) && IsSelectOf(o, d) && UnderKey(d, k, t, keptOnly)
  }

  // --------------------------------------------------------------- strings of parts

  ghost predicate InPart(l: Option<List>, t: string, keptOnly: bool) {
    l.Some? && Holds(l.value.elems, t, keptOnly)
  }

  ghost predicate InSlot(d: Option<Dict>, k: string, t: string, keptOnly: bool) {
    d.Some? && UnderKey(d.value, k, t, keptOnly)
  }

  ghost predicate InSomeSlot(ps: Parts, k: string, t: string, keptOnly: bool) {
    InSlot(ps.os, k, t, keptOnly) || InSlot(ps.arch, k, t, keptOnly) || InSlot(ps.platform, k, t, keptOnly)
  }

  lemma {:induction false} RecognisedMember(operands: seq<Expr>, o: Expr)
    ensures o in Recognised(operands) <==> exists p :: p in operands && Recognise(p) == [o]
  {
    if operands != [] {
      RecognisedMember(operands[1..], o);
      assert operands == [operands[0]] + operands[1..];
      assert Recognise(operands[0]) != [] ==> |Recognise(operands[0])| == 1;
    }
  }

  /** What extraction finds, it finds in the expression. */
  lemma ExtractedHolds(known: Known, e: Expr, k: string, t: string, keptOnly: bool)
    requires Extracted(known, e).Ok?
    ensures var x := Extracted(known, e).value;
            && (InLists(e, t, keptOnly) <==> InPart(x.generic, t, keptOnly))
            && (InSelects(e, k, t, keptOnly) <==> InSomeSlot(x, k, t, keptOnly))
  {
    hide Extracted, Operands, PartsOf, Recognised, InPlace, UnderKey, Holds;
    var x := Extracted(known, e).value;
    ExtractionKeepsIff(known, e);
    PartIn(x);
    forall l: List ensures ListE(l) in Operands(e) <==> x.generic == Some(l) {
      SameMember(PartsOf(x), Recognised(Operands(e)), ListE(l));
      RecognisedMember(Operands(e), ListE(l));
      assert Recognise(ListE(l)) == [ListE(l)];
    }
    forall d: Dict ensures (exists o :: o in Operands(e) && IsSelectOf(o, d)) <==>
                           x.os == Some(d) || x.arch == Some(d) || x.platform == Some(d)
    {
      var c := Call(Some("select"), [DictE(d)], false);
      SameMember(PartsOf(x), Recognised(Operands(e)), c);
      RecognisedMember(Operands(e), c);
      forall o ensures IsSelectOf(o, d) <==> Recognise(o) == [c] {}
    }
  }

  lemma SameMember(a: seq<Expr>, b: seq<Expr>, x: Expr)
    requires multiset(a) == multiset(b)
    ensures x in a <==> x in b
  {
    assert x in multiset(a) <==> x in a;
    assert x in multiset(b) <==> x in b;
  }

  /** What is made of parts has the strings of the parts. */
  lemma MadeHolds(ps: Parts, k: string, t: string, keptOnly: bool)
    requires Made(ps).Some?
    ensures InLists(Made(ps).value, t, keptOnly) <==> InPart(ps.generic, t, keptOnly)
    ensures InSelects(Made(ps).value, k, t, keptOnly) <==> InSomeSlot(ps, k, t, keptOnly)
  {
    hide PartsOf, Chain, Reversed, Operands, Holds;
    var forced := Forced(ps);
    var parts := PartsOf(forced);
    PartsCanonical(forced);
    OperandsOfChain(parts);
    ReversedBag(parts);
    PartIn(forced);
    forall x ensures x in Operands(Made(ps).value) <==> x in parts {
      SameMember(Reversed(parts), parts, x);
    }
    forall d: Dict, o ensures o in parts && IsSelectOf(o, d) ==> o == Call(Some("select"), [DictE(d)], false) {
      if o in parts { assert Recognise(o) == [o]; }
    }
    ForcedHolds(ps, k, t, keptOnly);
  }

  lemma ForcedHolds(ps: Parts, k: string, t: string, keptOnly: bool)
    ensures InPart(Forced(ps).generic, t, keptOnly) <==> InPart(ps.generic, t, keptOnly)
    ensures InSomeSlot(Forced(ps), k, t, keptOnly) <==> InSomeSlot(ps, k, t, keptOnly)
  {
    hide PartsOf, Holds;
  }

  // ---------------------------------------------------------------- what is merged

  /** Of a list: the source's strings and the kept ones. */
  lemma ListMerged(src: Option<List>, dst: Option<List>, t: string)
    requires t != ""
    ensures InPart(MergedList(src, dst), t, false) <==> InPart(src, t, false) || InPart(dst, t, true)
  {
    if dst.Some? {
      var s := if src.Some? then src.value.elems else [];
      MergedStrings(s, dst.value.elems);
      assert t in Strings(MergedElems(s, dst.value.elems)) <==> Holds(MergedElems(s, dst.value.elems), t, false);
      assert t in Strings(s) <==> Holds(s, t, false);
      assert t in KeptStrings(dst.value.elems) <==> Holds(dst.value.elems, t, true);
      assert MergedElems(s, dst.value.elems) == [] ==> !Holds([], t, false);
    }
  }

  /** Strings under a key, in terms of the cases as they are read. */
  lemma UnderKeyRead(d: Dict, k: string, t: string, keptOnly: bool)
    requires Read(d.cases, true).Ok?
    ensures var m := Read(d.cases, true).value;
            UnderKey(d, k, t, keptOnly) <==> k in m && Holds(m[k].elems, t, keptOnly)
  {
    hide Holds;
    var m := Read(d.cases, true).value;
    ReadCases(d.cases, "", EMPTY);
    if k in m {
      ReadCases(d.cases, k, m[k]);
    }
    forall c | c in d.cases && c.key.value == k ensures k in m && m[k] == c.value.list {
      ReadCases(d.cases, k, c.value.list);
    }
  }

  lemma CaseMerged(k: string, src: Option<List>, dst: Option<List>, t: string)
    requires t != ""
    ensures InPart(MergedCase(k, src, dst), t, false) <==> InPart(src, t, false) || InPart(dst, t, true)
  {
    ListMerged(src, dst, t);
    assert !Holds([], t, false);
  }

  /** Of a select, under each key: the source's strings and the kept ones. */
  lemma SelectMerged(src: Option<Dict>, dst: Option<Dict>, k: string, t: string)
    requires Generated(src) && MergedDict(src, dst).Ok? && t != ""
    ensures InSlot(MergedDict(src, dst).value, k, t, false) <==> InSlot(src, k, t, false) || InSlot(dst, k, t, true)
  {
    hide Holds, DictOf, MergedCase, Read;
    var ms, m := SourceCases(src), MergedOf(src, dst);
    MergedIsAssembled(src, dst);
    UnderKeyRead(DictOf(m), k, t, false);
    ReadOfDict(ms, true);
    UnderKeyRead(DictOf(ms), k, t, false);
    if dst.Some? {
      var md := Read(dst.value.cases, true).value;
      UnderKeyRead(dst.value, k, t, true);
      CaseMerged(k, Get(ms, k), Get(md, k), t);
      DroppedIsEmpty(m, k, t);
    }
  }

  lemma DroppedIsEmpty(m: Cases, k: string, t: string)
    ensures Assembled(m).None? ==> !(k in m && Holds(m[k].elems, t, false))
  {
  }

  /** Of all parts, slot by slot. */
  lemma PartsMerged(known: Known, s: Parts, d: Parts, k: string, t: string)
    requires GeneratedParts(known, s) && MergedParts(s, d).Ok? && t != ""
    ensures var ps := MergedParts(s, d).value;
            && (InPart(ps.generic, t, false) <==> InPart(s.generic, t, false) || InPart(d.generic, t, true))
            && (InSlot(ps.os, k, t, false) <==> InSlot(s.os, k, t, false) || InSlot(d.os, k, t, true))
            && (InSlot(ps.arch, k, t, false) <==> InSlot(s.arch, k, t, false) || InSlot(d.arch, k, t, true))
            && (InSlot(ps.platform, k, t, false) <==>
                InSlot(s.platform, k, t, false) || InSlot(d.platform, k, t, true))
  {
    hide InPart, InSlot;
    ListMerged(s.generic, d.generic, t);
    SelectMerged(s.os, d.os, k, t);
    SelectMerged(s.arch, d.arch, k, t);
    SelectMerged(s.platform, d.platform, k, t);
  }

  // ----------------------------------------------------------------------- rules

  ghost predicate GivesList(src: Option<Expr>, t: string) {
    src.Some? && InLists(src.value, t, false)
  }

  ghost predicate GivesSelect(src: Option<Expr>, k: string, t: string) {
    src.Some? && InSelects(src.value, k, t, false)
  }

  /** The strings of the merged value, in its lists and under each key of its selects, are
      those of the generated value and the kept ones of the old value; if the attribute
      goes there are none. */
  lemma ValueMerged(known: Known, src: Option<Expr>, dst: Attr, k: string, t: string)
    requires src.Some? ==> GeneratedValue(known, src.value)
    requires MergedByParts(src, dst) && MergedAttr(known, src, dst).Ok? && t != ""
    ensures match MergedAttr(known, src, dst).value
            case None =>
              && !GivesList(src, t) && !InLists(dst.rhs, t, true)
              && !GivesSelect(src, k, t) && !InSelects(dst.rhs, k, t, true)
            case Some(e) =>
              && (InLists(e, t, false) <==> GivesList(src, t) || InLists(dst.rhs, t, true))
              && (InSelects(e, k, t, false) <==> GivesSelect(src, k, t) || InSelects(dst.rhs, k, t, true))
  {
    hide InLists, InSelects, InPart, InSlot, Made, Forced, Extracted, MergedParts, GeneratedParts, PartsOf;
    hide GeneratedValue;
    var s, d := SourceParts(known, src), Extracted(known, dst.rhs).value;
    var ps := MergedParts(s, d).value;
    PartsMerged(known, s, d, k, t);
    ExtractedHolds(known, dst.rhs, k, t, true);
    if src.Some? { ExtractedHolds(known, src.value, k, t, false); } else { NothingInNoParts(k, t); }
    if Made(ps).Some? {
      MadeHolds(ps, k, t, false);
    } else {
      NothingInNone(ps, k, t);
    }
  }

  lemma NothingInNoParts(k: string, t: string)
    ensures !InPart(NO_PARTS.generic, t, false) && !InSomeSlot(NO_PARTS, k, t, false)
  {
  }

  lemma NothingInNone(ps: Parts, k: string, t: string)
    requires Made(ps).None?
    ensures !InPart(ps.generic, t, false) && !InSomeSlot(ps, k, t, false)
  {
    SomeParts(ps);
  }

  /** What becomes of every attribute of a rule that a generated one is merged into. New
      attributes are taken over. Attributes that may not be merged, and kept assignments,
      stay. Otherwise a value with a mark of its own goes, a generated scalar replaces the
      old value, a scalar that is not generated goes, and lists and selects hold the
      generated strings and the kept ones, or stay if they cannot be merged. */
  lemma RuleMerged(known: Known, src: Attrs, dst: Attrs, mergeable: set<string>, key: string, k: string, t: string)
    requires (key in src ==> GeneratedValue(known, src[key].rhs)) && t != ""
    ensures var after := NewAttrs(known, src, dst, mergeable);
            var s := RhsAt(src, key);
            if key !in dst then
              (key in after <==> key in src) && (key in src ==> after[key] == Attr(src[key].rhs, false))
            else if key !in mergeable || dst[key].keep then key in after && after[key] == dst[key]
            else if ShouldKeep(dst[key].rhs) then key !in after
            else if s.Some? && (s.value.Str? || s.value.Scalar?) then key in after && after[key] == Attr(s.value, false)
            else if s.None? && (dst[key].rhs.Str? || dst[key].rhs.Scalar?) then key !in after
            else if MergedAttr(known, s, dst[key]).Err? then key in after && after[key] == dst[key]
            else if key !in after then
              && !GivesList(s, t) && !InLists(dst[key].rhs, t, true)
              && !GivesSelect(s, k, t) && !InSelects(dst[key].rhs, k, t, true)
            else
              && !after[key].keep
              && (InLists(after[key].rhs, t, false) <==> GivesList(s, t) || InLists(dst[key].rhs, t, true))
              && (InSelects(after[key].rhs, k, t, false) <==>
                  GivesSelect(s, k, t) || InSelects(dst[key].rhs, k, t, true))
  {
    hide InLists, InSelects, GeneratedValue, MergedParts, Extracted, Made;
    var s := RhsAt(src, key);
    if key in dst && key in mergeable && MergedByParts(s, dst[key]) && MergedAttr(known, s, dst[key]).Ok? {
      ValueMerged(known, s, dst[key], k, t);
    }
  }
}
