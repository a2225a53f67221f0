/** Generating again what was generated before: when merging a rule a second time leaves
    the build file as it is. */
module MergeIdempotence {
  import opened Options
  import opened BuildExprs
  import opened MergeLists
  import opened MergeDicts
  import opened MergedSelects
  import opened MergeRules

  // ------------------------------------------------------------ generated values

  /** The parts of a generated value. */
  ghost predicate GeneratedParts(known: Known, ps: Parts) {
    && (ps.generic.Some? ==> Plain(ps.generic.value) && ps.generic.value.elems != [])
    && Generated(ps.os) && Generated(ps.arch) && Generated(ps.platform)
    && OfKind(known, ps.os, OSKind) && OfKind(known, ps.arch, ArchKind) && OfKind(known, ps.platform, PlatformKind)
  }

  /** A generated value: a plain scalar, or a list and selects. */
  ghost predicate GeneratedValue(known: Known, e: Expr) {
    && !ShouldKeep(e)
    && (!IsScalar(e) ==> exists ps :: GeneratedParts(known, ps) && Made(ps) == Some(e))
  }

  lemma MergedIsMultiLine(src: Option<Dict>, dst: Option<Dict>)
    requires Generated(src) && MergedDict(src, dst).Ok?
    ensures Force(MergedDict(src, dst).value, MultiDict) == MergedDict(src, dst).value
  {
  }

  lemma ForcedStillMerged(src: Option<List>, dst: Option<List>)
    requires src.Some? ==> Plain(src.value) && src.value.elems != []
    ensures var l := Force(MergedList(src, dst), MultiList); MergedList(src, l) == l
  {
    MergeListIdempotent(src, dst);
  }

  lemma PartsIdempotent(known: Known, src: Parts, dst: Parts)
    requires GeneratedParts(known, src) && MergedParts(src, dst).Ok?
    ensures var ps := Forced(MergedParts(src, dst).value); MergedParts(src, ps) == Ok(ps)
  {
    MergeListIdempotent(src.generic, dst.generic);
    ForcedStillMerged(src.generic, dst.generic);
    MergeDictIdempotent(src.os, dst.os);
    MergeDictIdempotent(src.arch, dst.arch);
    MergeDictIdempotent(src.platform, dst.platform);
    MergedIsMultiLine(src.os, dst.os);
    MergedIsMultiLine(src.arch, dst.arch);
    MergedIsMultiLine(src.platform, dst.platform);
  }

  lemma ForcedTwice(ps: Parts)
    ensures Forced(Forced(ps)) == Forced(ps) && Made(Forced(ps)) == Made(ps)
  {
    ForceAllParts(ps);
  }

  lemma ForcedGenerated(known: Known, ps: Parts)
    requires GeneratedParts(known, ps)
    ensures GeneratedParts(known, Forced(ps))
  {
    MergedIsMultiLine(ps.os, None);
    MergedIsMultiLine(ps.arch, None);
    MergedIsMultiLine(ps.platform, None);
  }

  lemma GeneratedKind(known: Known, d: Option<Dict>, kind: Kind)
    requires Generated(d) && OfKind(known, d, kind)
    ensures d.Some? ==> DictKind(known, d.value.cases) == Ok(kind)
  {
    SourceKinds(known, d, kind);
    KindOfOneKind(known, SourceCases(d), kind);
  }

  lemma GeneratedInPlace(known: Known, ps: Parts)
    requires GeneratedParts(known, ps)
    ensures InPlace(known, ps)
  {
    GeneratedKind(known, ps.os, OSKind);
    GeneratedKind(known, ps.arch, ArchKind);
    GeneratedKind(known, ps.platform, PlatformKind);
  }

  /** What is made is neither a scalar nor marked to be kept. */
  lemma MadeIsPlain(ps: Parts)
    requires Made(ps).Some? && (ps.generic.Some? ==> !ps.generic.value.keep)
    ensures !IsScalar(Made(ps).value) && !ShouldKeep(Made(ps).value)
  {
    var parts := PartsOf(Forced(ps));
    if |parts| == 1 {
      assert parts[0] in parts;
    }
  }

  lemma MergedIsPlain(known: Known, s: Parts, d: Parts)
    requires GeneratedParts(known, s) && MergedParts(s, d).Ok? && Made(MergedParts(s, d).value).Some?
    ensures var e := Made(MergedParts(s, d).value).value; !IsScalar(e) && !ShouldKeep(e)
  {
    MadeIsPlain(MergedParts(s, d).value);
  }

  /** The parts of a generated value, none if there is no value. */
  ghost function SourceParts(known: Known, src: Option<Expr>): (s: Parts)
    requires src.Some? ==> GeneratedValue(known, src.value) && !IsScalar(src.value)
    ensures GeneratedParts(known, s) && Made(s) == src && Forced(s) == s
    ensures src.Some? ==> Extracted(known, src.value) == Ok(s)
    ensures src.None? ==> s == NO_PARTS
  {
    if src.None? then NO_PARTS
    else
      var ps :| GeneratedParts(known, ps) && Made(ps) == src;
      GeneratedInPlace(known, ps);
      MadeThenExtracted(known, ps);
      ForcedGenerated(known, ps);
      ForcedTwice(ps);
      Forced(ps)
  }

  // --------------------------------------------------------- merging parts again

  lemma {:induction false} ReversedBag(parts: seq<Expr>)
    ensures multiset(Reversed(parts)) == multiset(parts)
  {
    if parts != [] {
      var n := |parts| - 1;
      ReversedBag(parts[..n]);
      assert parts == parts[..n] + [parts[n]];
    }
  }

  lemma PartsCanonical(ps: Parts)
    ensures forall e | e in PartsOf(ps) :: !e.Binary? && Recognise(e) == [e]
  {
    forall e | e in PartsOf(ps) ensures !e.Binary? && Recognise(e) == [e] {
      PartIs(ps, e);
    }
  }

  lemma PartIs(ps: Parts, e: Expr)
    requires e in PartsOf(ps)
    ensures e.ListE? || exists d :: e == Call(Some("select"), [DictE(d)], false)
  {
    assert e in ListPart(ps.generic) || e in SelectPart(ps.os) || e in SelectPart(ps.arch)
           || e in SelectPart(ps.platform);
  }

  lemma {:induction false} CanonicalParts(parts: seq<Expr>)
    requires forall e | e in parts :: Recognise(e) == [e]
    ensures Recognised(parts) == parts
  {
    if parts != [] {
      assert parts[0] in parts && parts == [parts[0]] + parts[1..];
      CanonicalParts(parts[1..]);
    }
  }

  lemma {:induction false} ReversedInjective(a: seq<Expr>, b: seq<Expr>)
    requires Reversed(a) == Reversed(b)
    ensures a == b
  {
    if a != [] && b != [] {
      var x, y := Reversed(a[..|a| - 1]), Reversed(b[..|b| - 1]);
      assert Reversed(a)[1..] == x && Reversed(b)[1..] == y;
      ReversedInjective(a[..|a| - 1], b[..|b| - 1]);
      assert a == a[..|a| - 1] + [a[|a| - 1]] && b == b[..|b| - 1] + [b[|b| - 1]];
    }
  }

  /** The chain determines the parts. */
  lemma ChainOfParts(a: Parts, b: Parts)
    requires PartsOf(a) != [] && PartsOf(b) != [] && Chain(PartsOf(a)) == Chain(PartsOf(b))
    ensures PartsOf(a) == PartsOf(b)
  {
    hide PartsOf, Chain, Reversed;
    PartsCanonical(a);
    PartsCanonical(b);
    OperandsOfChain(PartsOf(a));
    OperandsOfChain(PartsOf(b));
    ReversedInjective(PartsOf(a), PartsOf(b));
  }

  /** Extraction puts the parts of a chain into slots, none lost, though a select may
      come into another slot than it was made from. */
  lemma ExtractedAgain(known: Known, ps: Parts, x: Parts)
    requires PartsOf(ps) != [] && Extracted(known, Chain(PartsOf(ps))) == Ok(x)
    ensures InPlace(known, x) && multiset(PartsOf(x)) == multiset(PartsOf(ps))
  {
    hide PartsOf, Chain, Reversed, Recognise, Recognised, Extracted, InPlace;
    var parts := PartsOf(ps);
    PartsCanonical(ps);
    OperandsOfChain(parts);
    ReversedBag(parts);
    forall e | e in Reversed(parts) ensures Recognise(e) == [e] {
      assert e in multiset(Reversed(parts)) && e in multiset(parts);
    }
    CanonicalParts(Reversed(parts));
    ExtractionKeepsIff(known, Chain(parts));
  }

  /** A part of one is a part of the other. */
  lemma SameBag(ps: Parts, x: Parts, e: Expr)
    requires multiset(PartsOf(x)) == multiset(PartsOf(ps))
    ensures e in PartsOf(ps) <==> e in PartsOf(x)
  {
    assert e in multiset(PartsOf(ps)) <==> e in PartsOf(ps);
    assert e in multiset(PartsOf(x)) <==> e in PartsOf(x);
  }

  lemma PartIn(ps: Parts)
    ensures forall l :: ListE(l) in PartsOf(ps) <==> ps.generic == Some(l)
    ensures forall d :: Call(Some("select"), [DictE(d)], false) in PartsOf(ps) <==>
                        ps.os == Some(d) || ps.arch == Some(d) || ps.platform == Some(d)
  {
    forall l ensures ListE(l) in PartsOf(ps) <==> ps.generic == Some(l) {
      if ps.generic == Some(l) {
        assert PartsOf(ps)[0] == ListE(l);
      }
    }
    forall d ensures Call(Some("select"), [DictE(d)], false) in PartsOf(ps) <==>
                     ps.os == Some(d) || ps.arch == Some(d) || ps.platform == Some(d)
    {
      var c := Call(Some("select"), [DictE(d)], false);
      assert forall o :: c in SelectPart(o) <==> o == Some(d);
    }
  }

  lemma CameFrom(ps: Parts, x: Parts, q: Kind) returns (p: Kind)
    requires multiset(PartsOf(x)) == multiset(PartsOf(ps)) && Slot(x, q).Some?
    ensures Slot(ps, p) == Slot(x, q)
  {
    hide PartsOf;
    var d := Slot(x, q).value;
    PartIn(ps);
    PartIn(x);
    SameBag(ps, x, Call(Some("select"), [DictE(d)], false));
    p := if ps.os == Some(d) then OSKind else if ps.arch == Some(d) then ArchKind else PlatformKind;
  }

  lemma SameGeneric(ps: Parts, x: Parts)
    requires multiset(PartsOf(x)) == multiset(PartsOf(ps))
    ensures x.generic == ps.generic
  {
    hide PartsOf;
    PartIn(ps);
    PartIn(x);
    if x.generic.Some? { SameBag(ps, x, ListE(x.generic.value)); }
    if ps.generic.Some? { SameBag(ps, x, ListE(ps.generic.value)); }
  }

  lemma SlotsMerged(s: Parts, d: Parts, kind: Kind)
    requires MergedParts(s, d).Ok?
    ensures MergedDict(Slot(s, kind), Slot(d, kind)) == Ok(Slot(MergedParts(s, d).value, kind))
  {
  }

  lemma SlotGenerated(known: Known, s: Parts, kind: Kind)
    requires GeneratedParts(known, s)
    ensures Generated(Slot(s, kind)) && OfKind(known, Slot(s, kind), kind)
  {
  }

  lemma SlotForced(known: Known, s: Parts, d: Parts, kind: Kind)
    requires GeneratedParts(known, s) && MergedParts(s, d).Ok?
    ensures Slot(Forced(MergedParts(s, d).value), kind) == Slot(MergedParts(s, d).value, kind)
  {
    SlotsMerged(s, d, kind);
    SlotGenerated(known, s, kind);
    MergedIsMultiLine(Slot(s, kind), Slot(d, kind));
  }

  /** A select of the first result, in whatever slot it comes, is of the kind of that
      slot when it has been merged there. */
  lemma SlotAgain(known: Known, s: Parts, d: Parts, x: Parts, q: Kind)
    requires GeneratedParts(known, s) && MergedParts(s, d).Ok? && InPlace(known, x)
    requires multiset(PartsOf(x)) == multiset(PartsOf(Forced(MergedParts(s, d).value)))
    ensures var r := MergedDict(Slot(s, q), Slot(x, q));
            r.Ok? && (r.value.Some? ==> DictKind(known, r.value.value.cases) == Ok(q))
  {
    hide PartsOf, Forced, MergedParts, DictKind, GeneratedParts, MergedDict;
    var ps := MergedParts(s, d).value;
    SlotGenerated(known, s, q);
    if Slot(x, q).None? {
      IntoNothing(Slot(s, q));
      GeneratedKind(known, Slot(s, q), q);
    } else {
      var p := CameFrom(Forced(ps), x, q);
      SlotGenerated(known, s, p);
      SlotForced(known, s, d, p);
      SlotsMerged(s, d, p);
      MovedKind(known, Slot(s, p), Slot(d, p), p, Slot(s, q), q);
    }
  }

  lemma IntoNothing(src: Option<Dict>)
    ensures MergedDict(src, None) == Ok(src)
  {
  }

  /** After the second merge every select is in the slot of its kind, whatever was merged
      into first. */
  lemma SecondInPlace(known: Known, s: Parts, d: Parts, x: Parts)
    requires GeneratedParts(known, s) && MergedParts(s, d).Ok? && Made(MergedParts(s, d).value).Some?
    requires Extracted(known, Made(MergedParts(s, d).value).value) == Ok(x)
    ensures multiset(PartsOf(x)) == multiset(PartsOf(Forced(MergedParts(s, d).value)))
    ensures MergedParts(s, x).Ok? && InPlace(known, MergedParts(s, x).value)
  {
    hide PartsOf, Forced, MergedDict, Extracted, DictKind, GeneratedParts, Chain;
    var ps := Forced(MergedParts(s, d).value);
    ExtractedAgain(known, ps, x);
    SlotAgain(known, s, d, x, OSKind);
    SlotAgain(known, s, d, x, ArchKind);
    SlotAgain(known, s, d, x, PlatformKind);
  }

  /** The selects that a merge has left, when they are read back: they are read in the
      same order, though perhaps as selects of another kind, and the source leaves each
      alone in its slot. What cannot be read back stays. */
  ghost predicate SelectsSettle(known: Known, s: Parts, ps: Parts)
    requires Made(ps).Some?
  {
    match Extracted(known, Made(ps).value)
    case Err(_) => true
    case Ok(x) =>
      && PartsOf(x) == PartsOf(Forced(ps))
      && LeavesAlone(s.os, x.os) && LeavesAlone(s.arch, x.arch) && LeavesAlone(s.platform, x.platform)
  }

  lemma ForcedSame(ps: Parts, x: Parts)
    requires PartsOf(x) == PartsOf(Forced(ps))
    ensures PartsOf(Forced(x)) == PartsOf(Forced(ps))
  {
    ForceAllParts(x);
    ForceAllParts(ps);
    ForcedTwice(ps);
    ForceAllParts(Forced(ps));
  }

  /** Merging parts again gives the same value exactly if the selects settle. */
  lemma PartsAgainIff(known: Known, s: Parts, d: Parts, x: Parts)
    requires GeneratedParts(known, s) && MergedParts(s, d).Ok? && Made(MergedParts(s, d).value).Some?
    requires Extracted(known, Made(MergedParts(s, d).value).value) == Ok(x)
    ensures MergedParts(s, x).Ok?
    ensures Made(MergedParts(s, x).value) == Made(MergedParts(s, d).value) <==>
            SelectsSettle(known, s, MergedParts(s, d).value)
  {
    var ps := MergedParts(s, d).value;
    SecondInPlace(known, s, d, x);
    var y := MergedParts(s, x).value;
    if SelectsSettle(known, s, ps) {
      SettledSame(known, s, d, x);
    }
    if Made(y) == Made(ps) {
      SameSettled(known, s, ps, x, y);
    }
  }

  lemma SettledSame(known: Known, s: Parts, d: Parts, x: Parts)
    requires GeneratedParts(known, s) && MergedParts(s, d).Ok? && Made(MergedParts(s, d).value).Some?
    requires multiset(PartsOf(x)) == multiset(PartsOf(Forced(MergedParts(s, d).value)))
    requires PartsOf(x) == PartsOf(Forced(MergedParts(s, d).value))
    requires LeavesAlone(s.os, x.os) && LeavesAlone(s.arch, x.arch) && LeavesAlone(s.platform, x.platform)
    ensures MergedParts(s, x) == Ok(x) && Made(x) == Made(MergedParts(s, d).value)
  {
    var ps := MergedParts(s, d).value;
    SameGeneric(Forced(ps), x);
    MergeListIdempotent(s.generic, d.generic);
    ForcedStillMerged(s.generic, d.generic);
    ForcedSame(ps, x);
  }

  lemma SameSettled(known: Known, s: Parts, ps: Parts, x: Parts, y: Parts)
    requires GeneratedParts(known, s) && Made(ps).Some? && Extracted(known, Made(ps).value) == Ok(x)
    requires MergedParts(s, x) == Ok(y) && InPlace(known, y) && Made(y) == Made(ps)
    ensures SelectsSettle(known, s, ps)
  {
    hide PartsOf, Chain, Extracted, GeneratedParts, InPlace;
    MadeThenExtracted(known, y);
    ChainOfParts(Forced(y), Forced(ps));
    SlotForced(known, s, x, OSKind);
    SlotForced(known, s, x, ArchKind);
    SlotForced(known, s, x, PlatformKind);
  }

  // ------------------------------------------------------------ merging values again

  /** The parts that merging leaves, where source and old value are merged part by part. */
  ghost function OnceMerged(known: Known, src: Option<Expr>, rhs: Expr): Matched<Parts>
    requires src.Some? ==> GeneratedValue(known, src.value) && !IsScalar(src.value)
  {
    match Extracted(known, rhs)
    case Err(err) => Err(err)
    case Ok(d) => MergedParts(SourceParts(known, src), d)
  }

  /** Exactly when merging settles after one step: a kept assignment is not touched, a
      value with a mark of its own is deleted, to come back if the source has one,
      scalars are replaced, and where parts are merged the selects have to settle. */
  ghost predicate Settles(known: Known, src: Option<Expr>, dst: Attr)
    requires src.Some? ==> GeneratedValue(known, src.value)
  {
    if dst.keep then true
    else if ShouldKeep(dst.rhs) then src.None?
    else if src.Some? && IsScalar(src.value) then true
    else if src.None? && IsScalar(dst.rhs) then true
    else
      match OnceMerged(known, src, dst.rhs)
      case Err(_) => true
      case Ok(ps) => Made(ps).Some? ==> SelectsSettle(known, SourceParts(known, src), ps)
  }

  /** What an assignment comes to, none if it goes. */
  ghost function Next(known: Known, src: Option<Expr>, dst: Attr): Option<Attr> {
    match MergedAttr(known, src, dst)
    case Err(_) => Some(dst)
    case Ok(None) => None
    case Ok(Some(e)) => Some(Attr(e, dst.keep))
  }

  lemma NextOfParts(known: Known, src: Option<Expr>, dst: Attr)
    requires src.Some? ==> GeneratedValue(known, src.value) && !IsScalar(src.value)
    requires !dst.keep && !ShouldKeep(dst.rhs) && !(src.None? && IsScalar(dst.rhs))
    ensures Next(known, src, dst) ==
            match OnceMerged(known, src, dst.rhs)
            case Err(_) => Some(dst)
            case Ok(ps) => if Made(ps).Some? then Some(Attr(Made(ps).value, false)) else None
  {
  }

  /** Where parts are merged: what merging the result again comes to. */
  lemma NextTwice(known: Known, src: Option<Expr>, dst: Attr)
    requires src.Some? ==> GeneratedValue(known, src.value) && !IsScalar(src.value)
    requires !dst.keep && !ShouldKeep(dst.rhs) && !(src.None? && IsScalar(dst.rhs))
    requires OnceMerged(known, src, dst.rhs).Ok? && Made(OnceMerged(known, src, dst.rhs).value).Some?
    ensures var e := Made(OnceMerged(known, src, dst.rhs).value).value;
            && !IsScalar(e) && !ShouldKeep(e)
            && (Next(known, src, Attr(e, false)) == Some(Attr(e, false)) <==> Settles(known, src, dst))
  {
    var s, d := SourceParts(known, src), Extracted(known, dst.rhs).value;
    var ps := OnceMerged(known, src, dst.rhs).value;
    var e := Made(ps).value;
    MergedIsPlain(known, s, d);
    NextOfParts(known, src, Attr(e, false));
    if Extracted(known, e).Ok? {
      PartsAgainIff(known, s, d, Extracted(known, e).value);
    }
  }

  lemma PartsThrice(known: Known, s: Parts, d: Parts, x: Parts)
    requires GeneratedParts(known, s) && MergedParts(s, d).Ok? && Made(MergedParts(s, d).value).Some?
    requires Extracted(known, Made(MergedParts(s, d).value).value) == Ok(x)
    requires MergedParts(s, x).Ok? && Made(MergedParts(s, x).value).Some?
    ensures var y := MergedParts(s, x).value;
            && Extracted(known, Made(y).value) == Ok(Forced(y))
            && MergedParts(s, Forced(y)) == Ok(Forced(y)) && Made(Forced(y)) == Made(y)
            && !IsScalar(Made(y).value) && !ShouldKeep(Made(y).value)
  {
    hide Made, PartsOf, Forced, MergedParts, Extracted, GeneratedParts, InPlace;
    var y := MergedParts(s, x).value;
    SecondInPlace(known, s, d, x);
    MadeThenExtracted(known, y);
    PartsIdempotent(known, s, x);
    ForcedTwice(y);
    MergedIsPlain(known, s, x);
  }

  /** A second merge may still change a value; a third does not. */
  lemma NextThrice(known: Known, src: Option<Expr>, dst: Attr)
    requires src.Some? ==> GeneratedValue(known, src.value) && !IsScalar(src.value)
    requires !dst.keep && !ShouldKeep(dst.rhs) && !(src.None? && IsScalar(dst.rhs))
    requires OnceMerged(known, src, dst.rhs).Ok? && Made(OnceMerged(known, src, dst.rhs).value).Some?
    ensures var b := Next(known, src, Attr(Made(OnceMerged(known, src, dst.rhs).value).value, false));
            b.Some? ==> Next(known, src, b.value) == b
  {
    hide MergedParts, Made, Extracted, Forced, SelectsSettle, GeneratedParts, GeneratedValue;
    var s, d := SourceParts(known, src), Extracted(known, dst.rhs).value;
    var e := Made(OnceMerged(known, src, dst.rhs).value).value;
    NextTwice(known, src, dst);
    NextOfParts(known, src, Attr(e, false));
    if OnceMerged(known, src, e).Ok? && Made(OnceMerged(known, src, e).value).Some? {
      var y := OnceMerged(known, src, e).value;
      PartsThrice(known, s, d, Extracted(known, e).value);
      NextOfParts(known, src, Attr(Made(y).value, false));
    }
  }

  // ------------------------------------------------------- generated values survive

  lemma SomeParts(ps: Parts)
    ensures Made(ps).Some? <==> ps.generic.Some? || ps.os.Some? || ps.arch.Some? || ps.platform.Some?
  {
    ForceAllParts(ps);
  }

  lemma SomePartStays(known: Known, s: Parts, d: Parts)
    requires GeneratedParts(known, s) && Made(s).Some? && MergedParts(s, d).Ok?
    ensures Made(MergedParts(s, d).value).Some?
  {
    var ps := MergedParts(s, d).value;
    if s.generic.Some? {
      assert s.generic.value.elems[0] in s.generic.value.elems;
      if d.generic.Some? { SomethingStays(s.generic.value.elems, d.generic.value.elems); }
    }
    MergedShape(s.os, d.os);
    MergedShape(s.arch, d.arch);
    MergedShape(s.platform, d.platform);
    SomeParts(s);
    SomeParts(ps);
  }

  /** A generated value is not lost, unless the old value is marked and its assignment
      is not. */
  lemma GeneratedStays(known: Known, src: Expr, dst: Attr)
    requires GeneratedValue(known, src) && (dst.keep || !ShouldKeep(dst.rhs))
    ensures MergedAttr(known, Some(src), dst) != Ok(None)
  {
    if !dst.keep && !IsScalar(src) && MergedAttr(known, Some(src), dst).Ok? {
      SomePartStays(known, SourceParts(known, Some(src)), Extracted(known, dst.rhs).value);
    }
  }

  lemma SrcIntoItself(known: Known, src: Expr)
    requires GeneratedValue(known, src)
    ensures Next(known, Some(src), Attr(src, false)) == Some(Attr(src, false))
  {
    if !IsScalar(src) {
      var s := SourceParts(known, Some(src));
      PartsIdempotent(known, s, NO_PARTS);
    }
  }

  // ----------------------------------------------------------------------- rules

  /** One merge of an attribute, which may be missing. */
  ghost function Step(known: Known, src: Option<Expr>, mergeable: bool, a: Option<Attr>): Option<Attr> {
    if a.None? then (if src.Some? then Some(Attr(src.value, false)) else None)
    else if mergeable then Next(known, src, a.value)
    else a
  }

  function RhsAt(attrs: Attrs, key: string): Option<Expr> {
    if key in attrs then Some(attrs[key].rhs) else None
  }

  function AttrAt(attrs: Attrs, key: string): Option<Attr> {
    if key in attrs then Some(attrs[key]) else None
  }

  lemma NewAttrIsStep(known: Known, src: Attrs, dst: Attrs, mergeable: set<string>, key: string)
    ensures NewAttr(known, src, dst, mergeable, key) == Step(known, RhsAt(src, key), key in mergeable, AttrAt(dst, key))
  {
  }

  lemma StepTwiceIff(known: Known, src: Option<Expr>, mergeable: bool, a: Option<Attr>)
    requires src.Some? ==> GeneratedValue(known, src.value)
    ensures var b := Step(known, src, mergeable, a);
            Step(known, src, mergeable, b) == b <==> (a.Some? && mergeable ==> Settles(known, src, a.value))
  {
    hide Made, MergedParts, Extracted, SelectsSettle;
    if src.Some? { SrcIntoItself(known, src.value); }
    if a.Some? && mergeable && !a.value.keep && !ShouldKeep(a.value.rhs) && !(src.Some? && IsScalar(src.value))
       && !(src.None? && IsScalar(a.value.rhs)) {
      NextOfParts(known, src, a.value);
      if src.Some? { GeneratedStays(known, src.value, a.value); }
      var ps := OnceMerged(known, src, a.value.rhs);
      if ps.Ok? && Made(ps.value).Some? {
        NextTwice(known, src, a.value);
      }
    }
  }

  lemma StepThrice(known: Known, src: Option<Expr>, mergeable: bool, a: Option<Attr>)
    requires src.Some? ==> GeneratedValue(known, src.value)
    ensures var b := Step(known, src, mergeable, Step(known, src, mergeable, a)); Step(known, src, mergeable, b) == b
  {
    hide Made, MergedParts, Extracted, SelectsSettle;
    if src.Some? { SrcIntoItself(known, src.value); }
    StepTwiceIff(known, src, mergeable, a);
    if a.Some? && mergeable && !Settles(known, src, a.value) && !ShouldKeep(a.value.rhs) {
      NextOfParts(known, src, a.value);
      NextTwice(known, src, a.value);
      NextThrice(known, src, a.value);
      if src.Some? {
        GeneratedStays(known, src.value, Attr(Made(OnceMerged(known, src, a.value.rhs).value).value, false));
      }
    }
  }

  /** Merging the same generated rule again changes nothing, exactly if every attribute
      that is merged settles. */
  lemma MergeRulesIdempotentIff(known: Known, src: Attrs, dst: Attrs, mergeable: set<string>)
    requires forall key | key in src :: GeneratedValue(known, src[key].rhs)
    ensures NewAttrs(known, src, NewAttrs(known, src, dst, mergeable), mergeable) ==
              NewAttrs(known, src, dst, mergeable)
            <==> forall key | key in dst && key in mergeable :: Settles(known, RhsAt(src, key), dst[key])
  {
    hide Settles, Step;
    var once := NewAttrs(known, src, dst, mergeable);
    var twice := NewAttrs(known, src, once, mergeable);
    forall key
      ensures AttrAt(twice, key) == AttrAt(once, key) <==>
              (key in dst && key in mergeable ==> Settles(known, RhsAt(src, key), dst[key]))
    {
      AttrOfNew(known, src, dst, mergeable, key);
      AttrOfNew(known, src, once, mergeable, key);
      StepTwiceIff(known, RhsAt(src, key), key in mergeable, AttrAt(dst, key));
    }
    SameAttrs(once, twice);
  }

  lemma AttrOfNew(known: Known, src: Attrs, dst: Attrs, mergeable: set<string>, key: string)
    ensures AttrAt(NewAttrs(known, src, dst, mergeable), key) ==
            Step(known, RhsAt(src, key), key in mergeable, AttrAt(dst, key))
  {
    NewAttrIsStep(known, src, dst, mergeable, key);
  }

  lemma SameAttrs(a: Attrs, b: Attrs)
    ensures a == b <==> forall key :: AttrAt(a, key) == AttrAt(b, key)
  {
    if forall key :: AttrAt(a, key) == AttrAt(b, key) {
      forall key ensures (key in a <==> key in b) && (key in a ==> a[key] == b[key]) {
        assert AttrAt(a, key) == AttrAt(b, key);
      }
    }
  }

  /** Whatever a generated rule is merged into: from the second merge on nothing
      changes. */
  lemma MergeRulesSettle(known: Known, src: Attrs, dst: Attrs, mergeable: set<string>)
    requires forall key | key in src :: GeneratedValue(known, src[key].rhs)
    ensures var twice := NewAttrs(known, src, NewAttrs(known, src, dst, mergeable), mergeable);
            NewAttrs(known, src, twice, mergeable) == twice
  {
    hide Step;
    var once := NewAttrs(known, src, dst, mergeable);
    var twice := NewAttrs(known, src, once, mergeable);
    var thrice := NewAttrs(known, src, twice, mergeable);
    forall key ensures AttrAt(thrice, key) == AttrAt(twice, key) {
      AttrOfNew(known, src, dst, mergeable, key);
      AttrOfNew(known, src, once, mergeable, key);
      AttrOfNew(known, src, twice, mergeable, key);
      StepThrice(known, RhsAt(src, key), key in mergeable, AttrAt(dst, key));
    }
    SameAttrs(thrice, twice);
  }
}
