/** When merging twice differs from merging once, for selects with keys of one kind: a
    condition on the source and the old value. */
module MergeSwaps {
  import opened Options
  import opened BuildExprs
  import opened MergeLists
  import opened MergeDicts
  import opened MergedSelects
  import opened MergeRules
  import opened MergeIdempotence

  /** The keys of each select are of the kind of its slot. */
  predicate OneKind(known: Known, ps: Parts) {
    OfKind(known, ps.os, OSKind) && OfKind(known, ps.arch, ArchKind) && OfKind(known, ps.platform, PlatformKind)
  }

  /** The merged select of operating systems has nothing but a kept default, an arch
      select is left and no platform select. */
  predicate Swaps(s: Parts, d: Parts) {
    && Survives(s.os, d.os) && !SurvivesWithKey(s.os, d.os)
    && SurvivesWithKey(s.arch, d.arch)
    && !Survives(s.platform, d.platform)
  }

  // ------------------------------------------------------- what extraction finds

  /** A select of the given kind is added, if there is one. */
  function Placed(r: Matched<Parts>, kind: Kind, d: Option<Dict>): Matched<Parts> {
    match r
    case Err(err) => Err(err)
    case Ok(ps) =>
      if d.None? then r
      else if Slot(ps, kind).Some? then Err(MultipleSelects)
      else Ok(SetSlot(ps, kind, d.value))
  }

  lemma AddPlaced(known: Known, ps: Parts, kind: Kind, d: Option<Dict>)
    requires d.Some? ==> DictKind(known, d.value.cases) == Ok(kind)
    ensures AddParts(known, ps, SelectPart(d)) == Placed(Ok(ps), kind, d)
  {
    if d.Some? && Slot(ps, kind).None? {
      AddSelect(known, ps, d, kind);
    }
  }

  /** Extraction of a chain whose OS and arch selects are taken for the given kinds. */
  lemma ExtractPlaced(known: Known, ps: Parts, osKind: Kind, archKind: Kind)
    requires PartsOf(ps) != []
    requires ps.os.Some? ==> DictKind(known, ps.os.value.cases) == Ok(osKind)
    requires ps.arch.Some? ==> DictKind(known, ps.arch.value.cases) == Ok(archKind)
    requires ps.platform.Some? ==> DictKind(known, ps.platform.value.cases) == Ok(PlatformKind)
    ensures Extracted(known, Chain(PartsOf(ps))) ==
            match Placed(Placed(Ok(Parts(None, None, None, ps.platform)), archKind, ps.arch), osKind, ps.os)
            case Err(err) => Err(err)
            case Ok(x) => Ok(x.(generic := ps.generic))
  {
    var l, o, a, p := ListPart(ps.generic), SelectPart(ps.os), SelectPart(ps.arch), SelectPart(ps.platform);
    PartsCanonical(ps);
    OperandsOfChain(PartsOf(ps));
    ReversedParts(ps);
    ExtractInOrder(known, ps, osKind, archKind);
  }

  lemma ExtractInOrder(known: Known, ps: Parts, osKind: Kind, archKind: Kind)
    requires ps.os.Some? ==> DictKind(known, ps.os.value.cases) == Ok(osKind)
    requires ps.arch.Some? ==> DictKind(known, ps.arch.value.cases) == Ok(archKind)
    requires ps.platform.Some? ==> DictKind(known, ps.platform.value.cases) == Ok(PlatformKind)
    ensures AddParts(known, NO_PARTS,
                     SelectPart(ps.platform) + (SelectPart(ps.arch) + (SelectPart(ps.os) + ListPart(ps.generic)))) ==
            match Placed(Placed(Ok(Parts(None, None, None, ps.platform)), archKind, ps.arch), osKind, ps.os)
            case Err(err) => Err(err)
            case Ok(x) => Ok(x.(generic := ps.generic))
  {
    hide AddParts, SelectPart, ListPart, DictKind;
    var l, o, a, p := ListPart(ps.generic), SelectPart(ps.os), SelectPart(ps.arch), SelectPart(ps.platform);
    var p1 := Parts(None, None, None, ps.platform);
    AddPartsConcat(known, NO_PARTS, p, a + (o + l));
    AddPlaced(known, NO_PARTS, PlatformKind, ps.platform);
    AddPartsConcat(known, p1, a, o + l);
    AddPlaced(known, p1, archKind, ps.arch);
    var r2 := Placed(Ok(p1), archKind, ps.arch);
    if r2.Ok? {
      AddPartsConcat(known, r2.value, o, l);
      AddPlaced(known, r2.value, osKind, ps.os);
      var r3 := Placed(r2, osKind, ps.os);
      if r3.Ok? {
        AddList(known, r3.value, ps.generic);
      }
    }
  }

  // --------------------------------------------------------------- the condition

  /** The kinds that the merged selects are taken for. */
  lemma MergedKinds(known: Known, s: Parts, d: Parts)
    requires GeneratedParts(known, s) && OneKind(known, d) && MergedParts(s, d).Ok?
    ensures var ps := MergedParts(s, d).value;
            && Forced(ps).os == ps.os && Forced(ps).arch == ps.arch && Forced(ps).platform == ps.platform
            && (ps.os.Some? <==> Survives(s.os, d.os))
            && (ps.arch.Some? <==> Survives(s.arch, d.arch))
            && (ps.platform.Some? <==> Survives(s.platform, d.platform))
            && (ps.os.Some? ==> DictKind(known, ps.os.value.cases) ==
                                Ok(if SurvivesWithKey(s.os, d.os) then OSKind else PlatformKind))
            && (ps.arch.Some? ==> DictKind(known, ps.arch.value.cases) ==
                                  Ok(if SurvivesWithKey(s.arch, d.arch) then ArchKind else PlatformKind))
            && (ps.platform.Some? ==> DictKind(known, ps.platform.value.cases) == Ok(PlatformKind))
  {
    hide DictKind, MergedDict, SurvivesWithKey, Survives, Generated, OfKind, MergedOf, Bare;
    var ps := MergedParts(s, d).value;
    SlotForced(known, s, d, OSKind);
    SlotForced(known, s, d, ArchKind);
    SlotForced(known, s, d, PlatformKind);
    MergedShape(s.os, d.os);
    MergedShape(s.arch, d.arch);
    MergedShape(s.platform, d.platform);
    if ps.os.Some? { MergedKindIff(known, s.os, d.os, OSKind); }
    if ps.arch.Some? { MergedKindIff(known, s.arch, d.arch, ArchKind); }
    if ps.platform.Some? { MergedKindIff(known, s.platform, d.platform, PlatformKind); }
  }

  /** Each merged select is left alone by its own source. */
  lemma OwnSlot(known: Known, s: Parts, d: Parts)
    requires GeneratedParts(known, s) && MergedParts(s, d).Ok?
    ensures var ps := MergedParts(s, d).value;
            LeavesAlone(s.os, ps.os) && LeavesAlone(s.arch, ps.arch) && LeavesAlone(s.platform, ps.platform)
  {
    MergeDictIdempotent(s.os, d.os);
    MergeDictIdempotent(s.arch, d.arch);
    MergeDictIdempotent(s.platform, d.platform);
  }

  /** What is read back of the merged selects, if their order changes: OS and arch select
      change places. */
  lemma SwapRead(known: Known, s: Parts, d: Parts)
    requires GeneratedParts(known, s) && OneKind(known, d) && MergedParts(s, d).Ok? && Swaps(s, d)
    ensures var ps := Forced(MergedParts(s, d).value);
            && ps.os.Some? && ps.arch.Some? && ps.platform.None? && ps.os != ps.arch
            && Extracted(known, Chain(PartsOf(ps))) == Ok(Parts(ps.generic, None, ps.arch, ps.os))
  {
    hide DictKind, MergedDict, PartsOf, Chain, Extracted, OfKind, GeneratedParts, MergedParts, Forced;
    var ps := Forced(MergedParts(s, d).value);
    MergedKinds(known, s, d);
    SomePart(ps);
    ExtractPlaced(known, ps, PlatformKind, ArchKind);
  }

  lemma SomePart(ps: Parts)
    ensures PartsOf(ps) != [] <==> ps.generic.Some? || ps.os.Some? || ps.arch.Some? || ps.platform.Some?
  {
  }

  lemma Swapped(ps: Parts)
    requires ps.os.Some? && ps.arch.Some? && ps.os != ps.arch
    ensures PartsOf(Parts(ps.generic, None, ps.arch, ps.os)) != PartsOf(ps)
  {
    var n := |ListPart(ps.generic)|;
    assert PartsOf(ps)[n] == Call(Some("select"), [DictE(ps.os.value)], false);
    assert PartsOf(Parts(ps.generic, None, ps.arch, ps.os))[n] == Call(Some("select"), [DictE(ps.arch.value)], false);
  }

  /** If the order does not change, either reading back fails, or every select is read
      into its own slot, or a single bare default is read as a platform select. */
  lemma NoSwapRead(known: Known, s: Parts, d: Parts)
    requires GeneratedParts(known, s) && OneKind(known, d) && MergedParts(s, d).Ok? && !Swaps(s, d)
    requires PartsOf(Forced(MergedParts(s, d).value)) != []
    ensures var ps := Forced(MergedParts(s, d).value);
            var r := Extracted(known, Chain(PartsOf(ps)));
            || r.Err? || r == Ok(ps)
            || (r == Ok(Parts(ps.generic, ps.os, None, ps.arch)) && s.arch.None? && s.platform.None?
                && ps.platform.None?)
            || (r == Ok(Parts(ps.generic, None, None, ps.os)) && s.os.None? && s.platform.None?
                && ps.arch.None? && ps.platform.None? && s.arch.None?)
  {
    hide DictKind, MergedDict, PartsOf, Chain, Extracted, OfKind, GeneratedParts, MergedParts, Forced;
    var ps := Forced(MergedParts(s, d).value);
    MergedKinds(known, s, d);
    ExtractPlaced(known, ps, if SurvivesWithKey(s.os, d.os) then OSKind else PlatformKind,
                  if SurvivesWithKey(s.arch, d.arch) then ArchKind else PlatformKind);
  }

  /** For selects of one kind each: merging parts again changes something exactly if
      the selects swap. */
  lemma SelectsSettleIff(known: Known, s: Parts, d: Parts)
    requires GeneratedParts(known, s) && OneKind(known, d) && MergedParts(s, d).Ok?
    requires Made(MergedParts(s, d).value).Some?
    ensures SelectsSettle(known, s, MergedParts(s, d).value) <==> !Swaps(s, d)
  {
    hide DictKind, MergedDict, Chain, Extracted, OfKind, GeneratedParts, MergedParts, Forced, PartsOf, Survives,
      SurvivesWithKey;
    var ps := MergedParts(s, d).value;
    if Swaps(s, d) {
      SwapRead(known, s, d);
      Swapped(Forced(ps));
    } else {
      NoSwapRead(known, s, d);
      OwnSlot(known, s, d);
      MergedKinds(known, s, d);
      NoneLeft();
      PlacesOfOne(Forced(ps));
    }
  }

  lemma NoneLeft()
    ensures LeavesAlone(None, None)
  {
  }

  lemma PlacesOfOne(ps: Parts)
    ensures ps.platform.None? ==> PartsOf(Parts(ps.generic, ps.os, None, ps.arch)) == PartsOf(ps)
    ensures ps.platform.None? && ps.arch.None? ==> PartsOf(Parts(ps.generic, None, None, ps.os)) == PartsOf(ps)
  {
  }

  /** The select of operating systems after that of architectures. */
  function ArchBeforeOS(ps: Parts): (r: seq<Expr>)
    ensures ps.os.Some? ==> r != []
  {
    ListPart(ps.generic) + SelectPart(ps.arch) + SelectPart(ps.os)
  }

  /** The value that merging twice leaves, if the selects swap: the same operands, but
      the select of operating systems comes after that of architectures. */
  lemma SwappedValue(known: Known, s: Parts, d: Parts)
    requires GeneratedParts(known, s) && OneKind(known, d) && MergedParts(s, d).Ok? && Swaps(s, d)
    ensures var ps := Forced(MergedParts(s, d).value);
            var x := Parts(ps.generic, None, ps.arch, ps.os);
            && Made(ps).Some? && Extracted(known, Made(ps).value) == Ok(x)
            && MergedParts(s, x) == Ok(x)
            && ps.os.Some? && Made(x) == Some(Chain(ArchBeforeOS(ps)))
  {
    hide DictKind, MergedDict, PartsOf, Chain, Extracted, OfKind, GeneratedParts, MergedParts, Forced, Swaps,
      OneKind, Made, ListPart, SelectPart;
    var ps := Forced(MergedParts(s, d).value);
    SwapRead(known, s, d);
    SomePart(ps);
    MadeOfForced(ps);
    ForcedTwice(MergedParts(s, d).value);
    SwapMerged(known, s, d);
    SwapMade(ps);
  }

  lemma MadeOfForced(ps: Parts)
    ensures Forced(ps) == ps && PartsOf(ps) != [] ==> Made(ps) == Some(Chain(PartsOf(ps)))
  {
  }

  lemma SwapMerged(known: Known, s: Parts, d: Parts)
    requires GeneratedParts(known, s) && OneKind(known, d) && MergedParts(s, d).Ok? && Swaps(s, d)
    ensures var ps := Forced(MergedParts(s, d).value);
            var x := Parts(ps.generic, None, ps.arch, ps.os);
            MergedParts(s, x) == Ok(x)
  {
    hide DictKind, OfKind, GeneratedParts, Forced;
    var ps := MergedParts(s, d).value;
    OwnSlot(known, s, d);
    MergedKinds(known, s, d);
    NoneLeft();
    SettledList(known, s, d);
  }

  lemma SettledList(known: Known, s: Parts, d: Parts)
    requires GeneratedParts(known, s) && MergedParts(s, d).Ok?
    ensures var l := Forced(MergedParts(s, d).value).generic; MergedList(s.generic, l) == l
  {
    MergeListIdempotent(s.generic, d.generic);
    ForcedStillMerged(s.generic, d.generic);
  }

  lemma SwapMade(ps: Parts)
    requires Forced(ps) == ps && ps.os.Some? && ps.arch.Some? && ps.platform.None?
    ensures Made(Parts(ps.generic, None, ps.arch, ps.os)) == Some(Chain(ArchBeforeOS(ps)))
  {
    var x := Parts(ps.generic, None, ps.arch, ps.os);
    assert PartsOf(x) == ArchBeforeOS(ps);
    assert AllMultiLine(ps) == ps;
  }

  // ----------------------------------------------------------------------- values

  /** An assignment whose value is marked settles only if the source does not have it,
      and one whose parts are merged unless the selects swap. */
  ghost predicate NoSwap(known: Known, src: Option<Expr>, dst: Attr)
    requires src.Some? ==> GeneratedValue(known, src.value)
  {
    if dst.keep then true
    else if ShouldKeep(dst.rhs) then src.None?
    else if src.Some? && IsScalar(src.value) then true
    else if src.None? && IsScalar(dst.rhs) then true
    else
      || OnceMerged(known, src, dst.rhs).Err?
      || !Swaps(SourceParts(known, src), Extracted(known, dst.rhs).value)
  }

  predicate OneKindValue(known: Known, rhs: Expr) {
    Extracted(known, rhs).Ok? ==> OneKind(known, Extracted(known, rhs).value)
  }

  /** For an old value whose selects have keys of one kind each: exactly when merging
      settles after one step. */
  lemma SettlesIff(known: Known, src: Option<Expr>, dst: Attr)
    requires src.Some? ==> GeneratedValue(known, src.value)
    requires OneKindValue(known, dst.rhs)
    ensures Settles(known, src, dst) <==> NoSwap(known, src, dst)
  {
    hide DictKind, MergedDict, Chain, Extracted, OfKind, GeneratedParts, MergedParts, Forced, PartsOf, Survives,
      SurvivesWithKey, SelectsSettle, Made, GeneratedValue;
    if dst.keep || ShouldKeep(dst.rhs) || (src.Some? && IsScalar(src.value)) || (src.None? && IsScalar(dst.rhs)) {
      return;
    }
    if OnceMerged(known, src, dst.rhs).Ok? {
      var s, d := SourceParts(known, src), Extracted(known, dst.rhs).value;
      var ps := OnceMerged(known, src, dst.rhs).value;
      if Made(ps).Some? {
        SelectsSettleIff(known, s, d);
      } else {
        MergedKinds(known, s, d);
        SomeParts(ps);
      }
    }
  }

  /** The same for rules. */
  lemma MergeRulesNoSwapIff(known: Known, src: Attrs, dst: Attrs, mergeable: set<string>)
    requires forall key | key in src :: GeneratedValue(known, src[key].rhs)
    requires forall key | key in dst && key in mergeable :: OneKindValue(known, dst[key].rhs)
    ensures NewAttrs(known, src, NewAttrs(known, src, dst, mergeable), mergeable) ==
              NewAttrs(known, src, dst, mergeable)
            <==> forall key | key in dst && key in mergeable :: NoSwap(known, RhsAt(src, key), dst[key])
  {
    hide Settles, NoSwap, OneKindValue, NewAttrs;
    MergeRulesIdempotentIff(known, src, dst, mergeable);
    forall key | key in dst && key in mergeable
      ensures Settles(known, RhsAt(src, key), dst[key]) <==> NoSwap(known, RhsAt(src, key), dst[key])
    {
      SettlesIff(known, RhsAt(src, key), dst[key]);
    }
  }

  /** A select with one key and a default. */
  function KeyAndDefault(key: string, v: List, d: List): Dict {
    Dict([Case(Str(key, false, 0), ListE(v)), Case(Str(DEFAULT, false, 0), ListE(d))], true, false)
  }

  /** An OS select with a kept string under its default and none under its keys, and an
      arch select with a kept string: merged with nothing, the value changes once more
      when it is merged again. */
  lemma BareDefaultSwaps(known: Known, osKey: string, archKey: string, v: List, kept: List, op: string)
    requires osKey != DEFAULT && KeyKind(known, osKey) == Ok(OSKind) && !AnyKeep(v.elems)
    requires archKey != DEFAULT && KeyKind(known, archKey) == Ok(ArchKind) && AnyKeep(kept.elems)
    ensures var os := KeyAndDefault(osKey, v, kept);
            var arch := Dict([Case(Str(archKey, false, 0), ListE(kept))], true, false);
            var e := Binary(op, SelectPart(Some(os))[0], SelectPart(Some(arch))[0], false);
            && OnceMerged(known, None, e).Ok?
            && !Settles(known, None, Attr(e, false))
  {
    var c1, c2, c3 := Case(Str(osKey, false, 0), ListE(v)), Case(Str(DEFAULT, false, 0), ListE(kept)),
                      Case(Str(archKey, false, 0), ListE(kept));
    var os, arch := Dict([c1, c2], true, false), Dict([c3], true, false);
    var d := Parts(None, Some(os), Some(arch), None);
    var e := Binary(op, SelectPart(Some(os))[0], SelectPart(Some(arch))[0], false);
    ReadTwo(c1, c2);
    ReadOne(c3);
    TwoSelects(known, d, op);
    assert c1 in os.cases && c2 in os.cases && c3 in arch.cases;
    assert Survives(None, d.os) && !SurvivesWithKey(None, d.os) && SurvivesWithKey(None, d.arch);
    SwapsApart(known, d, Attr(e, false));
  }

  /** A value made of an OS and an arch select. */
  lemma TwoSelects(known: Known, ps: Parts, op: string)
    requires ps.generic.None? && ps.os.Some? && ps.arch.Some? && ps.platform.None? && InPlace(known, ps)
    ensures Extracted(known, Binary(op, SelectPart(ps.os)[0], SelectPart(ps.arch)[0], false)) == Ok(ps)
  {
    hide DictKind;
    assert PartsOf(ps) == [SelectPart(ps.os)[0], SelectPart(ps.arch)[0]];
    ExtractOfChain(known, ps);
    TwoOperands(ps, op, SelectPart(ps.os)[0], SelectPart(ps.arch)[0]);
  }

  lemma SwapsApart(known: Known, d: Parts, dst: Attr)
    requires Extracted(known, dst.rhs) == Ok(d) && OneKind(known, d) && MergedParts(NO_PARTS, d).Ok?
    requires !dst.keep && !ShouldKeep(dst.rhs) && !IsScalar(dst.rhs) && Swaps(NO_PARTS, d)
    ensures OnceMerged(known, None, dst.rhs).Ok? && !Settles(known, None, dst)
  {
    hide DictKind, MergedDict, Chain, Extracted, OneKind, GeneratedParts, MergedParts, Swaps;
    SettlesIff(known, None, dst);
  }

  lemma TwoOperands(ps: Parts, op: string, x: Expr, y: Expr)
    requires PartsOf(ps) == [x, y]
    ensures Operands(Binary(op, x, y, false)) == Operands(Chain(PartsOf(ps)))
  {
    PartsCanonical(ps);
    assert x in PartsOf(ps);
    assert [x, y][..1] == [x];
  }

  lemma ReadOne(c: Case)
    requires c.key.Str? && c.value.ListE?
    ensures Read([c], true) == Ok(map[c.key.value := c.value.list])
  {
    assert [c][..0] == [];
  }

  lemma ReadTwo(a: Case, b: Case)
    requires a.key.Str? && a.value.ListE? && b.key.Str? && b.value.ListE? && a.key.value != b.key.value
    ensures Read([a, b], true) == Ok(map[a.key.value := a.value.list, b.key.value := b.value.list])
  {
    ReadOne(a);
    assert [a, b][..1] == [a];
  }

  lemma Unswapped(known: Known, d: Parts, dst: Attr)
    requires Extracted(known, dst.rhs) == Ok(d) && OneKind(known, d)
    requires !dst.keep && !ShouldKeep(dst.rhs) && !IsScalar(dst.rhs) && d.arch.None?
    ensures Settles(known, None, dst)
  {
    hide DictKind, MergedDict, Chain, Extracted, OneKind, GeneratedParts, MergedParts;
    SettlesIff(known, None, dst);
  }

  /** A kept default alone makes the select one of another kind, and settles. */
  lemma KeptDefaultChangesKind(known: Known, key: string, v: List, kept: List)
    requires key != DEFAULT && KeyKind(known, key) == Ok(OSKind) && !AnyKeep(v.elems) && AnyKeep(kept.elems)
    ensures var d := KeyAndDefault(key, v, kept);
            && DictKind(known, d.cases) == Ok(OSKind)
            && MergedDict(None, Some(d)).Ok? && MergedDict(None, Some(d)).value.Some?
            && DictKind(known, MergedDict(None, Some(d)).value.value.cases) == Ok(PlatformKind)
            && Settles(known, None, Attr(Call(Some("select"), [DictE(d)], false), false))
  {
    var c1, c2 := Case(Str(key, false, 0), ListE(v)), Case(Str(DEFAULT, false, 0), ListE(kept));
    var os := Dict([c1, c2], true, false);
    var d := Parts(None, Some(os), None, None);
    ReadTwo(c1, c2);
    assert c1 in os.cases && c2 in os.cases;
    MergedShape(None, Some(os));
    MergedKindIff(known, None, Some(os), OSKind);
    assert PartsOf(d) == [Call(Some("select"), [DictE(os)], false)];
    ExtractOfChain(known, d);
    Unswapped(known, d, Attr(Call(Some("select"), [DictE(os)], false), false));
  }
}
