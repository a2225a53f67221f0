/** What merging loses: operands it does not recognise, and values without marks. */
module MergeLosses {
  import opened Options
  import opened BuildExprs
  import opened MergeLists
  import opened MergeDicts
  import opened MergedSelects
  import opened MergeRules
  import opened MergeIdempotence

  // --------------------------------------------------------- operands of the old value

  /** The old value is merged with a list and selects, or with nothing. */
  predicate MergedByParts(src: Option<Expr>, dst: Attr) {
    && !dst.keep && !ShouldKeep(dst.rhs)
    && (src.Some? ==> !IsScalar(src.value))
    && !(src.None? && IsScalar(dst.rhs))
  }

  /** Only the recognised operands of the old value matter: whatever else is added to
      it, before, between or after them, merging gives the same. */
  lemma OnlyRecognisedMatter(known: Known, src: Option<Expr>, a: Attr, b: Attr)
    requires MergedByParts(src, a) && MergedByParts(src, b)
    requires Filtered(Operands(a.rhs)) == Filtered(Operands(b.rhs))
    ensures MergedAttr(known, src, a) == MergedAttr(known, src, b)
  {
    AddOnlyRecognised(known, NO_PARTS, Operands(a.rhs));
    AddOnlyRecognised(known, NO_PARTS, Operands(b.rhs));
  }

  /** The merged value is made of lists and selects only. So none of the operands of the
      old value that are neither lists nor calls is in it: they are all there exactly if
      there are none. */
  lemma OthersAreLostIff(known: Known, src: Option<Expr>, dst: Attr, e: Expr)
    requires MergedByParts(src, dst) && MergedAttr(known, src, dst) == Ok(Some(e))
    ensures forall o | o in Operands(e) :: Recognisable(o)
    ensures (forall o | o in Operands(dst.rhs) && !Recognisable(o) :: o in Operands(e)) <==>
            (forall o | o in Operands(dst.rhs) :: Recognisable(o))
  {
    var s := if src.Some? then Extracted(known, src.value).value else NO_PARTS;
    var ps := MergedParts(s, Extracted(known, dst.rhs).value).value;
    MadeRecognisable(ps);
  }

  lemma MadeRecognisable(ps: Parts)
    requires Made(ps).Some?
    ensures forall o | o in Operands(Made(ps).value) :: Recognisable(o)
  {
    hide PartsOf, Forced, Chain, Reversed;
    var parts := PartsOf(Forced(ps));
    PartsCanonical(Forced(ps));
    OperandsOfChain(parts);
    ReversedBag(parts);
    forall o | o in Reversed(parts) ensures Recognisable(o) {
      assert o in multiset(Reversed(parts)) && o in multiset(parts);
      assert o in parts && Recognise(o) == [o];
    }
  }

  lemma FilteredTwo(x: Expr, y: Expr)
    ensures Filtered([x]) == if Recognisable(x) then [x] else []
    ensures Filtered([x, y]) == Filtered([x]) + Filtered([y])
  {
    assert [x][1..] == [] && [x, y][1..] == [y];
    assert Filtered([]) == [];
  }

  /** A constant and a list: the constant is lost, whatever is merged in. */
  lemma ConstantIsLost(known: Known, src: Option<Expr>, token: string, op: string, l: List)
    requires (src.Some? ==> !IsScalar(src.value)) && !l.keep
    ensures MergedAttr(known, src, Attr(Binary(op, Scalar(token, false), ListE(l), false), false)) ==
            MergedAttr(known, src, Attr(ListE(l), false))
  {
    var a, b := Attr(Binary(op, Scalar(token, false), ListE(l), false), false), Attr(ListE(l), false);
    assert Operands(a.rhs) == [ListE(l), Scalar(token, false)];
    FilteredTwo(ListE(l), Scalar(token, false));
    FilteredTwo(Scalar(token, false), ListE(l));
    OnlyRecognisedMatter(known, src, a, b);
  }

  // -------------------------------------------------------------------- deletion

  /** No element is marked to be kept. */
  predicate NothingKept(d: Parts) {
    && (d.generic.Some? ==> !AnyKeep(d.generic.value.elems))
    && !KeptAnywhere(d.os) && !KeptAnywhere(d.arch) && !KeptAnywhere(d.platform)
  }

  /** Exactly when an attribute that the source does not have goes: its value is marked,
      a scalar, or can be merged and has no kept element in its lists and selects. */
  lemma DeletedIff(known: Known, dst: Attr)
    ensures MergedAttr(known, None, dst) == Ok(None) <==>
            && !dst.keep
            && (|| ShouldKeep(dst.rhs) || IsScalar(dst.rhs)
                || (&& Extracted(known, dst.rhs).Ok? && MergedParts(NO_PARTS, Extracted(known, dst.rhs).value).Ok?
                    && NothingKept(Extracted(known, dst.rhs).value)))
  {
    var r := Extracted(known, dst.rhs);
    if r.Ok? && MergedParts(NO_PARTS, r.value).Ok? {
      var d := r.value;
      SomeParts(MergedParts(NO_PARTS, d).value);
      MergedShape(None, d.os);
      MergedShape(None, d.arch);
      MergedShape(None, d.platform);
      if d.generic.Some? { MergedWithNothing(d.generic.value); }
    }
  }

  /** A value none of whose operands is recognised, such as a bare dict, is deleted
      although nothing in it was looked at. */
  lemma UnrecognisedIsDeleted(known: Known, dst: Attr)
    requires !dst.keep && Filtered(Operands(dst.rhs)) == []
    ensures MergedAttr(known, None, dst) == Ok(None)
  {
    AddOnlyRecognised(known, NO_PARTS, Operands(dst.rhs));
    DeletedIff(known, dst);
  }

  /** A mark on the value alone does not keep the attribute: it deletes it, whatever is
      merged in. */
  lemma MarkedValueIsDeleted(known: Known, src: Attrs, dst: Attrs, mergeable: set<string>, key: string)
    requires key in dst && key in mergeable && !dst[key].keep
    requires ShouldKeep(dst[key].rhs)
    ensures NewAttr(known, src, dst, mergeable, key) == None
  {
  }
}
