/** Merging a generated rule into the one that is in the build file. */
module MergeRules {
  import opened Options
  import opened Sorting
  import opened BuildExprs
  import opened MergeLists
  import opened MergeDicts

  // ------------------------------------------------------------------ attributes

  ghost function MergedParts(src: Parts, dst: Parts): Matched<Parts> {
    match MergedDict(src.os, dst.os)
    case Err(err) => Err(err)
    case Ok(os) =>
      match MergedDict(src.arch, dst.arch)
      case Err(err) => Err(err)
      case Ok(arch) =>
        match MergedDict(src.platform, dst.platform)
        case Err(err) => Err(err)
        case Ok(platform) => Ok(Parts(MergedList(src.generic, dst.generic), os, arch, platform))
  }

  method MergePlatformStringsExprs(src: Parts, dst: Parts) returns (r: Matched<Parts>)
    ensures r == MergedParts(src, dst)
  {
    var generic := MergeList(src.generic, dst.generic);
    var os := MergeDict(src.os, dst.os);
    if os.Err? { return Err(os.error); }
    var arch := MergeDict(src.arch, dst.arch);
    if arch.Err? { return Err(arch.error); }
    var platform := MergeDict(src.platform, dst.platform);
    if platform.Err? { return Err(platform.error); }
    return Ok(Parts(generic, os.value, arch.value, platform.value));
  }

  /** An assignment in a rule: `keep` is the mark on the assignment as a whole. */
  datatype Attr = Attr(rhs: Expr, keep: bool)

  /** The value that merging leaves, none if the attribute goes. */
  ghost function MergedAttr(known: Known, src: Option<Expr>, dst: Attr): Matched<Option<Expr>> {
    if dst.keep then Ok(Some(dst.rhs))
    else if ShouldKeep(dst.rhs) then Ok(None)
    else if src.None? && IsScalar(dst.rhs) then Ok(None)
    else if src.Some? && IsScalar(src.value) then Ok(src)
    else
      match (if src.Some? then Extracted(known, src.value) else Ok(NO_PARTS))
      case Err(err) => Err(err)
      case Ok(s) =>
        match Extracted(known, dst.rhs)
        case Err(err) => Err(err)
        case Ok(d) =>
          match MergedParts(s, d)
          case Err(err) => Err(err)
          case Ok(ps) => Ok(Made(ps))
  }

  method MergeAttrValues(known: Known, src: Option<Expr>, dst: Attr) returns (r: Matched<Option<Expr>>)
    ensures r == MergedAttr(known, src, dst)
  {
    var mergedScalarDst := None;
    if dst.keep {
      mergedScalarDst := Some(dst.rhs);
    }
    if ShouldKeep(dst.rhs) {
      return Ok(mergedScalarDst);
    }
    if src.None? && IsScalar(dst.rhs) {
      return Ok(mergedScalarDst);
    }
    if src.Some? && IsScalar(src.value) {
      if mergedScalarDst != None {
        return Ok(mergedScalarDst);
      }
      return Ok(src);
    }
    if dst.keep {
      return Ok(mergedScalarDst);
    }
    var srcExprs := NO_PARTS;
    if src.Some? {
      var s := ExtractPlatformStringsExprs(known, src.value);
      if s.Err? { return Err(s.error); }
      srcExprs := s.value;
    }
    var d := ExtractPlatformStringsExprs(known, dst.rhs);
    if d.Err? { return Err(d.error); }
    var merged := MergePlatformStringsExprs(srcExprs, d.value);
    if merged.Err? { return Err(merged.error); }
    var e := MakePlatformStringsExpr(merged.value);
    return Ok(e);
  }

  // ----------------------------------------------------------------------- rules

  type Attrs = map<string, Attr>

  /** What becomes of an attribute. A value that cannot be merged stays as it is. */
  ghost function NewAttr(known: Known, src: Attrs, dst: Attrs, mergeable: set<string>, key: string): Option<Attr> {
    var before := if key in dst then Some(dst[key]) else None;
    if key in src && key !in dst then Some(Attr(src[key].rhs, false))
    else if key !in dst || key !in mergeable || dst[key].keep then before
    else match MergedAttr(known, if key in src then Some(src[key].rhs) else None, dst[key])
      case Err(_) => before
      case Ok(None) => None
      case Ok(Some(e)) => Some(Attr(e, dst[key].keep))
  }

  ghost function NewAttrs(known: Known, src: Attrs, dst: Attrs, mergeable: set<string>): Attrs {
    map key | key in src.Keys + dst.Keys && NewAttr(known, src, dst, mergeable, key).Some?
      :: NewAttr(known, src, dst, mergeable, key).value
  }

  class Rule {
    var attrs: Attrs
    var private_: map<string, nat>
    const keep: bool

    constructor (attrs: Attrs, private_: map<string, nat>, keep: bool)
      ensures this.attrs == attrs && this.private_ == private_ && this.keep == keep
    {
      this.attrs, this.private_, this.keep := attrs, private_, keep;
    }

    method SetAttr(key: string, rhs: Expr)
      modifies this`attrs
      ensures attrs == old(attrs)[key := Attr(rhs, if key in old(attrs) then old(attrs)[key].keep else false)]
    {
      if key in attrs {
        attrs := attrs[key := attrs[key].(rhs := rhs)];
      } else {
        attrs := attrs[key := Attr(rhs, false)];
      }
    }

    method DelAttr(key: string)
      modifies this`attrs
      ensures attrs == old(attrs) - {key}
    {
      attrs := attrs - {key};
    }

    /** Gives an attribute its merged value. */
    method StoreMerged(key: string, merged: Matched<Option<Expr>>)
      requires key in attrs
      modifies this`attrs
      ensures attrs == match merged
                       case Err(_) => old(attrs)
                       case Ok(None) => old(attrs) - {key}
                       case Ok(Some(e)) => old(attrs)[key := Attr(e, old(attrs)[key].keep)]
    {
      if merged.Ok? {
        if merged.value == None {
          DelAttr(key);
        } else {
          SetAttr(key, merged.value.value);
        }
      }
    }
  }

  /** The attributes in `done` have been dealt with, the others are as they were. */
  ghost predicate MergedUpTo(known: Known, src: Attrs, before: Attrs, mergeable: set<string>, done: set<string>,
        now: Attrs)
  {
    forall key ::
      (if key in now then Some(now[key]) else None) ==
      (if key in done then NewAttr(known, src, before, mergeable, key)
       else if key in before then Some(before[key]) else None)
  }

  /** Merges `src` into `dst`. The attributes are gone through in any order. */
  method MergeRule(known: Known, src: Rule, dst: Rule, mergeable: set<string>)
    requires src != dst
    modifies dst
    ensures dst.keep ==> dst.attrs == old(dst.attrs) && dst.private_ == old(dst.private_)
    ensures !dst.keep ==>
              && dst.attrs == NewAttrs(known, src.attrs, old(dst.attrs), mergeable)
              && dst.private_ == src.private_
    ensures forall key | key in old(dst.attrs) && old(dst.attrs)[key].keep ::
              key in dst.attrs && dst.attrs[key] == old(dst.attrs)[key]
  {
    if dst.keep {
      return;
    }
    ghost var before := dst.attrs;
    var todo := dst.attrs.Keys - src.attrs.Keys;
    ghost var done: set<string> := {};
    while todo != {}
      invariant todo !! done && todo + done == before.Keys - src.attrs.Keys
      invariant MergedUpTo(known, src.attrs, before, mergeable, done, dst.attrs)
      decreases todo
    {
      var key :| key in todo;
      MergedUpToAt(known, src.attrs, before, mergeable, done, dst.attrs, key);
      MergeOld(known, src, dst, mergeable, key);
      todo, done := todo - {key}, done + {key};
    }
    todo := src.attrs.Keys;
    while todo != {}
      invariant todo !! done && todo + done == before.Keys + src.attrs.Keys
      invariant MergedUpTo(known, src.attrs, before, mergeable, done, dst.attrs)
      decreases todo
    {
      var key :| key in todo;
      MergedUpToAt(known, src.attrs, before, mergeable, done, dst.attrs, key);
      MergeNew(known, src, dst, mergeable, key);
      todo, done := todo - {key}, done + {key};
    }
    MergedUpToAll(known, src.attrs, before, mergeable, done, dst.attrs);
    dst.private_ := src.private_;
  }

  lemma MergedUpToAt(known: Known, src: Attrs, before: Attrs, mergeable: set<string>, done: set<string>,
        now: Attrs, key: string)
    requires MergedUpTo(known, src, before, mergeable, done, now) && key !in done
    ensures key in now <==> key in before
    ensures key in before ==> now[key] == before[key]
    ensures NewAttr(known, src, now, mergeable, key) == NewAttr(known, src, before, mergeable, key)
  {
  }

  lemma MergedUpToAll(known: Known, src: Attrs, before: Attrs, mergeable: set<string>, done: set<string>, now: Attrs)
    requires MergedUpTo(known, src, before, mergeable, done, now) && done == before.Keys + src.Keys
    ensures now == NewAttrs(known, src, before, mergeable)
  {
    var new_ := NewAttrs(known, src, before, mergeable);
    forall key ensures key in now <==> key in new_
               ensures key in now ==> now[key] == new_[key]
    {
    }
  }

  /** Only the attribute at `key` is changed, to what it becomes. */
  ghost predicate OneMerged(known: Known, src: Attrs, before: Attrs, mergeable: set<string>, key: string, now: Attrs) {
    match NewAttr(known, src, before, mergeable, key)
    case None => now == before - {key}
    case Some(a) => now == before[key := a]
  }

  /** An attribute of the destination that the source does not have. */
  method MergeOld(known: Known, src: Rule, dst: Rule, mergeable: set<string>, key: string)
    requires src != dst && key in dst.attrs && key !in src.attrs
    modifies dst`attrs
    ensures OneMerged(known, src.attrs, old(dst.attrs), mergeable, key, dst.attrs)
  {
    var dstAttr := dst.attrs[key];
    if key !in mergeable || dstAttr.keep {
      return;
    }
    var merged := MergeAttrValues(known, None, dstAttr);
    dst.StoreMerged(key, merged);
  }

  /** An attribute of the source. */
  method MergeNew(known: Known, src: Rule, dst: Rule, mergeable: set<string>, key: string)
    requires src != dst && key in src.attrs
    modifies dst`attrs
    ensures OneMerged(known, src.attrs, old(dst.attrs), mergeable, key, dst.attrs)
  {
    if key !in dst.attrs {
      dst.SetAttr(key, src.attrs[key].rhs);
    } else if key in mergeable {
      var merged := MergeAttrValues(known, Some(src.attrs[key].rhs), dst.attrs[key]);
      dst.StoreMerged(key, merged);
    }
  }
}
