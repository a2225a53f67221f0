/** When values can be taken apart and merged, and when they cannot. */
module ExtractionErrors {
  import opened Options
  import opened BuildExprs
  import opened MergeLists
  import opened MergeDicts
  import opened MergedSelects
  import opened MergeRules
  import opened MergeIdempotence
  import opened MergeLosses
  import opened MergeOutcomes

  // ------------------------------------------------------------- kinds of selects

  lemma {:induction false} FirstUnderscore(a: string, b: string)
    requires '_' !in a
    ensures IndexOf(a + "_" + b, '_') == |a|
  {
    if a == "" {
      assert a + "_" + b == "_" + b;
    } else {
      assert (a + "_" + b)[1..] == a[1..] + "_" + b && a[0] in a;
      FirstUnderscore(a[1..], b);
    }
  }

  lemma {:induction false} NoneBefore(s: string, c: char)
    ensures IndexOf(s, c) <= |s| && c !in s[..IndexOf(s, c)]
    ensures IndexOf(s, c) < |s| ==> s[IndexOf(s, c)] == c
  {
    if s != [] && s[0] != c {
      NoneBefore(s[1..], c);
      assert s[..IndexOf(s, c)] == [s[0]] + s[1..][..IndexOf(s[1..], c)];
    }
  }

  /** A key is a label whose name is that of a known OS, or a known architecture, or both
      with an underscore between; anything else is an error. */
  lemma KeyKindIs(known: Known, key: string)
    ensures match known.labelName(key)
            case None => KeyKind(known, key) == Err(KeyNotLabel)
            case Some(name) =>
              if name in known.os then KeyKind(known, key) == Ok(OSKind)
              else if name in known.arch then KeyKind(known, key) == Ok(ArchKind)
              else if exists os, arch :: os in known.os && arch in known.arch
                        && '_' !in os && '_' !in arch && name == os + "_" + arch
              then KeyKind(known, key) == Ok(PlatformKind)
              else KeyKind(known, key) == Err(UnknownPlatform)
  {
    if known.labelName(key).Some? {
      PlatformNameIff(known, known.labelName(key).value);
    }
  }

  lemma PlatformNameIff(known: Known, name: string)
    ensures IsPlatformName(known, name) <==>
            exists os, arch :: os in known.os && arch in known.arch
              && '_' !in os && '_' !in arch && name == os + "_" + arch
  {
    NoneBefore(name, '_');
    if IsPlatformName(known, name) {
      var i := IndexOf(name, '_');
      assert name == name[..i] + "_" + name[i + 1..];
    }
    if os, arch :| os in known.os && arch in known.arch && '_' !in os && '_' !in arch && name == os + "_" + arch {
      FirstUnderscore(os, arch);
      assert name[..|os|] == os && name[|os| + 1..] == arch;
    }
  }

  /** The kind of a select is that of its first key other than the default; without one it
      is a platform select. */
  lemma {:induction false} DictKindIs(known: Known, cases: seq<Case>, i: nat)
    requires i <= |cases| && forall j | 0 <= j < i :: cases[j].key.Str? && cases[j].key.value == DEFAULT
    ensures i == |cases| ==> DictKind(known, cases) == Ok(PlatformKind)
    ensures i < |cases| && !cases[i].key.Str? ==> DictKind(known, cases) == Err(KeyNotString)
    ensures i < |cases| && cases[i].key.Str? && cases[i].key.value != DEFAULT ==>
              DictKind(known, cases) == KeyKind(known, cases[i].key.value)
  {
    if i > 0 {
      forall j | 0 <= j < i - 1 ensures cases[1..][j].key.Str? && cases[1..][j].key.value == DEFAULT {
        assert cases[1..][j] == cases[j + 1];
      }
      DictKindIs(known, cases[1..], i - 1);
      assert i < |cases| ==> cases[1..][i - 1] == cases[i];
    }
  }

  // ------------------------------------------------------------------- extraction

  /** A call of select with one dict, of this kind. */
  predicate SelectOfKind(known: Known, o: Expr, kind: Kind) {
    && o.Call? && o.callee == Some("select") && |o.args| == 1 && o.args[0].DictE?
    && DictKind(known, o.args[0].dict.cases) == Ok(kind)
  }

  /** Every call is a select of some kind. */
  ghost predicate CallsAreSelects(known: Known, parts: seq<Expr>) {
    forall i | 0 <= i < |parts| && parts[i].Call? :: exists kind :: SelectOfKind(known, parts[i], kind)
  }

  /** There is no second list, and no second select of a kind. */
  ghost predicate OneOfEach(known: Known, parts: seq<Expr>) {
    forall i, j | 0 <= i < j < |parts| ::
      && !(parts[i].ListE? && parts[j].ListE?)
      && forall kind :: !(SelectOfKind(known, parts[i], kind) && SelectOfKind(known, parts[j], kind))
  }

  /** What is there already leaves room. */
  ghost predicate Room(known: Known, ps: Parts, parts: seq<Expr>) {
    forall i | 0 <= i < |parts| ::
      && (parts[i].ListE? ==> ps.generic.None?)
      && forall kind | SelectOfKind(known, parts[i], kind) :: Slot(ps, kind).None?
  }

  lemma AddPartOkIff(known: Known, ps: Parts, part: Expr)
    ensures AddPart(known, ps, part).Ok? <==> CallsAreSelects(known, [part]) && Room(known, ps, [part])
  {
    hide DictKind;
    assert [part][0] == part;
    if part.Call? {
      var isSelect := part.callee == Some("select") && |part.args| == 1 && part.args[0].DictE?;
      if isSelect && DictKind(known, part.args[0].dict.cases).Ok? {
        var found := DictKind(known, part.args[0].dict.cases).value;
        assert forall kind :: SelectOfKind(known, part, kind) <==> kind == found;
        assert SelectOfKind(known, [part][0], found) && CallsAreSelects(known, [part]);
        assert Room(known, ps, [part]) <==> Slot(ps, found).None?;
      } else {
        assert forall kind :: !SelectOfKind(known, part, kind);
      }
    }
  }

  lemma AddedTakesRoom(known: Known, ps: Parts, part: Expr, rest: seq<Expr>)
    requires AddPart(known, ps, part).Ok?
    ensures Room(known, AddPart(known, ps, part).value, rest) <==>
            Room(known, ps, rest) && forall i | 0 <= i < |rest| ::
              && !(part.ListE? && rest[i].ListE?)
              && forall kind :: !(SelectOfKind(known, part, kind) && SelectOfKind(known, rest[i], kind))
  {
    hide DictKind;
    var after := AddPart(known, ps, part).value;
    assert part.ListE? ==> ps.generic.None?;
    forall kind ensures Slot(after, kind).None? <==> Slot(ps, kind).None? && !SelectOfKind(known, part, kind) {
    }
    if Room(known, after, rest) {
      forall i, kind | 0 <= i < |rest| && SelectOfKind(known, rest[i], kind)
        ensures Slot(ps, kind).None? && !SelectOfKind(known, part, kind)
      {
        assert Slot(after, kind).None?;
      }
    }
  }

  lemma {:induction false} AddPartsOkIff(known: Known, ps: Parts, parts: seq<Expr>)
    ensures AddParts(known, ps, parts).Ok? <==>
            CallsAreSelects(known, parts) && OneOfEach(known, parts) && Room(known, ps, parts)
    decreases parts
  {
    hide AddPart, SelectOfKind;
    if parts != [] {
      var part, rest := parts[0], parts[1..];
      AddPartOkIff(known, ps, part);
      AllOfParts(known, ps, parts);
      if AddPart(known, ps, part).Ok? {
        AddPartsOkIff(known, AddPart(known, ps, part).value, rest);
        AddedTakesRoom(known, ps, part, rest);
      }
    }
  }

  /** The conditions, for the first part and the rest. */
  lemma AllOfParts(known: Known, ps: Parts, parts: seq<Expr>)
    requires parts != []
    ensures CallsAreSelects(known, parts) <==>
            CallsAreSelects(known, [parts[0]]) && CallsAreSelects(known, parts[1..])
    ensures Room(known, ps, parts) <==> Room(known, ps, [parts[0]]) && Room(known, ps, parts[1..])
    ensures OneOfEach(known, parts) <==>
            OneOfEach(known, parts[1..]) && forall i | 0 <= i < |parts[1..]| ::
              && !(parts[0].ListE? && parts[1..][i].ListE?)
              && forall kind :: !(SelectOfKind(known, parts[0], kind) && SelectOfKind(known, parts[1..][i], kind))
  {
    hide SelectOfKind;
    var rest := parts[1..];
    assert forall i | 0 <= i < |rest| :: rest[i] == parts[i + 1];
    assert forall i | 1 <= i < |parts| :: parts[i] == rest[i - 1];
    assert [parts[0]][0] == parts[0];
  }

  /** A value can be taken apart exactly if every call in it is a select of some kind, and
      it has no two lists and no two selects of a kind. */
  lemma ExtractedOkIff(known: Known, e: Expr)
    ensures Extracted(known, e).Ok? <==>
            CallsAreSelects(known, Operands(e)) && OneOfEach(known, Operands(e))
  {
    AddPartsOkIff(known, NO_PARTS, Operands(e));
  }

  // ---------------------------------------------------------------------- merging

  /** Every case has a string for a key and a list for a value, and no key comes twice. */
  ghost predicate WellFormedCases(cases: seq<Case>) {
    && (forall i | 0 <= i < |cases| :: cases[i].key.Str? && cases[i].value.ListE?)
    && forall i, j | 0 <= i < j < |cases| :: cases[i].key.value != cases[j].key.value
  }

  lemma {:induction false} ReadOkIff(cases: seq<Case>)
    ensures Read(cases, true).Ok? <==> WellFormedCases(cases)
    ensures Read(cases, true).Ok? ==>
              forall k :: k in Read(cases, true).value <==> exists i :: 0 <= i < |cases| && cases[i].key.value == k
  {
    if cases != [] {
      var n := |cases| - 1;
      var init := cases[..n];
      ReadOkIff(init);
      assert forall i | 0 <= i < n :: init[i] == cases[i];
      if Read(init, true).Ok? && cases[n].key.Str? && cases[n].key.value in Read(init, true).value {
        var i :| 0 <= i < n && init[i].key.value == cases[n].key.value;
        assert cases[i].key.value == cases[n].key.value;
      }
    }
  }

  ghost predicate Readable(d: Option<Dict>) {
    d.Some? ==> WellFormedCases(d.value.cases)
  }

  lemma DictMergesIff(src: Option<Dict>, dst: Option<Dict>)
    requires Generated(src)
    ensures MergedDict(src, dst).Ok? <==> Readable(dst)
  {
    ReadOfDict(SourceCases(src), false);
    assert Read([], false) == Ok(map[]);
    if dst.Some? { ReadOkIff(dst.value.cases); }
  }

  /** Where parts are merged: merging succeeds exactly if the old value can be taken apart
      and the cases of its selects are well formed. */
  lemma MergesIff(known: Known, src: Option<Expr>, dst: Attr)
    requires (src.Some? ==> GeneratedValue(known, src.value)) && MergedByParts(src, dst)
    ensures MergedAttr(known, src, dst).Ok? <==>
            && CallsAreSelects(known, Operands(dst.rhs)) && OneOfEach(known, Operands(dst.rhs))
            && forall o | o in Operands(dst.rhs) && o.Call? && |o.args| == 1 && o.args[0].DictE? ::
                 WellFormedCases(o.args[0].dict.cases)
  {
    hide GeneratedValue, Extracted, MergedDict, Operands, CallsAreSelects, OneOfEach, WellFormedCases, Made, PartsOf;
    ExtractedOkIff(known, dst.rhs);
    var s := SourceParts(known, src);
    if Extracted(known, dst.rhs).Ok? {
      var d := Extracted(known, dst.rhs).value;
      DictMergesIff(s.os, d.os);
      DictMergesIff(s.arch, d.arch);
      DictMergesIff(s.platform, d.platform);
      SelectsOf(known, dst.rhs);
    }
  }

  /** The selects among the operands are those in the slots. */
  lemma SelectsOf(known: Known, e: Expr)
    requires Extracted(known, e).Ok?
    ensures var x := Extracted(known, e).value;
            (forall o | o in Operands(e) && o.Call? && |o.args| == 1 && o.args[0].DictE? ::
               WellFormedCases(o.args[0].dict.cases)) <==>
            Readable(x.os) && Readable(x.arch) && Readable(x.platform)
  {
    hide Extracted, Operands, PartsOf, Recognised, InPlace, WellFormedCases;
    var x := Extracted(known, e).value;
    ExtractionKeepsIff(known, e);
    PartIn(x);
    forall d: Dict ensures (exists o :: o in Operands(e) && o.Call? && o.args == [DictE(d)]) <==>
                           x.os == Some(d) || x.arch == Some(d) || x.platform == Some(d)
    {
      var c := Call(Some("select"), [DictE(d)], false);
      SameMember(PartsOf(x), Recognised(Operands(e)), c);
      RecognisedMember(Operands(e), c);
      forall o: Expr ensures o.Call? && o.args == [DictE(d)] <==> Recognise(o) == [c] {}
    }
    forall o | o in Operands(e) && o.Call? && |o.args| == 1 && o.args[0].DictE?
      ensures o.args == [DictE(o.args[0].dict)]
    {
    }
  }
}
