/** Values of attributes as syntax, and the form that generated values have: a list of
    strings and up to three selects, combined with +. */
module BuildExprs {
  import opened Options

  const DEFAULT := "//conditions:default"

  /** Comments other than "keep" are part of `note`. A scalar is a number or an identifier.
      Operators other than + are taken apart like +. */
  datatype Expr =
    | Str(value: string, keep: bool, note: nat)
    | Scalar(token: string, keep: bool)
    | ListE(list: List)
    | DictE(dict: Dict)
    | Call(callee: Option<string>, args: seq<Expr>, keep: bool)
    | Binary(op: string, x: Expr, y: Expr, keep: bool)
    | Other(id: nat, keep: bool)

  datatype List = List(elems: seq<Expr>, multiLine: bool, keep: bool)
  datatype Dict = Dict(cases: seq<Case>, multiLine: bool, keep: bool)
  datatype Case = Case(key: Expr, value: Expr)

  predicate ShouldKeep(e: Expr) {
    match e
    case ListE(l) => l.keep
    case DictE(d) => d.keep
    case _ => e.keep
  }

  predicate IsScalar(e: Expr) {
    e.Str? || e.Scalar?
  }

  /** The value of a string, empty for anything else. */
  function StringValue(e: Expr): string {
    if e.Str? then e.value else ""
  }

  datatype MatchError =
    | MultipleLists | NotASelect | ArgumentNotDict | KeyNotString | KeyNotLabel | UnknownPlatform | MultipleSelects
    | ValueNotList | DuplicateCase

  type Matched<+T> = Result<T, MatchError>

  /** The sub-expressions of a value of the generated form. */
  datatype Parts = Parts(generic: Option<List>, os: Option<Dict>, arch: Option<Dict>, platform: Option<Dict>)

  const NO_PARTS := Parts(None, None, None, None)

  // -------------------------------------------------------------- kinds of selects

  datatype Kind = OSKind | ArchKind | PlatformKind

  /** The known names a select key may end in, and the name of the label that a key is,
      if it is one. */
  datatype Known = Known(os: set<string>, arch: set<string>, labelName: string -> Option<string>)

  /** A name made of an operating system and an architecture with one "_" between. */
  predicate IsPlatformName(known: Known, name: string) {
    var i := IndexOf(name, '_');
    i < |name| && '_' !in name[i + 1..] && name[..i] in known.os && name[i + 1..] in known.arch
  }

  function KeyKind(known: Known, key: string): Matched<Kind> {
    match known.labelName(key)
    case None => Err(KeyNotLabel)
    case Some(name) =>
      if name in known.os then Ok(OSKind)
      else if name in known.arch then Ok(ArchKind)
      else if IsPlatformName(known, name) then Ok(PlatformKind)
      else Err(UnknownPlatform)
  }

  /** The first case other than the default decides. */
  function DictKind(known: Known, cases: seq<Case>): Matched<Kind> {
    if cases == [] then Ok(PlatformKind)
    else if !cases[0].key.Str? then Err(KeyNotString)
    else if cases[0].key.value == DEFAULT then DictKind(known, cases[1..])
    else KeyKind(known, cases[0].key.value)
  }

  function Slot(ps: Parts, kind: Kind): Option<Dict> {
    match kind case OSKind => ps.os case ArchKind => ps.arch case PlatformKind => ps.platform
  }

  function SetSlot(ps: Parts, kind: Kind, d: Dict): Parts {
    match kind
    case OSKind => ps.(os := Some(d))
    case ArchKind => ps.(arch := Some(d))
    case PlatformKind => ps.(platform := Some(d))
  }

  // ------------------------------------------------------------------- extraction

  /** The operands of a chain of binary operators, the last one first. */
  function Operands(e: Expr): seq<Expr> {
    if e.Binary? then [e.y] + Operands(e.x) else [e]
  }

  /** Operands that are neither lists nor calls are passed over. */
  function AddPart(known: Known, ps: Parts, part: Expr): Matched<Parts> {
    match part
    case ListE(l) => if ps.generic.Some? then Err(MultipleLists) else Ok(ps.(generic := Some(l)))
    case Call(callee, args, _) =>
      if callee != Some("select") || |args| != 1 then Err(NotASelect)
      else if !args[0].DictE? then Err(ArgumentNotDict)
      else (
        match DictKind(known, args[0].dict.cases)
        case Err(err) => Err(err)
        case Ok(kind) => if Slot(ps, kind).Some? then Err(MultipleSelects) else Ok(SetSlot(ps, kind, args[0].dict)))
    case _ => Ok(ps)
  }

  function AddParts(known: Known, ps: Parts, parts: seq<Expr>): Matched<Parts>
    decreases parts
  {
    if parts == [] then Ok(ps)
    else match AddPart(known, ps, parts[0])
      case Err(err) => Err(err)
      case Ok(ps') => AddParts(known, ps', parts[1..])
  }

  function Extracted(known: Known, e: Expr): Matched<Parts> {
    AddParts(known, NO_PARTS, Operands(e))
  }

  /** Breaks an expression into its operands. */
  method SplitOperands(e: Expr) returns (parts: seq<Expr>)
    ensures parts == Operands(e)
  {
    parts := [];
    var rest := e;
    while rest.Binary?
      invariant parts + Operands(rest) == Operands(e)
      decreases rest
    {
      assert parts + ([rest.y] + Operands(rest.x)) == (parts + [rest.y]) + Operands(rest.x);
      parts, rest := parts + [rest.y], rest.x;
    }
    parts := parts + [rest];
  }

  method ExtractPlatformStringsExprs(known: Known, e: Expr) returns (r: Matched<Parts>)
    ensures r == Extracted(known, e)
  {
    hide AddPart, Operands;
    var parts := SplitOperands(e);
    var ps := NO_PARTS;
    assert parts[0..] == parts;
    for i := 0 to |parts|
      invariant AddParts(known, ps, parts[i..]) == Extracted(known, e)
    {
      assert parts[i..][1..] == parts[i + 1..];
      var next := AddPart(known, ps, parts[i]);
      if next.Err? {
        return next;
      }
      ps := next.value;
    }
    return Ok(ps);
  }

  // ----------------------------------------------------------------- construction

  function ListPart(o: Option<List>): seq<Expr> {
    if o.Some? then [ListE(o.value)] else []
  }

  function SelectPart(o: Option<Dict>): seq<Expr> {
    if o.Some? then [Call(Some("select"), [DictE(o.value)], false)] else []
  }

  function PartsOf(ps: Parts): seq<Expr> {
    ListPart(ps.generic) + SelectPart(ps.os) + SelectPart(ps.arch) + SelectPart(ps.platform)
  }

  function Force<T>(o: Option<T>, f: T -> T): Option<T> {
    if o.Some? then Some(f(o.value)) else None
  }

  function MultiList(l: List): List { l.(multiLine := true) }

  function MultiDict(d: Dict): Dict { d.(multiLine := true) }

  function AllMultiLine(ps: Parts): Parts {
    Parts(
      Force(ps.generic, MultiList),
      Force(ps.os, MultiDict), Force(ps.arch, MultiDict), Force(ps.platform, MultiDict))
  }

  /** Several parts go on lines of their own. */
  function Forced(ps: Parts): Parts {
    if |PartsOf(ps)| >= 2 then AllMultiLine(ps) else ps
  }

  function Chain(parts: seq<Expr>): Expr
    requires parts != []
  {
    if |parts| == 1 then parts[0] else Binary("+", Chain(parts[..|parts| - 1]), parts[|parts| - 1], false)
  }

  function Made(ps: Parts): Option<Expr> {
    var parts := PartsOf(Forced(ps));
    if parts == [] then None else Some(Chain(parts))
  }

  function ForceMultiline(e: Expr): Expr {
    match e
    case ListE(l) => ListE(MultiList(l))
    case Call(f, args, k) => if |args| == 1 && args[0].DictE? then Call(f, [DictE(MultiDict(args[0].dict))], k) else e
    case _ => e
  }

  function ForceAll(parts: seq<Expr>): seq<Expr> {
    seq(|parts|, i requires 0 <= i < |parts| => ForceMultiline(parts[i]))
  }

  lemma ForceAllConcat(a: seq<Expr>, b: seq<Expr>)
    ensures ForceAll(a + b) == ForceAll(a) + ForceAll(b)
  {
  }

  lemma ForceAllParts(ps: Parts)
    ensures PartsOf(AllMultiLine(ps)) == ForceAll(PartsOf(ps))
  {
    var l, o, a, p := ListPart(ps.generic), SelectPart(ps.os), SelectPart(ps.arch), SelectPart(ps.platform);
    ForceAllConcat(l + o + a, p);
    ForceAllConcat(l + o, a);
    ForceAllConcat(l, o);
    assert ListPart(AllMultiLine(ps).generic) == ForceAll(l);
    assert SelectPart(AllMultiLine(ps).os) == ForceAll(o);
    assert SelectPart(AllMultiLine(ps).arch) == ForceAll(a);
    assert SelectPart(AllMultiLine(ps).platform) == ForceAll(p);
  }

  method ForcedChain(parts: seq<Expr>) returns (e: Expr)
    requires parts != []
    ensures e == Chain(ForceAll(parts))
  {
    e := ForceMultiline(parts[0]);
    ghost var forced := ForceAll(parts);
    assert forced[..1] == [e];
    for i := 1 to |parts|
      invariant e == Chain(forced[..i])
    {
      assert forced[..i + 1][..i] == forced[..i];
      e := Binary("+", e, ForceMultiline(parts[i]), false);
    }
    assert forced[..|parts|] == forced;
  }

  method MakePlatformStringsExpr(ps: Parts) returns (r: Option<Expr>)
    ensures r == Made(ps)
  {
    var parts := [];
    if ps.generic.Some? { parts := parts + [ListE(ps.generic.value)]; }
    if ps.os.Some? { parts := parts + [Call(Some("select"), [DictE(ps.os.value)], false)]; }
    if ps.arch.Some? { parts := parts + [Call(Some("select"), [DictE(ps.arch.value)], false)]; }
    if ps.platform.Some? { parts := parts + [Call(Some("select"), [DictE(ps.platform.value)], false)]; }
    assert parts == PartsOf(ps);
    if |parts| == 0 { return None; }
    if |parts| == 1 { return Some(parts[0]); }
    ForceAllParts(ps);
    var e := ForcedChain(parts);
    return Some(e);
  }

  // ------------------------------------------------------------------- round trip

  /** Each select is in the slot its keys call for. */
  predicate InPlace(known: Known, ps: Parts) {
    && (ps.os.Some? ==> DictKind(known, ps.os.value.cases) == Ok(OSKind))
    && (ps.arch.Some? ==> DictKind(known, ps.arch.value.cases) == Ok(ArchKind))
    && (ps.platform.Some? ==> DictKind(known, ps.platform.value.cases) == Ok(PlatformKind))
  }

  function Reversed(s: seq<Expr>): seq<Expr> {
    if s == [] then [] else [s[|s| - 1]] + Reversed(s[..|s| - 1])
  }

  lemma {:induction false} OperandsOfChain(parts: seq<Expr>)
    requires parts != [] && forall e | e in parts :: !e.Binary?
    ensures Operands(Chain(parts)) == Reversed(parts)
  {
    if |parts| == 1 {
      assert parts[0] in parts && Reversed(parts[..0]) == [];
    } else {
      forall e | e in parts[..|parts| - 1] ensures !e.Binary? {}
      OperandsOfChain(parts[..|parts| - 1]);
    }
  }

  lemma {:induction false} ReversedConcat(a: seq<Expr>, b: seq<Expr>)
    ensures Reversed(a + b) == Reversed(b) + Reversed(a)
  {
    if b == [] {
      assert a + b == a;
    } else {
      ReversedConcat(a, b[..|b| - 1]);
      assert (a + b)[..|a + b| - 1] == a + b[..|b| - 1];
    }
  }

  lemma {:induction false} AddPartsConcat(known: Known, ps: Parts, a: seq<Expr>, b: seq<Expr>)
    ensures AddParts(known, ps, a + b) ==
            match AddParts(known, ps, a) { case Err(err) => Err(err) case Ok(ps') => AddParts(known, ps', b) }
    decreases a
  {
    if a == [] {
      assert a + b == b;
    } else {
      assert (a + b)[1..] == a[1..] + b;
      match AddPart(known, ps, a[0]) {
        case Err(_) =>
        case Ok(ps') => AddPartsConcat(known, ps', a[1..], b);
      }
    }
  }

  lemma SmallReversed(o: Option<Dict>, l: Option<List>)
    ensures Reversed(SelectPart(o)) == SelectPart(o) && Reversed(ListPart(l)) == ListPart(l)
  {
    assert Reversed([]) == [];
    var s, t := SelectPart(o), ListPart(l);
    if s != [] { assert s[..0] == []; }
    if t != [] { assert t[..0] == []; }
  }

  lemma AddSelect(known: Known, ps: Parts, d: Option<Dict>, kind: Kind)
    requires Slot(ps, kind).None? && (d.Some? ==> DictKind(known, d.value.cases) == Ok(kind))
    ensures AddParts(known, ps, SelectPart(d)) == Ok(if d.Some? then SetSlot(ps, kind, d.value) else ps)
  {
    var parts := SelectPart(d);
    if parts != [] {
      assert AddParts(known, SetSlot(ps, kind, d.value), parts[1..]) == Ok(SetSlot(ps, kind, d.value));
    }
  }

  lemma AddList(known: Known, ps: Parts, l: Option<List>)
    requires ps.generic.None?
    ensures AddParts(known, ps, ListPart(l)) == Ok(ps.(generic := l))
  {
    var parts := ListPart(l);
    if parts != [] {
      assert AddParts(known, ps.(generic := l), parts[1..]) == Ok(ps.(generic := l));
    }
  }

  lemma ReversedParts(ps: Parts)
    ensures Reversed(PartsOf(ps)) ==
              SelectPart(ps.platform) + (SelectPart(ps.arch) + (SelectPart(ps.os) + ListPart(ps.generic)))
  {
    var l, o, a, p := ListPart(ps.generic), SelectPart(ps.os), SelectPart(ps.arch), SelectPart(ps.platform);
    ReversedConcat(l + o + a, p);
    ReversedConcat(l + o, a);
    ReversedConcat(l, o);
    SmallReversed(ps.os, ps.generic);
    SmallReversed(ps.arch, ps.generic);
    SmallReversed(ps.platform, ps.generic);
  }

  lemma AddAll(known: Known, ps: Parts)
    requires InPlace(known, ps)
    ensures AddParts(known, NO_PARTS,
                     SelectPart(ps.platform) + (SelectPart(ps.arch) + (SelectPart(ps.os) + ListPart(ps.generic))))
            == Ok(ps)
  {
    var l, o, a, p := ListPart(ps.generic), SelectPart(ps.os), SelectPart(ps.arch), SelectPart(ps.platform);
    var p1 := Parts(None, None, None, ps.platform);
    var p2 := Parts(None, None, ps.arch, ps.platform);
    var p3 := Parts(None, ps.os, ps.arch, ps.platform);
    AddPartsConcat(known, NO_PARTS, p, a + (o + l));
    AddSelect(known, NO_PARTS, ps.platform, PlatformKind);
    AddPartsConcat(known, p1, a, o + l);
    AddSelect(known, p1, ps.arch, ArchKind);
    AddPartsConcat(known, p2, o, l);
    AddSelect(known, p2, ps.os, OSKind);
    AddList(known, p3, ps.generic);
  }

  lemma ExtractOfChain(known: Known, ps: Parts)
    requires InPlace(known, ps) && PartsOf(ps) != []
    ensures Extracted(known, Chain(PartsOf(ps))) == Ok(ps)
  {
    forall e | e in PartsOf(ps) ensures !e.Binary? {}
    OperandsOfChain(PartsOf(ps));
    ReversedParts(ps);
    AddAll(known, ps);
  }

  /** The value is put together with +, not marked. */
  predicate IsSum(e: Expr) {
    e.Binary? ==> e.op == "+" && !e.keep && !e.y.Binary? && IsSum(e.x)
  }

  /** What is made of parts is the sum of the list and the selects, in that order. */
  lemma MadeIsSum(ps: Parts)
    requires Made(ps).Some?
    ensures IsSum(Made(ps).value) && Operands(Made(ps).value) == Reversed(PartsOf(Forced(ps)))
  {
    hide PartsOf, Forced;
    var parts := PartsOf(Forced(ps));
    NoneBinary(Forced(ps));
    OperandsOfChain(parts);
    ChainIsSum(parts);
  }

  lemma NoneBinary(ps: Parts)
    ensures forall e | e in PartsOf(ps) :: !e.Binary?
  {
    forall e | e in PartsOf(ps) ensures !e.Binary? {
      assert e in ListPart(ps.generic) || e in SelectPart(ps.os) || e in SelectPart(ps.arch)
             || e in SelectPart(ps.platform);
    }
  }

  lemma {:induction false} ChainIsSum(parts: seq<Expr>)
    requires parts != [] && forall e | e in parts :: !e.Binary?
    ensures IsSum(Chain(parts))
  {
    if |parts| > 1 {
      assert parts[|parts| - 1] in parts;
      ChainIsSum(parts[..|parts| - 1]);
    } else {
      assert parts[0] in parts;
    }
  }

  /** What is made of parts can be taken apart again, up to the line breaks. */
  lemma MadeThenExtracted(known: Known, ps: Parts)
    requires InPlace(known, ps) && Made(ps).Some?
    ensures Extracted(known, Made(ps).value) == Ok(Forced(ps))
  {
    ExtractOfChain(known, Forced(ps));
  }

  // --------------------------------------------------------- what taking apart loses

  predicate Recognisable(e: Expr) {
    e.ListE? || e.Call?
  }

  /** A call comes back as the select that is made of it. */
  function Recognise(e: Expr): seq<Expr> {
    match e
    case ListE(l) => [ListE(l)]
    case Call(_, args, _) => [Call(Some("select"), args, false)]
    case _ => []
  }

  /** The operands that are not passed over. */
  function Recognised(operands: seq<Expr>): seq<Expr> {
    if operands == [] then [] else Recognise(operands[0]) + Recognised(operands[1..])
  }

  lemma {:induction false} RecognisedAll(operands: seq<Expr>)
    ensures |Recognised(operands)| <= |operands|
    ensures |Recognised(operands)| == |operands| <==> forall o | o in operands :: Recognisable(o)
  {
    if operands != [] {
      RecognisedAll(operands[1..]);
      assert operands[0] in operands && operands == [operands[0]] + operands[1..];
    }
  }

  ghost function Bag(ps: Parts): multiset<Expr> {
    multiset(ListPart(ps.generic)) + multiset(SelectPart(ps.os)) + multiset(SelectPart(ps.arch))
    + multiset(SelectPart(ps.platform))
  }

  lemma BagOfParts(ps: Parts)
    ensures multiset(PartsOf(ps)) == Bag(ps)
  {
  }

  lemma SetSlotKeeps(known: Known, ps: Parts, kind: Kind, d: Dict)
    requires Slot(ps, kind).None? && DictKind(known, d.cases) == Ok(kind)
    ensures Bag(SetSlot(ps, kind, d)) == Bag(ps) + multiset(SelectPart(Some(d)))
    ensures InPlace(known, ps) ==> InPlace(known, SetSlot(ps, kind, d))
  {
    hide DictKind, SelectPart, ListPart;
    NoSelect();
    match kind {
      case OSKind => assert SetSlot(ps, kind, d) == ps.(os := Some(d));
      case ArchKind => assert SetSlot(ps, kind, d) == ps.(arch := Some(d));
      case PlatformKind => assert SetSlot(ps, kind, d) == ps.(platform := Some(d));
    }
  }

  lemma NoSelect()
    ensures multiset(SelectPart(None)) == multiset{}
  {
  }

  lemma AddPartKeeps(known: Known, ps: Parts, part: Expr)
    requires AddPart(known, ps, part).Ok?
    ensures Bag(AddPart(known, ps, part).value) == Bag(ps) + multiset(Recognise(part))
    ensures InPlace(known, ps) ==> InPlace(known, AddPart(known, ps, part).value)
  {
    hide Bag, InPlace, DictKind, SetSlot;
    match part {
      case ListE(l) => SetListKeeps(known, ps, l);
      case Call(_, args, _) =>
        var d := args[0].dict;
        assert args == [args[0]] && args[0] == DictE(d);
        SetSlotKeeps(known, ps, DictKind(known, d.cases).value, d);
      case _ =>
    }
  }

  lemma SetListKeeps(known: Known, ps: Parts, l: List)
    requires ps.generic.None?
    ensures Bag(ps.(generic := Some(l))) == Bag(ps) + multiset(ListPart(Some(l)))
    ensures InPlace(known, ps) ==> InPlace(known, ps.(generic := Some(l)))
  {
    hide DictKind;
    assert multiset(ListPart(None)) == multiset{};
  }

  /** What is taken apart is sorted by kind, and nothing is lost but what is passed over. */
  lemma {:induction false} AddPartsKeeps(known: Known, ps: Parts, parts: seq<Expr>)
    requires AddParts(known, ps, parts).Ok?
    ensures Bag(AddParts(known, ps, parts).value) == Bag(ps) + multiset(Recognised(parts))
    ensures InPlace(known, ps) ==> InPlace(known, AddParts(known, ps, parts).value)
    decreases parts
  {
    hide Bag, Recognise, InPlace, AddPart;
    if parts != [] {
      AddPartKeeps(known, ps, parts[0]);
      AddPartsKeeps(known, AddPart(known, ps, parts[0]).value, parts[1..]);
    }
  }

  /** Which operands come back: the lists and the selects, each in the slot of its kind.
      None is lost exactly if all operands are lists or calls, and calls that are no
      selects are errors. */
  lemma ExtractionKeepsIff(known: Known, e: Expr)
    requires Extracted(known, e).Ok?
    ensures var x := Extracted(known, e).value;
            && InPlace(known, x)
            && multiset(PartsOf(x)) == multiset(Recognised(Operands(e)))
            && (|PartsOf(x)| == |Operands(e)| <==> forall o | o in Operands(e) :: Recognisable(o))
  {
    AddPartsKeeps(known, NO_PARTS, Operands(e));
    BagOfParts(NO_PARTS);
    BagOfParts(Extracted(known, e).value);
    RecognisedAll(Operands(e));
    var x := Extracted(known, e).value;
    assert |multiset(PartsOf(x))| == |PartsOf(x)|;
  }

  /** Extraction sees the recognised operands only: two values that agree on them are
      taken apart into the same parts, or fail alike. */
  lemma {:induction false} AddOnlyRecognised(known: Known, ps: Parts, parts: seq<Expr>)
    ensures AddParts(known, ps, parts) == AddParts(known, ps, Filtered(parts))
    decreases parts
  {
    if parts != [] {
      var rest := Filtered(parts[1..]);
      assert ([parts[0]] + rest)[1..] == rest && [] + rest == rest;
      if AddPart(known, ps, parts[0]).Ok? {
        AddOnlyRecognised(known, AddPart(known, ps, parts[0]).value, parts[1..]);
      }
    }
  }

  function Filtered(operands: seq<Expr>): seq<Expr> {
    if operands == [] then []
    else (if Recognisable(operands[0]) then [operands[0]] else []) + Filtered(operands[1..])
  }

  /** An operand that is not recognised, added to a list, leaves no trace. */
  lemma OtherOperandsAreDropped(known: Known, op: string, other: Expr, l: List)
    requires !Recognisable(other) && !other.Binary?
    ensures var e := Binary(op, other, ListE(l), false);
            && Extracted(known, e) == Ok(Parts(Some(l), None, None, None))
            && Made(Extracted(known, e).value) == Some(ListE(l))
  {
    var ps := Parts(Some(l), None, None, None);
    var e := Binary(op, other, ListE(l), false);
    assert Operands(e) == [ListE(l), other];
    assert [ListE(l), other][1..] == [other] && [other][1..] == [];
    assert Filtered([other]) == [];
    assert Filtered([ListE(l), other]) == [ListE(l)] + Filtered([other]) == ListPart(Some(l));
    AddOnlyRecognised(known, NO_PARTS, Operands(e));
    AddList(known, NO_PARTS, Some(l));
    assert PartsOf(ps) == [ListE(l)];
  }
}
