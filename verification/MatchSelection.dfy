/** Choosing among the indexed rules that provide a Go import: vendored libraries are
    visible below the parent of their vendor directory only, and the closest wins. */
module MatchSelection {
  import opened Labels
  import opened Paths
  import opened RuleIndexes
  import Sorting
  import opened Options

  /** Whether a label is inside a package or below it. */
  predicate Contains(repo: string, pkg: string, other: Label) {
    repo == other.repo && HasPathPrefix(other.pkg, pkg)
  }

  /** Whether a package is vendored, and the parent of its innermost vendor directory. */
  datatype Vendoring = NotVendored | Vendored(root: string)

  ghost function VendoringOf(pkg: string): Vendoring {
    VendoringUpTo(Split(pkg), |Split(pkg)|)
  }

  /** The same, looking at the first `n` elements from the last one down. */
  ghost function VendoringUpTo(parts: seq<string>, n: nat): Vendoring
    requires n <= |parts|
  {
    if n == 0 then NotVendored
    else if parts[n - 1] == "vendor" then Vendored(Join(parts[..n - 1]))
    else VendoringUpTo(parts, n - 1)
  }

  lemma LastOfRange(parts: seq<string>, i: nat, n: nat)
    requires i < n <= |parts|
    ensures parts[i..n] == parts[i..n - 1] + [parts[n - 1]]
  {
  }

  /** The innermost vendor directory is the last element called "vendor". */
  lemma {:induction false} VendoringIsInnermost(parts: seq<string>, n: nat)
    requires n <= |parts|
    ensures VendoringUpTo(parts, n) == NotVendored <==> "vendor" !in parts[..n]
    ensures forall i | 0 <= i < n && parts[i] == "vendor" && "vendor" !in parts[i + 1..n] ::
              VendoringUpTo(parts, n) == Vendored(Join(parts[..i]))
  {
    hide Join;
    if n > 0 {
      VendoringIsInnermost(parts, n - 1);
      assert parts[..n] == parts[..n - 1] + [parts[n - 1]];
      forall i | 0 <= i < n && parts[i] == "vendor" && "vendor" !in parts[i + 1..n]
        ensures VendoringUpTo(parts, n) == Vendored(Join(parts[..i]))
      {
        if i < n - 1 {
          LastOfRange(parts, i + 1, n);
        }
      }
    }
  }

  method FindVendoring(pkg: string) returns (v: Vendoring)
    ensures v == VendoringOf(pkg)
  {
    var parts := Split(pkg);
    var i := |parts| - 1;
    while i >= 0
      invariant -1 <= i < |parts|
      invariant VendoringUpTo(parts, i + 1) == VendoringOf(pkg)
    {
      if parts[i] == "vendor" {
        return Vendored(Join(parts[..i]));
      }
      i := i - 1;
    }
    v := NotVendored;
  }

  ghost predicate Visible(m: FindResult, from: Label) {
    match VendoringOf(m.id.pkg)
    case NotVendored => true
    case Vendored(root) => Contains(m.id.repo, root, from)
  }

  /** Vendored rules outrank others, and deeper vendor roots outrank shallower ones. */
  ghost function Rank(m: FindResult): int {
    match VendoringOf(m.id.pkg)
    case NotVendored => -1
    case Vendored(root) => |root|
  }

  predicate HasGoProtoSuffix(name: string) {
    |name| >= 9 && name[|name| - 9..] == "_go_proto"
  }

  predicate EmbedsProtos(m: FindResult) {
    exists i | 0 <= i < |m.embeds| :: HasGoProtoSuffix(m.embeds[i].name)
  }

  datatype Outcome = Found(id: Label) | SkipImport | NotFound | Ambiguous

  /** The unique visible match that outranks all others: it occurs once, and no other
      visible match has its rank or a higher one. */
  ghost predicate UniqueBest(matches: multiset<FindResult>, from: Label, m: FindResult) {
    && matches[m] == 1
    && Visible(m, from)
    && forall n | n in matches && n != m && Visible(n, from) :: Rank(n) < Rank(m)
  }

  ghost predicate SomeVisible(matches: multiset<FindResult>, from: Label) {
    exists m :: m in matches && Visible(m, from)
  }

  ghost predicate NoneVisible(matches: seq<FindResult>, from: Label) {
    forall m | m in matches :: !Visible(m, from)
  }

  lemma NoneVisibleStep(matches: seq<FindResult>, from: Label, m: FindResult)
    ensures NoneVisible(matches + [m], from) <==> NoneVisible(matches, from) && !Visible(m, from)
  {
    assert forall x :: x in matches + [m] <==> x in matches || x == m;
    assert m in matches + [m];
  }

  /** What the loop knows after some matches: the first of the highest rank, and
      whether a second one of that rank was seen. */
  ghost predicate BestSoFar(matches: seq<FindResult>, from: Label, best: Option<FindResult>, tied: bool) {
    match best
    case None => !tied && forall m | m in matches :: !Visible(m, from)
    case Some(b) =>
      && b in matches && Visible(b, from)
      && (forall m | m in matches && Visible(m, from) :: Rank(m) <= Rank(b))
      && (tied <==> || multiset(matches)[b] > 1
                    || exists m :: m in matches && m != b && Visible(m, from) && Rank(m) == Rank(b))
  }

  lemma BestSoFarStep(matches: seq<FindResult>, from: Label, best: Option<FindResult>, tied: bool, m: FindResult)
    requires BestSoFar(matches, from, best, tied)
    ensures !Visible(m, from) ==> BestSoFar(matches + [m], from, best, tied)
    ensures Visible(m, from) ==>
              if best.None? || Rank(m) > Rank(best.value) then BestSoFar(matches + [m], from, Some(m), false)
              else BestSoFar(matches + [m], from, best, tied || Rank(m) == Rank(best.value))
  {
    var all := matches + [m];
    assert forall x :: x in all <==> x in matches || x == m;
    assert multiset(all) == multiset(matches) + multiset{m};
    if best.None? {
      assert Visible(m, from) ==> m !in multiset(matches);
    } else if Visible(m, from) && Rank(m) > Rank(best.value) {
      assert m !in multiset(matches);
    } else if best.value == m {
      assert best.value in multiset(matches);
    }
  }

  lemma BestIsUnique(matches: seq<FindResult>, from: Label, best: Option<FindResult>, tied: bool)
    requires BestSoFar(matches, from, best, tied)
    ensures best.None? <==> !SomeVisible(multiset(matches), from)
    ensures best.Some? && !tied ==> UniqueBest(multiset(matches), from, best.value)
    ensures tied ==> forall m :: !UniqueBest(multiset(matches), from, m)
  {
    var ms := multiset(matches);
    assert forall x :: x in ms <==> x in matches;
    if best.Some? {
      var b := best.value;
      assert b in ms;
      if tied {
        forall m ensures !UniqueBest(ms, from, m) {
          if m == b && ms[b] <= 1 {
            var n :| n in matches && n != b && Visible(n, from) && Rank(n) == Rank(b);
            assert n in ms;
          }
        }
      }
    }
  }

  /** A match with the zero label, which the loop takes for "none so far". A rule without
      a name in the root package has it. */
  predicate Nameless(m: FindResult) {
    Equal(m.id, NO_LABEL)
  }

  /** The matches with other labels. */
  function Named(matches: seq<FindResult>): seq<FindResult> {
    if matches == [] then []
    else
      var m := matches[|matches| - 1];
      Named(matches[..|matches| - 1]) + if Nameless(m) then [] else [m]
  }

  lemma NamedStep(matches: seq<FindResult>, m: FindResult)
    ensures Named(matches + [m]) == Named(matches) + if Nameless(m) then [] else [m]
  {
    assert (matches + [m])[..|matches|] == matches;
  }

  lemma {:induction false} NamedMember(matches: seq<FindResult>)
    ensures forall m :: m in Named(matches) <==> m in matches && !Nameless(m)
  {
    if matches != [] {
      var init := matches[..|matches| - 1];
      assert matches == init + [matches[|matches| - 1]];
      NamedMember(init);
    }
  }

  /** The loop's best match. */
  ghost function Chosen(best: FindResult): Option<FindResult> {
    if Nameless(best) then None else Some(best)
  }

  /** A nameless match comes after a visible one. */
  ghost predicate Late(matches: seq<FindResult>, from: Label) {
    exists i, j :: 0 <= i < j < |matches| && !Nameless(matches[i]) && Visible(matches[i], from) && Nameless(matches[j])
  }

  /** No visible match is vendored. */
  ghost predicate NoneVendored(matches: seq<FindResult>, from: Label) {
    forall m | m in matches && Visible(m, from) :: Rank(m) < 0
  }

  /** What the choice comes to, outside repository mode: that of the named matches, but
      ambiguous if a nameless match comes after a visible one and none is vendored. */
  ghost function InOrder(matches: seq<FindResult>, from: Label): Outcome {
    if Late(matches, from) && NoneVendored(matches, from) then Ambiguous
    else Resolution(multiset(Named(matches)), from)
  }

  lemma NamelessIsPlain(m: FindResult, from: Label)
    requires Nameless(m)
    ensures VendoringOf(m.id.pkg) == NotVendored && Visible(m, from) && Rank(m) < 0
  {
    assert Split("") == [""];
    VendoringIsInnermost(Split(""), 1);
    assert [""][..1] == [""];
  }

  lemma RankOf(m: FindResult)
    ensures Rank(m) < 0 <==> VendoringOf(m.id.pkg) == NotVendored
  {
  }

  /** Whether a match after others is late. */
  lemma LateStep(matches: seq<FindResult>, from: Label, m: FindResult)
    ensures Late(matches + [m], from) <==>
            Late(matches, from) || (Nameless(m) && !NoneVisible(Named(matches), from))
  {
    var all := matches + [m];
    NamedMember(matches);
    if Late(matches, from) {
      var i, j :| 0 <= i < j < |matches| && !Nameless(matches[i]) && Visible(matches[i], from) && Nameless(matches[j]);
      assert all[i] == matches[i] && all[j] == matches[j];
    }
    if Nameless(m) && !NoneVisible(Named(matches), from) {
      var x :| x in Named(matches) && Visible(x, from);
      var i :| 0 <= i < |matches| && matches[i] == x;
      assert all[i] == x && all[|matches|] == m;
    }
  }

  /** What the loop knows, outside repository mode, of the named and the nameless
      matches. */
  ghost predicate Seen(matches: seq<FindResult>, from: Label, best: Option<FindResult>, tied: bool, ambiguous: bool) {
    && BestSoFar(Named(matches), from, best, tied)
    && (ambiguous <==> tied || (Late(matches, from) && best.Some? && Rank(best.value) < 0))
  }

  lemma SeenStart(from: Label)
    ensures Seen([], from, None, false, false)
  {
    NothingSeen(from);
  }

  /** One more match. */
  lemma SeenStep(matches: seq<FindResult>, from: Label, best: Option<FindResult>, tied: bool, ambiguous: bool,
        m: FindResult)
    requires Seen(matches, from, best, tied, ambiguous)
    ensures !Visible(m, from) ==> Seen(matches + [m], from, best, tied, ambiguous)
    ensures Visible(m, from) && Nameless(m) && best.None? ==> Seen(matches + [m], from, None, false, false)
    ensures Visible(m, from) && Nameless(m) && best.Some? ==>
              Seen(matches + [m], from, best, tied, ambiguous || Rank(best.value) < 0)
    ensures Visible(m, from) && !Nameless(m) ==>
              if best.None? || Rank(m) > Rank(best.value) then Seen(matches + [m], from, Some(m), false, false)
              else
                var tie := Rank(m) == Rank(best.value);
                Seen(matches + [m], from, best, tied || tie, ambiguous || tie)
  {
    hide Visible, BestSoFar, Rank;
    NamedStep(matches, m);
    LateStep(matches, from, m);
    BestSoFarStep(Named(matches), from, best, tied, m);
    NoneSeen(matches, from, best, tied);
    if Nameless(m) {
      NamelessIsPlain(m, from);
      assert Named(matches) + [] == Named(matches);
    } else if best.Some? {
      LowRank(m);
      LowRank(best.value);
    }
  }

  lemma LowRank(m: FindResult)
    ensures Rank(m) >= -1
  {
  }

  lemma NoneSeen(matches: seq<FindResult>, from: Label, best: Option<FindResult>, tied: bool)
    requires BestSoFar(Named(matches), from, best, tied)
    ensures best.None? <==> NoneVisible(Named(matches), from)
    ensures best.None? ==> !tied && !Late(matches, from)
  {
    NamedMember(matches);
    if Late(matches, from) {
      var i, j :| 0 <= i < j < |matches| && !Nameless(matches[i]) && Visible(matches[i], from) && Nameless(matches[j]);
      assert matches[i] in Named(matches);
    }
  }

  /** What is seen of all matches is what the choice comes to. */
  lemma SeenAll(matches: seq<FindResult>, from: Label, best: Option<FindResult>, tied: bool, ambiguous: bool)
    requires Seen(matches, from, best, tied, ambiguous)
    ensures InOrder(matches, from) ==
            if ambiguous then Ambiguous
            else if best.None? then NotFound
            else if IsSelfImport(best.value, from) then SkipImport
            else Found(best.value.id)
  {
    hide Resolution;
    NamedMember(matches);
    NoneSeen(matches, from, best, tied);
    BestIsUnique(Named(matches), from, best, tied);
    ResolutionIs(multiset(Named(matches)), from, best, tied);
    if best.Some? {
      forall m | m in matches && Visible(m, from) ensures Rank(m) < 0 || Rank(m) <= Rank(best.value) {
        if Nameless(m) { NamelessIsPlain(m, from); }
      }
    }
  }

  /** Chooses among matches. `goRepositoryMode` adds a preference for rules that embed
      generated protos. */
  method ResolveWithIndexGo(matches: seq<FindResult>, from: Label, goRepositoryMode: bool) returns (r: Outcome)
    requires !from.relative
    ensures !goRepositoryMode ==> r == InOrder(matches, from)
    ensures !goRepositoryMode && CleanPackages(matches, from) ==>
              && (r == NotFound <==> forall m | m in matches :: !Counts(m, from))
              && forall k | Deepest(matches, from, k) ::
                   r == if ImportsItself(matches[k], from) then SkipImport else Found(matches[k].id)
    ensures !goRepositoryMode || (forall m | m in matches && Nameless(m) :: !EmbedsProtos(m)) ==>
              (r.NotFound? <==> NoneVisible(Named(matches), from))
    ensures goRepositoryMode && CleanPackages(matches, from) && NoneDeep(matches, from) ==>
              && (forall k | Preferred(matches, from, k) ::
                    r == if ImportsItself(matches[k], from) then SkipImport else Found(matches[k].id))
              && (r == Ambiguous <==>
                  (exists m :: m in matches && Counts(m, from)) && !exists k :: Preferred(matches, from, k))
    ensures CleanPackages(matches, from) && (r.Found? || r.SkipImport?) ==>
              exists m :: m in matches && Counts(m, from)
                && r == if ImportsItself(m, from) then SkipImport else Found(m.id)
  {
    hide CleanPackages, Counts, Deepest, ImportsItself, HasPathPrefix, Seen, Resolution, VendoringUpTo, VendoringOf;
    hide InOrder, EmbedsProtos, ProtoSeen, Preferred, NoneVendored, NoneDeep, Late, Visible, Rank, Known, Protos;
    var best := FindResult(NO_LABEL, []);
    var bestVendoring := NotVendored;
    var bestEmbedsProtos := false;
    var ambiguous := false;
    ghost var tied := false;
    ghost var at: Option<nat> := None;
    NothingKnown(matches, from, goRepositoryMode);
    for i := 0 to |matches|
      invariant Known(matches, i, from, goRepositoryMode, best, bestVendoring, bestEmbedsProtos, ambiguous)
      invariant !goRepositoryMode ==> Seen(matches[..i], from, Chosen(best), tied, ambiguous)
      invariant goRepositoryMode ==> Protos(matches, i, from, best, at, ambiguous)
    {
      var m := matches[i];
      KnownStep(matches, i, from, goRepositoryMode, best, bestVendoring, bestEmbedsProtos, ambiguous);
      if goRepositoryMode {
        ProtosStep(matches, i, from, best, bestVendoring, bestEmbedsProtos, at, ambiguous);
      } else {
        SeenNext(matches, i, from, best, bestVendoring, bestEmbedsProtos, tied, ambiguous);
      }
      var vendoring := FindVendoring(m.id.pkg);
      VisibleIs(m, from);
      if vendoring.Vendored? && !Contains(m.id.repo, vendoring.root, from) {
        continue;
      }
      var embedsProtos := EmbedsProtos(m);
      var bestIsVendored := bestVendoring.Vendored?;
      var bestRoot := if bestIsVendored then bestVendoring.root else "";
      if Equal(best.id, NO_LABEL)
         || (vendoring.Vendored? && (!bestIsVendored || |vendoring.root| > |bestRoot|))
         || (goRepositoryMode && !bestEmbedsProtos && embedsProtos) {
        best, bestVendoring, bestEmbedsProtos, ambiguous, tied := m, vendoring, embedsProtos, false, false;
        at := Some(i);
      } else if (!vendoring.Vendored? && bestIsVendored)
                || (vendoring.Vendored? && |vendoring.root| < |bestRoot|)
                || (goRepositoryMode && bestEmbedsProtos && !embedsProtos) {
        // The current match is worse.
      } else {
        ambiguous, tied := true, tied || !Nameless(m);
      }
    }
    assert matches[..|matches|] == matches;
    ChoiceIs(matches, from, goRepositoryMode, best, bestVendoring, bestEmbedsProtos, tied, at, ambiguous);
    if ambiguous {
      return Ambiguous;
    }
    if Equal(best.id, NO_LABEL) {
      return NotFound;
    }
    if IsSelfImport(best, from) {
      return SkipImport;
    }
    r := Found(best.id);
  }

  // ------------------------------------------------------------------- the loop

  /** A match replaces the best one so far, or is worse; otherwise it is as good. */
  predicate Better(best: FindResult, bestVendoring: Vendoring, bestEmbedsProtos: bool, mode: bool, m: FindResult,
        vendoring: Vendoring)
  {
    || Nameless(best)
    || (vendoring.Vendored? && (!bestVendoring.Vendored? || |vendoring.root| > |bestVendoring.root|))
    || (mode && !bestEmbedsProtos && EmbedsProtos(m))
  }

  predicate Worse(bestVendoring: Vendoring, bestEmbedsProtos: bool, mode: bool, m: FindResult, vendoring: Vendoring) {
    || (!vendoring.Vendored? && bestVendoring.Vendored?)
    || (vendoring.Vendored? && bestVendoring.Vendored? && |vendoring.root| < |bestVendoring.root|)
    || (mode && bestEmbedsProtos && !EmbedsProtos(m))
  }

  ghost predicate NoneEmbeds(matches: seq<FindResult>) {
    forall m | m in matches && Nameless(m) :: !EmbedsProtos(m)
  }

  /** What the loop knows of its best match in either mode. */
  ghost predicate Known(matches: seq<FindResult>, n: nat, from: Label, mode: bool, best: FindResult,
        bestVendoring: Vendoring, bestEmbedsProtos: bool, ambiguous: bool)
    requires n <= |matches|
  {
    && (Nameless(best) ==> !ambiguous && !bestVendoring.Vendored?)
    && (!Nameless(best) ==>
          && best in matches && Visible(best, from)
          && bestVendoring == VendoringOf(best.id.pkg) && bestEmbedsProtos == EmbedsProtos(best))
    && (!mode || NoneEmbeds(matches) ==> (Nameless(best) <==> NoneVisible(Named(matches[..n]), from)))
  }

  lemma KnownStep(matches: seq<FindResult>, n: nat, from: Label, mode: bool, best: FindResult,
        bestVendoring: Vendoring, bestEmbedsProtos: bool, ambiguous: bool)
    requires n < |matches| && Known(matches, n, from, mode, best, bestVendoring, bestEmbedsProtos, ambiguous)
    ensures var m := matches[n];
            var vendoring := VendoringOf(m.id.pkg);
            if Visible(m, from) && Better(best, bestVendoring, bestEmbedsProtos, mode, m, vendoring) then
              Known(matches, n + 1, from, mode, m, vendoring, EmbedsProtos(m), false)
            else
              && Known(matches, n + 1, from, mode, best, bestVendoring, bestEmbedsProtos, ambiguous)
              && (Visible(m, from) ==>
                    Known(matches, n + 1, from, mode, best, bestVendoring, bestEmbedsProtos, true))
  {
    hide Visible, VendoringOf, EmbedsProtos;
    var m := matches[n];
    assert matches[..n + 1] == matches[..n] + [m];
    NamedStep(matches[..n], m);
    assert Named(matches[..n]) + [] == Named(matches[..n]);
    if Nameless(m) {
      NamelessIsPlain(m, from);
    } else {
      NoneVisibleStep(Named(matches[..n]), from, m);
    }
  }

  lemma SeenNext(matches: seq<FindResult>, n: nat, from: Label, best: FindResult, bestVendoring: Vendoring,
        bestEmbedsProtos: bool, tied: bool, ambiguous: bool)
    requires n < |matches| && Known(matches, n, from, false, best, bestVendoring, bestEmbedsProtos, ambiguous)
    requires Seen(matches[..n], from, Chosen(best), tied, ambiguous)
    ensures var m := matches[n];
            var vendoring := VendoringOf(m.id.pkg);
            if !Visible(m, from) then Seen(matches[..n + 1], from, Chosen(best), tied, ambiguous)
            else if Better(best, bestVendoring, bestEmbedsProtos, false, m, vendoring) then
              Seen(matches[..n + 1], from, Chosen(m), false, false)
            else if Worse(bestVendoring, bestEmbedsProtos, false, m, vendoring) then
              Seen(matches[..n + 1], from, Chosen(best), tied, ambiguous)
            else Seen(matches[..n + 1], from, Chosen(best), tied || !Nameless(m), true)
  {
    hide Visible, VendoringOf, EmbedsProtos, Seen, NoneVisible;
    var m := matches[n];
    assert matches[..n + 1] == matches[..n] + [m];
    SeenStep(matches[..n], from, Chosen(best), tied, ambiguous, m);
    if Nameless(m) { NamelessIsPlain(m, from); }
  }

  lemma VisibleIs(m: FindResult, from: Label)
    ensures Visible(m, from) <==>
            var v := VendoringOf(m.id.pkg);
            v.Vendored? ==> Contains(m.id.repo, v.root, from)
  {
  }

  ghost predicate Plain(matches: seq<FindResult>, from: Label) {
    NoneVendored(matches, from) && forall m | m in matches :: !Nameless(m)
  }

  /** What the loop knows in repository mode, if no visible match is vendored. */
  ghost predicate Protos(matches: seq<FindResult>, n: nat, from: Label, best: FindResult, at: Option<nat>,
        ambiguous: bool)
    requires n <= |matches|
  {
    Plain(matches, from) ==>
      && ProtoSeen(matches, n, from, at, ambiguous)
      && if at.Some? then at.value < n && best == matches[at.value] else Nameless(best)
  }

  lemma NothingKnown(matches: seq<FindResult>, from: Label, mode: bool)
    ensures Known(matches, 0, from, mode, FindResult(NO_LABEL, []), NotVendored, false, false)
    ensures Seen(matches[..0], from, Chosen(FindResult(NO_LABEL, [])), false, false)
    ensures Protos(matches, 0, from, FindResult(NO_LABEL, []), None, false)
  {
    SeenStart(from);
    ProtoStart(matches, from);
  }

  lemma ProtosStep(matches: seq<FindResult>, n: nat, from: Label, best: FindResult, bestVendoring: Vendoring,
        bestEmbedsProtos: bool, at: Option<nat>, ambiguous: bool)
    requires n < |matches| && Known(matches, n, from, true, best, bestVendoring, bestEmbedsProtos, ambiguous)
    requires Protos(matches, n, from, best, at, ambiguous)
    ensures var m := matches[n];
            var vendoring := VendoringOf(m.id.pkg);
            if !Visible(m, from) then Protos(matches, n + 1, from, best, at, ambiguous)
            else if Better(best, bestVendoring, bestEmbedsProtos, true, m, vendoring) then
              Protos(matches, n + 1, from, m, Some(n), false)
            else if Worse(bestVendoring, bestEmbedsProtos, true, m, vendoring) then
              Protos(matches, n + 1, from, best, at, ambiguous)
            else Protos(matches, n + 1, from, best, at, true)
  {
    hide Visible, VendoringOf, EmbedsProtos, ProtoSeen, NoneVisible, NoneVendored;
    if Plain(matches, from) {
      var m := matches[n];
      ProtoStep(matches, n, from, at, ambiguous);
      PlainRank(matches, from, m);
      RankOf(m);
      if at.Some? {
        PlainRank(matches, from, best);
        RankOf(best);
      }
    }
  }

  /** What is known of all matches is what is promised. */
  lemma ChoiceIs(matches: seq<FindResult>, from: Label, mode: bool, best: FindResult, bestVendoring: Vendoring,
        bestEmbedsProtos: bool, tied: bool, at: Option<nat>, ambiguous: bool)
    requires Known(matches, |matches|, from, mode, best, bestVendoring, bestEmbedsProtos, ambiguous)
    requires !mode ==> Seen(matches, from, Chosen(best), tied, ambiguous)
    requires mode ==> Protos(matches, |matches|, from, best, at, ambiguous)
    ensures var r := if ambiguous then Ambiguous
                     else if Nameless(best) then NotFound
                     else if IsSelfImport(best, from) then SkipImport
                     else Found(best.id);
            && (!mode ==> r == InOrder(matches, from))
            && (!mode && CleanPackages(matches, from) ==>
                  && (r == NotFound <==> forall m | m in matches :: !Counts(m, from))
                  && forall k | Deepest(matches, from, k) ::
                       r == if ImportsItself(matches[k], from) then SkipImport else Found(matches[k].id))
            && (!mode || NoneEmbeds(matches) ==> (r.NotFound? <==> NoneVisible(Named(matches), from)))
            && (mode && CleanPackages(matches, from) && NoneDeep(matches, from) ==>
                  && (forall k | Preferred(matches, from, k) ::
                        r == if ImportsItself(matches[k], from) then SkipImport else Found(matches[k].id))
                  && (r == Ambiguous <==>
                      (exists m :: m in matches && Counts(m, from)) && !exists k :: Preferred(matches, from, k)))
            && (CleanPackages(matches, from) && (r.Found? || r.SkipImport?) ==>
                  exists m :: m in matches && Counts(m, from)
                    && r == if ImportsItself(m, from) then SkipImport else Found(m.id))
  {
    hide CleanPackages, Counts, Deepest, ImportsItself, Seen, ProtoSeen, NoneVendored, NoneDeep, Preferred, InOrder;
    hide IsSelfImport, Visible, NoneVisible, EmbedsProtos, VendoringOf;
    assert matches[..|matches|] == matches;
    if !mode {
      SeenAll(matches, from, Chosen(best), tied, ambiguous);
      if CleanPackages(matches, from) { OutcomeByElements(matches, from); }
    }
    if CleanPackages(matches, from) {
      CleanAreNamed(matches, from);
      NoneDeepIff(matches, from);
      if mode && NoneDeep(matches, from) { ProtoAll(matches, from, at, ambiguous); }
      if !Nameless(best) {
        CleanCounts(matches, from, best);
        SelfImportIff(best, from);
      }
    }
  }

  // ----------------------------------------------------------- repository mode

  /** What the loop knows in repository mode of matches that are named and not vendored: of
      those that embed generated protos, or of all if none does, the first; and whether it
      was the only one. */
  ghost predicate ProtoSeen(matches: seq<FindResult>, n: nat, from: Label, best: Option<nat>, ambiguous: bool)
    requires n <= |matches|
  {
    match best
    case None => !ambiguous && forall j | 0 <= j < n :: !Visible(matches[j], from)
    case Some(k) =>
      && k < n && Visible(matches[k], from)
      && (forall j | 0 <= j < n && Visible(matches[j], from) :: EmbedsProtos(matches[j]) ==> EmbedsProtos(matches[k]))
      && (ambiguous <==>
          exists j | 0 <= j < n && j != k && Visible(matches[j], from) ::
            EmbedsProtos(matches[j]) <==> EmbedsProtos(matches[k]))
  }

  lemma ProtoStart(matches: seq<FindResult>, from: Label)
    ensures ProtoSeen(matches, 0, from, None, false)
  {
  }

  lemma ProtoStep(matches: seq<FindResult>, n: nat, from: Label, best: Option<nat>, ambiguous: bool)
    requires n < |matches| && ProtoSeen(matches, n, from, best, ambiguous)
    ensures !Visible(matches[n], from) ==> ProtoSeen(matches, n + 1, from, best, ambiguous)
    ensures Visible(matches[n], from) ==>
              if best.None? || (!EmbedsProtos(matches[best.value]) && EmbedsProtos(matches[n]))
              then ProtoSeen(matches, n + 1, from, Some(n), false)
              else if EmbedsProtos(matches[best.value]) && !EmbedsProtos(matches[n])
              then ProtoSeen(matches, n + 1, from, best, ambiguous)
              else ProtoSeen(matches, n + 1, from, best, true)
  {
    hide Visible, EmbedsProtos;
  }

  /** The name is that of a library of generated protos. */
  ghost predicate FromProtos(m: FindResult) {
    exists l, base :: l in m.embeds && l.name == base + "_go_proto"
  }

  lemma EmbedsProtosIff(m: FindResult)
    ensures EmbedsProtos(m) <==> FromProtos(m)
  {
    if i :| 0 <= i < |m.embeds| && HasGoProtoSuffix(m.embeds[i].name) {
      var name := m.embeds[i].name;
      assert m.embeds[i] in m.embeds && name == name[..|name| - 9] + "_go_proto";
    }
    if l, base :| l in m.embeds && l.name == base + "_go_proto" {
      var i :| 0 <= i < |m.embeds| && m.embeds[i] == l;
    }
  }

  /** The k-th match counts; it is the only one that does, or the only one of those that
      embeds a library of generated protos. */
  ghost predicate Preferred(matches: seq<FindResult>, from: Label, k: int) {
    && 0 <= k < |matches| && Counts(matches[k], from)
    && forall j | 0 <= j < |matches| && j != k && Counts(matches[j], from) ::
         FromProtos(matches[k]) && !FromProtos(matches[j])
  }

  /** No match that counts is vendored. */
  ghost predicate NoneDeep(matches: seq<FindResult>, from: Label) {
    forall m | m in matches && Counts(m, from) :: VendorDepth(m.id.pkg) < 0
  }

  lemma NoneDeepIff(matches: seq<FindResult>, from: Label)
    requires CleanPackages(matches, from)
    ensures NoneDeep(matches, from) <==> NoneVendored(matches, from)
  {
    hide Visible, Counts, Rank;
    forall m | m in matches
      ensures Visible(m, from) <==> Counts(m, from)
      ensures Rank(m) < 0 <==> VendorDepth(m.id.pkg) < 0
    {
      VisibleIff(m, from);
    }
  }

  lemma PlainRank(matches: seq<FindResult>, from: Label, m: FindResult)
    requires NoneVendored(matches, from) && m in matches
    ensures Visible(m, from) ==> Rank(m) < 0
  {
  }

  lemma CleanAreNamed(matches: seq<FindResult>, from: Label)
    requires CleanPackages(matches, from)
    ensures forall m | m in matches :: !Nameless(m)
  {
  }

  lemma CleanCounts(matches: seq<FindResult>, from: Label, m: FindResult)
    requires CleanPackages(matches, from) && m in matches
    ensures Visible(m, from) <==> Counts(m, from)
  {
    VisibleIff(m, from);
  }

  lemma ProtoAll(matches: seq<FindResult>, from: Label, best: Option<nat>, ambiguous: bool)
    requires CleanPackages(matches, from) && ProtoSeen(matches, |matches|, from, best, ambiguous)
    ensures best.None? ==> !ambiguous
    ensures best.Some? ==> best.value < |matches|
    ensures forall k | Preferred(matches, from, k) :: best == Some(k) && !ambiguous
    ensures ambiguous <==>
            (exists m :: m in matches && Counts(m, from)) && !exists k :: Preferred(matches, from, k)
  {
    hide Visible, EmbedsProtos, FromProtos, Counts, CleanPackages;
    forall j | 0 <= j < |matches|
      ensures Visible(matches[j], from) <==> Counts(matches[j], from)
      ensures EmbedsProtos(matches[j]) <==> FromProtos(matches[j])
    {
      CleanCounts(matches, from, matches[j]);
      EmbedsProtosIff(matches[j]);
    }
    if best.Some? {
      assert matches[best.value] in matches;
      if !ambiguous { assert Preferred(matches, from, best.value); }
    }
  }

  lemma NothingSeen(from: Label)
    ensures BestSoFar([], from, None, false)
  {
  }

  /** The meaning of a resolution, as a function of the collection of matches: their
      order does not enter. */
  ghost function Resolution(matches: multiset<FindResult>, from: Label): Outcome {
    if !SomeVisible(matches, from) then NotFound
    else if exists m :: UniqueBest(matches, from, m) then
      var m :| UniqueBest(matches, from, m);
      if IsSelfImport(m, from) then SkipImport else Found(m.id)
    else Ambiguous
  }

  lemma ResolutionIs(matches: multiset<FindResult>, from: Label, best: Option<FindResult>, tied: bool)
    requires best.None? <==> !SomeVisible(matches, from)
    requires best.None? ==> !tied
    requires best.Some? && !tied ==> UniqueBest(matches, from, best.value)
    requires tied ==> forall m :: !UniqueBest(matches, from, m)
    ensures Resolution(matches, from) ==
            if tied then Ambiguous
            else if best.None? then NotFound
            else if IsSelfImport(best.value, from) then SkipImport
            else Found(best.value.id)
  {
    if best.Some? && !tied {
      forall m | UniqueBest(matches, from, m) ensures m == best.value {
        AtMostOneBest(matches, from, m, best.value);
      }
    }
  }

  lemma AtMostOneBest(matches: multiset<FindResult>, from: Label, a: FindResult, b: FindResult)
    requires UniqueBest(matches, from, a) && UniqueBest(matches, from, b)
    ensures a == b
  {
    assert a in matches && b in matches;
    assert a != b ==> Rank(b) < Rank(a);
  }

  /** When it is ambiguous: exactly if two visible matches, not counted as one, share
      the highest rank. */
  lemma AmbiguousIff(matches: seq<FindResult>, from: Label)
    ensures Resolution(multiset(matches), from) == Ambiguous <==>
            exists i, j :: 0 <= i < j < |matches| && Visible(matches[i], from) && Visible(matches[j], from)
              && Rank(matches[i]) == Rank(matches[j])
              && forall m | m in matches && Visible(m, from) :: Rank(m) <= Rank(matches[i])
  {
    var best, tied := BestOf(matches, from);
    BestIsUnique(matches, from, best, tied);
    ResolutionIs(multiset(matches), from, best, tied);
    if tied {
      TieWitness(matches, from, best.value);
    }
    forall i, j | 0 <= i < j < |matches| && Visible(matches[i], from) && Visible(matches[j], from)
                  && Rank(matches[i]) == Rank(matches[j])
                  && forall m | m in matches && Visible(m, from) :: Rank(m) <= Rank(matches[i])
      ensures tied
    {
      assert matches[i] in matches && matches[j] in matches;
      assert best.Some? && Rank(best.value) == Rank(matches[i]);
      if matches[i] == matches[j] {
        Sorting.TwoOccurrences(matches, i, j);
      }
    }
  }

  lemma {:induction false} BestOf(matches: seq<FindResult>, from: Label) returns (best: Option<FindResult>, tied: bool)
    ensures BestSoFar(matches, from, best, tied)
  {
    if matches == [] {
      best, tied := None, false;
    } else {
      var m := matches[|matches| - 1];
      assert matches == matches[..|matches| - 1] + [m];
      best, tied := BestOf(matches[..|matches| - 1], from);
      BestSoFarStep(matches[..|matches| - 1], from, best, tied, m);
      if Visible(m, from) {
        if best.None? || Rank(m) > Rank(best.value) {
          best, tied := Some(m), false;
        } else {
          tied := tied || Rank(m) == Rank(best.value);
        }
      }
    }
  }

  lemma TieWitness(matches: seq<FindResult>, from: Label, b: FindResult)
    requires BestSoFar(matches, from, Some(b), true)
    ensures exists i, j :: 0 <= i < j < |matches| && Visible(matches[i], from) && Visible(matches[j], from)
              && Rank(matches[i]) == Rank(matches[j])
              && forall m | m in matches && Visible(m, from) :: Rank(m) <= Rank(matches[i])
  {
    if multiset(matches)[b] > 1 {
      var i, j := OccursTwice(matches, b);
    } else {
      var m :| m in matches && m != b && Visible(m, from) && Rank(m) == Rank(b);
      var i :| 0 <= i < |matches| && matches[i] == m;
      var j :| 0 <= j < |matches| && matches[j] == b;
      if i < j { assert matches[i] == m; } else { assert matches[j] == b; }
    }
  }

  lemma {:induction false} OccursTwice<T>(s: seq<T>, x: T) returns (i: nat, j: nat)
    requires multiset(s)[x] > 1
    ensures i < j < |s| && s[i] == x && s[j] == x
  {
    var init, last := s[..|s| - 1], s[|s| - 1];
    assert s == init + [last];
    if last == x {
      assert x in multiset(init);
      i :| 0 <= i < |init| && init[i] == x;
      j := |s| - 1;
    } else {
      i, j := OccursTwice(init, x);
    }
  }

  // ------------------------------------------------------------- when order matters

  lemma {:induction false} NamedOf(matches: seq<FindResult>, m: FindResult)
    ensures multiset(Named(matches))[m] == if Nameless(m) then 0 else multiset(matches)[m]
  {
    if matches != [] {
      var init, last := matches[..|matches| - 1], matches[|matches| - 1];
      assert matches == init + [last];
      NamedOf(init, m);
    }
  }

  lemma SameNamed(a: seq<FindResult>, b: seq<FindResult>)
    requires multiset(a) == multiset(b)
    ensures multiset(Named(a)) == multiset(Named(b))
    ensures forall m :: m in a <==> m in b
  {
    forall m ensures multiset(Named(a))[m] == multiset(Named(b))[m] {
      NamedOf(a, m);
      NamedOf(b, m);
    }
    forall m ensures m in a <==> m in b {
      assert m in multiset(a) <==> m in multiset(b);
    }
  }

  /** One visible match that is named, not vendored, and a nameless one. */
  ghost predicate OneAndNameless(matches: seq<FindResult>, from: Label, m: FindResult) {
    && UniqueBest(multiset(Named(matches)), from, m) && Rank(m) < 0
    && exists z :: z in matches && Nameless(z)
  }

  /** The outcome outside repository mode depends on the order of the matches exactly if
      one visible match is named, that one is not vendored, and there is a nameless one:
      it is ambiguous if the nameless one comes later. */
  lemma OrderMattersIff(matches: seq<FindResult>, from: Label)
    ensures (forall p | multiset(p) == multiset(matches) :: InOrder(p, from) == InOrder(matches, from)) <==>
            !exists m :: OneAndNameless(matches, from, m)
  {
    if m :| OneAndNameless(matches, from, m) {
      var p, q := BothOrders(matches, from, m);
      assert InOrder(p, from) != InOrder(q, from);
    } else {
      InOrderIsResolution(matches, from);
      forall p | multiset(p) == multiset(matches) ensures InOrder(p, from) == InOrder(matches, from) {
        SameNamed(p, matches);
        forall m ensures !OneAndNameless(p, from, m) {
          assert !OneAndNameless(matches, from, m);
        }
        InOrderIsResolution(p, from);
      }
    }
  }

  /** Otherwise it is that of the named matches, in no order. */
  lemma InOrderIsResolution(matches: seq<FindResult>, from: Label)
    requires forall m :: !OneAndNameless(matches, from, m)
    ensures InOrder(matches, from) == Resolution(multiset(Named(matches)), from)
  {
    hide Visible, Rank, IsSelfImport, UniqueBest, OneAndNameless, Late, NoneVendored, SomeVisible, Named;
    if Late(matches, from) && NoneVendored(matches, from) {
      var z := LateHas(matches, from);
      var named := multiset(Named(matches));
      forall m ensures UniqueBest(named, from, m) ==> OneAndNameless(matches, from, m) {
        if UniqueBest(named, from, m) { UniqueIsOne(matches, from, m, z); }
      }
    }
  }

  lemma LateHas(matches: seq<FindResult>, from: Label) returns (z: FindResult)
    requires Late(matches, from)
    ensures z in matches && Nameless(z) && SomeVisible(multiset(Named(matches)), from)
  {
    hide Visible, Named;
    var i, j :| 0 <= i < j < |matches| && !Nameless(matches[i]) && Visible(matches[i], from) && Nameless(matches[j]);
    z := matches[j];
    NamedMember(matches);
    assert matches[i] in Named(matches) && matches[i] in multiset(Named(matches));
  }

  lemma UniqueIsOne(matches: seq<FindResult>, from: Label, m: FindResult, z: FindResult)
    requires NoneVendored(matches, from) && z in matches && Nameless(z)
    requires UniqueBest(multiset(Named(matches)), from, m)
    ensures OneAndNameless(matches, from, m)
  {
    hide Visible, Rank;
    NamedMember(matches);
    assert m in multiset(Named(matches)) && m in matches;
  }

  /** The one match first, and last. */
  lemma BothOrders(matches: seq<FindResult>, from: Label, m: FindResult)
    returns (p: seq<FindResult>, q: seq<FindResult>)
    requires OneAndNameless(matches, from, m)
    ensures multiset(p) == multiset(q) == multiset(matches)
    ensures InOrder(p, from) == Ambiguous && InOrder(q, from) != Ambiguous
  {
    hide Resolution, UniqueBest, Visible, Rank;
    OneIsBest(matches, from, m, matches);
    var rest := Without(matches, m);
    p, q := [m] + rest, rest + [m];
    OneIsBest(matches, from, m, p);
    OneIsBest(matches, from, m, q);
    LateFirst(matches, from, m, rest);
    NotLate(matches, from, m, rest);
  }

  lemma Without(matches: seq<FindResult>, m: FindResult) returns (rest: seq<FindResult>)
    requires m in matches
    ensures multiset([m] + rest) == multiset(rest + [m]) == multiset(matches)
  {
    var k :| 0 <= k < |matches| && matches[k] == m;
    rest := matches[..k] + matches[k + 1..];
    assert matches == matches[..k] + [m] + matches[k + 1..];
  }

  lemma LateFirst(matches: seq<FindResult>, from: Label, m: FindResult, rest: seq<FindResult>)
    requires OneAndNameless(matches, from, m) && multiset([m] + rest) == multiset(matches)
    ensures Late([m] + rest, from)
  {
    hide Resolution, UniqueBest, Visible, Rank;
    var p := [m] + rest;
    OneIsBest(matches, from, m, p);
    SameNamed(p, matches);
    var z :| z in matches && Nameless(z);
    assert z in p && z != m;
    var j :| 0 <= j < |p| && p[j] == z;
    assert p[0] == m;
  }

  /** No visible match is vendored, and all visible ones that are named are `m`. */
  lemma OneIsBest(matches: seq<FindResult>, from: Label, m: FindResult, p: seq<FindResult>)
    requires OneAndNameless(matches, from, m) && multiset(p) == multiset(matches)
    ensures NoneVendored(p, from) && m in p && Visible(m, from) && !Nameless(m)
    ensures forall n | n in p && Visible(n, from) && !Nameless(n) :: n == m
    ensures Resolution(multiset(Named(p)), from) != Ambiguous
  {
    hide Visible, Rank, Resolution;
    SameNamed(p, matches);
    NamedMember(p);
    var named := multiset(Named(p));
    BestOfNamed(named, from, m);
    assert m in Named(p) by { assert m in named; }
    forall n | n in p && Visible(n, from) ensures Rank(n) < 0 && (!Nameless(n) ==> n == m) {
      if Nameless(n) {
        NamelessIsPlain(n, from);
      } else {
        assert n in Named(p) && n in named;
      }
    }
  }

  lemma BestOfNamed(named: multiset<FindResult>, from: Label, m: FindResult)
    requires UniqueBest(named, from, m) && Rank(m) < 0
    ensures m in named && Visible(m, from) && Resolution(named, from) != Ambiguous
    ensures forall n | n in named && Visible(n, from) :: n == m
  {
    hide Visible, Rank;
    assert m in named && SomeVisible(named, from);
    forall n | n in named && Visible(n, from) ensures n == m {
      LowRank(n);
    }
  }

  lemma NotLate(matches: seq<FindResult>, from: Label, m: FindResult, rest: seq<FindResult>)
    requires OneAndNameless(matches, from, m) && multiset(rest + [m]) == multiset(matches)
    ensures !Late(rest + [m], from)
  {
    hide Resolution, Visible, Rank;
    var q := rest + [m];
    OneIsBest(matches, from, m, q);
    SameNamed(q, matches);
    NamedOf(q, m);
    assert multiset(q)[m] == 1 && multiset(q) == multiset(rest) + multiset{m};
    assert m !in multiset(rest);
    forall i | 0 <= i < |rest| ensures Nameless(q[i]) || !Visible(q[i], from) {
      assert q[i] in q && q[i] == rest[i] && rest[i] in multiset(rest);
    }
  }

  // --------------------------------------------------------- which matches count

  /** The place of the last element called "vendor", or -1. */
  ghost function VendorDepth(pkg: string): (d: int)
    ensures -1 <= d < |Elems(pkg)| && (d >= 0 ==> Elems(pkg)[d] == "vendor")
    ensures forall j | d < j < |Elems(pkg)| :: Elems(pkg)[j] != "vendor"
  {
    LastVendor(Elems(pkg), |Elems(pkg)|)
  }

  ghost function LastVendor(parts: seq<string>, n: nat): (d: int)
    requires n <= |parts|
    ensures -1 <= d < n && (d >= 0 ==> parts[d] == "vendor")
    ensures forall j | d < j < n :: parts[j] != "vendor"
  {
    if n == 0 then -1 else if parts[n - 1] == "vendor" then n - 1 else LastVendor(parts, n - 1)
  }

  lemma VendoringByDepth(pkg: string)
    ensures VendoringOf(pkg) == if VendorDepth(pkg) < 0 then NotVendored
                                else Vendored(Join(Elems(pkg)[..VendorDepth(pkg)]))
  {
    if pkg == "" {
      VendoringIsInnermost([""], 1);
    } else {
      LastVendorIs(Split(pkg), VendorDepth(pkg));
    }
  }

  lemma LastVendorIs(parts: seq<string>, d: int)
    requires -1 <= d < |parts| && (d >= 0 ==> parts[d] == "vendor")
    requires forall j | d < j < |parts| :: parts[j] != "vendor"
    ensures VendoringUpTo(parts, |parts|) == if d < 0 then NotVendored else Vendored(Join(parts[..d]))
  {
    hide VendoringUpTo, Join;
    VendoringIsInnermost(parts, |parts|);
    assert parts[..|parts|] == parts;
    NotAfter(parts, d);
  }

  lemma NotAfter(parts: seq<string>, d: int)
    requires -1 <= d < |parts| && forall j | d < j < |parts| :: parts[j] != "vendor"
    ensures "vendor" !in parts[d + 1..|parts|]
  {
    var after := parts[d + 1..|parts|];
    forall i | 0 <= i < |after| ensures after[i] != "vendor" {
      assert after[i] == parts[d + 1 + i];
    }
  }

  /** A match counts if it is not vendored, or `from` is in its repository and in or below
      the parent of its vendor directory, element by element. */
  ghost predicate Counts(m: FindResult, from: Label) {
    var d := VendorDepth(m.id.pkg);
    d < 0 || (m.id.repo == from.repo && Elems(m.id.pkg)[..d] <= Elems(from.pkg))
  }

  lemma FirstElements(p: string, d: nat)
    requires Clean(p) && d <= |Elems(p)|
    ensures Clean(Join(Elems(p)[..d])) && Elems(Join(Elems(p)[..d])) == Elems(p)[..d]
  {
    var front := Elems(p)[..d];
    if front != [] {
      SplitOfJoin(front);
      LastIsNoSlash(front);
    }
  }

  lemma VisibleIff(m: FindResult, from: Label)
    requires Clean(m.id.pkg) && Clean(from.pkg)
    ensures Visible(m, from) <==> Counts(m, from)
    ensures Rank(m) < 0 <==> VendorDepth(m.id.pkg) < 0
  {
    VendoringByDepth(m.id.pkg);
    var d := VendorDepth(m.id.pkg);
    if d >= 0 {
      FirstElements(m.id.pkg, d);
      HasPathPrefixIff(from.pkg, Join(Elems(m.id.pkg)[..d]));
    }
  }

  /** Of two matches that count, the one with the deeper vendor directory ranks higher. */
  lemma RankByDepth(m: FindResult, n: FindResult, from: Label)
    requires Clean(m.id.pkg) && Clean(n.id.pkg) && Clean(from.pkg) && Counts(m, from) && Counts(n, from)
    ensures Rank(m) < Rank(n) <==> VendorDepth(m.id.pkg) < VendorDepth(n.id.pkg)
  {
    VendoringByDepth(m.id.pkg);
    VendoringByDepth(n.id.pkg);
    var d, e, f := VendorDepth(m.id.pkg), VendorDepth(n.id.pkg), Elems(from.pkg);
    if d >= 0 && e >= 0 {
      assert Elems(m.id.pkg)[..d] == f[..d] && Elems(n.id.pkg)[..e] == f[..e];
      if d < e { LongerByElements(f, d, e); }
      if e < d { LongerByElements(f, e, d); }
    }
  }

  /** `from` is the rule that was found, or one that it embeds. */
  ghost predicate ImportsItself(m: FindResult, from: Label) {
    exists l | l == m.id || l in m.embeds ::
      from.repo == l.repo && from.pkg == l.pkg && from.name == l.name && from.relative == l.relative
  }

  lemma SelfImportIff(m: FindResult, from: Label)
    ensures IsSelfImport(m, from) <==> ImportsItself(m, from)
  {
    if IsSelfImport(m, from) && !Equal(from, m.id) {
      var i :| 0 <= i < |m.embeds| && Equal(from, m.embeds[i]);
      assert m.embeds[i] in m.embeds;
    }
    if ImportsItself(m, from) {
      var l :| (l == m.id || l in m.embeds) && from.repo == l.repo && from.pkg == l.pkg && from.name == l.name
               && from.relative == l.relative;
      if l != m.id {
        var i :| 0 <= i < |m.embeds| && m.embeds[i] == l;
      }
    }
  }

  ghost predicate CleanPackages(matches: seq<FindResult>, from: Label) {
    Clean(from.pkg) && forall m | m in matches :: Clean(m.id.pkg) && !Nameless(m)
  }

  /** The k-th match counts, and no other that counts is vendored as deeply. */
  ghost predicate Deepest(matches: seq<FindResult>, from: Label, k: int) {
    && 0 <= k < |matches| && Counts(matches[k], from)
    && forall j | 0 <= j < |matches| && j != k && Counts(matches[j], from) ::
         VendorDepth(matches[j].id.pkg) < VendorDepth(matches[k].id.pkg)
  }

  /** What is chosen outside repository mode, in terms of the elements of packages: the
      match whose vendor directory is the deepest of those that count; nothing if none
      counts, or if it is the importing rule itself; and otherwise it is ambiguous. */
  lemma OutcomeByElements(matches: seq<FindResult>, from: Label)
    requires CleanPackages(matches, from)
    ensures InOrder(matches, from) == NotFound <==> forall m | m in matches :: !Counts(m, from)
    ensures forall k | Deepest(matches, from, k) ::
              InOrder(matches, from) == if ImportsItself(matches[k], from) then SkipImport else Found(matches[k].id)
    ensures InOrder(matches, from) == Ambiguous <==>
            (exists m :: m in matches && Counts(m, from)) && !exists k :: Deepest(matches, from, k)
  {
    hide Visible, Rank, Counts, InOrder, IsSelfImport, ImportsItself, VendorDepth, Clean, BestSoFar;
    var best, tied := BestOf(matches, from);
    OutcomeOfBest(matches, from, best, tied);
    SomeCounts(matches, from, best, tied);
    forall k | Deepest(matches, from, k) ensures best == Some(matches[k]) && !tied {
      DeepestIsBest(matches, from, best, tied, k);
    }
    if best.Some? {
      SelfImportIff(best.value, from);
      if !tied { BestIsDeepest(matches, from, best.value); }
    }
  }

  lemma OutcomeOfBest(matches: seq<FindResult>, from: Label, best: Option<FindResult>, tied: bool)
    requires (forall m | m in matches :: !Nameless(m)) && BestSoFar(matches, from, best, tied)
    ensures InOrder(matches, from) ==
            if tied then Ambiguous
            else if best.None? then NotFound
            else if IsSelfImport(best.value, from) then SkipImport
            else Found(best.value.id)
  {
    hide Visible, Rank, Resolution, IsSelfImport;
    AllNamed(matches);
    assert !Late(matches, from);
    BestIsUnique(matches, from, best, tied);
    ResolutionIs(multiset(matches), from, best, tied);
  }

  lemma SomeCounts(matches: seq<FindResult>, from: Label, best: Option<FindResult>, tied: bool)
    requires CleanPackages(matches, from) && BestSoFar(matches, from, best, tied)
    ensures best.None? <==> forall m | m in matches :: !Counts(m, from)
    ensures best.None? ==> !tied
  {
    hide Visible, Rank, Counts;
    forall m | m in matches ensures Visible(m, from) <==> Counts(m, from) { VisibleIff(m, from); }
  }

  lemma {:induction false} AllNamed(matches: seq<FindResult>)
    requires forall m | m in matches :: !Nameless(m)
    ensures Named(matches) == matches
  {
    if matches != [] {
      var init := matches[..|matches| - 1];
      assert matches == init + [matches[|matches| - 1]];
      AllNamed(init);
    }
  }

  lemma OnlyOnce<T>(s: seq<T>, k: nat)
    requires k < |s| && forall j | 0 <= j < |s| && j != k :: s[j] != s[k]
    ensures multiset(s)[s[k]] == 1
  {
    var a, b := s[..k], s[k + 1..];
    assert s == a + [s[k]] + b;
    forall x | x in a ensures x != s[k] {
      var j :| 0 <= j < k && s[j] == x;
    }
    forall x | x in b ensures x != s[k] {
      var j :| 0 <= j < |b| && b[j] == x;
      assert s[k + 1 + j] == x;
    }
    assert s[k] !in multiset(a) && s[k] !in multiset(b);
  }

  lemma DeepestIsBest(matches: seq<FindResult>, from: Label, best: Option<FindResult>, tied: bool, k: nat)
    requires CleanPackages(matches, from) && Deepest(matches, from, k) && BestSoFar(matches, from, best, tied)
    ensures best == Some(matches[k]) && !tied
  {
    hide Visible, Rank, Counts, VendorDepth, Clean;
    var m := matches[k];
    assert m in matches;
    forall j | 0 <= j < |matches| && j != k && Visible(matches[j], from) ensures Rank(matches[j]) < Rank(m) {
      VisibleIff(matches[j], from);
      VisibleIff(m, from);
      RankByDepth(matches[j], m, from);
    }
    VisibleIff(m, from);
    forall n | n in matches && n != m && Visible(n, from) ensures Rank(n) < Rank(m) {
      var j :| 0 <= j < |matches| && matches[j] == n;
    }
    forall j | 0 <= j < |matches| && j != k ensures matches[j] != m {
      if Visible(matches[j], from) { assert Rank(matches[j]) < Rank(m); }
    }
    OnlyOnce(matches, k);
  }

  lemma BestIsDeepest(matches: seq<FindResult>, from: Label, b: FindResult)
    requires CleanPackages(matches, from) && BestSoFar(matches, from, Some(b), false)
    ensures exists k :: Deepest(matches, from, k) && matches[k] == b
  {
    hide Visible, Rank, Counts, VendorDepth, Clean;
    var k :| 0 <= k < |matches| && matches[k] == b;
    VisibleIff(b, from);
    forall j | 0 <= j < |matches| && j != k && Counts(matches[j], from)
      ensures VendorDepth(matches[j].id.pkg) < VendorDepth(b.id.pkg)
    {
      var m := matches[j];
      assert m in matches;
      VisibleIff(m, from);
      if m == b {
        Sorting.TwoOccurrences(matches, if j < k then j else k, if j < k then k else j);
      }
      RankByDepth(m, b, from);
    }
    assert Deepest(matches, from, k);
  }

  /** A vendored match alone, imported from elsewhere, is not found. */
  lemma MisplacedIsNotFound(m: FindResult, from: Label)
    requires CleanPackages([m], from) && VendorDepth(m.id.pkg) >= 0
    requires from.repo != m.id.repo || !(Elems(m.id.pkg)[..VendorDepth(m.id.pkg)] <= Elems(from.pkg))
    ensures InOrder([m], from) == NotFound
  {
    OutcomeByElements([m], from);
  }
}
