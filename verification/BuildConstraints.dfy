/** Build-constraint expressions of Go source files, the two rewrites applied to
    them before they are stored, and what those rewrites mean. */
module BuildConstraints {

  datatype Expr =
    | Tag(tag: string)
    | Not(x: Expr)
    | And(left: Expr, right: Expr)
    | Or(left: Expr, right: Expr)

  /** A truth value for every tag. */
  type Valuation = string -> bool

  function Eval(e: Expr, ok: Valuation): bool {
    match e
    case Tag(t) => ok(t)
    case Not(x) => !Eval(x, ok)
    case And(l, r) => Eval(l, ok) && Eval(r, ok)
    case Or(l, r) => Eval(l, ok) || Eval(r, ok)
  }

  /** Negations stand on tags only. */
  predicate NegationNormal(e: Expr) {
    match e
    case Tag(_) => true
    case Not(x) => x.Tag?
    case And(l, r) => NegationNormal(l) && NegationNormal(r)
    case Or(l, r) => NegationNormal(l) && NegationNormal(r)
  }

  // ---------------------------------------------------------------- rewrites

  /** De Morgan: pushes a pending negation `negate` down to the tags. */
  function PushNot(e: Expr, negate: bool): Expr {
    match e
    case Not(x) => if x.Tag? && !negate then e else PushNot(x, !negate)
    case Tag(_) => if negate then Not(e) else e
    case And(l, r) =>
      var l', r' := PushNot(l, negate), PushNot(r, negate);
      if negate then Or(l', r') else And(l', r')
    case Or(l, r) =>
      var l', r' := PushNot(l, negate), PushNot(r, negate);
      if negate then And(l', r') else Or(l', r')
  }

  /** Replaces "not t" by "t" for every ignored tag t. */
  function DropNegation(e: Expr, ignored: Valuation): Expr {
    match e
    case Tag(_) => e
    case Not(x) => if x.Tag? && ignored(x.tag) then x else Not(DropNegation(x, ignored))
    case And(l, r) => And(DropNegation(l, ignored), DropNegation(r, ignored))
    case Or(l, r) => Or(DropNegation(l, ignored), DropNegation(r, ignored))
  }

  /** The tags of an expression, left to right, with repetitions. */
  function CollectTags(e: Expr): seq<string> {
    match e
    case Tag(t) => [t]
    case Not(x) => CollectTags(x)
    case And(l, r) => CollectTags(l) + CollectTags(r)
    case Or(l, r) => CollectTags(l) + CollectTags(r)
  }

  datatype BuildTags = BuildTags(expr: Expr, rawTags: seq<string>)

  function NewBuildTags(x: Expr): BuildTags {
    var modified := DropNegation(PushNot(x, false), IsDefaultIgnoredTag);
    BuildTags(modified, CollectTags(modified))
  }

  predicate IsDigit(c: char) {
    '0' <= c <= '9'
  }

  /** Tags whose truth is left to the compiler: cgo, purego, race, msan, the
      goexperiment family, and release tags. */
  predicate IsDefaultIgnoredTag(tag: string) {
    || tag in ["cgo", "purego", "race", "msan"]
    || "goexperiment." <= tag
    || (&& |tag| >= 5
        && "go" <= tag
        && IsDigit(tag[2])
        && tag[3] == '.'
        && forall i | 4 <= i < |tag| :: IsDigit(tag[i]))
  }

  predicate Digits(s: string) {
    s != "" && forall i | 0 <= i < |s| :: '0' <= s[i] <= '9'
  }

  /** The ignored tags are four names, the experiments, and "go" with a one-digit major
      version, a dot and a minor version. */
  lemma DefaultIgnoredIff(tag: string)
    ensures IsDefaultIgnoredTag(tag) <==>
            || tag == "cgo" || tag == "purego" || tag == "race" || tag == "msan"
            || (exists rest :: tag == "goexperiment." + rest)
            || (exists major, minor :: Digits([major]) && Digits(minor) && tag == "go" + [major] + "." + minor)
  {
    if "goexperiment." <= tag {
      assert tag == "goexperiment." + tag[13..];
    }
    if |tag| >= 5 && "go" <= tag && IsDigit(tag[2]) && tag[3] == '.' && forall i | 4 <= i < |tag| :: IsDigit(tag[i]) {
      assert tag == "go" + [tag[2]] + "." + tag[4..];
      assert Digits([tag[2]]) && Digits(tag[4..]);
    }
    if major, minor :| Digits([major]) && Digits(minor) && tag == "go" + [major] + "." + minor {
      assert '0' <= [major][0] <= '9';
      forall i | 4 <= i < |tag| ensures IsDigit(tag[i]) {
        assert tag[i] == minor[i - 4];
      }
    }
  }

  // ------------------------------------------------ meaning of the rewrites

  lemma {:induction false} PushNotPreservesMeaning(e: Expr, negate: bool, ok: Valuation)
    ensures Eval(PushNot(e, negate), ok) == (Eval(e, ok) != negate)
  {
    match e
    case Tag(_) =>
    case Not(x) => PushNotPreservesMeaning(x, !negate, ok);
    case And(l, r) => PushNotPreservesMeaning(l, negate, ok); PushNotPreservesMeaning(r, negate, ok);
    case Or(l, r) => PushNotPreservesMeaning(l, negate, ok); PushNotPreservesMeaning(r, negate, ok);
  }

  lemma {:induction false} PushNotIsNegationNormal(e: Expr, negate: bool)
    ensures NegationNormal(PushNot(e, negate))
    ensures CollectTags(PushNot(e, negate)) == CollectTags(e)
  {
    match e
    case Tag(_) =>
    case Not(x) => PushNotIsNegationNormal(x, !negate);
    case And(l, r) => PushNotIsNegationNormal(l, negate); PushNotIsNegationNormal(r, negate);
    case Or(l, r) => PushNotIsNegationNormal(l, negate); PushNotIsNegationNormal(r, negate);
  }

  lemma {:induction false} PushNotFixesNormalForms(e: Expr)
    requires NegationNormal(e)
    ensures PushNot(e, false) == e
  {
    match e
    case Tag(_) =>
    case Not(_) =>
    case And(l, r) => PushNotFixesNormalForms(l); PushNotFixesNormalForms(r);
    case Or(l, r) => PushNotFixesNormalForms(l); PushNotFixesNormalForms(r);
  }

  lemma {:induction false} DropNegationKeepsShape(e: Expr, ignored: Valuation)
    ensures CollectTags(DropNegation(e, ignored)) == CollectTags(e)
    ensures NegationNormal(e) ==> NegationNormal(DropNegation(e, ignored))
  {
    match e
    case Tag(_) =>
    case Not(x) => DropNegationKeepsShape(x, ignored);
    case And(l, r) => DropNegationKeepsShape(l, ignored); DropNegationKeepsShape(r, ignored);
    case Or(l, r) => DropNegationKeepsShape(l, ignored); DropNegationKeepsShape(r, ignored);
  }

  function Either(a: Valuation, b: Valuation): Valuation {
    t => a(t) || b(t)
  }

  /** Dropping twice is dropping the union. */
  lemma {:induction false} DropNegationCompose(e: Expr, first: Valuation, second: Valuation)
    requires NegationNormal(e)
    ensures DropNegation(DropNegation(e, first), second) == DropNegation(e, Either(first, second))
  {
    match e
    case Tag(_) =>
    case Not(_) =>
    case And(l, r) => DropNegationCompose(l, first, second); DropNegationCompose(r, first, second);
    case Or(l, r) => DropNegationCompose(l, first, second); DropNegationCompose(r, first, second);
  }

  lemma {:induction false} DropNegationExtensional(e: Expr, a: Valuation, b: Valuation)
    requires forall t :: a(t) == b(t)
    ensures DropNegation(e, a) == DropNegation(e, b)
  {
    match e
    case Tag(_) =>
    case Not(x) => DropNegationExtensional(x, a, b);
    case And(l, r) => DropNegationExtensional(l, a, b); DropNegationExtensional(r, a, b);
    case Or(l, r) => DropNegationExtensional(l, a, b); DropNegationExtensional(r, a, b);
  }

  /** A value looks only at the tags that occur. */
  lemma {:induction false} EvalDependsOnTags(e: Expr, a: Valuation, b: Valuation)
    requires forall t | t in CollectTags(e) :: a(t) == b(t)
    ensures Eval(e, a) == Eval(e, b)
  {
    match e
    case Tag(_) =>
    case Not(x) => EvalDependsOnTags(x, a, b);
    case And(l, r) => EvalDependsOnTags(l, a, b); EvalDependsOnTags(r, a, b);
    case Or(l, r) => EvalDependsOnTags(l, a, b); EvalDependsOnTags(r, a, b);
  }

  /** Storing a stored expression again changes nothing. */
  lemma NewBuildTagsIdempotent(x: Expr)
    ensures NewBuildTags(NewBuildTags(x).expr) == NewBuildTags(x)
    ensures NegationNormal(NewBuildTags(x).expr)
    ensures NewBuildTags(x).rawTags == CollectTags(x)
  {
    var n := PushNot(x, false);
    PushNotIsNegationNormal(x, false);
    DropNegationKeepsShape(n, IsDefaultIgnoredTag);
    PushNotFixesNormalForms(DropNegation(n, IsDefaultIgnoredTag));
    DropNegationCompose(n, IsDefaultIgnoredTag, IsDefaultIgnoredTag);
    DropNegationExtensional(n, Either(IsDefaultIgnoredTag, IsDefaultIgnoredTag), IsDefaultIgnoredTag);
  }

  /** The stored values are exactly the negation-normal ones whose ignored tags stand
      unnegated. */
  lemma StoredIff(e: Expr)
    ensures (exists x :: NewBuildTags(x).expr == e) <==> NegationNormal(e) && DropNegation(e, IsDefaultIgnoredTag) == e
  {
    if NegationNormal(e) && DropNegation(e, IsDefaultIgnoredTag) == e {
      PushNotFixesNormalForms(e);
      assert NewBuildTags(e).expr == e;
    }
    if x :| NewBuildTags(x).expr == e {
      NewBuildTagsIdempotent(x);
      PushNotFixesNormalForms(e);
    }
  }

  // ------------------------- dropping negations is existential elimination

  /** `w` differs from `ok` on free tags only. */
  ghost predicate AgreeOutside(w: Valuation, ok: Valuation, free: Valuation) {
    forall t | !free(t) :: w(t) == ok(t)
  }

  /** Some assignment of the free tags makes `e` true. */
  ghost predicate Satisfiable(e: Expr, ok: Valuation, free: Valuation) {
    exists w: Valuation :: AgreeOutside(w, ok, free) && Eval(e, w)
  }

  /** The valuation under which a rewritten expression is evaluated: free tags hold. */
  function FreeHold(ok: Valuation, free: Valuation): Valuation {
    t => free(t) || ok(t)
  }

  /** The free tags that occur plainly (`negated` false) or under a negation. */
  ghost function FreeTags(e: Expr, negated: bool, free: Valuation): set<string> {
    match e
    case Tag(t) => if !negated && free(t) then {t} else {}
    case Not(x) => FreeTags(x, !negated, free)
    case And(l, r) => FreeTags(l, negated, free) + FreeTags(r, negated, free)
    case Or(l, r) => FreeTags(l, negated, free) + FreeTags(r, negated, free)
  }

  /** No free tag occurs both plainly and negated. */
  ghost predicate OnePolarity(e: Expr, free: Valuation) {
    FreeTags(e, false, free) !! FreeTags(e, true, free)
  }

  lemma {:induction false} DropWeakens(e: Expr, w: Valuation, ok: Valuation, free: Valuation)
    requires NegationNormal(e) && AgreeOutside(w, ok, free) && Eval(e, w)
    ensures Eval(DropNegation(e, free), FreeHold(ok, free))
  {
    match e
    case Tag(_) =>
    case Not(_) =>
    case And(l, r) => DropWeakens(l, w, ok, free); DropWeakens(r, w, ok, free);
    case Or(l, r) => if Eval(l, w) { DropWeakens(l, w, ok, free); } else { DropWeakens(r, w, ok, free); }
  }

  /** Any assignment that makes the plain free tags true and the negated ones false
      is a witness for the dropped form. */
  lemma {:induction false} DropWitness(e: Expr, w: Valuation, ok: Valuation, free: Valuation)
    requires NegationNormal(e) && AgreeOutside(w, ok, free)
    requires forall t | t in FreeTags(e, false, free) :: w(t)
    requires forall t | t in FreeTags(e, true, free) :: !w(t)
    requires Eval(DropNegation(e, free), FreeHold(ok, free))
    ensures Eval(e, w)
  {
    match e
    case Tag(t) => assert free(t) ==> t in FreeTags(e, false, free);
    case Not(x) =>
      assert DropNegation(x, free) == x;
      assert Eval(x, w) == w(x.tag) && Eval(x, FreeHold(ok, free)) == (free(x.tag) || ok(x.tag));
      assert FreeTags(e, true, free) == FreeTags(x, false, free);
    case And(l, r) => DropWitness(l, w, ok, free); DropWitness(r, w, ok, free);
    case Or(l, r) =>
      if Eval(DropNegation(l, free), FreeHold(ok, free)) {
        DropWitness(l, w, ok, free);
      } else {
        DropWitness(r, w, ok, free);
      }
  }

  /** With one polarity per free tag, the rewritten expression holds exactly when
      some assignment of the free tags satisfies the original. */
  lemma DropIsExistential(e: Expr, ok: Valuation, free: Valuation)
    requires NegationNormal(e)
    ensures Satisfiable(e, ok, free) ==> Eval(DropNegation(e, free), FreeHold(ok, free))
    ensures OnePolarity(e, free) ==>
              (Satisfiable(e, ok, free) <==> Eval(DropNegation(e, free), FreeHold(ok, free)))
  {
    if Satisfiable(e, ok, free) {
      var w: Valuation :| AgreeOutside(w, ok, free) && Eval(e, w);
      DropWeakens(e, w, ok, free);
    }
    if OnePolarity(e, free) && Eval(DropNegation(e, free), FreeHold(ok, free)) {
      var plain := FreeTags(e, false, free);
      var w: Valuation := t => if free(t) then t in plain else ok(t);
      FreeTagsAreFree(e, false, free);
      FreeTagsAreFree(e, true, free);
      assert forall t | t in FreeTags(e, true, free) :: t !in plain;
      DropWitness(e, w, ok, free);
    }
  }

  lemma {:induction false} FreeTagsAreFree(e: Expr, negated: bool, free: Valuation)
    ensures forall t | t in FreeTags(e, negated, free) :: free(t) && t in CollectTags(e)
  {
    match e
    case Tag(_) =>
    case Not(x) => FreeTagsAreFree(x, !negated, free);
    case And(l, r) => FreeTagsAreFree(l, negated, free); FreeTagsAreFree(r, negated, free);
    case Or(l, r) => FreeTagsAreFree(l, negated, free); FreeTagsAreFree(r, negated, free);
  }

  /** Free tags do not hold. */
  function FreeFail(ok: Valuation, free: Valuation): Valuation {
    t => !free(t) && ok(t)
  }

  /** The same statement with no side condition: the rewrite frees every occurrence
      on its own, so it is exactly satisfiability when the plain and the negated
      occurrences of a tag may be assigned separately. */
  ghost function EvalSplit(e: Expr, plain: Valuation, negated: Valuation): bool
    requires NegationNormal(e)
  {
    match e
    case Tag(t) => plain(t)
    case Not(x) => !negated(x.tag)
    case And(l, r) => EvalSplit(l, plain, negated) && EvalSplit(r, plain, negated)
    case Or(l, r) => EvalSplit(l, plain, negated) || EvalSplit(r, plain, negated)
  }

  lemma {:induction false} SplitMonotone(e: Expr, p: Valuation, n: Valuation, ok: Valuation, free: Valuation)
    requires NegationNormal(e) && AgreeOutside(p, ok, free) && AgreeOutside(n, ok, free)
    requires EvalSplit(e, p, n)
    ensures Eval(DropNegation(e, free), FreeHold(ok, free))
  {
    match e
    case Tag(_) =>
    case Not(_) =>
    case And(l, r) => SplitMonotone(l, p, n, ok, free); SplitMonotone(r, p, n, ok, free);
    case Or(l, r) =>
      if EvalSplit(l, p, n) {
        SplitMonotone(l, p, n, ok, free);
      } else {
        SplitMonotone(r, p, n, ok, free);
      }
  }

  lemma {:induction false} SplitWitness(e: Expr, ok: Valuation, free: Valuation)
    requires NegationNormal(e) && Eval(DropNegation(e, free), FreeHold(ok, free))
    ensures EvalSplit(e, FreeHold(ok, free), FreeFail(ok, free))
  {
    match e
    case Tag(_) =>
    case Not(x) =>
      assert DropNegation(x, free) == x;
      assert Eval(x, FreeHold(ok, free)) == (free(x.tag) || ok(x.tag));
    case And(l, r) => SplitWitness(l, ok, free); SplitWitness(r, ok, free);
    case Or(l, r) =>
      if Eval(DropNegation(l, free), FreeHold(ok, free)) {
        SplitWitness(l, ok, free);
      } else {
        SplitWitness(r, ok, free);
      }
  }

  lemma DropIsSplitSatisfiability(e: Expr, ok: Valuation, free: Valuation)
    requires NegationNormal(e)
    ensures Eval(DropNegation(e, free), FreeHold(ok, free)) <==>
            exists p: Valuation, n: Valuation ::
              AgreeOutside(p, ok, free) && AgreeOutside(n, ok, free) && EvalSplit(e, p, n)
  {
    if Eval(DropNegation(e, free), FreeHold(ok, free)) {
      SplitWitness(e, ok, free);
      assert AgreeOutside(FreeHold(ok, free), ok, free);
      assert AgreeOutside(FreeFail(ok, free), ok, free);
    }
    forall p: Valuation, n: Valuation | AgreeOutside(p, ok, free) && AgreeOutside(n, ok, free) && EvalSplit(e, p, n)
      ensures Eval(DropNegation(e, free), FreeHold(ok, free))
    {
      SplitMonotone(e, p, n, ok, free);
    }
  }

  /** How often a tag occurs. */
  ghost function Occurrences(e: Expr, t: string): nat {
    multiset(CollectTags(e))[t]
  }

  lemma {:induction false} PolarityCounts(e: Expr, negated: bool, free: Valuation, t: string)
    requires t in FreeTags(e, negated, free)
    ensures t in CollectTags(e) && Occurrences(e, t) >= 1
  {
    FreeTagsAreFree(e, negated, free);
    assert t in multiset(CollectTags(e));
  }

  /** Tags that occur once have one polarity. */
  lemma {:induction false} OnceIsOnePolarity(e: Expr, negated: bool, free: Valuation)
    requires forall t | free(t) :: Occurrences(e, t) <= 1
    ensures FreeTags(e, negated, free) !! FreeTags(e, !negated, free)
    decreases e, 1
  {
    match e
    case Tag(_) =>
    case Not(x) => OnceIsOnePolarity(x, !negated, free);
    case And(l, r) => OnceInBoth(e, l, r, negated, free);
    case Or(l, r) => OnceInBoth(e, l, r, negated, free);
  }

  lemma {:induction false} OnceInBoth(e: Expr, l: Expr, r: Expr, negated: bool, free: Valuation)
    requires e == And(l, r) || e == Or(l, r)
    requires forall t | free(t) :: Occurrences(e, t) <= 1
    ensures FreeTags(e, negated, free) !! FreeTags(e, !negated, free)
    decreases e, 0
  {
    assert forall t :: Occurrences(e, t) == Occurrences(l, t) + Occurrences(r, t);
    OnceIsOnePolarity(l, negated, free);
    OnceIsOnePolarity(r, negated, free);
    forall t | t in FreeTags(l, negated, free) || t in FreeTags(l, !negated, free)
      ensures t !in FreeTags(r, negated, free) + FreeTags(r, !negated, free)
    {
      FreeTagsAreFree(l, negated, free);
      FreeTagsAreFree(l, !negated, free);
      PolarityCounts(l, if t in FreeTags(l, negated, free) then negated else !negated, free, t);
      if t in FreeTags(r, negated, free) { PolarityCounts(r, negated, free, t); }
      if t in FreeTags(r, !negated, free) { PolarityCounts(r, !negated, free, t); }
    }
  }

  /** The whole of NewBuildTags: the stored expression, with ignored tags held true,
      is true whenever some assignment of the ignored tags satisfies the file's
      constraint, and only then if no ignored tag occurs both plainly and negated,
      in particular if each occurs at most once. */
  lemma StoredConstraintMeaning(x: Expr, ok: Valuation)
    ensures Satisfiable(x, ok, IsDefaultIgnoredTag) ==>
              Eval(NewBuildTags(x).expr, FreeHold(ok, IsDefaultIgnoredTag))
    ensures OnePolarity(x, IsDefaultIgnoredTag) ==>
              (Satisfiable(x, ok, IsDefaultIgnoredTag) <==>
               Eval(NewBuildTags(x).expr, FreeHold(ok, IsDefaultIgnoredTag)))
    ensures (forall t | IsDefaultIgnoredTag(t) :: Occurrences(x, t) <= 1) ==>
              OnePolarity(x, IsDefaultIgnoredTag)
  {
    var free: Valuation := IsDefaultIgnoredTag;
    var n := PushNot(x, false);
    PushNotIsNegationNormal(x, false);
    SatisfiableAfterPushNot(x, ok, free);
    DropIsExistential(n, ok, free);
    PushNotKeepsPolarity(x, false, false, free);
    PushNotKeepsPolarity(x, false, true, free);
    if forall t | free(t) :: Occurrences(x, t) <= 1 {
      OnceIsOnePolarity(x, false, free);
    }
  }

  lemma {:induction false} PushNotKeepsPolarity(e: Expr, negate: bool, negated: bool, free: Valuation)
    ensures FreeTags(PushNot(e, negate), negated, free) == FreeTags(e, negated != negate, free)
  {
    match e
    case Tag(_) =>
    case Not(x) => PushNotKeepsPolarity(x, !negate, negated, free);
    case And(l, r) => PushNotKeepsPolarity(l, negate, negated, free); PushNotKeepsPolarity(r, negate, negated, free);
    case Or(l, r) => PushNotKeepsPolarity(l, negate, negated, free); PushNotKeepsPolarity(r, negate, negated, free);
  }

  /** Dropping the negations of some tags leaves the polarity of others. */
  lemma {:induction false} DropKeepsOtherPolarity(e: Expr, dropped: Valuation, negated: bool, free: Valuation)
    requires NegationNormal(e) && forall t :: !(dropped(t) && free(t))
    ensures FreeTags(DropNegation(e, dropped), negated, free) == FreeTags(e, negated, free)
  {
    match e
    case Tag(_) =>
    case Not(_) =>
    case And(l, r) =>
      DropKeepsOtherPolarity(l, dropped, negated, free);
      DropKeepsOtherPolarity(r, dropped, negated, free);
    case Or(l, r) =>
      DropKeepsOtherPolarity(l, dropped, negated, free);
      DropKeepsOtherPolarity(r, dropped, negated, free);
  }

  lemma SatisfiableAfterPushNot(x: Expr, ok: Valuation, free: Valuation)
    ensures Satisfiable(x, ok, free) <==> Satisfiable(PushNot(x, false), ok, free)
  {
    forall w: Valuation ensures Eval(PushNot(x, false), w) == Eval(x, w) {
      PushNotPreservesMeaning(x, false, w);
    }
  }

  /** A repeated ignored tag breaks the converse: "cgo && !cgo" can never hold, yet
      its stored form does. */
  lemma RepeatedIgnoredTagIsWeaker(ok: Valuation)
    ensures var x := And(Tag("cgo"), Not(Tag("cgo")));
            && Eval(NewBuildTags(x).expr, FreeHold(ok, IsDefaultIgnoredTag))
            && !Satisfiable(x, ok, IsDefaultIgnoredTag)
            && !OnePolarity(x, IsDefaultIgnoredTag)
  {
    var x := And(Tag("cgo"), Not(Tag("cgo")));
    assert NewBuildTags(x).expr == And(Tag("cgo"), Tag("cgo"));
    assert FreeTags(Tag("cgo"), false, IsDefaultIgnoredTag) == {"cgo"};
    assert FreeTags(Not(Tag("cgo")), true, IsDefaultIgnoredTag) == {"cgo"};
    assert "cgo" in FreeTags(x, false, IsDefaultIgnoredTag) * FreeTags(x, true, IsDefaultIgnoredTag);
  }
}
