/** Editing a list of statements by marked insertions and deletions: what the result
    is, stated without cursors. */
module ListEdit {
  import opened Sorting

  /** A statement of the syntax tree, by identity. */
  type Expr = nat

  /** A statement to be inserted before the one at `index`. */
  datatype Insertion = Insertion(index: nat, expr: Expr)

  // ------------------------------------------- lists given position by position

  /** The concatenation of the parts at the positions before `m`. */
  ghost function Concat(part: nat -> seq<Expr>, m: nat): seq<Expr> {
    if m == 0 then [] else Concat(part, m - 1) + part(m - 1)
  }

  /** The concatenation of the parts at the positions from `j` to `m`. */
  ghost function ConcatFrom(part: nat -> seq<Expr>, j: nat, m: nat): seq<Expr> {
    if m <= j then [] else ConcatFrom(part, j, m - 1) + part(m - 1)
  }

  lemma {:induction false} ConcatEqual(p: nat -> seq<Expr>, q: nat -> seq<Expr>, m: nat)
    requires forall j | 0 <= j < m :: p(j) == q(j)
    ensures Concat(p, m) == Concat(q, m)
  {
    if m > 0 { ConcatEqual(p, q, m - 1); }
  }

  lemma {:induction false} ConcatSkip(p: nat -> seq<Expr>, a: nat, b: nat)
    requires a <= b && forall j | a <= j < b :: p(j) == []
    ensures Concat(p, a) == Concat(p, b)
  {
    if a < b { ConcatSkip(p, a, b - 1); }
  }

  lemma {:induction false} ConcatSplit(p: nat -> seq<Expr>, j: nat, m: nat)
    requires j <= m
    ensures Concat(p, m) == Concat(p, j) + ConcatFrom(p, j, m)
  {
    if j < m { ConcatSplit(p, j, m - 1); }
  }

  lemma {:induction false} ConcatMember(p: nat -> seq<Expr>, m: nat, x: Expr)
    ensures x in Concat(p, m) <==> exists j :: 0 <= j < m && x in p(j)
  {
    if m > 0 {
      ConcatMember(p, m - 1, x);
      if x in Concat(p, m) && x !in p(m - 1) {
        var j :| 0 <= j < m - 1 && x in p(j);
      }
    }
  }

  lemma {:induction false} ConcatDistinct(p: nat -> seq<Expr>, m: nat)
    requires forall j | 0 <= j < m :: NoDuplicates(p(j))
    requires forall i, j, x | 0 <= i < j < m && x in p(j) :: x !in p(i)
    ensures NoDuplicates(Concat(p, m))
  {
    if m > 0 {
      ConcatDistinct(p, m - 1);
      var last := p(m - 1);
      forall x | x in last ensures x !in Concat(p, m - 1) {
        ConcatMember(p, m - 1, x);
      }
      JoinDistinct(Concat(p, m - 1), last);
    }
  }

  lemma JoinDistinct(a: seq<Expr>, b: seq<Expr>)
    requires NoDuplicates(a) && NoDuplicates(b) && forall x | x in b :: x !in a
    ensures NoDuplicates(a + b)
  {
    forall i, j | 0 <= i < j < |a + b| ensures (a + b)[i] != (a + b)[j] {
      if i < |a| <= j { assert b[j - |a|] in b; }
    }
  }

  /** The members of `keep` in a list, in their order. */
  ghost function Only(s: seq<Expr>, keep: set<Expr>): seq<Expr> {
    if s == [] then [] else Only(s[..|s| - 1], keep) + if s[|s| - 1] in keep then [s[|s| - 1]] else []
  }

  lemma {:induction false} OnlyConcat(a: seq<Expr>, b: seq<Expr>, keep: set<Expr>)
    ensures Only(a + b, keep) == Only(a, keep) + Only(b, keep)
  {
    if b == [] {
      assert a + b == a;
    } else {
      OnlyConcat(a, b[..|b| - 1], keep);
      assert (a + b)[..|a + b| - 1] == a + b[..|b| - 1];
    }
  }

  lemma {:induction false} OnlyNone(s: seq<Expr>, keep: set<Expr>)
    requires forall x | x in s :: x !in keep
    ensures Only(s, keep) == []
  {
    if s != [] {
      forall x | x in s[..|s| - 1] ensures x !in keep {}
      OnlyNone(s[..|s| - 1], keep);
      assert s[|s| - 1] in s;
    }
  }

  lemma {:induction false} OnlyAll(s: seq<Expr>, keep: set<Expr>)
    requires forall x | x in s :: x in keep
    ensures Only(s, keep) == s
  {
    if s != [] {
      forall x | x in s[..|s| - 1] ensures x in keep {}
      OnlyAll(s[..|s| - 1], keep);
      assert s[|s| - 1] in s && s == s[..|s| - 1] + [s[|s| - 1]];
    }
  }

  lemma {:induction false} OnlyOfConcat(p: nat -> seq<Expr>, q: nat -> seq<Expr>, keep: set<Expr>, m: nat)
    requires forall j | 0 <= j < m :: Only(p(j), keep) == q(j)
    ensures Only(Concat(p, m), keep) == Concat(q, m)
  {
    if m > 0 {
      OnlyOfConcat(p, q, keep, m - 1);
      OnlyConcat(Concat(p, m - 1), p(m - 1), keep);
    }
  }

  // ------------------------------------------------------------- the edited list

  /** The statements to insert at `j`, in the order they were marked. */
  ghost function InsertedAt(ins: seq<Insertion>, j: nat): seq<Expr> {
    if ins == [] then []
    else InsertedAt(ins[..|ins| - 1], j) + if ins[|ins| - 1].index == j then [ins[|ins| - 1].expr] else []
  }

  ghost function KeptAt(stmts: seq<Expr>, deleted: set<nat>, j: nat): seq<Expr> {
    if j < |stmts| && j !in deleted then [stmts[j]] else []
  }

  /** What comes of a position: first the insertions there, then the old statement
      unless it is deleted. */
  ghost function Part(stmts: seq<Expr>, ins: seq<Insertion>, deleted: set<nat>): nat -> seq<Expr> {
    j => InsertedAt(ins, j) + KeptAt(stmts, deleted, j)
  }

  ghost function Survivor(stmts: seq<Expr>, deleted: set<nat>): nat -> seq<Expr> {
    j => KeptAt(stmts, deleted, j)
  }

  /** A position beyond the list and all insertions. */
  ghost function Bound(stmts: seq<Expr>, ins: seq<Insertion>): nat {
    if ins == [] then |stmts|
    else
      var b := Bound(stmts, ins[..|ins| - 1]);
      if ins[|ins| - 1].index >= b then ins[|ins| - 1].index + 1 else b
  }

  ghost function Edited(stmts: seq<Expr>, ins: seq<Insertion>, deleted: set<nat>): seq<Expr> {
    Concat(Part(stmts, ins, deleted), Bound(stmts, ins))
  }

  lemma {:induction false} NoneInserted(ins: seq<Insertion>, j: nat)
    requires forall k | 0 <= k < |ins| :: ins[k].index != j
    ensures InsertedAt(ins, j) == []
  {
    if ins != [] { NoneInserted(ins[..|ins| - 1], j); }
  }

  lemma {:induction false} InsertedConcat(a: seq<Insertion>, b: seq<Insertion>, j: nat)
    ensures InsertedAt(a + b, j) == InsertedAt(a, j) + InsertedAt(b, j)
  {
    if b == [] {
      assert a + b == a;
    } else {
      var b' := b[..|b| - 1];
      InsertedConcat(a, b', j);
      assert (a + b)[..|a + b| - 1] == a + b';
    }
  }

  /** Only the insertions before `k` are at `j`. */
  lemma InsertedBefore(ins: seq<Insertion>, k: nat, j: nat)
    requires k <= |ins| && forall i | k <= i < |ins| :: ins[i].index != j
    ensures InsertedAt(ins[..k], j) == InsertedAt(ins, j)
  {
    assert ins == ins[..k] + ins[k..];
    InsertedConcat(ins[..k], ins[k..], j);
    NoneInserted(ins[k..], j);
  }

  lemma {:induction false} InsertedMember(ins: seq<Insertion>, j: nat, x: Expr)
    ensures x in InsertedAt(ins, j) <==> Insertion(j, x) in ins
  {
    if ins != [] {
      var init, last := ins[..|ins| - 1], ins[|ins| - 1];
      InsertedMember(init, j, x);
      assert ins == init + [last];
      assert Insertion(j, x) in ins <==> Insertion(j, x) in init || Insertion(j, x) == last;
    }
  }

  lemma {:induction false} BoundIsBound(stmts: seq<Expr>, ins: seq<Insertion>)
    ensures |stmts| <= Bound(stmts, ins)
    ensures forall k | 0 <= k < |ins| :: ins[k].index < Bound(stmts, ins)
  {
    if ins != [] { BoundIsBound(stmts, ins[..|ins| - 1]); }
  }

  /** Positions with nothing to insert or keep add nothing. */
  lemma EmptyPositions(stmts: seq<Expr>, ins: seq<Insertion>, deleted: set<nat>, a: nat, b: nat)
    requires |stmts| <= a <= b && forall k | 0 <= k < |ins| :: !(a <= ins[k].index < b)
    ensures Concat(Part(stmts, ins, deleted), a) == Concat(Part(stmts, ins, deleted), b)
  {
    var p := Part(stmts, ins, deleted);
    forall j | a <= j < b ensures p(j) == [] {
      NoneInserted(ins, j);
    }
    ConcatSkip(p, a, b);
  }

  /** Beyond the list there are only insertions. */
  lemma BeyondTheEnd(stmts: seq<Expr>, ins: seq<Insertion>, deleted: set<nat>, m: nat)
    requires |stmts| <= m
    ensures Concat(Part(stmts, ins, deleted), m + 1) == Concat(Part(stmts, ins, deleted), m) + InsertedAt(ins, m)
  {
    assert Part(stmts, ins, deleted)(m) == InsertedAt(ins, m) + [];
  }

  lemma EditedAtAnyBound(stmts: seq<Expr>, ins: seq<Insertion>, deleted: set<nat>, m: nat)
    requires |stmts| <= m && forall k | 0 <= k < |ins| :: ins[k].index < m
    ensures Concat(Part(stmts, ins, deleted), m) == Edited(stmts, ins, deleted)
  {
    BoundIsBound(stmts, ins);
    var b := Bound(stmts, ins);
    if m <= b { EmptyPositions(stmts, ins, deleted, m, b); } else { EmptyPositions(stmts, ins, deleted, b, m); }
  }

  ghost predicate SameOrder(a: seq<Insertion>, b: seq<Insertion>) {
    forall j :: InsertedAt(a, j) == InsertedAt(b, j)
  }

  /** Only the order of the insertions at each position matters. */
  lemma EditDependsOnOrder(stmts: seq<Expr>, a: seq<Insertion>, b: seq<Insertion>, deleted: set<nat>)
    requires SameOrder(a, b)
    ensures Edited(stmts, a, deleted) == Edited(stmts, b, deleted)
  {
    BoundIsBound(stmts, a);
    BoundIsBound(stmts, b);
    var m := Bound(stmts, a) + Bound(stmts, b);
    EditedAtAnyBound(stmts, a, deleted, m);
    EditedAtAnyBound(stmts, b, deleted, m);
    var p, q := Part(stmts, a, deleted), Part(stmts, b, deleted);
    forall j | 0 <= j < m ensures p(j) == q(j) {
      assert InsertedAt(a, j) == InsertedAt(b, j);
    }
    ConcatEqual(p, q, m);
  }

  // ---------------------------------------------------- what the edit promises

  /** The inserted statements are new, and inserted once. */
  ghost predicate AreNew(stmts: seq<Expr>, ins: seq<Insertion>) {
    && (forall k | 0 <= k < |ins| :: ins[k].expr !in stmts)
    && (forall i, k | 0 <= i < k < |ins| :: ins[i].expr != ins[k].expr)
  }

  /** Deleted statements vanish and the others keep their order, whatever is inserted. */
  lemma OldStatementsKeepOrder(stmts: seq<Expr>, ins: seq<Insertion>, deleted: set<nat>)
    requires AreNew(stmts, ins)
    ensures Only(Edited(stmts, ins, deleted), Elements(stmts)) == Concat(Survivor(stmts, deleted), |stmts|)
  {
    var p, q := Part(stmts, ins, deleted), Survivor(stmts, deleted);
    var b := Bound(stmts, ins);
    BoundIsBound(stmts, ins);
    forall j | 0 <= j < b ensures Only(p(j), Elements(stmts)) == q(j) {
      OldInPart(stmts, ins, deleted, j);
    }
    OnlyOfConcat(p, q, Elements(stmts), b);
    ConcatSkip(q, |stmts|, b);
  }

  lemma OldInPart(stmts: seq<Expr>, ins: seq<Insertion>, deleted: set<nat>, j: nat)
    requires AreNew(stmts, ins)
    ensures Only(InsertedAt(ins, j) + KeptAt(stmts, deleted, j), Elements(stmts)) == KeptAt(stmts, deleted, j)
  {
    var b, c := InsertedAt(ins, j), KeptAt(stmts, deleted, j);
    OnlyConcat(b, c, Elements(stmts));
    forall x | x in b ensures x !in Elements(stmts) {
      InsertedMember(ins, j, x);
    }
    OnlyNone(b, Elements(stmts));
    OnlyAll(c, Elements(stmts));
  }

  /** The insertions at a position stand together, in the order they were marked, right
      before the statement formerly there; what belongs to earlier positions comes
      before, what belongs to later ones after. */
  lemma InsertionsStandBefore(stmts: seq<Expr>, ins: seq<Insertion>, deleted: set<nat>, j: nat)
    requires j < Bound(stmts, ins)
    ensures var p := Part(stmts, ins, deleted);
            Edited(stmts, ins, deleted) ==
            Concat(p, j) + InsertedAt(ins, j) + KeptAt(stmts, deleted, j) + ConcatFrom(p, j + 1, Bound(stmts, ins))
  {
    var p := Part(stmts, ins, deleted);
    ConcatSplit(p, j + 1, Bound(stmts, ins));
    assert p(j) == InsertedAt(ins, j) + KeptAt(stmts, deleted, j);
  }

  /** Without marks nothing changes. */
  lemma NoMarksNoChange(stmts: seq<Expr>)
    ensures Edited(stmts, [], {}) == stmts
  {
    AllKept(stmts, |stmts|);
    assert stmts[..|stmts|] == stmts;
  }

  lemma {:induction false} AllKept(stmts: seq<Expr>, m: nat)
    requires m <= |stmts|
    ensures Concat(Part(stmts, [], {}), m) == stmts[..m]
  {
    if m > 0 {
      AllKept(stmts, m - 1);
      assert stmts[..m] == stmts[..m - 1] + [stmts[m - 1]];
    }
  }

  /** A statement of the result is a new one or one that is left. */
  lemma EditMember(stmts: seq<Expr>, ins: seq<Insertion>, deleted: set<nat>, x: Expr)
    ensures x in Edited(stmts, ins, deleted) <==>
            || (exists k :: 0 <= k < |ins| && ins[k].expr == x)
            || (exists j :: 0 <= j < |stmts| && j !in deleted && stmts[j] == x)
  {
    var p, b := Part(stmts, ins, deleted), Bound(stmts, ins);
    BoundIsBound(stmts, ins);
    ConcatMember(p, b, x);
    if x in Edited(stmts, ins, deleted) {
      var j :| 0 <= j < b && x in p(j);
      InsertedMember(ins, j, x);
    }
    forall k | 0 <= k < |ins| && ins[k].expr == x ensures x in p(ins[k].index) {
      InsertedMember(ins, ins[k].index, x);
    }
    forall j | 0 <= j < |stmts| && j !in deleted && stmts[j] == x ensures x in p(j) {}
  }

  /** No statement occurs twice in the result. */
  lemma EditKeepsDistinct(stmts: seq<Expr>, ins: seq<Insertion>, deleted: set<nat>)
    requires NoDuplicates(stmts) && AreNew(stmts, ins)
    ensures NoDuplicates(Edited(stmts, ins, deleted))
  {
    var p, b := Part(stmts, ins, deleted), Bound(stmts, ins);
    forall j | 0 <= j < b ensures NoDuplicates(p(j)) {
      PartDistinct(stmts, ins, deleted, j);
    }
    forall i, j, x | 0 <= i < j < b && x in p(j) ensures x !in p(i) {
      PartsDisjoint(stmts, ins, deleted, i, j, x);
    }
    ConcatDistinct(p, b);
  }

  lemma PartDistinct(stmts: seq<Expr>, ins: seq<Insertion>, deleted: set<nat>, j: nat)
    requires AreNew(stmts, ins)
    ensures NoDuplicates(InsertedAt(ins, j) + KeptAt(stmts, deleted, j))
  {
    InsertedDistinct(ins, j);
    forall x | x in KeptAt(stmts, deleted, j) ensures x !in InsertedAt(ins, j) {
      InsertedMember(ins, j, x);
    }
    JoinDistinct(InsertedAt(ins, j), KeptAt(stmts, deleted, j));
  }

  lemma PartsDisjoint(stmts: seq<Expr>, ins: seq<Insertion>, deleted: set<nat>, i: nat, j: nat, x: Expr)
    requires NoDuplicates(stmts) && AreNew(stmts, ins) && i < j
    requires x in InsertedAt(ins, j) + KeptAt(stmts, deleted, j)
    ensures x !in InsertedAt(ins, i) + KeptAt(stmts, deleted, i)
  {
    InsertedMember(ins, i, x);
    InsertedMember(ins, j, x);
  }

  lemma {:induction false} InsertedDistinct(ins: seq<Insertion>, j: nat)
    requires forall i, k | 0 <= i < k < |ins| :: ins[i].expr != ins[k].expr
    ensures NoDuplicates(InsertedAt(ins, j))
  {
    if ins != [] {
      var init := ins[..|ins| - 1];
      InsertedDistinct(init, j);
      InsertedMember(init, j, ins[|ins| - 1].expr);
    }
  }

  // ----------------------------------------------------------- the order of the result

  /** `x` stands somewhere before `y`. */
  ghost predicate Precedes(s: seq<Expr>, x: Expr, y: Expr) {
    exists i, j :: 0 <= i < j < |s| && s[i] == x && s[j] == y
  }

  lemma PrecedesInConcat(a: seq<Expr>, b: seq<Expr>, x: Expr, y: Expr)
    ensures x in a && y in b ==> Precedes(a + b, x, y)
    ensures Precedes(a, x, y) || Precedes(b, x, y) ==> Precedes(a + b, x, y)
  {
    var c := a + b;
    if x in a && y in b {
      var i :| 0 <= i < |a| && a[i] == x;
      var j :| 0 <= j < |b| && b[j] == y;
      assert c[i] == x && c[|a| + j] == y;
    }
    if Precedes(a, x, y) {
      var i, j :| 0 <= i < j < |a| && a[i] == x && a[j] == y;
      assert c[i] == x && c[j] == y;
    }
    if Precedes(b, x, y) {
      var i, j :| 0 <= i < j < |b| && b[i] == x && b[j] == y;
      assert c[|a| + i] == x && c[|a| + j] == y;
    }
  }

  lemma {:induction false} PrecedesInParts(p: nat -> seq<Expr>, m: nat, i: nat, j: nat, x: Expr, y: Expr)
    requires i <= j < m && x in p(i) && y in p(j) && (i == j ==> Precedes(p(i), x, y))
    ensures Precedes(Concat(p, m), x, y)
  {
    PrecedesInConcat(Concat(p, m - 1), p(m - 1), x, y);
    if j < m - 1 {
      PrecedesInParts(p, m - 1, i, j, x, y);
    } else if i < j {
      ConcatMember(p, m - 1, x);
    }
  }

  lemma {:induction false} InsertedInOrder(ins: seq<Insertion>, k: nat, l: nat)
    requires k < l < |ins| && ins[k].index == ins[l].index
    ensures Precedes(InsertedAt(ins, ins[k].index), ins[k].expr, ins[l].expr)
  {
    var n, j := |ins| - 1, ins[k].index;
    var init := ins[..n];
    var last := if ins[n].index == j then [ins[n].expr] else [];
    PrecedesInConcat(InsertedAt(init, j), last, ins[k].expr, ins[l].expr);
    if l < n {
      InsertedInOrder(init, k, l);
    } else {
      InsertedMember(init, j, ins[k].expr);
      assert init[k] == ins[k];
    }
  }

  /** The order of the result: insertions by their index, those at one index as they were
      marked; each before the old statements from its index on and after the earlier ones;
      and the old statements as they were. */
  lemma EditOrder(stmts: seq<Expr>, ins: seq<Insertion>, deleted: set<nat>)
    ensures forall k, l | 0 <= k < |ins| && 0 <= l < |ins|
              && (ins[k].index < ins[l].index || (ins[k].index == ins[l].index && k < l)) ::
              Precedes(Edited(stmts, ins, deleted), ins[k].expr, ins[l].expr)
    ensures forall k, j | 0 <= k < |ins| && 0 <= j < |stmts| && j !in deleted ::
              if ins[k].index <= j then Precedes(Edited(stmts, ins, deleted), ins[k].expr, stmts[j])
              else Precedes(Edited(stmts, ins, deleted), stmts[j], ins[k].expr)
    ensures forall i, j | 0 <= i < j < |stmts| && i !in deleted && j !in deleted ::
              Precedes(Edited(stmts, ins, deleted), stmts[i], stmts[j])
  {
    var p, b := Part(stmts, ins, deleted), Bound(stmts, ins);
    BoundIsBound(stmts, ins);
    forall k | 0 <= k < |ins| ensures ins[k].expr in InsertedAt(ins, ins[k].index) {
      InsertedMember(ins, ins[k].index, ins[k].expr);
    }
    forall k, l | 0 <= k < |ins| && 0 <= l < |ins|
                  && (ins[k].index < ins[l].index || (ins[k].index == ins[l].index && k < l))
      ensures Precedes(Edited(stmts, ins, deleted), ins[k].expr, ins[l].expr)
    {
      var i := ins[k].index;
      if i == ins[l].index {
        InsertedInOrder(ins, k, l);
        PrecedesInConcat(InsertedAt(ins, i), KeptAt(stmts, deleted, i), ins[k].expr, ins[l].expr);
      }
      PrecedesInParts(p, b, i, ins[l].index, ins[k].expr, ins[l].expr);
    }
    forall k, j | 0 <= k < |ins| && 0 <= j < |stmts| && j !in deleted
      ensures if ins[k].index <= j then Precedes(Edited(stmts, ins, deleted), ins[k].expr, stmts[j])
              else Precedes(Edited(stmts, ins, deleted), stmts[j], ins[k].expr)
    {
      PrecedesInConcat(InsertedAt(ins, j), KeptAt(stmts, deleted, j), ins[k].expr, stmts[j]);
      if ins[k].index <= j {
        PrecedesInParts(p, b, ins[k].index, j, ins[k].expr, stmts[j]);
      } else {
        PrecedesInParts(p, b, j, ins[k].index, stmts[j], ins[k].expr);
      }
    }
    forall i, j | 0 <= i < j < |stmts| && i !in deleted && j !in deleted
      ensures Precedes(Edited(stmts, ins, deleted), stmts[i], stmts[j])
    {
      PrecedesInParts(p, b, i, j, stmts[i], stmts[j]);
    }
  }
}
