/** Handles on the statements of a build file, lists of them seen as values, and the
    stable sort by index. */
module StmtHandles {
  import opened Sorting
  import opened ListEdit

  /** A handle on a load or a rule. For an inserted one, `index` says where it will go;
      for the others it is where the statement is. */
  class Stmt {
    const expr: Expr
    var index: nat
    var deleted: bool
    var inserted: bool

    constructor (expr: Expr, index: nat, inserted: bool)
      ensures this.expr == expr && this.index == index && this.inserted == inserted && !deleted
    {
      this.expr, this.index, this.inserted, deleted := expr, index, inserted, false;
    }

    /** Marks the statement for deletion. */
    method Delete()
      modifies this`deleted
      ensures deleted
    {
      deleted := true;
    }
  }

  ghost function Insertions(hs: seq<Stmt>): (r: seq<Insertion>)
    reads hs
    ensures |r| == |hs|
  {
    seq(|hs|, i requires 0 <= i < |hs| reads hs => Insertion(hs[i].index, hs[i].expr))
  }

  ghost function Indices(hs: seq<Stmt>): set<nat>
    reads hs
  {
    set h | h in hs :: h.index
  }

  // ------------------------------------------------ lists of handles as values

  /** The handles' indices are `idx`. */
  ghost predicate At(hs: seq<Stmt>, idx: seq<nat>)
    reads hs
  {
    |idx| == |hs| && forall j | 0 <= j < |hs| :: hs[j].index == idx[j]
  }

  /** `pos` tells where each handle of the list is, so none is there twice. */
  ghost predicate Positions(hs: seq<Stmt>, pos: map<Stmt, nat>) {
    forall j | 0 <= j < |hs| :: hs[j] in pos && pos[hs[j]] == j
  }

  /** Re-indexes the k-th handle of a list. */
  method SetIndex(h: Stmt, v: nat, ghost hs: seq<Stmt>, ghost pos: map<Stmt, nat>, ghost idx: seq<nat>, ghost k: nat)
    requires At(hs, idx) && Positions(hs, pos) && k < |hs| && h == hs[k]
    modifies h`index
    ensures At(hs, idx[k := v])
  {
    h.index := v;
  }

  /** Sorted by index. */
  ghost predicate SortedIndices(idx: seq<nat>) {
    idx == [] || (SortedIndices(idx[1..]) && forall j | 1 <= j < |idx| :: idx[0] <= idx[j])
  }

  lemma {:induction false} SortedPair(idx: seq<nat>, j: nat, k: nat)
    requires SortedIndices(idx) && j <= k < |idx|
    ensures idx[j] <= idx[k]
  {
    if j > 0 {
      SortedPair(idx[1..], j - 1, k - 1);
    }
  }

  ghost predicate StrictlySorted(idx: seq<nat>) {
    idx == [] || (StrictlySorted(idx[1..]) && forall j | 1 <= j < |idx| :: idx[0] < idx[j])
  }

  lemma {:induction false} StrictPair(idx: seq<nat>, j: nat, k: nat)
    requires StrictlySorted(idx) && j < k < |idx|
    ensures idx[j] < idx[k]
  {
    if j > 0 {
      StrictPair(idx[1..], j - 1, k - 1);
    }
  }

  lemma {:induction false} DistinctIsStrict(idx: seq<nat>)
    requires SortedIndices(idx) && NoDuplicates(idx)
    ensures StrictlySorted(idx)
  {
    if idx != [] {
      DistinctIsStrict(idx[1..]);
    }
  }

  lemma {:induction false} InsertSortedIndex(idx: seq<nat>, k: nat, v: nat)
    requires SortedIndices(idx) && k <= |idx|
    requires (forall j | 0 <= j < k :: idx[j] <= v) && (forall j | k <= j < |idx| :: v <= idx[j])
    ensures SortedIndices(idx[..k] + [v] + idx[k..])
  {
    var r := idx[..k] + [v] + idx[k..];
    if k == 0 {
      assert r[1..] == idx;
    } else {
      var tail := idx[1..];
      InsertSortedIndex(tail, k - 1, v);
      assert r[1..] == tail[..k - 1] + [v] + tail[k - 1..];
      forall j | 1 <= j < |r| ensures r[0] <= r[j] {
        assert r[0] == idx[0] && r[j] == if j < k then idx[j] else if j == k then v else idx[j - 1];
      }
    }
  }

  // ------------------------------------------------------------- stable sorting

  lemma AppendKeepsOrder(a: seq<Insertion>, b: seq<Insertion>, x: Insertion)
    requires SameOrder(a, b)
    ensures SameOrder(a + [x], b + [x])
  {
    forall j ensures InsertedAt(a + [x], j) == InsertedAt(b + [x], j) {
      assert (a + [x])[..|a|] == a && (b + [x])[..|b|] == b;
      assert InsertedAt(a, j) == InsertedAt(b, j);
    }
  }

  /** An insertion may pass those with other indices. */
  lemma MovePast(a: seq<Insertion>, b: seq<Insertion>, x: Insertion)
    requires forall i | 0 <= i < |b| :: b[i].index != x.index
    ensures SameOrder(a + [x] + b, a + b + [x])
  {
    forall j ensures InsertedAt(a + [x] + b, j) == InsertedAt(a + b + [x], j) {
      InsertedConcat(a + [x], b, j);
      InsertedConcat(a, [x], j);
      InsertedConcat(a + b, [x], j);
      InsertedConcat(a, b, j);
      if j == x.index { NoneInserted(b, j); } else { NoneInserted([x], j); }
    }
  }

  lemma SameOrderTrans(a: seq<Insertion>, b: seq<Insertion>, c: seq<Insertion>)
    requires SameOrder(a, b) && SameOrder(b, c)
    ensures SameOrder(a, c)
  {
    forall j ensures InsertedAt(a, j) == InsertedAt(c, j) {
      assert InsertedAt(a, j) == InsertedAt(b, j) == InsertedAt(c, j);
    }
  }

  function Values(ins: seq<Insertion>): seq<nat> {
    seq(|ins|, i requires 0 <= i < |ins| => ins[i].index)
  }

  /** Where InsertByIndex puts a handle keeps the list sorted, and is as good as the end. */
  lemma InsertedByIndex(r: seq<Stmt>, h: Stmt, k: nat)
    requires SortedIndices(Values(Insertions(r))) && k <= |r|
    requires k > 0 ==> r[k - 1].index <= h.index
    requires forall j | k <= j < |r| :: r[j].index > h.index
    ensures var next := r[..k] + [h] + r[k..];
            && SortedIndices(Values(Insertions(next)))
            && SameOrder(Insertions(next), Insertions(r) + [Insertion(h.index, h.expr)])
  {
    var a, x := Insertions(r), Insertion(h.index, h.expr);
    var idx := Values(a);
    forall j | 0 <= j < k ensures idx[j] <= h.index {
      SortedPair(idx, j, k - 1);
      assert idx[k - 1] == r[k - 1].index;
    }
    InsertSortedIndex(idx, k, h.index);
    InsertionsSplice(r, h, k);
    forall j | 0 <= j < |a[k..]| ensures a[k..][j].index != x.index {
      assert a[k..][j].index == r[k + j].index;
    }
    MovePast(a[..k], a[k..], x);
    assert a == a[..k] + a[k..];
  }

  /** Puts a handle behind those of smaller or equal index. */
  method InsertByIndex(r: seq<Stmt>, h: Stmt) returns (next: seq<Stmt>)
    requires SortedIndices(Values(Insertions(r)))
    ensures SortedIndices(Values(Insertions(next))) && multiset(next) == multiset(r) + multiset{h}
    ensures SameOrder(Insertions(next), Insertions(r) + [Insertion(h.index, h.expr)])
  {
    var k := |r|;
    while k > 0 && r[k - 1].index > h.index
      invariant 0 <= k <= |r| && forall j | k <= j < |r| :: r[j].index > h.index
    {
      k := k - 1;
    }
    next := r[..k] + [h] + r[k..];
    assert r == r[..k] + r[k..];
    InsertedByIndex(r, h, k);
  }

  lemma InsertionsSplice(r: seq<Stmt>, h: Stmt, k: nat)
    requires k <= |r|
    ensures var a := Insertions(r);
            var next := r[..k] + [h] + r[k..];
            && Insertions(next) == a[..k] + [Insertion(h.index, h.expr)] + a[k..]
            && Values(Insertions(next)) == Values(a)[..k] + [h.index] + Values(a)[k..]
  {
    var next := r[..k] + [h] + r[k..];
    forall j | 0 <= j < |next| ensures next[j] == if j < k then r[j] else if j == k then h else r[j - 1] {}
  }

  /** One more handle has been sorted in. */
  lemma SortedOneMore(before: seq<Insertion>, after: seq<Insertion>, hs: seq<Stmt>, i: nat)
    requires i < |hs| && SameOrder(before, Insertions(hs[..i]))
    requires SameOrder(after, before + [Insertion(hs[i].index, hs[i].expr)])
    ensures SameOrder(after, Insertions(hs[..i + 1]))
  {
    var x := Insertion(hs[i].index, hs[i].expr);
    AppendKeepsOrder(before, Insertions(hs[..i]), x);
    assert Insertions(hs[..i + 1]) == Insertions(hs[..i]) + [x];
    SameOrderTrans(after, before + [x], Insertions(hs[..i + 1]));
  }

  /** Sorting handles by index, keeping the order of those with equal indices. */
  method StableSort(hs: seq<Stmt>) returns (r: seq<Stmt>)
    ensures SortedIndices(Values(Insertions(r))) && multiset(r) == multiset(hs)
    ensures SameOrder(Insertions(r), Insertions(hs))
  {
    r := [];
    for i := 0 to |hs|
      invariant SortedIndices(Values(Insertions(r))) && multiset(r) == multiset(hs[..i])
      invariant SameOrder(Insertions(r), Insertions(hs[..i]))
    {
      ghost var before := Insertions(r);
      r := InsertByIndex(r, hs[i]);
      SortedOneMore(before, Insertions(r), hs, i);
      assert hs[..i + 1] == hs[..i] + [hs[i]];
    }
    assert hs[..|hs|] == hs;
  }
}
