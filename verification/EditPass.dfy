/** The single pass with three cursors that edits a list of statements in place of the
    position-by-position description, and re-indexes the handles as it goes. */
module EditPass {
  import opened Sorting
  import opened ListEdit
  import opened StmtHandles

  // ----------------------------------------------------- the pass over positions

  /** How far a cursor has come: the handles before `k` were placed and their indices
      point at their statements in the new list; the others wait for positions from
      `lo` on. */
  ghost predicate Placed(at: seq<Insertion>, idx: seq<nat>, k: nat, lo: nat, newStmt: seq<Expr>) {
    && |idx| == |at| && k <= |at|
    && (forall j | 0 <= j < k :: idx[j] < |newStmt| && newStmt[idx[j]] == at[j].expr)
    && (forall j | k <= j < |at| :: idx[j] == at[j].index)
    && (forall j | k <= j < |at| :: lo <= at[j].index)
  }

  lemma PlacedExtend(at: seq<Insertion>, idx: seq<nat>, k: nat, lo: nat, a: seq<Expr>, b: seq<Expr>)
    requires Placed(at, idx, k, lo, a) && a <= b
    ensures Placed(at, idx, k, lo, b)
  {
  }

  /** The handle at the cursor is placed at the end of the new list. */
  lemma PlacedStep(at: seq<Insertion>, idx: seq<nat>, k: nat, lo: nat, a: seq<Expr>)
    requires Placed(at, idx, k, lo, a) && k < |at|
    ensures Placed(at, idx[k := |a|], k + 1, lo, a + [at[k].expr])
  {
  }

  /** Nothing waits for a position the cursor's handle is not at. */
  lemma PlacedPast(at: seq<Insertion>, idx: seq<nat>, k: nat, lo: nat, a: seq<Expr>)
    requires Placed(at, idx, k, lo, a) && SortedIndices(Values(at))
    requires k < |at| ==> at[k].index != lo
    ensures Placed(at, idx, k, lo + 1, a)
  {
    forall j | k <= j < |at| ensures lo + 1 <= at[j].index {
      SortedPair(Values(at), k, j);
    }
  }

  lemma InsertedStep(at: seq<Insertion>, k: nat)
    requires k < |at|
    ensures InsertedAt(at[..k + 1], at[k].index) == InsertedAt(at[..k], at[k].index) + [at[k].expr]
  {
    assert at[..k + 1][..k] == at[..k];
  }

  /** The insertions placed so far are those of positions before `lo`. */
  ghost predicate AllBelow(at: seq<Insertion>, k: nat, lo: nat)
    requires k <= |at|
  {
    forall j | 0 <= j < k :: at[j].index < lo
  }

  /** The insertions at position `i` placed so far stand at the end of the new list. */
  ghost predicate InsertsSoFar(at: seq<Insertion>, idx: seq<nat>, i: nat, ii: nat, stmts0: seq<Expr>,
        newStmt: seq<Expr>)
  {
    && Placed(at, idx, ii, i, newStmt) && AllBelow(at, ii, i + 1)
    && newStmt == stmts0 + InsertedAt(at[..ii], i)
  }

  lemma InsertsStep(at: seq<Insertion>, idx: seq<nat>, i: nat, ii: nat, stmts0: seq<Expr>, newStmt: seq<Expr>)
    requires InsertsSoFar(at, idx, i, ii, stmts0, newStmt) && ii < |at| && at[ii].index == i
    ensures InsertsSoFar(at, idx[ii := |newStmt|], i, ii + 1, stmts0, newStmt + [at[ii].expr])
  {
    PlacedStep(at, idx, ii, i, newStmt);
    InsertedStep(at, ii);
  }

  lemma InsertsStart(at: seq<Insertion>, idx: seq<nat>, i: nat, ii: nat, stmts0: seq<Expr>)
    requires Placed(at, idx, ii, i, stmts0) && AllBelow(at, ii, i)
    ensures InsertsSoFar(at, idx, i, ii, stmts0, stmts0)
  {
    NoneInserted(at[..ii], i);
  }

  lemma InsertsDone(at: seq<Insertion>, idx: seq<nat>, i: nat, ii: nat, stmts0: seq<Expr>, newStmt: seq<Expr>)
    requires InsertsSoFar(at, idx, i, ii, stmts0, newStmt) && SortedIndices(Values(at))
    requires ii < |at| ==> at[ii].index != i
    ensures newStmt == stmts0 + InsertedAt(at, i) && Placed(at, idx, ii, i + 1, newStmt) && AllBelow(at, ii, i + 1)
  {
    PlacedPast(at, idx, ii, i, newStmt);
    InsertedBefore(at, ii, i);
  }

  /** Appends the insertions at position `i`. */
  method PlaceInserts(ins: seq<Stmt>, ghost pos: map<Stmt, nat>, ghost at: seq<Insertion>, ghost idx0: seq<nat>,
        i: nat, ii0: nat, stmts0: seq<Expr>)
    returns (ghost idx: seq<nat>, ii: nat, newStmt: seq<Expr>)
    requires Positions(ins, pos) && At(ins, idx0) && SortedIndices(Values(at))
    requires Placed(at, idx0, ii0, i, stmts0) && AllBelow(at, ii0, i)
    requires SameExprs(ins, at)
    modifies ins`index
    ensures At(ins, idx) && newStmt == stmts0 + InsertedAt(at, i)
    ensures Placed(at, idx, ii, i + 1, newStmt) && AllBelow(at, ii, i + 1)
  {
    ii, newStmt, idx := ii0, stmts0, idx0;
    InsertsStart(at, idx, i, ii, stmts0);
    while ii < |ins| && ins[ii].index == i
      invariant ii <= |ins| && At(ins, idx) && InsertsSoFar(at, idx, i, ii, stmts0, newStmt)
    {
      InsertsStep(at, idx, i, ii, stmts0, newStmt);
      SetIndex(ins[ii], |newStmt|, ins, pos, idx, ii);
      idx, newStmt := idx[ii := |newStmt|], newStmt + [ins[ii].expr];
      ii := ii + 1;
    }
    InsertsDone(at, idx, i, ii, stmts0, newStmt);
  }

  /** Going on to the position of the next insertion skips nothing. */
  lemma RestAdvance(stmts: seq<Expr>, at: seq<Insertion>, deleted: set<nat>, ii: nat, m: nat, t: nat)
    requires |stmts| <= m < t && ii <= |at|
    requires AllBelow(at, ii, m + 1) && forall j | ii <= j < |at| :: t <= at[j].index
    ensures Concat(Part(stmts, at, deleted), m) + InsertedAt(at[..ii], m) == Concat(Part(stmts, at, deleted), t)
    ensures InsertedAt(at[..ii], t) == []
  {
    InsertedBefore(at, ii, m);
    BeyondTheEnd(stmts, at, deleted, m);
    EmptyPositions(stmts, at, deleted, m + 1, t);
    NoneInserted(at[..ii], t);
  }

  /** The new list holds all up to the insertions placed so far, the last of them at
      position `m`. */
  ghost predicate RestSoFar(stmts: seq<Expr>, at: seq<Insertion>, deleted: set<nat>, ii: nat, m: nat,
        newStmt: seq<Expr>)
  {
    && ii <= |at| && |stmts| <= m && AllBelow(at, ii, m + 1)
    && newStmt == Concat(Part(stmts, at, deleted), m) + InsertedAt(at[..ii], m)
  }

  lemma RestStep(stmts: seq<Expr>, at: seq<Insertion>, deleted: set<nat>, ii: nat, m: nat, newStmt: seq<Expr>)
    requires SortedIndices(Values(at)) && RestSoFar(stmts, at, deleted, ii, m, newStmt) && ii < |at|
    requires m <= at[ii].index
    ensures RestSoFar(stmts, at, deleted, ii + 1, at[ii].index, newStmt + [at[ii].expr])
  {
    if m < at[ii].index {
      forall j | ii <= j < |at| ensures at[ii].index <= at[j].index {
        SortedPair(Values(at), ii, j);
      }
      RestAdvance(stmts, at, deleted, ii, m, at[ii].index);
    }
    InsertedStep(at, ii);
  }

  lemma RestDone(stmts: seq<Expr>, at: seq<Insertion>, deleted: set<nat>, m: nat, newStmt: seq<Expr>)
    requires RestSoFar(stmts, at, deleted, |at|, m, newStmt)
    ensures newStmt == Edited(stmts, at, deleted)
  {
    assert at[..|at|] == at;
    BeyondTheEnd(stmts, at, deleted, m);
    EditedAtAnyBound(stmts, at, deleted, m + 1);
  }

  lemma RestReady(stmts: seq<Expr>, at: seq<Insertion>, deleted: set<nat>, idx: seq<nat>, ii: nat, m: nat,
        newStmt: seq<Expr>)
    requires SortedIndices(Values(at)) && ii < |at|
    requires RestSoFar(stmts, at, deleted, ii, m, newStmt) && Placed(at, idx, ii, m, newStmt)
    ensures RestSoFar(stmts, at, deleted, ii + 1, at[ii].index, newStmt + [at[ii].expr])
    ensures Placed(at, idx[ii := |newStmt|], ii + 1, at[ii].index, newStmt + [at[ii].expr])
  {
    RestStep(stmts, at, deleted, ii, m, newStmt);
    PlacedFrom(at, idx, ii, m, newStmt);
    PlacedStep(at, idx, ii, at[ii].index, newStmt);
  }

  lemma RestStart(stmts: seq<Expr>, at: seq<Insertion>, deleted: set<nat>, ii: nat, newStmt: seq<Expr>)
    requires ii <= |at| && AllBelow(at, ii, |stmts|) && newStmt == Concat(Part(stmts, at, deleted), |stmts|)
    ensures RestSoFar(stmts, at, deleted, ii, |stmts|, newStmt)
  {
    NoneInserted(at[..ii], |stmts|);
  }

  /** Appends the insertions that are left. */
  method PlaceRest(ins: seq<Stmt>, ghost pos: map<Stmt, nat>, ghost at: seq<Insertion>, ghost idx0: seq<nat>,
        ghost stmts: seq<Expr>, ghost deleted: set<nat>, ii0: nat, stmts0: seq<Expr>)
    returns (ghost idx: seq<nat>, newStmt: seq<Expr>)
    requires Positions(ins, pos) && At(ins, idx0) && SortedIndices(Values(at))
    requires Placed(at, idx0, ii0, |stmts|, stmts0) && AllBelow(at, ii0, |stmts|)
    requires SameExprs(ins, at)
    requires stmts0 == Concat(Part(stmts, at, deleted), |stmts|)
    modifies ins`index
    ensures At(ins, idx) && newStmt == Edited(stmts, at, deleted) && stmts0 <= newStmt
    ensures Placed(at, idx, |at|, 0, newStmt)
  {
    var ii := ii0;
    newStmt, idx := stmts0, idx0;
    ghost var m: nat := |stmts|;
    RestStart(stmts, at, deleted, ii, newStmt);
    while ii < |ins|
      invariant ii <= |ins| && At(ins, idx) && stmts0 <= newStmt
      invariant Placed(at, idx, ii, m, newStmt)
      invariant RestSoFar(stmts, at, deleted, ii, m, newStmt)
    {
      RestReady(stmts, at, deleted, idx, ii, m, newStmt);
      m := at[ii].index;
      SetIndex(ins[ii], |newStmt|, ins, pos, idx, ii);
      idx, newStmt := idx[ii := |newStmt|], newStmt + [ins[ii].expr];
      ii := ii + 1;
    }
    RestDone(stmts, at, deleted, m, newStmt);
  }

  lemma PlacedFrom(at: seq<Insertion>, idx: seq<nat>, k: nat, lo: nat, a: seq<Expr>)
    requires Placed(at, idx, k, lo, a) && SortedIndices(Values(at)) && k < |at|
    ensures Placed(at, idx, k, at[k].index, a)
  {
    forall j | k <= j < |at| ensures at[k].index <= at[j].index {
      SortedPair(Values(at), k, j);
    }
  }

  // ------------------------------------------------------------- the list edit

  /** What the pass asks of the old list and of the deleted and kept handles, as
      values: each statement at one place, told by `where`; kept handles point at their
      statement, at places that are not deleted. */
  ghost predicate EditableValues(stmts: seq<Expr>, where: map<Expr, nat>, del: seq<nat>, kep: seq<Insertion>) {
    && (forall k | 0 <= k < |stmts| :: stmts[k] in where && where[stmts[k]] == k)
    && StrictlySorted(del) && StrictlySorted(Values(kep))
    && (forall k | 0 <= k < |kep| ::
           kep[k].index < |stmts| && stmts[kep[k].index] == kep[k].expr && kep[k].index !in Elements(del))
  }

  /** The first `di` deletions are those of positions before `i`. */
  ghost predicate DeletedBelow(del: seq<nat>, di: nat, i: nat) {
    && di <= |del|
    && (forall k | 0 <= k < di :: del[k] < i)
    && (forall k | di <= k < |del| :: del[k] >= i)
  }

  /** The cursor over the deletions tells whether a position is deleted. */
  lemma DeletedHere(del: seq<nat>, di: nat, i: nat)
    requires StrictlySorted(del) && DeletedBelow(del, di, i)
    ensures i in Elements(del) <==> di < |del| && del[di] == i
    ensures DeletedBelow(del, if i in Elements(del) then di + 1 else di, i + 1)
  {
    forall k | di < k < |del| ensures del[k] > i {
      StrictPair(del, di, k);
    }
  }

  /** The cursor over the kept handles is at a position exactly when its statement is
      the one there. */
  lemma KeptHere(stmts: seq<Expr>, where: map<Expr, nat>, del: seq<nat>, kep: seq<Insertion>, idx: seq<nat>,
        si: nat, i: nat, a: seq<Expr>)
    requires EditableValues(stmts, where, del, kep) && i < |stmts|
    requires Placed(kep, idx, si, i, a) && si < |kep|
    ensures kep[si].expr == stmts[i] <==> kep[si].index == i
    ensures Placed(kep, idx[si := |a|], si + 1, i + 1, a + [kep[si].expr])
    ensures kep[si].index != i ==> Placed(kep, idx, si, i + 1, a)
  {
    forall j | si < j < |kep| ensures kep[j].index >= i + 1 {
      StrictPair(Values(kep), si, j);
    }
  }

  /** No kept handle is at a deleted position. */
  lemma KeptElsewhere(stmts: seq<Expr>, where: map<Expr, nat>, del: seq<nat>, kep: seq<Insertion>,
        idx: seq<nat>, si: nat, i: nat, a: seq<Expr>)
    requires EditableValues(stmts, where, del, kep) && i in Elements(del)
    requires Placed(kep, idx, si, i, a)
    ensures Placed(kep, idx, si, i + 1, a)
  {
  }

  /** Appends the statement at position `i`, and re-indexes its handle if it has one. */
  method PlaceKept(kep: seq<Stmt>, ghost pos: map<Stmt, nat>, stmts: seq<Expr>, ghost where: map<Expr, nat>,
        ghost del: seq<nat>, ghost at: seq<Insertion>, ghost idx0: seq<nat>, si0: nat, i: nat,
        stmts0: seq<Expr>)
    returns (ghost idx: seq<nat>, si: nat, newStmt: seq<Expr>)
    requires Positions(kep, pos) && At(kep, idx0) && SameExprs(kep, at)
    requires EditableValues(stmts, where, del, at) && i < |stmts| && Placed(at, idx0, si0, i, stmts0)
    modifies kep`index
    ensures At(kep, idx) && Placed(at, idx, si, i + 1, newStmt)
    ensures newStmt == stmts0 + [stmts[i]]
  {
    si, idx := si0, idx0;
    if si < |kep| {
      KeptHere(stmts, where, del, at, idx, si, i, stmts0);
    }
    if si < |kep| && kep[si].expr == stmts[i] {
      SetIndex(kep[si], |stmts0|, kep, pos, idx, si);
      idx, si := idx[si := |stmts0|], si + 1;
    }
    newStmt := stmts0 + [stmts[i]];
    if si == si0 {
      PlacedExtend(at, idx, si, i + 1, stmts0, newStmt);
    }
  }

  /** The positions before `i` have been dealt with. */
  ghost predicate PassedTo(stmts: seq<Expr>, insAt: seq<Insertion>, insIdx: seq<nat>, ii: nat, delAt: seq<nat>,
        di: nat, kepAt: seq<Insertion>, kepIdx: seq<nat>, si: nat, i: nat, newStmt: seq<Expr>)
  {
    && newStmt == Concat(Part(stmts, insAt, Elements(delAt)), i)
    && Placed(insAt, insIdx, ii, i, newStmt) && AllBelow(insAt, ii, i)
    && Placed(kepAt, kepIdx, si, i, newStmt)
    && DeletedBelow(delAt, di, i)
  }

  /** Deals with the old statement at a position, once its insertions are placed. */
  method PassStatement(stmts: seq<Expr>, ghost where: map<Expr, nat>, del: seq<Stmt>, kep: seq<Stmt>,
        ghost kepPos: map<Stmt, nat>, ghost delAt: seq<nat>, di0: nat, ghost kepAt: seq<Insertion>,
        ghost kepIdx0: seq<nat>, si0: nat, i: nat, stmts0: seq<Expr>)
    returns (di: nat, ghost kepIdx: seq<nat>, si: nat, newStmt: seq<Expr>)
    requires Positions(kep, kepPos) && At(del, delAt) && At(kep, kepIdx0) && SameExprs(kep, kepAt)
    requires forall h | h in del :: h !in kepPos
    requires EditableValues(stmts, where, delAt, kepAt) && i < |stmts|
    requires Placed(kepAt, kepIdx0, si0, i, stmts0) && DeletedBelow(delAt, di0, i)
    modifies kep`index
    ensures At(del, delAt) && At(kep, kepIdx)
    ensures newStmt == stmts0 + KeptAt(stmts, Elements(delAt), i)
    ensures Placed(kepAt, kepIdx, si, i + 1, newStmt) && DeletedBelow(delAt, di, i + 1)
  {
    kepIdx, si, di, newStmt := kepIdx0, si0, di0, stmts0;
    DeletedHere(delAt, di, i);
    if di < |del| && del[di].index == i {
      di := di + 1;
      KeptElsewhere(stmts, where, delAt, kepAt, kepIdx, si, i, newStmt);
      return;
    }
    kepIdx, si, newStmt := PlaceKept(kep, kepPos, stmts, where, delAt, kepAt, kepIdx, si, i, newStmt);
  }

  /** Deals with one position: its insertions, then its statement unless deleted. */
  method PassPosition(stmts: seq<Expr>, ghost where: map<Expr, nat>, ins: seq<Stmt>, del: seq<Stmt>,
        kep: seq<Stmt>, ghost insPos: map<Stmt, nat>, ghost kepPos: map<Stmt, nat>, ghost insAt: seq<Insertion>,
        ghost insIdx0: seq<nat>, ii0: nat, ghost delAt: seq<nat>, di0: nat, ghost kepAt: seq<Insertion>,
        ghost kepIdx0: seq<nat>, si0: nat, i: nat, stmts0: seq<Expr>)
    returns (ghost insIdx: seq<nat>, ii: nat, di: nat, ghost kepIdx: seq<nat>, si: nat, newStmt: seq<Expr>)
    requires Apart(ins, del, kep, insPos, kepPos)
    requires At(ins, insIdx0) && At(del, delAt) && At(kep, kepIdx0) && SameExprs(ins, insAt) && SameExprs(kep, kepAt)
    requires SortedIndices(Values(insAt)) && EditableValues(stmts, where, delAt, kepAt) && i < |stmts|
    requires PassedTo(stmts, insAt, insIdx0, ii0, delAt, di0, kepAt, kepIdx0, si0, i, stmts0)
    modifies ins`index, kep`index
    ensures At(ins, insIdx) && At(del, delAt) && At(kep, kepIdx)
    ensures PassedTo(stmts, insAt, insIdx, ii, delAt, di, kepAt, kepIdx, si, i + 1, newStmt)
  {
    var middle;
    insIdx, ii, middle := PlaceInserts(ins, insPos, insAt, insIdx0, i, ii0, stmts0);
    PlacedExtend(kepAt, kepIdx0, si0, i, stmts0, middle);
    di, kepIdx, si, newStmt :=
      PassStatement(stmts, where, del, kep, kepPos, delAt, di0, kepAt, kepIdx0, si0, i, middle);
    PlacedExtend(insAt, insIdx, ii, i + 1, middle, newStmt);
  }

  ghost predicate SameExprs(hs: seq<Stmt>, at: seq<Insertion>)
  {
    |hs| == |at| && forall j | 0 <= j < |hs| :: hs[j].expr == at[j].expr
  }

  /** No handle is in two lists, or twice in one of those that are re-indexed. */
  ghost predicate Apart(ins: seq<Stmt>, del: seq<Stmt>, kep: seq<Stmt>, insPos: map<Stmt, nat>,
        kepPos: map<Stmt, nat>)
  {
    && Positions(ins, insPos) && Positions(kep, kepPos) && insPos.Keys !! kepPos.Keys
    && forall h | h in del :: h !in insPos && h !in kepPos
  }

  lemma PassStart(stmts: seq<Expr>, insAt: seq<Insertion>, delAt: seq<nat>, kepAt: seq<Insertion>)
    ensures PassedTo(stmts, insAt, Values(insAt), 0, delAt, 0, kepAt, Values(kepAt), 0, 0, [])
  {
  }

  lemma ReadOff(hs: seq<Stmt>)
    ensures At(hs, Values(Insertions(hs))) && SameExprs(hs, Insertions(hs))
  {
  }

  /** After the last position: the insertions that are left. */
  method PassRest(stmts: seq<Expr>, ghost where: map<Expr, nat>, ins: seq<Stmt>, ghost del: seq<Stmt>,
        ghost kep: seq<Stmt>, ghost insPos: map<Stmt, nat>, ghost kepPos: map<Stmt, nat>,
        ghost insAt: seq<Insertion>, ghost insIdx0: seq<nat>, ii: nat, ghost delAt: seq<nat>, ghost di: nat,
        ghost kepAt: seq<Insertion>, ghost kepIdx: seq<nat>, ghost si: nat, stmts0: seq<Expr>)
    returns (newStmt: seq<Expr>)
    requires Apart(ins, del, kep, insPos, kepPos)
    requires At(ins, insIdx0) && At(kep, kepIdx) && SameExprs(ins, insAt) && SameExprs(kep, kepAt)
    requires SortedIndices(Values(insAt)) && EditableValues(stmts, where, delAt, kepAt)
    requires PassedTo(stmts, insAt, insIdx0, ii, delAt, di, kepAt, kepIdx, si, |stmts|, stmts0)
    modifies ins`index
    ensures newStmt == Edited(stmts, insAt, Elements(delAt))
    ensures AllPoint(ins, newStmt) && AllPoint(kep, newStmt)
  {
    ghost var insIdx;
    insIdx, newStmt := PlaceRest(ins, insPos, insAt, insIdx0, stmts, Elements(delAt), ii, stmts0);
    PlacedExtend(kepAt, kepIdx, si, |stmts|, stmts0, newStmt);
    PlacedPoint(ins, insAt, insIdx, |insAt|, 0, newStmt);
    PlacedPoint(kep, kepAt, kepIdx, si, |stmts|, newStmt);
  }

  /** The edit as a single pass with three cursors over the sorted handles. */
  method MergePass(stmts: seq<Expr>, ghost where: map<Expr, nat>, ins: seq<Stmt>, del: seq<Stmt>,
        kep: seq<Stmt>, ghost insPos: map<Stmt, nat>, ghost kepPos: map<Stmt, nat>, ghost insAt: seq<Insertion>,
        ghost delAt: seq<nat>, ghost kepAt: seq<Insertion>)
    returns (newStmt: seq<Expr>)
    requires Apart(ins, del, kep, insPos, kepPos)
    requires At(ins, Values(insAt)) && At(del, delAt) && At(kep, Values(kepAt)) && SameExprs(ins, insAt)
    requires SameExprs(kep, kepAt)
    requires SortedIndices(Values(insAt)) && EditableValues(stmts, where, delAt, kepAt)
    modifies ins`index, kep`index
    ensures newStmt == Edited(stmts, insAt, Elements(delAt))
    ensures AllPoint(ins, newStmt) && AllPoint(kep, newStmt)
  {
    newStmt := [];
    ghost var insIdx: seq<nat>, kepIdx: seq<nat> := Values(insAt), Values(kepAt);
    PassStart(stmts, insAt, delAt, kepAt);
    var ii, di, si := 0, 0, 0;
    for i := 0 to |stmts|
      invariant At(ins, insIdx) && At(del, delAt) && At(kep, kepIdx)
      invariant PassedTo(stmts, insAt, insIdx, ii, delAt, di, kepAt, kepIdx, si, i, newStmt)
    {
      insIdx, ii, di, kepIdx, si, newStmt :=
        PassPosition(stmts, where, ins, del, kep, insPos, kepPos, insAt, insIdx, ii, delAt, di, kepAt, kepIdx, si, i,
            newStmt);
    }
    newStmt :=
      PassRest(stmts, where, ins, del, kep, insPos, kepPos, insAt, insIdx, ii, delAt, di, kepAt, kepIdx, si, newStmt);
  }

  /** A handle points at its own statement. */
  ghost predicate PointsIn(h: Stmt, stmts: seq<Expr>)
    reads h`index
  {
    h.index < |stmts| && stmts[h.index] == h.expr
  }

  ghost predicate AllPoint(hs: seq<Stmt>, stmts: seq<Expr>)
    reads hs`index
  {
    forall h | h in hs :: PointsIn(h, stmts)
  }

  lemma PlacedPoint(hs: seq<Stmt>, at: seq<Insertion>, idx: seq<nat>, k: nat, lo: nat, newStmt: seq<Expr>)
    requires At(hs, idx) && SameExprs(hs, at) && Placed(at, idx, k, lo, newStmt)
    requires forall j | k <= j < |at| :: at[j].index < lo
    ensures AllPoint(hs, newStmt)
  {
    forall h | h in hs ensures PointsIn(h, newStmt) {
      var j :| 0 <= j < |hs| && hs[j] == h;
    }
  }
}
