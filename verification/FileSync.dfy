/** A build file under edit: handles on its statements, marked for insertion or
    deletion, and the synchronisation that writes the marks back to the list of
    statements and re-indexes the handles. */
module FileSync {
  import opened Sorting
  import opened ListEdit
  import opened StmtHandles
  import opened EditPass
  import opened Options

  // ------------------------------------------------------------- handles apart

  /** Handles of different statements. */
  ghost predicate DifferentExprs(hs: seq<Stmt>) {
    forall i, j | 0 <= i < j < |hs| :: hs[i].expr != hs[j].expr
  }

  /** No statement has handles in both lists. */
  ghost predicate Foreign(a: seq<Stmt>, b: seq<Stmt>) {
    forall x, y | x in a && y in b :: x.expr != y.expr
  }

  lemma JoinDifferent(a: seq<Stmt>, b: seq<Stmt>)
    requires DifferentExprs(a) && DifferentExprs(b) && Foreign(a, b)
    ensures DifferentExprs(a + b)
  {
    forall i, j | 0 <= i < j < |a + b| ensures (a + b)[i].expr != (a + b)[j].expr {
      if i < |a| <= j {
        assert a[i] in a && b[j - |a|] in b;
      }
    }
  }

  lemma SplitDifferent(a: seq<Stmt>, b: seq<Stmt>)
    requires DifferentExprs(a + b)
    ensures DifferentExprs(a) && DifferentExprs(b) && Foreign(a, b)
  {
    var ab := a + b;
    forall i, j | 0 <= i < j < |a| ensures a[i].expr != a[j].expr {
      assert ab[i] == a[i] && ab[j] == a[j];
    }
    forall i, j | 0 <= i < j < |b| ensures b[i].expr != b[j].expr {
      assert ab[|a| + i] == b[i] && ab[|a| + j] == b[j];
    }
    forall x, y | x in a && y in b ensures x.expr != y.expr {
      var i :| 0 <= i < |a| && a[i] == x;
      var j :| 0 <= j < |b| && b[j] == y;
      assert ab[i] == x && ab[|a| + j] == y;
    }
  }

  lemma DifferentMembers(hs: seq<Stmt>)
    requires DifferentExprs(hs)
    ensures NoDuplicates(hs)
    ensures forall x, y | x in hs && y in hs && x != y :: x.expr != y.expr
  {
    forall x, y | x in hs && y in hs && x != y ensures x.expr != y.expr {
      var i :| 0 <= i < |hs| && hs[i] == x;
      var j :| 0 <= j < |hs| && hs[j] == y;
      if i < j { assert hs[i].expr != hs[j].expr; } else { assert hs[j].expr != hs[i].expr; }
    }
  }

  // --------------------------------------------------------- the edit of handles

  /** What UpdateStmt asks of its arguments: handles of different statements, those to
      insert new to the list, the others pointing at their place in it. */
  ghost predicate Editable(stmts: seq<Expr>, inserts: seq<Stmt>, deletes: seq<Stmt>, kept: seq<Stmt>)
    reads deletes, kept
  {
    && NoDuplicates(stmts)
    && DifferentExprs(inserts) && DifferentExprs(deletes) && DifferentExprs(kept)
    && Foreign(inserts, deletes) && Foreign(inserts, kept) && Foreign(deletes, kept)
    && (forall h | h in inserts :: h.expr !in stmts)
    && AllPoint(deletes, stmts) && AllPoint(kept, stmts)
  }

  lemma SameHandles(a: seq<Stmt>, b: seq<Stmt>)
    requires multiset(a) == multiset(b)
    ensures forall h :: h in a <==> h in b
    ensures NoDuplicates(a) ==> NoDuplicates(b)
  {
    forall h ensures h in a <==> h in b {
      assert h in a <==> h in multiset(a);
      assert h in b <==> h in multiset(b);
    }
    if NoDuplicates(a) {
      NoDuplicatesIsMultiset(a);
      forall i, j | 0 <= i < j < |b| ensures b[i] != b[j] {
        assert multiset(b)[b[i]] <= 1;
        if b[i] == b[j] {
          TwoOccurrences(b, i, j);
        }
      }
    }
  }

  lemma SortedDifferent(a: seq<Stmt>, b: seq<Stmt>)
    requires multiset(a) == multiset(b) && DifferentExprs(a)
    ensures DifferentExprs(b) && forall h :: h in a <==> h in b
  {
    SameHandles(a, b);
    DifferentMembers(a);
    forall i, j | 0 <= i < j < |b| ensures b[i].expr != b[j].expr {
      assert b[i] in a && b[j] in a && b[i] != b[j];
    }
  }

  lemma MakePositions(hs: seq<Stmt>) returns (pos: map<Stmt, nat>)
    requires DifferentExprs(hs)
    ensures Positions(hs, pos) && forall h :: h in pos <==> h in hs
  {
    pos := map[];
    for i := 0 to |hs|
      invariant Positions(hs[..i], pos) && forall h :: h in pos <==> h in hs[..i]
    {
      assert hs[i] !in hs[..i];
      pos := pos[hs[i] := i];
      assert hs[..i + 1] == hs[..i] + [hs[i]];
    }
    assert hs[..|hs|] == hs;
  }

  lemma MakePlaces(stmts: seq<Expr>) returns (where: map<Expr, nat>)
    requires NoDuplicates(stmts)
    ensures forall k | 0 <= k < |stmts| :: stmts[k] in where && where[stmts[k]] == k
  {
    where := map[];
    for i := 0 to |stmts|
      invariant where.Keys == Elements(stmts[..i])
      invariant forall k | 0 <= k < i :: stmts[k] in where && where[stmts[k]] == k
    {
      assert stmts[..i + 1] == stmts[..i] + [stmts[i]];
      assert stmts[i] !in stmts[..i];
      where := where[stmts[i] := i];
    }
  }

  /** Handles that point at different statements have different indices. */
  lemma PlacesStrict(stmts: seq<Expr>, hs: seq<Stmt>)
    requires SortedIndices(Values(Insertions(hs))) && DifferentExprs(hs) && AllPoint(hs, stmts)
    ensures StrictlySorted(Values(Insertions(hs)))
  {
    var idx := Values(Insertions(hs));
    forall i, j | 0 <= i < j < |idx| ensures idx[i] != idx[j] {
      assert hs[i] in hs && hs[j] in hs;
      assert PointsIn(hs[i], stmts) && PointsIn(hs[j], stmts);
      assert idx[i] == hs[i].index && idx[j] == hs[j].index;
    }
    DistinctIsStrict(idx);
  }

  lemma SortedDeletions(del: seq<Stmt>, deletes: seq<Stmt>)
    requires forall h :: h in del <==> h in deletes
    ensures Elements(Values(Insertions(del))) == Indices(deletes)
  {
    var idx := Values(Insertions(del));
    forall i ensures i in Elements(idx) <==> i in Indices(deletes) {
      if i in Elements(idx) {
        var j :| 0 <= j < |idx| && idx[j] == i;
        assert del[j] in deletes && del[j].index == i;
      }
      if i in Indices(deletes) {
        var h :| h in deletes && h.index == i;
        var j :| 0 <= j < |del| && del[j] == h;
        assert idx[j] == i;
      }
    }
  }

  lemma KeptNotDeleted(stmts: seq<Expr>, del: seq<Stmt>, kep: seq<Stmt>)
    requires AllPoint(del, stmts) && AllPoint(kep, stmts) && Foreign(del, kep)
    ensures forall k | 0 <= k < |kep| ::
              var at := Insertions(kep)[k];
              at.index < |stmts| && stmts[at.index] == at.expr && at.index !in Elements(Values(Insertions(del)))
  {
    var idx := Values(Insertions(del));
    forall k | 0 <= k < |kep| ensures kep[k].index !in Elements(idx) && PointsIn(kep[k], stmts) {
      assert kep[k] in kep;
      forall j | 0 <= j < |del| ensures idx[j] != kep[k].index {
        assert del[j] in del;
      }
    }
  }

  /** Sorted by index, the handles are fit for the pass. */
  lemma FitForPass(stmts: seq<Expr>, ins: seq<Stmt>, del: seq<Stmt>, kep: seq<Stmt>)
    returns (where: map<Expr, nat>, insPos: map<Stmt, nat>, kepPos: map<Stmt, nat>)
    requires Editable(stmts, ins, del, kep)
    requires SortedIndices(Values(Insertions(del))) && SortedIndices(Values(Insertions(kep)))
    ensures Apart(ins, del, kep, insPos, kepPos)
    ensures EditableValues(stmts, where, Values(Insertions(del)), Insertions(kep))
  {
    where := MakePlaces(stmts);
    insPos := MakePositions(ins);
    kepPos := MakePositions(kep);
    PlacesStrict(stmts, del);
    PlacesStrict(stmts, kep);
    KeptNotDeleted(stmts, del, kep);
    assert forall h | h in ins :: h !in del && h !in kep;
    assert forall h | h in del :: h !in kep;
  }

  lemma StillEditable(stmts: seq<Expr>, inserts: seq<Stmt>, deletes: seq<Stmt>, kept: seq<Stmt>, ins: seq<Stmt>,
        del: seq<Stmt>, kep: seq<Stmt>)
    requires Editable(stmts, inserts, deletes, kept)
    requires multiset(inserts) == multiset(ins) && multiset(deletes) == multiset(del) && multiset(kept) == multiset(kep)
    ensures Editable(stmts, ins, del, kep)
    ensures forall h :: h in inserts <==> h in ins
    ensures forall h :: h in deletes <==> h in del
    ensures forall h :: h in kept <==> h in kep
  {
    SortedDifferent(inserts, ins);
    SortedDifferent(deletes, del);
    SortedDifferent(kept, kep);
  }

  /** The sorted handles are fit for the pass, and give the same edit. */
  lemma SortedIsFit(stmts: seq<Expr>, inserts: seq<Stmt>, deletes: seq<Stmt>, kept: seq<Stmt>, ins: seq<Stmt>,
        del: seq<Stmt>, kep: seq<Stmt>)
    returns (where: map<Expr, nat>, insPos: map<Stmt, nat>, kepPos: map<Stmt, nat>, insAt: seq<Insertion>,
        delAt: seq<nat>, kepAt: seq<Insertion>)
    requires Editable(stmts, inserts, deletes, kept)
    requires multiset(inserts) == multiset(ins) && multiset(deletes) == multiset(del) && multiset(kept) == multiset(kep)
    requires SortedIndices(Values(Insertions(ins))) && SortedIndices(Values(Insertions(del)))
    requires SortedIndices(Values(Insertions(kep)))
    requires SameOrder(Insertions(ins), Insertions(inserts))
    ensures Apart(ins, del, kep, insPos, kepPos)
    ensures At(ins, Values(insAt)) && At(del, delAt) && At(kep, Values(kepAt)) && SameExprs(ins, insAt)
    ensures SameExprs(kep, kepAt)
    ensures SortedIndices(Values(insAt)) && EditableValues(stmts, where, delAt, kepAt)
    ensures Edited(stmts, insAt, Elements(delAt)) == Edited(stmts, Insertions(inserts), Indices(deletes))
    ensures (forall k | 0 <= k < |ins| :: ins[k] in inserts) && forall k | 0 <= k < |inserts| :: inserts[k] in ins
    ensures (forall k | 0 <= k < |kep| :: kep[k] in kept) && forall k | 0 <= k < |kept| :: kept[k] in kep
  {
    StillEditable(stmts, inserts, deletes, kept, ins, del, kep);
    where, insPos, kepPos := FitForPass(stmts, ins, del, kep);
    insAt, delAt, kepAt := Insertions(ins), Values(Insertions(del)), Insertions(kep);
    SortedDeletions(del, deletes);
    EditDependsOnOrder(stmts, insAt, Insertions(inserts), Indices(deletes));
    ReadOff(ins);
    ReadOff(del);
    ReadOff(kep);
  }

  /** Sorts the handles for the pass. */
  method SortHandles(stmts: seq<Expr>, inserts: seq<Stmt>, deletes: seq<Stmt>, kept: seq<Stmt>)
    returns (ins: seq<Stmt>, del: seq<Stmt>, kep: seq<Stmt>,
        ghost where: map<Expr, nat>, ghost insPos: map<Stmt, nat>, ghost kepPos: map<Stmt, nat>,
        ghost insAt: seq<Insertion>, ghost delAt: seq<nat>, ghost kepAt: seq<Insertion>)
    requires Editable(stmts, inserts, deletes, kept)
    ensures (forall k | 0 <= k < |ins| :: ins[k] in inserts) && forall k | 0 <= k < |inserts| :: inserts[k] in ins
    ensures (forall k | 0 <= k < |kep| :: kep[k] in kept) && forall k | 0 <= k < |kept| :: kept[k] in kep
    ensures Apart(ins, del, kep, insPos, kepPos)
    ensures At(ins, Values(insAt)) && At(del, delAt) && At(kep, Values(kepAt)) && SameExprs(ins, insAt)
    ensures SameExprs(kep, kepAt)
    ensures SortedIndices(Values(insAt)) && EditableValues(stmts, where, delAt, kepAt)
    ensures Edited(stmts, insAt, Elements(delAt)) == Edited(stmts, Insertions(inserts), Indices(deletes))
  {
    del := StableSort(deletes);
    ins := StableSort(inserts);
    kep := StableSort(kept);
    where, insPos, kepPos, insAt, delAt, kepAt := SortedIsFit(stmts, inserts, deletes, kept, ins, del, kep);
  }

  method UpdateStmt(stmts: seq<Expr>, inserts: seq<Stmt>, deletes: seq<Stmt>, kept: seq<Stmt>)
    returns (newStmt: seq<Expr>)
    requires Editable(stmts, inserts, deletes, kept)
    modifies inserts`index, kept`index
    ensures newStmt == Edited(stmts, old(Insertions(inserts)), old(Indices(deletes)))
    ensures AllPoint(inserts, newStmt) && AllPoint(kept, newStmt)
  {
    var ins, del, kep, where, insPos, kepPos, insAt, delAt, kepAt := SortHandles(stmts, inserts, deletes, kept);
    newStmt := MergePass(stmts, where, ins, del, kep, insPos, kepPos, insAt, delAt, kepAt);
  }

  // ----------------------------------------------------------------- the marks

  /** What a handle is marked as. A deleted one counts as deleted whatever else it is. */
  datatype Mark = New | Gone | Stays

  ghost function Marks(hs: seq<Stmt>): (r: seq<Mark>)
    reads hs
    ensures |r| == |hs|
  {
    seq(|hs|, i requires 0 <= i < |hs| reads hs =>
      if hs[i].deleted then Gone else if hs[i].inserted then New else Stays)
  }

  /** The handles that are marked one of `which`, in their order. */
  ghost function Pick(hs: seq<Stmt>, marks: seq<Mark>, which: set<Mark>): seq<Stmt>
    requires |hs| == |marks|
    ensures forall h | h in Pick(hs, marks, which) :: h in hs
  {
    if hs == [] then []
    else
      var n := |hs| - 1;
      Pick(hs[..n], marks[..n], which) + if marks[n] in which then [hs[n]] else []
  }

  lemma {:induction false} PickMember(hs: seq<Stmt>, marks: seq<Mark>, which: set<Mark>, h: Stmt)
    requires |hs| == |marks|
    ensures h in Pick(hs, marks, which) <==> exists i :: 0 <= i < |hs| && hs[i] == h && marks[i] in which
  {
    if hs != [] {
      var n := |hs| - 1;
      PickMember(hs[..n], marks[..n], which, h);
      if h in Pick(hs[..n], marks[..n], which) {
        var i :| 0 <= i < n && hs[..n][i] == h && marks[..n][i] in which;
        assert hs[i] == h && marks[i] in which;
      }
      if i :| 0 <= i < |hs| && hs[i] == h && marks[i] in which {
        assert i < n ==> hs[..n][i] == h && marks[..n][i] in which;
      }
    }
  }

  lemma {:induction false} PickDifferent(hs: seq<Stmt>, marks: seq<Mark>, which: set<Mark>)
    requires |hs| == |marks| && DifferentExprs(hs)
    ensures DifferentExprs(Pick(hs, marks, which))
  {
    if hs != [] {
      var n := |hs| - 1;
      PickDifferent(hs[..n], marks[..n], which);
      var init, last := Pick(hs[..n], marks[..n], which), [hs[n]];
      forall x, y | x in init && y in last ensures x.expr != y.expr {
        PickMember(hs[..n], marks[..n], which, x);
      }
      JoinDifferent(init, last);
    }
  }

  lemma PickForeign(hs: seq<Stmt>, marks: seq<Mark>, a: set<Mark>, b: set<Mark>)
    requires |hs| == |marks| && DifferentExprs(hs) && a !! b
    ensures Foreign(Pick(hs, marks, a), Pick(hs, marks, b))
  {
    forall x, y | x in Pick(hs, marks, a) && y in Pick(hs, marks, b) ensures x.expr != y.expr {
      PickMember(hs, marks, a, x);
      PickMember(hs, marks, b, y);
      var i :| 0 <= i < |hs| && hs[i] == x && marks[i] in a;
      var j :| 0 <= j < |hs| && hs[j] == y && marks[j] in b;
      assert i != j;
      if i < j { assert hs[i].expr != hs[j].expr; } else { assert hs[j].expr != hs[i].expr; }
    }
  }

  lemma {:induction false} PickConcat(a: seq<Stmt>, b: seq<Stmt>, ma: seq<Mark>, mb: seq<Mark>, which: set<Mark>)
    requires |a| == |ma| && |b| == |mb|
    ensures Pick(a + b, ma + mb, which) == Pick(a, ma, which) + Pick(b, mb, which)
  {
    if b == [] {
      assert a + b == a && ma + mb == ma;
    } else {
      var n := |b| - 1;
      PickConcat(a, b[..n], ma, mb[..n], which);
      assert (a + b)[..|a| + n] == a + b[..n] && (ma + mb)[..|a| + n] == ma + mb[..n];
    }
  }

  ghost function Inserted(hs: seq<Stmt>): (r: seq<Stmt>)
    reads hs
    ensures forall h | h in r :: h in hs
  {
    Pick(hs, Marks(hs), {New})
  }

  ghost function Deleted(hs: seq<Stmt>): (r: seq<Stmt>)
    reads hs
    ensures forall h | h in r :: h in hs
  {
    Pick(hs, Marks(hs), {Gone})
  }

  ghost function Kept(hs: seq<Stmt>): (r: seq<Stmt>)
    reads hs
    ensures forall h | h in r :: h in hs
  {
    Pick(hs, Marks(hs), {Stays})
  }

  ghost function Surviving(hs: seq<Stmt>): (r: seq<Stmt>)
    reads hs
    ensures forall h | h in r :: h in hs
  {
    Pick(hs, Marks(hs), {New, Stays})
  }

  lemma MarkMembers(hs: seq<Stmt>, h: Stmt)
    ensures h in Inserted(hs) <==> h in hs && !h.deleted && h.inserted
    ensures h in Deleted(hs) <==> h in hs && h.deleted
    ensures h in Kept(hs) <==> h in hs && !h.deleted && !h.inserted
    ensures h in Surviving(hs) <==> h in hs && !h.deleted
  {
    var m := Marks(hs);
    PickMember(hs, m, {New}, h);
    PickMember(hs, m, {Gone}, h);
    PickMember(hs, m, {Stays}, h);
    PickMember(hs, m, {New, Stays}, h);
    if h in hs {
      var i :| 0 <= i < |hs| && hs[i] == h;
      assert m[i] == if h.deleted then Gone else if h.inserted then New else Stays;
    }
  }

  lemma MarksOfConcat(a: seq<Stmt>, b: seq<Stmt>)
    ensures Inserted(a + b) == Inserted(a) + Inserted(b)
    ensures Deleted(a + b) == Deleted(a) + Deleted(b)
    ensures Kept(a + b) == Kept(a) + Kept(b)
    ensures Surviving(a + b) == Surviving(a) + Surviving(b)
  {
    assert Marks(a + b) == Marks(a) + Marks(b);
    PickConcat(a, b, Marks(a), Marks(b), {New});
    PickConcat(a, b, Marks(a), Marks(b), {Gone});
    PickConcat(a, b, Marks(a), Marks(b), {Stays});
    PickConcat(a, b, Marks(a), Marks(b), {New, Stays});
  }

  /** What is assumed between edits of a list of statements and the handles on it:
      handles of different statements, not both inserted and deleted, those to insert
      new to the list, and the others pointing at their statement. */
  ghost predicate Consistent(stmts: seq<Expr>, hs: seq<Stmt>)
    reads hs
  {
    && NoDuplicates(stmts) && DifferentExprs(hs)
    && forall h | h in hs :: Fits(stmts, h)
  }

  ghost predicate Fits(stmts: seq<Expr>, h: Stmt)
    reads h
  {
    !(h.inserted && h.deleted) && if h.inserted then h.expr !in stmts else PointsIn(h, stmts)
  }

  lemma ConsistentIsEditable(stmts: seq<Expr>, hs: seq<Stmt>)
    requires Consistent(stmts, hs)
    ensures Editable(stmts, Inserted(hs), Deleted(hs), Kept(hs))
    ensures DifferentExprs(Surviving(hs)) && AreNew(stmts, Insertions(Inserted(hs)))
  {
    var m := Marks(hs);
    PickDifferent(hs, m, {New});
    PickDifferent(hs, m, {Gone});
    PickDifferent(hs, m, {Stays});
    PickDifferent(hs, m, {New, Stays});
    PickForeign(hs, m, {New}, {Gone});
    PickForeign(hs, m, {New}, {Stays});
    PickForeign(hs, m, {Gone}, {Stays});
    forall h | h in Inserted(hs) ensures h.expr !in stmts {
      MarkMembers(hs, h);
    }
    forall h | h in Deleted(hs) ensures PointsIn(h, stmts) {
      MarkMembers(hs, h);
    }
    forall h | h in Kept(hs) ensures PointsIn(h, stmts) {
      MarkMembers(hs, h);
    }
    forall k | 0 <= k < |Inserted(hs)| ensures Insertions(Inserted(hs))[k].expr !in stmts {
      assert Inserted(hs)[k] in Inserted(hs);
    }
  }

  /** Takes the handles apart by their marks, which are not changed yet. */
  method TakeApart(hs: seq<Stmt>) returns (inserts: seq<Stmt>, deletes: seq<Stmt>, kept: seq<Stmt>, left: seq<Stmt>)
    ensures inserts == Inserted(hs) && deletes == Deleted(hs) && kept == Kept(hs) && left == Surviving(hs)
  {
    inserts, deletes, kept, left := [], [], [], [];
    ghost var m := Marks(hs);
    for r := 0 to |hs|
      invariant inserts == Pick(hs[..r], m[..r], {New}) && deletes == Pick(hs[..r], m[..r], {Gone})
      invariant kept == Pick(hs[..r], m[..r], {Stays}) && left == Pick(hs[..r], m[..r], {New, Stays})
    {
      var s := hs[r];
      assert hs[..r + 1][..r] == hs[..r] && m[..r + 1][..r] == m[..r];
      if s.deleted {
        deletes := deletes + [s];
        continue;
      }
      if s.inserted {
        inserts := inserts + [s];
      } else {
        kept := kept + [s];
      }
      left := left + [s];
    }
    assert hs[..|hs|] == hs && m[..|hs|] == m;
  }

  /** The inserted handles are inserted no longer. */
  method ClearInserted(hs: seq<Stmt>)
    modifies hs`inserted
    ensures forall h | h in hs :: !h.inserted
  {
    for r := 0 to |hs|
      invariant forall k | 0 <= k < r :: !hs[k].inserted
    {
      hs[r].inserted := false;
    }
  }

  /** No handle has a mark left, and each points at its own statement. */
  ghost predicate Clean(stmts: seq<Expr>, hs: seq<Stmt>)
    reads hs
  {
    forall h | h in hs :: !h.inserted && !h.deleted && PointsIn(h, stmts)
  }

  /** The result of writing the marks of `hs` back to a list of statements. */
  ghost function Synced(stmts: seq<Expr>, hs: seq<Stmt>): seq<Expr>
    reads hs
  {
    var ins, del := Inserted(hs), Deleted(hs);
    assert (forall k | 0 <= k < |ins| :: ins[k] in hs) && forall k | 0 <= k < |del| :: del[k] in hs;
    Edited(stmts, Insertions(ins), Indices(del))
  }

  /** Once written back, the marks are gone: doing it again changes nothing. */
  lemma SyncIsIdempotent(stmts: seq<Expr>, hs: seq<Stmt>)
    requires Clean(stmts, hs)
    ensures Synced(stmts, hs) == stmts && Surviving(hs) == hs
  {
    var m := Marks(hs);
    forall k | 0 <= k < |hs| ensures m[k] == Stays {
      assert hs[k] in hs;
    }
    PickUniform(hs, m, {New}, false);
    PickUniform(hs, m, {Gone}, false);
    PickUniform(hs, m, {New, Stays}, true);
    assert Insertions([]) == [] && Indices([]) == {};
    NoMarksNoChange(stmts);
  }

  lemma {:induction false} PickUniform(hs: seq<Stmt>, marks: seq<Mark>, which: set<Mark>, all: bool)
    requires |hs| == |marks| && forall k | 0 <= k < |marks| :: marks[k] in which <==> all
    ensures Pick(hs, marks, which) == if all then hs else []
  {
    if hs != [] {
      var n := |hs| - 1;
      PickUniform(hs[..n], marks[..n], which, all);
      assert hs == hs[..n] + [hs[n]];
    }
  }

  /** Edits one list of statements by the marks of its handles. */
  method SyncList(stmts: seq<Expr>, ghost hs: seq<Stmt>, inserts: seq<Stmt>, deletes: seq<Stmt>,
        kept: seq<Stmt>)
    returns (newStmt: seq<Expr>)
    requires Consistent(stmts, hs) && inserts == Inserted(hs) && deletes == Deleted(hs) && kept == Kept(hs)
    modifies hs`inserted, hs`index
    ensures newStmt == old(Synced(stmts, hs)) && NoDuplicates(newStmt)
    ensures DifferentExprs(old(Surviving(hs))) && Clean(newStmt, old(Surviving(hs)))
  {
    ghost var left := Surviving(hs);
    ConsistentIsEditable(stmts, hs);
    EditKeepsDistinct(stmts, Insertions(inserts), Indices(deletes));
    forall h ensures h in left ==> (h in inserts || h in kept) && !h.deleted
             ensures h in kept ==> !h.inserted
    {
      MarkMembers(hs, h);
    }
    assert (forall k | 0 <= k < |inserts| :: inserts[k] in hs) && forall k | 0 <= k < |kept| :: kept[k] in hs;
    newStmt := UpdateStmt(stmts, inserts, deletes, kept);
    ClearInserted(inserts);
  }

  /** Writes back the marks of one list of handles. */
  method SyncOne(stmts: seq<Expr>, hs: seq<Stmt>) returns (newStmt: seq<Expr>, left: seq<Stmt>)
    requires Consistent(stmts, hs)
    modifies hs`inserted, hs`index
    ensures newStmt == old(Synced(stmts, hs)) && left == old(Surviving(hs))
    ensures NoDuplicates(newStmt) && DifferentExprs(left) && Clean(newStmt, left)
  {
    var inserts, deletes, kept;
    inserts, deletes, kept, left := TakeApart(hs);
    newStmt := SyncList(stmts, hs, inserts, deletes, kept);
  }

  /** Writes back the marks of loads and rules that stand in one list. */
  method SyncBoth(stmts: seq<Expr>, loads: seq<Stmt>, rules: seq<Stmt>)
    returns (newStmt: seq<Expr>, loadsLeft: seq<Stmt>, rulesLeft: seq<Stmt>)
    requires Consistent(stmts, loads + rules)
    modifies loads`inserted, loads`index, rules`inserted, rules`index
    ensures newStmt == old(Synced(stmts, loads + rules)) && loadsLeft == old(Surviving(loads))
    ensures rulesLeft == old(Surviving(rules))
    ensures NoDuplicates(newStmt) && DifferentExprs(loadsLeft + rulesLeft) && Clean(newStmt, loadsLeft + rulesLeft)
  {
    ghost var hs := loads + rules;
    MarksOfConcat(loads, rules);
    var loadInserts, loadDeletes, loadStmts, ruleInserts, ruleDeletes, ruleStmts;
    loadInserts, loadDeletes, loadStmts, loadsLeft := TakeApart(loads);
    ruleInserts, ruleDeletes, ruleStmts, rulesLeft := TakeApart(rules);
    assert forall k | 0 <= k < |hs| :: hs[k] in loads || hs[k] in rules;
    newStmt := SyncList(stmts, hs, loadInserts + ruleInserts, loadDeletes + ruleDeletes, loadStmts + ruleStmts);
  }

  // ----------------------------------------------------------------- the file

  /** Adding a handle to one of two lists keeps all handles on different statements. */
  lemma InsertedDifferent(a: seq<Stmt>, h: Stmt, b: seq<Stmt>)
    requires DifferentExprs(a + b) && forall x | x in a + b :: x.expr != h.expr
    ensures DifferentExprs(a + [h] + b)
  {
    SplitDifferent(a, b);
    JoinDifferent(a, [h]);
    JoinDifferent(a + [h], b);
  }

  lemma CleanIsConsistent(stmts: seq<Expr>, hs: seq<Stmt>)
    requires NoDuplicates(stmts) && DifferentExprs(hs) && Clean(stmts, hs)
    ensures Consistent(stmts, hs)
  {
  }

  lemma CleanGrows(stmts: seq<Expr>, x: Expr, hs: seq<Stmt>)
    requires NoDuplicates(stmts) && x !in stmts && Clean(stmts, hs)
    ensures NoDuplicates(stmts + [x]) && Clean(stmts + [x], hs)
  {
  }

  lemma ConsistentParts(stmts: seq<Expr>, a: seq<Stmt>, b: seq<Stmt>)
    requires Clean(stmts, a + b) && DifferentExprs(a + b)
    ensures Clean(stmts, a) && Clean(stmts, b)
  {
    forall h | h in a || h in b ensures h in a + b {}
  }

  /** The macro function a file may wrap: rules then stand in its body. */
  datatype Function = Function(stmt: Expr, body: seq<Expr>, inserted: bool, hasPass: bool)

  class File {
    var stmts: seq<Expr>
    var loads: seq<Stmt>
    var rules: seq<Stmt>
    var function_: Option<Function>

    /** Without a macro, loads and rules stand in the file. With one, rules stand in its
        body; a body that is only `pass` has no rules yet, and a function that is not
        in the file is new to it. */
    ghost predicate Valid()
      reads this, loads, rules
    {
      match function_
      case None => Consistent(stmts, loads + rules)
      case Some(f) =>
        && DifferentExprs(loads + rules) && Consistent(stmts, loads) && Consistent(f.body, rules)
        && (f.hasPass ==> |f.body| == 1 && forall h | h in rules :: h.inserted)
        && (!f.inserted ==> f.stmt !in stmts && forall h | h in loads :: h.expr != f.stmt)
    }

    /** No handle has a mark, and each points at its own statement. */
    ghost predicate IsSynced()
      reads this, loads, rules
    {
      && Clean(stmts, loads)
      && Clean(if function_.None? then stmts else function_.value.body, rules)
      && (function_.Some? ==> function_.value.inserted && function_.value.body != [])
    }

    constructor (stmts: seq<Expr>, loads: seq<Stmt>, rules: seq<Stmt>)
      requires Consistent(stmts, loads + rules)
      ensures Valid() && this.stmts == stmts && this.loads == loads && this.rules == rules && function_ == None
    {
      this.stmts, this.loads, this.rules, function_ := stmts, loads, rules, None;
    }

    /** Marks a new rule for insertion before the statement at `index`. */
    method InsertRuleAt(r: Stmt, index: nat)
      requires Valid() && !r.deleted
      requires r.expr !in stmts && (function_.Some? ==> r.expr !in function_.value.body)
      requires forall h | h in loads + rules :: h.expr != r.expr
      modifies this`rules, r`index, r`inserted
      ensures Valid() && rules == old(rules) + [r] && r.index == index && r.inserted
    {
      ghost var before := loads + rules;
      forall h | h in loads || h in rules ensures h in before && h != r {}
      r.index, r.inserted := index, true;
      rules := rules + [r];
      assert loads + rules == before + [r] && before + [r] + [] == before + [r];
      InsertedDifferent(before, r, []);
      SplitDifferent(loads, rules);
    }

    /** Marks a new rule for insertion at the end. */
    method InsertRule(r: Stmt)
      requires Valid() && !r.deleted
      requires r.expr !in stmts && (function_.Some? ==> r.expr !in function_.value.body)
      requires forall h | h in loads + rules :: h.expr != r.expr
      modifies this`rules, r`index, r`inserted
      ensures Valid() && rules == old(rules) + [r] && r.inserted
      ensures r.index == |if function_.None? then stmts else function_.value.body|
    {
      InsertRuleAt(r, match function_ case None => |stmts| case Some(f) => |f.body|);
    }

    /** Marks a new load for insertion before the statement at `index`. */
    method InsertLoad(l: Stmt, index: nat)
      requires Valid() && !l.deleted
      requires l.expr !in stmts && (function_.Some? ==> l.expr != function_.value.stmt)
      requires forall h | h in loads + rules :: h.expr != l.expr
      modifies this`loads, l`index, l`inserted
      ensures Valid() && loads == old(loads) + [l] && l.index == index && l.inserted
    {
      ghost var ls, rs := loads, rules;
      forall h | h in ls || h in rs ensures h in ls + rs && h != l {}
      l.index, l.inserted := index, true;
      loads := loads + [l];
      InsertedDifferent(ls, l, rs);
      SplitDifferent(loads, rules);
    }

    /** Writes all marks back. Loads and rules stand in the file; with a macro, rules
        stand in its body, which is never left empty, and which is added to the file
        the first time. */
    method Sync(pass: Expr)
      requires Valid()
      modifies this, loads`inserted, loads`index, rules`inserted, rules`index
      ensures loads == old(Surviving(loads)) && rules == old(Surviving(rules))
      ensures old(function_) == None ==> function_ == None && stmts == old(Synced(stmts, loads + rules))
      ensures old(function_) != None ==>
                && function_ == Some(old(NewFunction(function_.value, rules, pass)))
                && stmts == old(Synced(stmts, loads) + if function_.value.inserted then [] else [function_.value.stmt])
      ensures Valid() && IsSynced()
    {
      if function_ == None {
        stmts, loads, rules := SyncBoth(stmts, loads, rules);
        ConsistentParts(stmts, loads, rules);
      } else {
        SyncMacro(pass);
      }
    }

    method SyncMacro(pass: Expr)
      requires Valid() && function_ != None
      modifies this, loads`inserted, loads`index, rules`inserted, rules`index
      ensures loads == old(Surviving(loads)) && rules == old(Surviving(rules))
      ensures function_ == Some(old(NewFunction(function_.value, rules, pass)))
      ensures stmts == old(Synced(stmts, loads) + if function_.value.inserted then [] else [function_.value.stmt])
      ensures Valid() && IsSynced()
    {
      var newStmts, loadsLeft, newFunction, rulesLeft := SyncWithMacro(stmts, function_.value, loads, rules, pass);
      stmts, loads, rules, function_ := newStmts, loadsLeft, rulesLeft, Some(newFunction);
      SplitDifferent(loads, rules);
      CleanIsConsistent(stmts, loads);
      CleanIsConsistent(newFunction.body, rules);
    }
  }

  /** Loads in one list, rules in another, and the macro added to the first if it is
      not there yet. */
  method SyncWithMacro(stmts: seq<Expr>, f: Function, loads: seq<Stmt>, rules: seq<Stmt>, pass: Expr)
    returns (newStmt: seq<Expr>, loadsLeft: seq<Stmt>, r: Function, rulesLeft: seq<Stmt>)
    requires DifferentExprs(loads + rules) && Consistent(stmts, loads) && Consistent(f.body, rules)
    requires f.hasPass ==> |f.body| == 1 && forall h | h in rules :: h.inserted
    requires !f.inserted ==> f.stmt !in stmts && forall h | h in loads :: h.expr != f.stmt
    modifies loads`inserted, loads`index, rules`inserted, rules`index
    ensures newStmt == old(Synced(stmts, loads)) + (if f.inserted then [] else [f.stmt])
    ensures loadsLeft == old(Surviving(loads)) && rulesLeft == old(Surviving(rules))
    ensures r == old(NewFunction(f, rules, pass)) && r.body != [] && (r.hasPass ==> |r.body| == 1 && rulesLeft == [])
    ensures DifferentExprs(loadsLeft + rulesLeft) && NoDuplicates(newStmt) && NoDuplicates(r.body)
    ensures Clean(newStmt, loadsLeft) && Clean(r.body, rulesLeft)
  {
    if !f.inserted { NewToList(stmts, loads, f.stmt); }
    newStmt, loadsLeft, r, rulesLeft := SyncApart(stmts, f, loads, rules, pass);
    if !f.inserted {
      CleanGrows(newStmt, f.stmt, loadsLeft);
      newStmt := newStmt + [f.stmt];
    }
  }

  /** Loads in one list, rules in another. */
  method SyncApart(stmts: seq<Expr>, f: Function, loads: seq<Stmt>, rules: seq<Stmt>, pass: Expr)
    returns (newStmt: seq<Expr>, loadsLeft: seq<Stmt>, r: Function, rulesLeft: seq<Stmt>)
    requires DifferentExprs(loads + rules) && Consistent(stmts, loads) && Consistent(f.body, rules)
    requires f.hasPass ==> |f.body| == 1 && forall h | h in rules :: h.inserted
    modifies loads`inserted, loads`index, rules`inserted, rules`index
    ensures newStmt == old(Synced(stmts, loads)) && loadsLeft == old(Surviving(loads))
    ensures r == old(NewFunction(f, rules, pass)) && rulesLeft == old(Surviving(rules))
    ensures DifferentExprs(loadsLeft + rulesLeft) && NoDuplicates(newStmt) && NoDuplicates(r.body) && r.body != []
    ensures Clean(newStmt, loadsLeft) && Clean(r.body, rulesLeft)
    ensures r.hasPass ==> |r.body| == 1 && rulesLeft == []
  {
    SurvivorsDifferent(loads, rules);
    ApartInMemory(loads, rules);
    newStmt, loadsLeft := SyncOne(stmts, loads);
    assert forall k | 0 <= k < |rules| :: unchanged(rules[k]);
    label mid:
    r, rulesLeft := SyncBody(f, rules, pass);
    assert forall k | 0 <= k < |loads| :: unchanged@mid(loads[k]);
  }

  /** What becomes of a macro: `pass` gives way to the first rules, and stands in for
      a body without statements. */
  ghost function NewFunction(f: Function, rules: seq<Stmt>, pass: Expr): Function
    reads rules
  {
    var dropPass := f.hasPass && Inserted(rules) != [];
    var body := Synced(if dropPass then [] else f.body, rules);
    Function(f.stmt, if body == [] then [pass] else body, true, body == [] || (f.hasPass && !dropPass))
  }

  method SyncBody(f: Function, rules: seq<Stmt>, pass: Expr) returns (r: Function, left: seq<Stmt>)
    requires Consistent(f.body, rules)
    requires f.hasPass ==> |f.body| == 1 && forall h | h in rules :: h.inserted
    modifies rules`inserted, rules`index
    ensures r == old(NewFunction(f, rules, pass)) && left == old(Surviving(rules))
    ensures DifferentExprs(left) && Clean(r.body, left) && NoDuplicates(r.body) && r.body != []
    ensures r.hasPass ==> |r.body| == 1 && left == []
  {
    var inserts, deletes, kept;
    inserts, deletes, kept, left := TakeApart(rules);
    if f.hasPass { OnlyPass(f, rules); }
    r := f;
    if r.hasPass && |inserts| > 0 {
      r := r.(body := [], hasPass := false);
    }
    var body := SyncList(r.body, rules, inserts, deletes, kept);
    r := r.(body := body, inserted := true);
    if |r.body| == 0 {
      NoneClean(left);
      r := r.(body := [pass], hasPass := true);
    }
  }

  lemma NoneClean(hs: seq<Stmt>)
    ensures hs != [] ==> !Clean([], hs)
  {
    if hs != [] {
      assert hs[0] in hs;
    }
  }

  /** A body that is only `pass` stays so if no rule is inserted. */
  lemma OnlyPass(f: Function, rules: seq<Stmt>)
    requires Consistent(f.body, rules) && f.hasPass && forall h | h in rules :: h.inserted
    ensures Inserted(rules) == [] ==> Surviving(rules) == [] && Synced(f.body, rules) == f.body
    ensures Consistent([], rules)
  {
    var gone := Deleted(rules);
    if gone != [] {
      MarkMembers(rules, gone[0]);
    }
    if Inserted(rules) == [] && Surviving(rules) != [] {
      MarkMembers(rules, Surviving(rules)[0]);
    }
    assert Indices([]) == {};
    if Inserted(rules) == [] {
      assert Insertions([]) == [];
      NoMarksNoChange(f.body);
    }
  }

  lemma SurvivorsDifferent(a: seq<Stmt>, b: seq<Stmt>)
    requires DifferentExprs(a + b)
    ensures DifferentExprs(Surviving(a) + Surviving(b))
  {
    MarksOfConcat(a, b);
    PickDifferent(a + b, Marks(a + b), {New, Stays});
  }

  /** Handles in different lists are different handles. */
  lemma ApartInMemory(a: seq<Stmt>, b: seq<Stmt>)
    requires DifferentExprs(a + b)
    ensures forall i, j | 0 <= i < |a| && 0 <= j < |b| :: a[i] != b[j]
  {
    forall i, j | 0 <= i < |a| && 0 <= j < |b| ensures a[i] != b[j] {
      assert (a + b)[i] == a[i] && (a + b)[|a| + j] == b[j];
    }
  }

  /** Synchronisation does not bring in a statement that has no handle. */
  lemma NewToList(stmts: seq<Expr>, hs: seq<Stmt>, x: Expr)
    requires Consistent(stmts, hs) && x !in stmts && forall h | h in hs :: h.expr != x
    ensures x !in Synced(stmts, hs)
  {
    var ins := Insertions(Inserted(hs));
    EditMember(stmts, ins, Indices(Deleted(hs)), x);
    forall k | 0 <= k < |ins| ensures ins[k].expr != x {
      assert Inserted(hs)[k] in hs;
    }
  }

  // ------------------------------------------ what synchronising comes to, by handles

  /** A statement is in the list afterwards exactly if it is that of a handle to insert, or
      was in it and is not that of a handle to delete. */
  lemma SyncedMember(stmts: seq<Expr>, hs: seq<Stmt>, x: Expr)
    requires Consistent(stmts, hs)
    ensures x in Synced(stmts, hs) <==>
            || (exists h | h in hs :: h.inserted && !h.deleted && h.expr == x)
            || (x in stmts && !exists h | h in hs :: h.deleted && h.expr == x)
  {
    var ins, del := Inserted(hs), Indices(Deleted(hs));
    EditMember(stmts, Insertions(ins), del, x);
    forall h ensures h in ins <==> h in hs && !h.deleted && h.inserted { MarkMembers(hs, h); }
    forall h ensures h in Deleted(hs) <==> h in hs && h.deleted { MarkMembers(hs, h); }
    forall k | 0 <= k < |ins| && ins[k].expr == x ensures ins[k] in hs && ins[k].inserted && !ins[k].deleted {
      assert ins[k] in ins;
    }
    forall h | h in hs && h.inserted && !h.deleted
      ensures exists k :: 0 <= k < |ins| && Insertions(ins)[k].expr == h.expr
    {
      assert h in ins;
      var k :| 0 <= k < |ins| && ins[k] == h;
      assert Insertions(ins)[k].expr == h.expr;
    }
    forall j | 0 <= j < |stmts| ensures j in del <==> exists h | h in hs :: h.deleted && h.expr == stmts[j] {
      DeletedAt(stmts, hs, j);
    }
  }

  lemma DeletedAt(stmts: seq<Expr>, hs: seq<Stmt>, j: nat)
    requires Consistent(stmts, hs) && j < |stmts|
    ensures j in Indices(Deleted(hs)) <==> exists h | h in hs :: h.deleted && h.expr == stmts[j]
  {
    forall h ensures h in Deleted(hs) <==> h in hs && h.deleted { MarkMembers(hs, h); }
    if h :| h in hs && h.deleted && h.expr == stmts[j] {
      assert Fits(stmts, h) && stmts[h.index] == stmts[j];
    }
    if j in Indices(Deleted(hs)) {
      var h :| h in Deleted(hs) && h.index == j;
      assert Fits(stmts, h);
    }
  }

  lemma {:induction false} PickOrder(hs: seq<Stmt>, marks: seq<Mark>, which: set<Mark>, a: nat, b: nat)
    requires |hs| == |marks| && a < b < |hs| && marks[a] in which && marks[b] in which
    ensures exists i, j :: 0 <= i < j < |Pick(hs, marks, which)|
              && Pick(hs, marks, which)[i] == hs[a] && Pick(hs, marks, which)[j] == hs[b]
  {
    var n := |hs| - 1;
    var init := Pick(hs[..n], marks[..n], which);
    if b < n {
      PickOrder(hs[..n], marks[..n], which, a, b);
      var i, j :| 0 <= i < j < |init| && init[i] == hs[..n][a] && init[j] == hs[..n][b];
      assert Pick(hs, marks, which)[i] == hs[a] && Pick(hs, marks, which)[j] == hs[b];
    } else {
      PickMember(hs[..n], marks[..n], which, hs[a]);
      assert hs[..n][a] == hs[a] && marks[..n][a] in which;
      var i :| 0 <= i < |init| && init[i] == hs[a];
      assert Pick(hs, marks, which)[i] == hs[a] && Pick(hs, marks, which)[|init|] == hs[b];
    }
  }

  /** Statements to insert come by their index, and at one index in the order of their
      handles, so those of loads before those of rules. */
  lemma SyncedOrder(stmts: seq<Expr>, hs: seq<Stmt>, a: nat, b: nat)
    requires Consistent(stmts, hs) && a < b < |hs|
    requires hs[a].inserted && hs[b].inserted && hs[a].index <= hs[b].index
    ensures Precedes(Synced(stmts, hs), hs[a].expr, hs[b].expr)
  {
    var ins := Inserted(hs);
    assert Fits(stmts, hs[a]) && Fits(stmts, hs[b]);
    PickOrder(hs, Marks(hs), {New}, a, b);
    var i, j :| 0 <= i < j < |ins| && ins[i] == hs[a] && ins[j] == hs[b];
    var at := Insertions(ins);
    assert at[i] == Insertion(hs[a].index, hs[a].expr) && at[j] == Insertion(hs[b].index, hs[b].expr);
    EditOrder(stmts, at, Indices(Deleted(hs)));
  }

  /** A load and a rule to insert at one place. */
  lemma LoadsBeforeRules(stmts: seq<Expr>, loads: seq<Stmt>, rules: seq<Stmt>, load: Stmt, rule: Stmt)
    requires Consistent(stmts, loads + rules) && load in loads && rule in rules
    requires load.inserted && rule.inserted && load.index <= rule.index
    ensures Precedes(Synced(stmts, loads + rules), load.expr, rule.expr)
  {
    var i :| 0 <= i < |loads| && loads[i] == load;
    var j :| 0 <= j < |rules| && rules[j] == rule;
    assert (loads + rules)[i] == load && (loads + rules)[|loads| + j] == rule;
    SyncedOrder(stmts, loads + rules, i, |loads| + j);
  }

  /** The body of a macro afterwards: the statements of the rules to insert, the old ones
      that are not deleted, except for a `pass` that has given way, and `pass` if there
      would be none. */
  lemma MacroBodyMember(f: Function, rules: seq<Stmt>, pass: Expr, x: Expr)
    requires Consistent(f.body, rules)
    requires f.hasPass ==> |f.body| == 1 && forall h | h in rules :: h.inserted
    ensures var added := exists h | h in rules :: h.inserted && !h.deleted && h.expr == x;
            var anyAdded := exists h | h in rules :: h.inserted && !h.deleted;
            var left := x in f.body && !exists h | h in rules :: h.deleted && h.expr == x;
            var anyLeft := exists y | y in f.body :: !exists h | h in rules :: h.deleted && h.expr == y;
            && (x in NewFunction(f, rules, pass).body <==>
                if anyAdded then added || (left && !f.hasPass)
                else if anyLeft then left else x == pass)
            && (NewFunction(f, rules, pass).hasPass <==> !anyAdded && (f.hasPass || !anyLeft))
            && NewFunction(f, rules, pass).inserted && NewFunction(f, rules, pass).stmt == f.stmt
  {
    if f.hasPass { OnlyPass(f, rules); }
    forall h ensures h in Inserted(rules) <==> h in rules && !h.deleted && h.inserted { MarkMembers(rules, h); }
    AnyInserted(rules);
    var body := if f.hasPass && Inserted(rules) != [] then [] else f.body;
    forall y ensures y in Synced(body, rules) <==>
                     || (exists h | h in rules :: h.inserted && !h.deleted && h.expr == y)
                     || (y in body && !exists h | h in rules :: h.deleted && h.expr == y)
    {
      SyncedMember(body, rules, y);
    }
    BodyIsEmpty(body, rules);
  }

  lemma AnyInserted(rules: seq<Stmt>)
    ensures Inserted(rules) != [] <==> exists h | h in rules :: h.inserted && !h.deleted
  {
    if Inserted(rules) != [] {
      MarkMembers(rules, Inserted(rules)[0]);
    }
    if h :| h in rules && h.inserted && !h.deleted {
      MarkMembers(rules, h);
    }
  }

  lemma BodyIsEmpty(body: seq<Expr>, rules: seq<Stmt>)
    requires Consistent(body, rules)
    ensures Synced(body, rules) == [] <==>
            && !(exists h | h in rules :: h.inserted && !h.deleted)
            && !exists y | y in body :: !exists h | h in rules :: h.deleted && h.expr == y
  {
    if Synced(body, rules) != [] {
      SyncedMember(body, rules, Synced(body, rules)[0]);
    }
    if h :| h in rules && h.inserted && !h.deleted {
      SyncedMember(body, rules, h.expr);
    }
    if y :| y in body && !exists h | h in rules :: h.deleted && h.expr == y {
      SyncedMember(body, rules, y);
    }
  }
}
