/** Steps of the cascade proof that speak about values only. */
module CascadeLemmas {
  import opened Wrappers
  import opened Ordering
  import opened CascadeModel
  import opened CascadeNative

  /** What every part of the walk keeps; a row an enclosing call had already marked
      dies only by a constraint. */
  ghost predicate Progress(schema: Schema, start: Rows, root: Key, rows: Rows, visited: set<Key>, rows': Rows, visited': set<Key>) {
    && WalkInv(schema, start, root, rows', visited')
    && Shrinks(rows, rows')
    && SoftRowsStay(schema, rows, rows')
    && visited <= visited'
    && (forall q :: q in visited && Live(rows, q) && !Live(rows', q) ==> TakenToo(schema, start, root, q))
  }

  /** Every row marked since `visited` is gone and its own children are dealt with. */
  ghost predicate Finished(schema: Schema, start: Rows, visited: set<Key>, rows': Rows, visited': set<Key>) {
    forall q :: q in visited' && q !in visited ==> !Live(rows', q) && Settled(schema, start, rows', visited', q)
  }

  lemma ProgressTransitive(schema: Schema, start: Rows, root: Key, r0: Rows, v0: set<Key>, r1: Rows, v1: set<Key>, r2: Rows, v2: set<Key>)
    requires Progress(schema, start, root, r0, v0, r1, v1)
    requires Progress(schema, start, root, r1, v1, r2, v2)
    ensures Progress(schema, start, root, r0, v0, r2, v2)
  {
    hide SoftRowsStay;
    ShrinksTransitive(r0, r1, r2);
    SoftRowsStayOn(schema, r0, r1, r2);
  }

  lemma FinishedTransitive(schema: Schema, start: Rows, v0: set<Key>, r1: Rows, v1: set<Key>, r2: Rows, v2: set<Key>)
    requires Finished(schema, start, v0, r1, v1)
    requires Finished(schema, start, v1, r2, v2)
    requires Shrinks(r1, r2) && v1 <= v2
    ensures Finished(schema, start, v0, r2, v2)
  {
    forall q | q in v2 && q !in v0 ensures !Live(r2, q) && Settled(schema, start, r2, v2, q) {
      if q in v1 {
        SettledStays(schema, start, r1, v1, r2, v2, q);
      }
    }
  }

  lemma ProgressReflexive(schema: Schema, start: Rows, root: Key, rows: Rows, visited: set<Key>)
    requires WalkInv(schema, start, root, rows, visited)
    ensures Progress(schema, start, root, rows, visited, rows, visited)
    ensures Finished(schema, start, visited, rows, visited)
  {
  }

  lemma NulledForMore(schema: Schema, start: Rows, S: set<Key>, G: set<Key>, T: set<Key>, H: set<Key>, k: Key, col: string)
    requires NulledFor(schema, start, S, G, k, col) && S <= T && G <= H
    ensures NulledFor(schema, start, T, H, k, col)
  {
  }

  lemma NullsStayJustified(schema: Schema, start: Rows, rows: Rows, S: set<Key>, T: set<Key>)
    requires NullsJustified(schema, start, rows, S) && S <= T
    ensures NullsJustified(schema, start, rows, T)
  {
    forall k, col | (Live(rows, k) && k in start && col in rows[k].fks && col in start[k].fks
      && rows[k].fks[col] != start[k].fks[col])
      ensures NulledFor(schema, start, T, Gone(start, rows), k, col)
    {
      NulledForMore(schema, start, S, Gone(start, rows), T, Gone(start, rows), k, col);
    }
  }

  // ---- one edge at a time ------------------------------------------------------

  ghost predicate EdgeSettled(start: Rows, rows: Rows, visited: set<Key>, e: Edge, p: Key) {
    if e.rel.onDelete == Cascade
    then forall c :: RefsVia(start, e, c, p) ==> c in visited || !Live(rows, c)
    else forall c :: !RefsVia(rows, e, c, p)
  }

  lemma EdgeSettledStays(start: Rows, rows: Rows, visited: set<Key>, rows': Rows, visited': set<Key>, e: Edge, p: Key)
    requires EdgeSettled(start, rows, visited, e, p)
    requires Shrinks(rows, rows') && visited <= visited'
    ensures EdgeSettled(start, rows', visited', e, p)
  {
    forall c | RefsVia(rows', e, c, p) ensures RefsVia(rows, e, c, p) {}
  }

  lemma AllEdgesSettled(schema: Schema, start: Rows, rows: Rows, visited: set<Key>, p: Key)
    requires forall e :: FrameworkEdge(schema, e, p.model) ==> EdgeSettled(start, rows, visited, e, p)
    ensures Settled(schema, start, rows, visited, p)
  {
    forall e, c | FrameworkEdge(schema, e, p.model)
      ensures if e.rel.onDelete == Cascade then RefsVia(start, e, c, p) ==> c in visited || !Live(rows, c) else !RefsVia(rows, e, c, p)
    {
      assert EdgeSettled(start, rows, visited, e, p);
    }
  }

  /** A row that is still there is found where it was at the start. */
  lemma StillThere(schema: Schema, start: Rows, root: Key, rows: Rows, visited: set<Key>, e: Edge, c: Key, p: Key)
    requires WalkInv(schema, start, root, rows, visited)
    requires CascadeEdge(schema, e, p.model) && RefsVia(start, e, c, p) && Live(rows, c)
    ensures RefsVia(rows, e, c, p)
  {
  }

  lemma RefsAtStart(schema: Schema, start: Rows, root: Key, rows: Rows, visited: set<Key>, k: Key, col: string, pid: string)
    requires WalkInv(schema, start, root, rows, visited) && Refs(rows, k, col, pid)
    ensures Refs(start, k, col, pid)
  {
  }

  lemma NothingMarked(schema: Schema, start: Rows, rows: Rows, visited: set<Key>)
    ensures Finished(schema, start, visited, rows, visited)
  {
  }

  lemma RefsShrink(before: Rows, after: Rows, k: Key, col: string, pid: string)
    requires Shrinks(before, after) && Refs(after, k, col, pid)
    ensures Refs(before, k, col, pid)
  {
  }

  /** Marking a child of a marked row stays inside every closed set. */
  lemma Mark(schema: Schema, start: Rows, root: Key, rows: Rows, visited: set<Key>, e: Edge, c: Key, p: Key)
    requires WalkInv(schema, start, root, rows, visited)
    requires CascadeEdge(schema, e, p.model) && RefsVia(start, e, c, p) && p in visited && c !in visited
    ensures WalkInv(schema, start, root, rows, visited + {c})
  {
    forall T | Closed(schema, start, root, T) ensures visited + {c} <= T { assert RefsVia(start, e, c, p); }
    forall k | Live(start, k) && !Live(rows, k) ensures Below(schema, start, visited + {c}, k) {
      BelowMore(schema, start, visited, visited + {c}, k);
    }
    NullsStayJustified(schema, start, rows, visited, visited + {c});
  }

  lemma BelowMore(schema: Schema, start: Rows, S: set<Key>, T: set<Key>, k: Key)
    requires Below(schema, start, S, k) && S <= T
    ensures Below(schema, start, T, k)
  {
  }

  // ---- keyset pages --------------------------------------------------------------

  /** The ids of a model a keyset walk still has in front of it. */
  ghost function AboveKeys(rows: Rows, model: string, last: string): set<Key> {
    set k | k in rows && k.model == model && k.id != "" && Above(k.id, last)
  }

  lemma NextPageBounds(start: Rows, page: Rows, model: string, last: string, next: string)
    requires Shrinks(start, page)
    requires next != "" && Above(next, last) && Live(page, Key(model, next))
    ensures AboveKeys(start, model, next) < AboveKeys(start, model, last)
  {
    LessIrreflexive(next);
    assert Key(model, next) in AboveKeys(start, model, last) && Key(model, next) !in AboveKeys(start, model, next);
    forall k | k in AboveKeys(start, model, next) ensures k in AboveKeys(start, model, last) {
      if last != "" { LessTransitive(last, next, k.id); }
    }
  }

  /** What one page read of the child ids past `last` answers. */
  ghost predicate IDPage(rows: Rows, child: string, col: string, pid: string, last: string, ids: seq<string>) {
    && Ascending(ids)
    && (forall x :: x in ids ==> x != "" && Refs(rows, Key(child, x), col, pid) && Above(x, last))
    && (forall x :: x != "" && Refs(rows, Key(child, x), col, pid) && Above(x, last) ==>
          x in ids || (ids != [] && Less(ids[|ids| - 1], x)))
  }

  /** After a page has been handed on, whatever was in front of it and is not in
      it lies past its last id. */
  lemma PageCovers(rows: Rows, e: Edge, p: Key, last: string, ids: seq<string>)
    requires IDPage(rows, e.child.name, e.rel.fkColumn, p.id, last, ids)
    ensures forall c :: RefsVia(rows, e, c, p) && Above(c.id, last) ==>
              c.id in ids || (ids != [] && Above(c.id, ids[|ids| - 1]))
  {
    forall c | RefsVia(rows, e, c, p) && Above(c.id, last)
      ensures c.id in ids || (ids != [] && Above(c.id, ids[|ids| - 1]))
    {
      assert c == Key(e.child.name, c.id);
    }
  }

  function Applied(fn: (Rows, string) -> Rows, rows: Rows, ids: seq<string>): Rows {
    if ids == [] then rows else fn(Applied(fn, rows, ids[..|ids| - 1]), ids[|ids| - 1])
  }

  ghost predicate MatchedAtSomePage(pages: seq<Rows>, child: string, col: string, pid: string, x: string) {
    exists i :: 0 <= i < |pages| && Refs(pages[i], Key(child, x), col, pid)
  }

  ghost predicate MissedAtSomePage(pages: seq<Rows>, child: string, col: string, pid: string, x: string) {
    exists i :: 0 <= i < |pages| && !Refs(pages[i], Key(child, x), col, pid)
  }

  lemma DeadStaysDead(before: Rows, after: Rows, k: Key)
    requires Shrinks(before, after) && !Live(before, k)
    ensures !Live(after, k)
  {
  }

  lemma NothingApplied(fn: (Rows, string) -> Rows, rows: Rows)
    ensures Applied(fn, rows, []) == rows && Shrinks(rows, rows)
  {
  }

  lemma ApplyOne(fn: (Rows, string) -> Rows, rows: Rows, ids: seq<string>, x: string)
    ensures Applied(fn, rows, ids + [x]) == fn(Applied(fn, rows, ids), x)
  {
    assert (ids + [x])[..|ids|] == ids;
  }

  lemma {:induction false} ApplyMore(fn: (Rows, string) -> Rows, rows: Rows, xs: seq<string>, ys: seq<string>)
    ensures Applied(fn, rows, xs + ys) == Applied(fn, Applied(fn, rows, xs), ys)
    decreases |ys|
  {
    if ys == [] {
      assert xs + ys == xs;
    } else {
      var init, last := ys[..|ys| - 1], ys[|ys| - 1];
      assert ys == init + [last] && xs + ys == (xs + init) + [last];
      ApplyMore(fn, rows, xs, init);
      ApplyOne(fn, rows, xs + init, last);
    }
  }

  lemma MissedStaysMissed(pages: seq<Rows>, rows: Rows, child: string, col: string, pid: string)
    requires forall i :: 0 <= i < |pages| ==> Shrinks(pages[i], rows)
    ensures forall x :: MissedAtSomePage(pages, child, col, pid, x) ==> !Refs(rows, Key(child, x), col, pid)
  {
    forall x | Refs(rows, Key(child, x), col, pid) ensures !MissedAtSomePage(pages, child, col, pid, x) {
      forall i | 0 <= i < |pages| ensures Refs(pages[i], Key(child, x), col, pid) {
        RefsShrink(pages[i], rows, Key(child, x), col, pid);
      }
    }
  }

  lemma PageAdvances(start: Rows, page: Rows, child: string, col: string, pid: string, last: string, ids: seq<string>)
    requires Shrinks(start, page) && IDPage(page, child, col, pid, last, ids) && ids != []
    ensures Ascending(ids) && ids[|ids| - 1] != ""
    ensures forall x :: x in ids ==> Above(x, last)
    ensures AboveKeys(start, child, ids[|ids| - 1]) < AboveKeys(start, child, last)
  {
    assert ids[|ids| - 1] in ids;
    NextPageBounds(start, page, child, last, ids[|ids| - 1]);
  }

  lemma PageAdded(pages: seq<Rows>, page: Rows, child: string, col: string, pid: string)
    ensures forall x :: MatchedAtSomePage(pages, child, col, pid, x) ==> MatchedAtSomePage(pages + [page], child, col, pid, x)
    ensures forall x :: MissedAtSomePage(pages, child, col, pid, x) ==> MissedAtSomePage(pages + [page], child, col, pid, x)
  {
    var more := pages + [page];
    assert forall i :: 0 <= i < |pages| ==> more[i] == pages[i];
  }

  /** Whatever lay in front of a page is in it, past it, or did not match it. */
  lemma PageExhausts(page: Rows, child: string, col: string, pid: string, last: string, ids: seq<string>, pages: seq<Rows>)
    requires IDPage(page, child, col, pid, last, ids)
    requires pages != [] && pages[|pages| - 1] == page
    ensures forall x :: x in ids ==> MatchedAtSomePage(pages, child, col, pid, x)
    ensures forall x :: x != "" && Above(x, last) ==>
              x in ids || MissedAtSomePage(pages, child, col, pid, x) || (ids != [] && Above(x, ids[|ids| - 1]))
    ensures forall x :: x != "" && Above(x, last) && Refs(page, Key(child, x), col, pid) ==>
              x in ids || (ids != [] && Above(x, ids[|ids| - 1]))
  {
  }

  lemma AppendPage(handed: seq<string>, last: string, ids: seq<string>)
    requires Ascending(handed) && Ascending(ids)
    requires handed != [] ==> last == handed[|handed| - 1] && last != ""
    requires forall x :: x in ids ==> Above(x, last)
    ensures Ascending(handed + ids)
  {
    var all := handed + ids;
    forall i, j | 0 <= i < j < |all| ensures Less(all[i], all[j]) {
      if i < |handed| && j >= |handed| {
        assert ids[j - |handed|] in ids;
        if i < |handed| - 1 { LessTransitive(handed[i], last, all[j]); }
      }
    }
  }

  // ---- single writes ---------------------------------------------------------

  /** A soft delete keeps the row, invisible. */
  function Killed(rows: Rows, k: Key): Rows
    requires k in rows
  {
    rows[k := rows[k].(live := false)]
  }

  function Nulled(rows: Rows, k: Key, col: string): Rows
    requires k in rows
  {
    rows[k := rows[k].(fks := rows[k].fks[col := None])]
  }

  lemma KilledKeeps(schema: Schema, start: Rows, root: Key, rows: Rows, visited: set<Key>, k: Key)
    requires WalkInv(schema, start, root, rows, visited)
    requires Live(rows, k) && k in visited && schema.SoftDeletes(k.model)
    ensures WalkInv(schema, start, root, Killed(rows, k), visited)
    ensures Shrinks(rows, Killed(rows, k)) && !Live(Killed(rows, k), k)
  {
    var rows' := Killed(rows, k);
    assert forall l :: Live(rows', l) <==> l != k && Live(rows, l);
    assert forall l :: Live(rows', l) ==> rows'[l] == rows[l];
    ShrinksTransitive(start, rows, rows');
    SurvivorsAsBefore(schema, start, root, rows, visited, rows', visited);
    forall e, c, q | Live(start, q) && !Live(rows', q) && NativeEdge(schema, e, q.model) ensures !Names(rows', e, c, q) {
      assert Names(rows', e, c, q) ==> Names(rows, e, c, q);
    }
  }

  /** Rows that stay as they are keep what the invariant says of them. */
  lemma SurvivorsAsBefore(schema: Schema, start: Rows, root: Key, rows: Rows, visited: set<Key>, rows': Rows, visited': set<Key>)
    requires WalkInv(schema, start, root, rows, visited) && Shrinks(rows, rows') && visited <= visited'
    requires forall l :: Live(rows', l) ==> rows'[l].fks == rows[l].fks
    ensures KeepsCascade(schema, start, rows') && NullsJustified(schema, start, rows', visited')
  {
    forall e: Edge, c: Key, p: Key | CascadeEdge(schema, e, p.model) && RefsVia(start, e, c, p) && Live(rows', c)
      ensures RefsVia(rows', e, c, p)
    {
      assert Live(rows, c) && RefsVia(rows, e, c, p);
    }
    forall e: Edge, c: Key, p: Key | NativeCascade(schema, e, p.model) && Names(start, e, c, p) && Live(rows', c)
      ensures Names(rows', e, c, p)
    {
      assert Live(rows, c) && Names(rows, e, c, p);
    }
    forall k, col | (Live(rows', k) && k in start && col in rows'[k].fks && col in start[k].fks
                     && rows'[k].fks[col] != start[k].fks[col])
      ensures NulledFor(schema, start, visited', Gone(start, rows'), k, col)
    {
      assert Live(rows, k);
      NulledForMore(schema, start, visited, Gone(start, rows), visited', Gone(start, rows'), k, col);
    }
  }

  lemma NulledLive(rows: Rows, k: Key, col: string)
    requires k in rows
    ensures forall l :: Live(Nulled(rows, k, col), l) <==> Live(rows, l)
  {
  }

  lemma NulledSpares(schema: Schema, rows: Rows, k: Key, col: string)
    requires k in rows
    ensures SpareRollupChildren(schema, rows, Nulled(rows, k, col), k) && TotalsUntouched(rows, Nulled(rows, k, col))
  {
  }

  /** Nulling a set-null column leaves every cascade column as it was, because a
      column belongs to one relation. */
  lemma NulledKeeps(schema: Schema, start: Rows, root: Key, rows: Rows, visited: set<Key>, e: Edge, k: Key, p: Key)
    requires schema.WellFormed()
    requires WalkInv(schema, start, root, rows, visited)
    requires e.rel.onDelete == SetNull
    requires p in visited && FrameworkEdge(schema, e, p.model) && RefsVia(rows, e, k, p)
    ensures WalkInv(schema, start, root, Nulled(rows, k, e.rel.fkColumn), visited)
    ensures Shrinks(rows, Nulled(rows, k, e.rel.fkColumn))
  {
    hide Closed, Below, KeepsCascade, NativeEdge, FrameworkEdge, NullsJustified, Integrity, Schema.WellFormed;
    var rows' := Nulled(rows, k, e.rel.fkColumn);
    assert forall l :: Live(rows', l) <==> Live(rows, l);
    ShrinksTransitive(start, rows, rows');
    NullingKeepsCascade(schema, start, root, rows, visited, e, k, p);
    NullingIsJustified(schema, start, root, rows, visited, e, k, p);
    NullingKeepsIntegrity(schema, start, rows, k, e.rel.fkColumn);
  }

  lemma NullingIsJustified(schema: Schema, start: Rows, root: Key, rows: Rows, visited: set<Key>, e: Edge, k: Key, p: Key)
    requires WalkInv(schema, start, root, rows, visited)
    requires e.rel.onDelete == SetNull && p in visited && FrameworkEdge(schema, e, p.model) && RefsVia(rows, e, k, p)
    ensures NullsJustified(schema, start, Nulled(rows, k, e.rel.fkColumn), visited)
  {
    hide Closed, Below, KeepsCascade, Integrity, FrameworkEdge;
    var col := e.rel.fkColumn;
    var rows' := Nulled(rows, k, col);
    assert Gone(start, rows') == Gone(start, rows);
    forall l, d | (Live(rows', l) && l in start && d in rows'[l].fks && d in start[l].fks && rows'[l].fks[d] != start[l].fks[d])
      ensures NulledFor(schema, start, visited, Gone(start, rows'), l, d)
    {
      if l == k && d == col { assert RefsVia(start, e, k, p); }
    }
  }

  lemma NullingKeepsIntegrity(schema: Schema, start: Rows, rows: Rows, k: Key, col: string)
    requires k in rows && Integrity(schema, start, rows)
    ensures Integrity(schema, start, Nulled(rows, k, col))
  {
    hide NativeEdge;
    var rows' := Nulled(rows, k, col);
    forall f, c, q | Live(start, q) && !Live(rows', q) && NativeEdge(schema, f, q.model) ensures !Names(rows', f, c, q) {
      assert Names(rows', f, c, q) ==> Names(rows, f, c, q);
    }
  }

  lemma NullingKeepsCascade(schema: Schema, start: Rows, root: Key, rows: Rows, visited: set<Key>, e: Edge, k: Key, p: Key)
    requires schema.WellFormed()
    requires WalkInv(schema, start, root, rows, visited)
    requires e.rel.onDelete == SetNull && FrameworkEdge(schema, e, p.model) && RefsVia(rows, e, k, p)
    ensures KeepsCascade(schema, start, Nulled(rows, k, e.rel.fkColumn))
  {
    var col := e.rel.fkColumn;
    var rows' := Nulled(rows, k, col);
    forall f: Edge, c: Key, q: Key | CascadeEdge(schema, f, q.model) && RefsVia(start, f, c, q) && Live(rows', c)
      ensures RefsVia(rows', f, c, q)
    {
      assert RefsVia(rows, f, c, q);
      assert c == k ==> f.child == e.child && f.rel.fkColumn != col;
    }
    forall f: Edge, c: Key, q: Key | NativeCascade(schema, f, q.model) && Names(start, f, c, q) && Live(rows', c)
      ensures Names(rows', f, c, q)
    {
      assert Names(rows, f, c, q);
      assert c == k ==> f.child == e.child && f.rel.fkColumn != col;
    }
  }

  // ---- a DELETE with its constraints ------------------------------------------

  lemma HardDeletedLive(schema: Schema, rows: Rows, k: Key)
    ensures var N := NativeTaken(schema, rows, {k});
            && k in N
            && (forall l :: Live(HardDeleted(schema, rows, k), l) <==> Live(rows, l) && l !in N)
            && (forall l :: Live(HardDeleted(schema, rows, k), l) ==>
                  HardDeleted(schema, rows, k)[l] == WithoutReferences(schema, l, rows[l], N))
    ensures Shrinks(rows, HardDeleted(schema, rows, k))
  {
    hide NullsColumn, NativeTaken;
    TakenLeast(schema, rows, {k});
  }

  /** A constraint nulls no column of a relation that cascades. */
  lemma CascadeColumnsKept(schema: Schema, e: Edge, parent: string, model: string, v: Option<string>, N: set<Key>)
    requires schema.WellFormed()
    requires e.child in schema.models && e.rel in e.child.relations && e.rel.kind == BelongsTo && e.child.name == model
    requires NativeAction(e) == Cascade
    ensures !NullsColumn(schema, model, e.rel.fkColumn, v, N)
  {
  }

  lemma HardDeletedKeepsCascade(schema: Schema, start: Rows, root: Key, rows: Rows, visited: set<Key>, k: Key)
    requires schema.WellFormed() && WalkInv(schema, start, root, rows, visited)
    ensures KeepsCascade(schema, start, HardDeleted(schema, rows, k))
  {
    hide NullsColumn, NativeTaken;
    var rows' := HardDeleted(schema, rows, k);
    var N := NativeTaken(schema, rows, {k});
    HardDeletedLive(schema, rows, k);
    forall f: Edge, c: Key, q: Key | CascadeEdge(schema, f, q.model) && RefsVia(start, f, c, q) && Live(rows', c)
      ensures RefsVia(rows', f, c, q)
    {
      assert RefsVia(rows, f, c, q);
      CascadeColumnsKept(schema, f, q.model, c.model, rows[c].fks[f.rel.fkColumn], N);
    }
    forall f: Edge, c: Key, q: Key | NativeCascade(schema, f, q.model) && Names(start, f, c, q) && Live(rows', c)
      ensures Names(rows', f, c, q)
    {
      assert Names(rows, f, c, q);
      CascadeColumnsKept(schema, f, q.model, c.model, rows[c].fks[f.rel.fkColumn], N);
    }
  }

  lemma HardDeletedNulls(schema: Schema, start: Rows, root: Key, rows: Rows, visited: set<Key>, k: Key)
    requires schema.WellFormed() && WalkInv(schema, start, root, rows, visited) && Live(rows, k)
    ensures NullsJustified(schema, start, HardDeleted(schema, rows, k), visited)
  {
    hide NullsColumn, NativeTaken;
    var rows' := HardDeleted(schema, rows, k);
    var N := NativeTaken(schema, rows, {k});
    HardDeletedLive(schema, rows, k);
    TakenAreLive(schema, rows, k);
    forall l, d | (Live(rows', l) && l in start && d in rows'[l].fks && d in start[l].fks && rows'[l].fks[d] != start[l].fks[d])
      ensures NulledFor(schema, start, visited, Gone(start, rows'), l, d)
    {
      if rows[l].fks[d] != start[l].fks[d] {
        NulledForMore(schema, start, visited, Gone(start, rows), visited, Gone(start, rows'), l, d);
      } else {
        NulledByConstraint(schema, start, rows, l, d, N, Gone(start, rows'));
        NulledForMore(schema, start, {}, Gone(start, rows'), visited, Gone(start, rows'), l, d);
      }
    }
  }

  lemma TakenAreLive(schema: Schema, rows: Rows, k: Key)
    requires Live(rows, k)
    ensures forall q :: q in NativeTaken(schema, rows, {k}) ==> Live(rows, q)
  {
    hide NativeTaken;
    TakenLeast(schema, rows, {k});
  }

  lemma NulledByConstraint(schema: Schema, start: Rows, rows: Rows, l: Key, d: string, N: set<Key>, G: set<Key>)
    requires Shrinks(start, rows) && Live(rows, l) && d in rows[l].fks && NullsColumn(schema, l.model, d, rows[l].fks[d], N)
    requires N <= G
    ensures NulledFor(schema, start, {}, G, l, d)
  {
    var m :| m in schema.models && m.name == l.model && ColumnIntoRemoved(schema, m, d, rows[l].fks[d].value, N);
    var r :| r in m.relations && r.fkColumn == d && NativeEdge(schema, Edge(m, r), r.relatedModel)
             && NativeAction(Edge(m, r)) == SetNull && Key(r.relatedModel, rows[l].fks[d].value) in N;
    assert Names(start, Edge(m, r), l, Key(r.relatedModel, rows[l].fks[d].value));
  }

  lemma HardDeletedBelow(schema: Schema, start: Rows, root: Key, rows: Rows, visited: set<Key>, k: Key, l: Key)
    requires WalkInv(schema, start, root, rows, visited) && k in visited && l in NativeTaken(schema, rows, {k})
    ensures Below(schema, start, visited, l)
  {
    hide NativeTaken;
    TakenLeast(schema, rows, {k});
    forall M | visited <= M && NativelyClosed(schema, start, M) ensures l in M {
      forall e, p, c | p in M && NativeCascade(schema, e, p.model) && Names(rows, e, c, p) ensures c in M {
        NamesShrink(start, rows, e, c, p);
      }
      assert NativelyClosed(schema, rows, M);
    }
  }

  lemma NamesShrink(before: Rows, after: Rows, e: Edge, c: Key, p: Key)
    requires Shrinks(before, after) && Names(after, e, c, p)
    ensures Names(before, e, c, p)
  {
  }

  lemma HardDeletedIntegrity(schema: Schema, start: Rows, root: Key, rows: Rows, visited: set<Key>, k: Key, e: Edge, c: Key, q: Key)
    requires schema.WellFormed() && WalkInv(schema, start, root, rows, visited)
    requires !NativelyRestricted(schema, rows, NativeTaken(schema, rows, {k}))
    requires Live(start, q) && !Live(HardDeleted(schema, rows, k), q) && NativeEdge(schema, e, q.model)
    ensures !Names(HardDeleted(schema, rows, k), e, c, q)
  {
    hide NativeTaken, NullsColumn, NativelyOnto;
    var rows' := HardDeleted(schema, rows, k);
    var N := NativeTaken(schema, rows, {k});
    HardDeletedLive(schema, rows, k);
    TakenLeast(schema, rows, {k});
    if Names(rows', e, c, q) {
      NamesShrink(rows, rows', e, c, q);
      assert q in N;
      OntoByEdge(schema, rows, c, Restrict, N);
      assert c !in N && rows'[c] == WithoutReferences(schema, c, rows[c], N);
      if NativeAction(e) == SetNull { ColumnNulled(schema, rows, e, c, q, N); }
      assert false;
    }
  }

  lemma ColumnNulled(schema: Schema, rows: Rows, e: Edge, c: Key, q: Key, N: set<Key>)
    requires Names(rows, e, c, q) && NativeEdge(schema, e, q.model) && NativeAction(e) == SetNull && q in N
    ensures NullsColumn(schema, c.model, e.rel.fkColumn, rows[c].fks[e.rel.fkColumn], N)
  {
    assert e == Edge(e.child, e.rel) && q == Key(e.rel.relatedModel, q.id);
    assert ColumnIntoRemoved(schema, e.child, e.rel.fkColumn, q.id, N);
  }

  /** A DELETE the constraints let through keeps the invariant: whatever goes with
      the row goes by a constraint, and no constraint is left broken. */
  lemma HardDeletedKeeps(schema: Schema, start: Rows, root: Key, rows: Rows, visited: set<Key>, k: Key)
    requires schema.WellFormed() && WalkInv(schema, start, root, rows, visited)
    requires Live(rows, k) && k in visited
    requires !NativelyRestricted(schema, rows, NativeTaken(schema, rows, {k}))
    ensures WalkInv(schema, start, root, HardDeleted(schema, rows, k), visited)
    ensures Shrinks(rows, HardDeleted(schema, rows, k)) && !Live(HardDeleted(schema, rows, k), k)
  {
    hide NativeTaken, HardDeleted, KeepsCascade, NullsJustified, NativelyRestricted, Below, NativeEdge;
    var rows' := HardDeleted(schema, rows, k);
    HardDeletedLive(schema, rows, k);
    HardDeletedSoft(schema, rows, k);
    ShrinksTransitive(start, rows, rows');
    HardDeletedKeepsCascade(schema, start, root, rows, visited, k);
    HardDeletedNulls(schema, start, root, rows, visited, k);
    forall l | Live(start, l) && !Live(rows', l) ensures Below(schema, start, visited, l) {
      if Live(rows, l) { HardDeletedBelow(schema, start, root, rows, visited, k, l); }
    }
    forall e, c, q | Live(start, q) && !Live(rows', q) && NativeEdge(schema, e, q.model) ensures !Names(rows', e, c, q) {
      HardDeletedIntegrity(schema, start, root, rows, visited, k, e, c, q);
    }
  }

  /** What a DELETE takes along is taken from a row the walk has visited. */
  lemma HardDeletedTakes(schema: Schema, start: Rows, root: Key, rows: Rows, visited: set<Key>, k: Key, l: Key)
    requires WalkInv(schema, start, root, rows, visited) && k in visited
    requires l != k && l in NativeTaken(schema, rows, {k})
    ensures TakenToo(schema, start, root, l)
  {
    hide NativeTaken, Below, Closed, KeepsCascade, NullsJustified, Integrity, Shrinks;
    TakenShrinks(schema, start, rows, {k});
    assert Reached(schema, start, root, k);
  }

  /** A row that died unmarked was taken. */
  lemma BelowTaken(schema: Schema, start: Rows, root: Key, visited: set<Key>, q: Key)
    requires forall T :: Closed(schema, start, root, T) ==> visited <= T
    requires Below(schema, start, visited, q) && q !in visited
    ensures TakenToo(schema, start, root, q)
  {
    hide NativeTaken, Closed, NativelyClosed;
    TakenLeast(schema, start, visited);
    TakenFromOne(schema, start, visited, q);
    var r :| r in visited && q in NativeTaken(schema, start, {r});
    assert Reached(schema, start, root, r);
  }

  /** What a constraint takes from a row that is gone is gone too. */
  lemma GoneNativelyClosed(schema: Schema, start: Rows, root: Key, after: Rows, V: set<Key>)
    requires WalkInv(schema, start, root, after, V)
    ensures NativelyClosed(schema, start, Gone(start, after))
  {
    hide Closed, NullsJustified, NativeEdge, Below;
    forall e, p, c | p in Gone(start, after) && NativeCascade(schema, e, p.model) && Names(start, e, c, p) ensures c in Gone(start, after) {
      assert Live(after, c) ==> Names(after, e, c, p);
      assert !Names(after, e, c, p);
    }
  }

  /** Also seen from a moment in between. */
  lemma TakenIsGone(schema: Schema, start: Rows, root: Key, mid: Rows, after: Rows, V: set<Key>, a: Key, q: Key)
    requires WalkInv(schema, start, root, after, V) && Shrinks(start, mid)
    requires Live(mid, a) && !Live(after, a) && q in NativeTaken(schema, mid, {a})
    ensures !Live(after, q)
  {
    hide WalkInv, NativeTaken, NativelyClosed, Shrinks;
    GoneNativelyClosed(schema, start, root, after, V);
    TakenShrinks(schema, start, mid, {a});
    TakenLeast(schema, start, {a});
    StillLive(start, mid, a);
    assert a in Gone(start, after);
  }

  lemma HardDeletedSoft(schema: Schema, rows: Rows, k: Key)
    requires OnlySoftRowsDie(schema, rows)
    ensures OnlySoftRowsDie(schema, HardDeleted(schema, rows, k))
  {
    hide NativeTaken, NullsColumn;
  }

  /** No rollup is over rows the database removes or nulls by itself. */
  lemma ConstraintsSpareRollupChildren(schema: Schema, rows: Rows, k: Key, l: Key)
    requires schema.RollupChild(l.model) && l != k
    ensures var rows' := HardDeleted(schema, rows, k);
            (l in rows' <==> l in rows) && (l in rows ==> rows'[l] == rows[l])
  {
    hide NativeTaken, NullsColumn;
    TakenLeast(schema, rows, {k});
    var N := NativeTaken(schema, rows, {k});
    assert l !in N;
    if l in rows {
      forall col | col in rows[l].fks ensures !NullsColumn(schema, l.model, col, rows[l].fks[col], N) {
        RollupColumnsKept(schema, l.model, col, rows[l].fks[col], N);
      }
      assert WithoutReferences(schema, l, rows[l], N).fks == rows[l].fks;
    }
  }

  lemma RollupColumnsKept(schema: Schema, model: string, col: string, v: Option<string>, N: set<Key>)
    requires schema.RollupChild(model)
    ensures !NullsColumn(schema, model, col, v, N)
  {
  }

  // ---- bookkeeping -------------------------------------------------------------

  /** The pending columns after the rollups of row k's model have been told about
      a write whose pre-image was pre. */
  function Invalidate(pending: map<string, Pending>, rollups: seq<Rollup>, pre: Row): (r: map<string, Pending>)
    decreases |rollups|
  {
    if rollups == [] then pending
    else
      var before := Invalidate(pending, rollups[..|rollups| - 1], pre);
      InvalidateOne(before, rollups[|rollups| - 1], ForeignKeyID(pre, rollups[|rollups| - 1]))
  }

  /** One rollup's parent joins the pending columns unless it names no row. */
  function InvalidateOne(pending: map<string, Pending>, c: Rollup, id: string): map<string, Pending> {
    if id == "" then pending else pending[PendingKey(c, id) := Pending(c, id)]
  }

  lemma {:induction false} InvalidateAdds(schema: Schema, pending: map<string, Pending>, rollups: seq<Rollup>, pre: Row)
    requires schema.WellFormed()
    requires forall c :: c in rollups ==> c in schema.rollups
    requires forall k :: k in pending ==> FiledUnder(schema, k, pending[k])
    ensures var after := Invalidate(pending, rollups, pre);
            && (forall k :: k in after ==> FiledUnder(schema, k, after[k]))
            && after.Keys == pending.Keys + set c | c in rollups && ForeignKeyID(pre, c) != "" :: PendingKey(c, ForeignKeyID(pre, c))
    decreases |rollups|
  {
    hide FiledUnder, ForeignKeyID, PendingKey;
    if rollups != [] {
      var init, last := rollups[..|rollups| - 1], rollups[|rollups| - 1];
      assert rollups == init + [last];
      InvalidateAdds(schema, pending, init, pre);
      NamedSnoc(init, last, pre);
      if ForeignKeyID(pre, last) != "" { FiledHere(schema, last, ForeignKeyID(pre, last)); }
    }
  }

  lemma NamedSnoc(init: seq<Rollup>, last: Rollup, pre: Row)
    ensures (set c | c in init + [last] && ForeignKeyID(pre, c) != "" :: PendingKey(c, ForeignKeyID(pre, c)))
            == (set c | c in init && ForeignKeyID(pre, c) != "" :: PendingKey(c, ForeignKeyID(pre, c)))
               + if ForeignKeyID(pre, last) == "" then {} else {PendingKey(last, ForeignKeyID(pre, last))}
  {
    hide ForeignKeyID, PendingKey;
    assert forall c :: c in init + [last] <==> c in init || c == last;
  }

  lemma FiledHere(schema: Schema, c: Rollup, id: string)
    requires schema.WellFormed() && c in schema.rollups && id != ""
    ensures FiledUnder(schema, PendingKey(c, id), Pending(c, id))
  {
  }

  lemma BookkeptUnversioned(schema: Schema, log: seq<Event>, op: Op, k: Key, pre: Row)
    requires Bookkept(schema, log) && !schema.KeepsHistory(k.model)
    ensures Bookkept(schema, log + [Wrote(op, k, pre)])
  {
    var log' := log + [Wrote(op, k, pre)];
    assert log'[..|log'| - 1] == log;
  }

  lemma BookkeptVersioned(schema: Schema, log: seq<Event>, op: Op, k: Key, pre: Row, h: Event)
    requires Bookkept(schema, log) && schema.KeepsHistory(k.model)
    requires h == History(op, k) || h == HistoryFailed(op, k)
    ensures Bookkept(schema, log + [Wrote(op, k, pre)] + [h])
  {
    var log' := log + [Wrote(op, k, pre)] + [h];
    assert log'[..|log'| - 2] == log;
  }

  lemma InvalidatedSnoc(schema: Schema, log: seq<Event>, ev: Event)
    ensures Invalidated(schema, log + [ev]) == Invalidated(schema, log) + Invalidates(schema, ev)
  {
    assert (log + [ev])[..|log|] == log;
  }

  /** A write of row k left every other row a rollup reads as it was. */
  ghost predicate SpareRollupChildren(schema: Schema, rows: Rows, rows': Rows, k: Key) {
    forall l :: l != k && schema.RollupChild(l.model) ==> (l in rows' <==> l in rows) && (l in rows ==> rows'[l] == rows[l])
  }

  /** A write to one row disturbs only the aggregates its pre-image names. */
  lemma ChildrenUndisturbed(schema: Schema, rows: Rows, rows': Rows, k: Key, c: Rollup, pid: string)
    requires Live(rows, k)
    requires Shrinks(rows, rows') && c in schema.rollups
    requires SpareRollupChildren(schema, rows, rows', k)
    requires c.child == k.model ==> ForeignKeyID(rows[k], c) != pid
    requires pid != ""
    ensures Children(rows', c, pid) == Children(rows, c, pid)
  {
    var a, b := Children(rows, c, pid), Children(rows', c, pid);
    forall l ensures l in a <==> l in b {
      if l == k && k.model == c.child { assert !Refs(rows, k, c.on, pid); }
    }
    assert a.Keys == b.Keys;
  }

  /** The events of one child write: the statement and, for a versioned row, its
      history row. */
  ghost predicate WriteEvents(schema: Schema, op: Op, k: Key, pre: Row, evs: seq<Event>) {
    if schema.KeepsHistory(k.model)
    then evs == [Wrote(op, k, pre), History(op, k)] || evs == [Wrote(op, k, pre), HistoryFailed(op, k)]
    else evs == [Wrote(op, k, pre)]
  }

  lemma BookkeptAfterWrite(schema: Schema, log: seq<Event>, op: Op, k: Key, pre: Row, evs: seq<Event>)
    requires Bookkept(schema, log) && WriteEvents(schema, op, k, pre, evs)
    ensures Bookkept(schema, log + evs)
    ensures Invalidated(schema, log + evs) == Invalidated(schema, log) + Invalidates(schema, Wrote(op, k, pre))
  {
    hide Bookkept, Invalidated, Schema.KeepsHistory;
    InvalidatedSnoc(schema, log, Wrote(op, k, pre));
    if |evs| == 2 {
      BookkeptVersioned(schema, log, op, k, pre, evs[1]);
      InvalidatedSnoc(schema, log + [Wrote(op, k, pre)], evs[1]);
      assert log + evs == log + [Wrote(op, k, pre)] + [evs[1]];
    } else {
      BookkeptUnversioned(schema, log, op, k, pre);
    }
  }

  lemma DeletesOnceAfterWrite(schema: Schema, rows: Rows, log: seq<Event>, rows': Rows, op: Op, k: Key, evs: seq<Event>)
    requires DeletesOnce(rows, log) && Live(rows, k) && WriteEvents(schema, op, k, rows[k], evs)
    requires Shrinks(rows, rows') && (op == OpDelete ==> !Live(rows', k))
    ensures DeletesOnce(rows', log + evs)
  {
    var log' := log + evs;
    forall i | 0 <= i < |log'| && log'[i].Wrote? && log'[i].op == OpDelete ensures !Live(rows', log'[i].key) {
      if i < |log| { assert log'[i] == log[i]; }
    }
    forall i, j | (0 <= i < j < |log'| && log'[i].Wrote? && log'[j].Wrote? && log'[i].op == OpDelete && log'[j].op == OpDelete)
      ensures log'[i].key != log'[j].key
    {
      assert i < |log| && log'[i] == log[i];
      if j < |log| { assert log'[j] == log[j]; }
    }
  }

  lemma ChildrenAfterWrite(schema: Schema, start: Rows, rows: Rows, pending: map<string, Pending>, rows': Rows, k: Key, pending': map<string, Pending>)
    requires forall c, pid {:trigger PendingKey(c, pid)} :: c in schema.rollups && pid != "" && PendingKey(c, pid) !in pending ==>
               Children(rows, c, pid) == Children(start, c, pid)
    requires Live(rows, k) && Shrinks(rows, rows')
    requires SpareRollupChildren(schema, rows, rows', k)
    requires pending.Keys <= pending'.Keys
    requires forall c :: c in schema.rollups && c.child == k.model && ForeignKeyID(rows[k], c) != "" ==>
               PendingKey(c, ForeignKeyID(rows[k], c)) in pending'
    ensures forall c, pid {:trigger PendingKey(c, pid)} :: c in schema.rollups && pid != "" && PendingKey(c, pid) !in pending' ==>
              Children(rows', c, pid) == Children(start, c, pid)
  {
    forall c, pid | c in schema.rollups && pid != "" && PendingKey(c, pid) !in pending'
      ensures Children(rows', c, pid) == Children(start, c, pid)
    {
      ChildrenUndisturbed(schema, rows, rows', k, c, pid);
    }
  }

  /** One child write together with its bookkeeping keeps the books. */
  lemma BooksAfterWrite(schema: Schema, start: Rows, rows: Rows, log: seq<Event>, pending: map<string, Pending>,
                        rows': Rows, op: Op, k: Key, evs: seq<Event>, rollups: seq<Rollup>)
    requires schema.WellFormed()
    requires Books(schema, start, rows, log, pending)
    requires Live(rows, k) && Shrinks(rows, rows') && (op == OpDelete ==> !Live(rows', k))
    requires SpareRollupChildren(schema, rows, rows', k)
    requires forall c :: c in rollups <==> c in schema.rollups && c.child == k.model
    requires WriteEvents(schema, op, k, rows[k], evs)
    requires TotalsUntouched(rows, rows')
    ensures Books(schema, start, rows', log + evs, Invalidate(pending, rollups, rows[k]))
  {
    hide Shrinks, Bookkept, DeletesOnce, Children, Invalidated, FiledUnder, PendingKey, Invalidate;
    var pending' := Invalidate(pending, rollups, rows[k]);
    InvalidateAdds(schema, pending, rollups, rows[k]);
    BookkeptAfterWrite(schema, log, op, k, rows[k], evs);
    DeletesOnceAfterWrite(schema, rows, log, rows', op, k, evs);
    ChildrenAfterWrite(schema, start, rows, pending, rows', k, pending');
    TotalsStayUntouched(start, rows, rows');
  }

  lemma TotalsStayUntouched(start: Rows, rows: Rows, rows': Rows)
    requires TotalsUntouched(start, rows) && TotalsUntouched(rows, rows') && Shrinks(rows, rows')
    ensures TotalsUntouched(start, rows')
  {
    forall k | Live(rows', k) && k in start ensures rows'[k].totals == start[k].totals { assert Live(rows, k); }
  }

  // ---- the deferred recomputes -----------------------------------------------------

  ghost predicate SameButTotals(before: Rows, after: Rows) {
    && before.Keys == after.Keys
    && (forall k :: k in before ==> after[k].live == before[k].live && after[k].fks == before[k].fks && after[k].data == before[k].data)
  }

  lemma SameChildren(before: Rows, after: Rows, c: Rollup, pid: string)
    requires SameButTotals(before, after)
    ensures Children(after, c, pid) == Children(before, c, pid)
  {
    var a, b := Children(before, c, pid), Children(after, c, pid);
    assert a.Keys == b.Keys;
  }

  /** The recomputes that run for the pending columns, in this order: one for each
      parent that is still there. */
  function Recomputes(rows: Rows, pending: map<string, Pending>, keys: seq<string>): seq<Event>
    requires forall k :: k in keys ==> k in pending
  {
    if keys == [] then []
    else
      var init, p := keys[..|keys| - 1], pending[keys[|keys| - 1]];
      Recomputes(rows, pending, init) + if Live(rows, Key(p.rollup.parent, p.parentID)) then [Recomputed(p.rollup, p.parentID)] else []
  }

  /** The rollup columns after the first pending keys have been recomputed. */
  ghost predicate Recalculated(schema: Schema, agg: Aggregator, before: Rows, after: Rows, pending: map<string, Pending>, done: seq<string>) {
    && SameButTotals(before, after)
    && (forall k :: k in done && k in pending && Live(after, Key(pending[k].rollup.parent, pending[k].parentID)) ==>
          TotalCorrect(agg, after, pending[k].rollup, pending[k].parentID))
    && (forall c, pid {:trigger PendingKey(c, pid)} ::
          c in schema.rollups && PendingKey(c, pid) !in done ==> TotalKept(before, after, c, pid))
  }

  predicate TotalKept(before: Rows, after: Rows, c: Rollup, pid: string) {
    var p := Key(c.parent, pid);
    && (p in before <==> p in after)
    && (p in before ==>
          && (c.parentField in before[p].totals <==> c.parentField in after[p].totals)
          && (c.parentField in before[p].totals ==> before[p].totals[c.parentField] == after[p].totals[c.parentField]))
  }

  lemma RecalculatedStep(schema: Schema, agg: Aggregator, before: Rows, mid: Rows, after: Rows, pending: map<string, Pending>,
                         done: seq<string>, k: string)
    requires schema.WellFormed()
    requires Recalculated(schema, agg, before, mid, pending, done)
    requires forall l :: l in done ==> l in pending
    requires forall l :: l in pending ==> FiledUnder(schema, l, pending[l])
    requires k in pending
    requires var p := Key(pending[k].rollup.parent, pending[k].parentID);
             if Live(mid, p) then after == mid[p := mid[p].(totals := mid[p].totals[pending[k].rollup.parentField :=
                                     agg.eval(pending[k].rollup, Children(mid, pending[k].rollup, pending[k].parentID))])]
             else after == mid
    ensures Recalculated(schema, agg, before, after, pending, done + [k])
    ensures SameButTotals(before, after)
    ensures Recomputes(before, pending, done + [k]) == Recomputes(before, pending, done)
              + if Live(mid, Key(pending[k].rollup.parent, pending[k].parentID))
                then [Recomputed(pending[k].rollup, pending[k].parentID)] else []
  {
    var c, pid := pending[k].rollup, pending[k].parentID;
    assert SameButTotals(mid, after);
    assert (done + [k])[..|done|] == done;
    forall l | l in done + [k] && Live(after, Key(pending[l].rollup.parent, pending[l].parentID))
      ensures TotalCorrect(agg, after, pending[l].rollup, pending[l].parentID)
    {
      SameChildren(mid, after, pending[l].rollup, pending[l].parentID);
      if l != k {
        PendingKeyInjective(schema, pending[l].rollup, pending[l].parentID, c, pid);
        assert l in done;
        assert TotalCorrect(agg, mid, pending[l].rollup, pending[l].parentID);
      }
    }
    forall d, x | d in schema.rollups && PendingKey(d, x) !in done + [k]
      ensures TotalKept(before, after, d, x)
    {
      assert PendingKey(d, x) !in done;
      assert k in done + [k];
      PendingKeyInjective(schema, d, x, c, pid);
      assert !(d.parent == c.parent && x == pid && d.parentField == c.parentField);
    }
  }

  /** Every rollup column that was right before the sweep is right after it, and
      every column the sweep touched is right whatever it held before. */
  lemma RollupsCorrect(schema: Schema, agg: Aggregator, start: Rows, rows: Rows, log: seq<Event>, pending: map<string, Pending>,
                       after: Rows, keys: seq<string>, c: Rollup, pid: string)
    requires schema.WellFormed()
    requires Shrinks(start, rows) && Books(schema, start, rows, log, pending)
    requires Recalculated(schema, agg, rows, after, pending, keys)
    requires forall k :: k in keys <==> k in pending
    requires c in schema.rollups && pid != "" && Live(after, Key(c.parent, pid))
    requires TotalCorrect(agg, start, c, pid) || PendingKey(c, pid) in pending
    ensures TotalCorrect(agg, after, c, pid)
  {
    var k := PendingKey(c, pid);
    if k in pending {
      PendingKeyInjective(schema, pending[k].rollup, pending[k].parentID, c, pid);
    } else {
      SameChildren(rows, after, c, pid);
      assert TotalKept(rows, after, c, pid);
      assert Live(rows, Key(c.parent, pid));
    }
  }

  // ---- the whole delete ---------------------------------------------------------------

  /** No row names a removed one through a framework-enforced edge. */
  ghost predicate NoDangling(schema: Schema, rows: Rows, S: set<Key>) {
    forall e, c, q {:trigger RefsVia(rows, e, c, q)} :: q in S && FrameworkEdge(schema, e, q.model) ==> !RefsVia(rows, e, c, q)
  }

  /** A surviving row is as it was but for NULLs where it named a removed row, and
      rollup columns. */
  ghost predicate OthersKept(schema: Schema, start: Rows, rows: Rows) {
    && rows.Keys <= start.Keys
    && (forall k :: Live(rows, k) ==> Live(start, k) && rows[k].data == start[k].data && rows[k].fks.Keys == start[k].fks.Keys)
    && NullsJustified(schema, start, rows, Gone(start, rows))
  }

  /** Every rollup column that was right before, or lost a child, is right. */
  ghost predicate RollupsKept(schema: Schema, agg: Aggregator, start: Rows, rows: Rows, log: seq<Event>) {
    RollupsRight(schema, agg, start, rows, Invalidated(schema, log))
  }

  ghost predicate RollupsRight(schema: Schema, agg: Aggregator, start: Rows, rows: Rows, disturbed: set<string>) {
    forall c, pid :: c in schema.rollups && pid != "" ==> RollupRight(agg, start, rows, disturbed, c, pid)
  }

  predicate RollupRight(agg: Aggregator, start: Rows, rows: Rows, disturbed: set<string>, c: Rollup, pid: string) {
    Live(rows, Key(c.parent, pid)) && (TotalCorrect(agg, start, c, pid) || PendingKey(c, pid) in disturbed) ==> TotalCorrect(agg, rows, c, pid)
  }

  /** The first n events are child writes with their history rows, no row deleted
      twice; the rest recompute each disturbed column whose parent survived, once. */
  ghost predicate SweepLogAt(schema: Schema, rows: Rows, log: seq<Event>, n: nat) {
    && n <= |log|
    && Bookkept(schema, log[..n]) && DeletesOnce(rows, log[..n]) && FailsClosed(schema, log[..n])
    && (forall i :: 0 <= i < n ==> !log[i].Recomputed?)
    && RecomputesEachOnce(schema, rows, Invalidated(schema, log[..n]), log[n..])
  }

  ghost predicate SweepLog(schema: Schema, rows: Rows, log: seq<Event>) {
    exists n :: SweepLogAt(schema, rows, log, n)
  }

  ghost predicate RecomputesEachOnce(schema: Schema, rows: Rows, disturbed: set<string>, log: seq<Event>) {
    && (forall i :: 0 <= i < |log| ==> log[i].Recomputed? && PendingKey(log[i].rollup, log[i].parentID) in disturbed)
    && (forall i, j :: 0 <= i < j < |log| ==>
          PendingKey(log[i].rollup, log[i].parentID) != PendingKey(log[j].rollup, log[j].parentID))
    && (forall c, pid {:trigger PendingKey(c, pid)} ::
          c in schema.rollups && PendingKey(c, pid) in disturbed && Live(rows, Key(c.parent, pid)) ==> Recomputed(c, pid) in log)
  }

  /** The sweep that visited V is over, the root row itself not yet deleted: what
      it visited is gone and settled. */
  ghost predicate Swept(schema: Schema, start: Rows, root: Key, rows: Rows, V: set<Key>) {
    && WalkInv(schema, start, root, rows, V)
    && (forall q :: q in V ==> Settled(schema, start, rows, V, q) && (q != root ==> !Live(rows, q)))
  }

  ghost predicate SweepOutcome(schema: Schema, agg: Aggregator, start: Rows, root: Key, rows: Rows, log: seq<Event>) {
    && (exists V :: Swept(schema, start, root, rows, V) && DeletedBy(log, {root}, V))
    && (Live(start, root) && !Live(rows, root) ==> TakenToo(schema, start, root, root))
    && SoftRowsStay(schema, start, rows)
    && RollupsKept(schema, agg, start, rows, log)
    && SweepLog(schema, rows, log)
  }

  /** The delete that visited V is over: V is gone and settled, and so is whatever
      the constraints took with it. */
  ghost predicate Removal(schema: Schema, start: Rows, root: Key, rows: Rows, V: set<Key>) {
    && WalkInv(schema, start, root, rows, V)
    && (forall q :: q in V ==> Settled(schema, start, rows, V, q) && !Live(rows, q))
  }

  /** And every row it visited has its own delete in the log. */
  ghost predicate LoggedRemoval(schema: Schema, start: Rows, root: Key, rows: Rows, log: seq<Event>) {
    exists V :: Removal(schema, start, root, rows, V) && DeletedBy(log, {}, V)
  }

  ghost predicate Removed(schema: Schema, start: Rows, root: Key, rows: Rows) {
    exists V :: Removal(schema, start, root, rows, V)
  }

  /** Every rollup column the sweep answers for is right: not the ones the root
      itself counts towards. */
  ghost predicate OtherRollupsKept(schema: Schema, agg: Aggregator, start: Rows, root: Key, rows: Rows, log: seq<Event>) {
    OtherRollupsRight(schema, agg, start, root, rows, Invalidated(schema, log))
  }

  ghost predicate OtherRollupsRight(schema: Schema, agg: Aggregator, start: Rows, root: Key, rows: Rows, disturbed: set<string>) {
    forall c, pid :: c in schema.rollups && pid != "" && !(c.child == root.model && Refs(start, root, c.on, pid)) ==>
      RollupRight(agg, start, rows, disturbed, c, pid)
  }

  /** A sweep's events, then the delete of the root; no row was deleted twice. */
  ghost predicate DeleteLog(schema: Schema, root: Key, rows: Rows, log: seq<Event>) {
    && log != []
    && log[|log| - 1].Wrote? && log[|log| - 1].op == OpDelete && log[|log| - 1].key == root
    && DeletesOnce(rows, log)
    && SweepLog(schema, rows, log[..|log| - 1])
  }

  lemma SweepBegins(schema: Schema, start: Rows, root: Key)
    requires OnlySoftRowsDie(schema, start)
    ensures WalkInv(schema, start, root, start, {root})
    ensures Books(schema, start, start, [], map[])
    ensures FailsClosed(schema, [])
  {
  }

  lemma {:induction false} RecomputesListed(schema: Schema, rows: Rows, pending: map<string, Pending>, keys: seq<string>)
    requires schema.WellFormed() && Ascending(keys)
    requires forall k :: k in keys ==> k in pending && FiledUnder(schema, k, pending[k])
    ensures var log := Recomputes(rows, pending, keys);
            && (forall ev :: ev in log ==> ev.Recomputed? && PendingKey(ev.rollup, ev.parentID) in keys)
            && (forall i, j :: 0 <= i < j < |log| ==> PendingKey(log[i].rollup, log[i].parentID) != PendingKey(log[j].rollup, log[j].parentID))
            && (forall k :: k in keys && Live(rows, Key(pending[k].rollup.parent, pending[k].parentID)) ==>
                  Recomputed(pending[k].rollup, pending[k].parentID) in log)
    decreases |keys|
  {
    if keys != [] {
      var init, last := keys[..|keys| - 1], keys[|keys| - 1];
      assert keys == init + [last];
      RecomputesListed(schema, rows, pending, init);
      forall k | k in init ensures k != last {
        LessIrreflexive(last);
      }
      assert last in keys;
    }
  }

  lemma {:induction false} InvalidatedByRecomputes(schema: Schema, log: seq<Event>, tail: seq<Event>)
    requires forall ev :: ev in tail ==> ev.Recomputed?
    ensures Invalidated(schema, log + tail) == Invalidated(schema, log)
    decreases |tail|
  {
    if tail == [] {
      assert log + tail == log;
    } else {
      var init, last := tail[..|tail| - 1], tail[|tail| - 1];
      assert tail == init + [last] && log + tail == (log + init) + [last];
      assert last in tail;
      InvalidatedByRecomputes(schema, log, init);
      InvalidatedSnoc(schema, log + init, last);
    }
  }

  lemma DisturbedOnce(schema: Schema, rows: Rows, pending: map<string, Pending>, after: Rows, keys: seq<string>)
    requires schema.WellFormed() && SameButTotals(rows, after) && Lists(keys, pending.Keys)
    requires forall k :: k in pending ==> FiledUnder(schema, k, pending[k])
    ensures RecomputesEachOnce(schema, after, pending.Keys, Recomputes(rows, pending, keys))
    ensures forall ev :: ev in Recomputes(rows, pending, keys) ==> ev.Recomputed?
  {
    var tail := Recomputes(rows, pending, keys);
    RecomputesListed(schema, rows, pending, keys);
    forall c, pid | c in schema.rollups && PendingKey(c, pid) in pending && Live(after, Key(c.parent, pid))
      ensures Recomputed(c, pid) in tail
    {
      var k := PendingKey(c, pid);
      PendingKeyInjective(schema, pending[k].rollup, pending[k].parentID, c, pid);
      assert k in keys;
    }
    forall i | 0 <= i < |tail| ensures PendingKey(tail[i].rollup, tail[i].parentID) in pending { assert tail[i] in tail; }
  }

  lemma SweepLogged(schema: Schema, start: Rows, rows: Rows, log: seq<Event>, pending: map<string, Pending>, after: Rows, keys: seq<string>)
    requires schema.WellFormed() && Books(schema, start, rows, log, pending) && FailsClosed(schema, log)
    requires SameButTotals(rows, after) && Lists(keys, pending.Keys)
    ensures SweepLogAt(schema, after, log + Recomputes(rows, pending, keys), |log|)
    ensures Invalidated(schema, log + Recomputes(rows, pending, keys)) == pending.Keys
  {
    hide RecomputesEachOnce, Bookkept, FailsClosed, Recomputes, Invalidated, FiledUnder, Children, PendingKey;
    var tail := Recomputes(rows, pending, keys);
    DisturbedOnce(schema, rows, pending, after, keys);
    InvalidatedByRecomputes(schema, log, tail);
    assert (log + tail)[..|log|] == log && (log + tail)[|log|..] == tail;
  }

  /** Everything a successful sweep promises. */
  lemma SweepConcludes(schema: Schema, agg: Aggregator, start: Rows, root: Key, rows: Rows, log: seq<Event>, visited: set<Key>,
                       pending: map<string, Pending>, after: Rows, keys: seq<string>)
    requires schema.WellFormed()
    requires Progress(schema, start, root, start, {root}, rows, visited)
    requires Finished(schema, start, {root}, rows, visited) && Settled(schema, start, rows, visited, root)
    requires Books(schema, start, rows, log, pending) && FailsClosed(schema, log) && DeletedBy(log, {root}, visited)
    requires Lists(keys, pending.Keys) && Recalculated(schema, agg, rows, after, pending, keys)
    ensures SweepOutcome(schema, agg, start, root, after, log + Recomputes(rows, pending, keys))
  {
    hide WalkInv, Settled, Books, SweepLogAt, Recomputes, FailsClosed, Shrinks, Invalidated, RollupsRight, Recalculated, DeletedBy, SoftRowsStay;
    RecalculatedStays(schema, agg, start, rows, after, pending, keys);
    LogRests(false, log + Recomputes(rows, pending, keys), visited);
    DeletedByLater(log, {root}, visited, log + Recomputes(rows, pending, keys), visited);
    SameRecalculated(schema, agg, rows, after, pending, keys);
    SweepLogged(schema, start, rows, log, pending, after, keys);
    SweepShrinks(schema, start, root, rows, visited);
    TotalsDoNotMatter(schema, start, root, rows, visited, after);
    forall q | q in visited ensures Settled(schema, start, after, visited, q) && (q != root ==> !Live(after, q)) {
      SettledBySame(schema, start, rows, visited, after, q);
    }
    assert Swept(schema, start, root, after, visited);
    RollupsConclude(schema, agg, start, rows, log, pending, after, keys);
    assert SweepLogAt(schema, after, log + Recomputes(rows, pending, keys), |log|);
  }

  lemma RecalculatedStays(schema: Schema, agg: Aggregator, start: Rows, rows: Rows, after: Rows, pending: map<string, Pending>, keys: seq<string>)
    requires SoftRowsStay(schema, start, rows) && Recalculated(schema, agg, rows, after, pending, keys)
    ensures SoftRowsStay(schema, start, after)
  {
    SoftRowsStayOn(schema, start, rows, after);
  }

  lemma RecomputesFailNothing(schema: Schema, rows: Rows, log: seq<Event>, pending: map<string, Pending>, keys: seq<string>)
    requires schema.WellFormed() && Lists(keys, pending.Keys) && forall k :: k in pending ==> FiledUnder(schema, k, pending[k])
    requires NoHistoryFailed(log)
    ensures NoHistoryFailed(log + Recomputes(rows, pending, keys))
  {
    hide Recomputes, FiledUnder;
    var all := log + Recomputes(rows, pending, keys);
    SameTotals(rows);
    DisturbedOnce(schema, rows, pending, rows, keys);
    forall i | 0 <= i < |all| ensures !all[i].HistoryFailed? {
      if i >= |log| { assert all[i] in Recomputes(rows, pending, keys); }
    }
  }

  lemma SameTotals(rows: Rows)
    ensures SameButTotals(rows, rows)
  {
  }

  lemma LogRests(reliable: bool, log: seq<Event>, visited: set<Key>)
    ensures DeletedBy(log, visited, visited) && LogGrew(reliable, log, log)
  {
  }

  /** A write with its history row, or without. */
  lemma WriteLogged(reliable: bool, log: seq<Event>, op: Op, k: Key, pre: Row, log': seq<Event>)
    requires var w := log + [Wrote(op, k, pre)];
             log' == w || log' == w + [History(op, k)] || (log' == w + [HistoryFailed(op, k)] && !reliable)
    ensures LogGrew(reliable, log, log')
    ensures op == OpDelete ==> Deleted(log', k)
  {
    assert op == OpDelete ==> IsDelete(log'[|log|], k);
  }

  ghost predicate Deleted(log: seq<Event>, k: Key) {
    exists i :: 0 <= i < |log| && IsDelete(log[i], k)
  }

  /** The rows marked below k are deleted, and now k is. */
  lemma OneMoreDeleted(reliable: bool, l0: seq<Event>, v0: set<Key>, k: Key, l1: seq<Event>, v1: set<Key>, l2: seq<Event>)
    requires LogGrew(reliable, l0, l1) && DeletedBy(l1, v0 + {k}, v1) && LogGrew(reliable, l1, l2)
    ensures LogGrew(reliable, l0, l2)
    ensures Deleted(l2, k) ==> DeletedBy(l2, v0, v1)
  {
    LogGrewTwice(reliable, l0, l1, l2);
    if Deleted(l2, k) {
      forall q | q in v1 && q !in v0 ensures exists i :: 0 <= i < |l2| && IsDelete(l2[i], q) {
        if q != k {
          var i :| 0 <= i < |l1| && IsDelete(l1[i], q);
          assert l2[i] == l1[i];
        }
      }
    }
  }

  lemma SameRecalculated(schema: Schema, agg: Aggregator, rows: Rows, after: Rows, pending: map<string, Pending>, keys: seq<string>)
    requires Recalculated(schema, agg, rows, after, pending, keys)
    ensures SameButTotals(rows, after)
  {
  }

  lemma RollupsConclude(schema: Schema, agg: Aggregator, start: Rows, rows: Rows, log: seq<Event>, pending: map<string, Pending>,
                        after: Rows, keys: seq<string>)
    requires schema.WellFormed() && Shrinks(start, rows) && Books(schema, start, rows, log, pending)
    requires Lists(keys, pending.Keys) && Recalculated(schema, agg, rows, after, pending, keys)
    ensures RollupsRight(schema, agg, start, after, pending.Keys)
  {
    hide Books, Recalculated, Shrinks, PendingKey, TotalCorrect, Schema.WellFormed, Lists, Live;
    ListsHas(keys, pending.Keys);
    forall c, pid | c in schema.rollups && pid != "" ensures RollupRight(agg, start, after, pending.Keys, c, pid) {
      if Live(after, Key(c.parent, pid)) && (TotalCorrect(agg, start, c, pid) || PendingKey(c, pid) in pending) {
        RollupsCorrect(schema, agg, start, rows, log, pending, after, keys, c, pid);
      }
    }
  }

  lemma ListsHas(keys: seq<string>, s: set<string>)
    requires Lists(keys, s)
    ensures forall k :: k in keys <==> k in s
  {
  }

  lemma SweepShrinks(schema: Schema, start: Rows, root: Key, rows: Rows, visited: set<Key>)
    requires WalkInv(schema, start, root, rows, visited)
    ensures Shrinks(start, rows)
  {
  }

  lemma SettledBySame(schema: Schema, start: Rows, rows: Rows, visited: set<Key>, after: Rows, q: Key)
    requires SameButTotals(rows, after) && Settled(schema, start, rows, visited, q)
    ensures Settled(schema, start, after, visited, q) && (Live(after, q) <==> Live(rows, q))
  {
    assert Shrinks(rows, after);
    SettledStays(schema, start, rows, visited, after, visited, q);
  }

  /** The invariant says nothing of rollup columns. */
  lemma TotalsDoNotMatter(schema: Schema, start: Rows, root: Key, rows: Rows, visited: set<Key>, after: Rows)
    requires SameButTotals(rows, after) && WalkInv(schema, start, root, rows, visited)
    ensures WalkInv(schema, start, root, after, visited)
  {
    assert forall k :: Live(after, k) <==> Live(rows, k);
    assert Shrinks(rows, after);
    ShrinksTransitive(start, rows, after);
    SurvivorsAsBefore(schema, start, root, rows, visited, after, visited);
    forall e, c, q | Live(start, q) && !Live(after, q) && NativeEdge(schema, e, q.model) ensures !Names(after, e, c, q) {
      assert Names(after, e, c, q) ==> Names(rows, e, c, q);
    }
  }

  /** Nothing declares an onDelete against the root's model: there is nothing to do. */
  lemma NoEdgesNothingToDo(schema: Schema, agg: Aggregator, start: Rows, root: Key)
    requires OnlySoftRowsDie(schema, start)
    requires forall e :: !EdgeOnto(schema, e, root.model)
    ensures SweepOutcome(schema, agg, start, root, start, [])
  {
    SweepBegins(schema, start, root);
    LogRests(false, [], {root});
    assert Swept(schema, start, root, start, {root});
    assert SweepLogAt(schema, start, [], 0);
  }

  /** What the delete of one row turned the rows into. */
  predicate Deletes(schema: Schema, rows: Rows, soft: bool, k: Key, after: Rows) {
    && k in rows
    && if soft then Live(rows, k) && after == Killed(rows, k)
       else after == HardDeleted(schema, rows, k) && !NativelyRestricted(schema, rows, NativeTaken(schema, rows, {k}))
  }

  /** One delete statement keeps the invariant and every row a rollup reads. */
  lemma DeletesKeeps(schema: Schema, start: Rows, root: Key, rows: Rows, visited: set<Key>, soft: bool, k: Key, after: Rows)
    requires schema.WellFormed() && WalkInv(schema, start, root, rows, visited) && k in visited
    requires Deletes(schema, rows, soft, k, after) && soft == schema.SoftDeletes(k.model)
    ensures WalkInv(schema, start, root, after, visited) && Shrinks(rows, after)
    ensures Live(rows, k) && !Live(after, k)
    ensures SpareRollupChildren(schema, rows, after, k) && TotalsUntouched(rows, after)
    ensures forall l :: l != k && Live(rows, l) && !Live(after, l) ==> TakenToo(schema, start, root, l)
  {
    hide HardDeleted, NativeTaken, NativelyRestricted, WalkInv, SpareRollupChildren, TotalsUntouched, TakenToo;
    DeletedWasLive(schema, start, root, rows, visited, soft, k, after);
    if soft {
      KilledKeeps(schema, start, root, rows, visited, k);
      KilledSpares(schema, rows, k);
    } else {
      HardDeletedKeeps(schema, start, root, rows, visited, k);
      HardDeletedSpares(schema, rows, k);
      HardDeletedLive(schema, rows, k);
      forall l | l != k && Live(rows, l) && !Live(after, l) ensures TakenToo(schema, start, root, l) {
        HardDeletedTakes(schema, start, root, rows, visited, k, l);
      }
    }
  }

  /** A soft delete hides its row, a DELETE takes only rows of other models, and setting
      a column to NULL removes nothing. */
  lemma DeletingStays(schema: Schema, rows: Rows, soft: bool, k: Key, after: Rows)
    requires schema.WellFormed() && Deletes(schema, rows, soft, k, after) && soft == schema.SoftDeletes(k.model)
    ensures SoftRowsStay(schema, rows, after)
  {
    hide NativeTaken, NullsColumn, NativelyRestricted;
    if !soft { TakenAreHard(schema, rows, k); }
  }

  lemma TakenAreHard(schema: Schema, rows: Rows, k: Key)
    requires schema.WellFormed()
    ensures forall l :: l in NativeTaken(schema, rows, {k}) && l != k ==> !schema.SoftDeletes(l.model)
  {
    hide NativeTaken;
    TakenLeast(schema, rows, {k});
    var N := NativeTaken(schema, rows, {k});
    forall l | l in N && l != k ensures !schema.SoftDeletes(l.model) {
      assert TakenWith(schema, rows, l, N);
    }
  }

  lemma NullingStays(schema: Schema, rows: Rows, k: Key, col: string)
    requires k in rows && col in rows[k].fks
    ensures SoftRowsStay(schema, rows, Nulled(rows, k, col))
  {
  }

  lemma KilledSpares(schema: Schema, rows: Rows, k: Key)
    requires Live(rows, k)
    ensures SpareRollupChildren(schema, rows, Killed(rows, k), k) && TotalsUntouched(rows, Killed(rows, k))
    ensures forall l :: l != k && Live(rows, l) ==> Live(Killed(rows, k), l)
  {
  }

  lemma DeletedWasLive(schema: Schema, start: Rows, root: Key, rows: Rows, visited: set<Key>, soft: bool, k: Key, after: Rows)
    requires WalkInv(schema, start, root, rows, visited)
    requires Deletes(schema, rows, soft, k, after) && soft == schema.SoftDeletes(k.model)
    ensures Live(rows, k)
  {
  }

  lemma HardDeletedSpares(schema: Schema, rows: Rows, k: Key)
    ensures SpareRollupChildren(schema, rows, HardDeleted(schema, rows, k), k)
    ensures TotalsUntouched(rows, HardDeleted(schema, rows, k))
  {
    hide NullsColumn, NativeTaken;
    HardDeletedLive(schema, rows, k);
    forall l | l != k && schema.RollupChild(l.model)
      ensures var rows' := HardDeleted(schema, rows, k); (l in rows' <==> l in rows) && (l in rows ==> rows'[l] == rows[l])
    {
      ConstraintsSpareRollupChildren(schema, rows, k, l);
    }
  }

  /** The root goes last: what the sweep visited is gone and settled. */
  lemma RootDeleted(schema: Schema, agg: Aggregator, start: Rows, root: Key, rows: Rows, log: seq<Event>, soft: bool, after: Rows)
    requires schema.WellFormed() && SweepOutcome(schema, agg, start, root, rows, log)
    requires Deletes(schema, rows, soft, root, after) && soft == schema.SoftDeletes(root.model)
    ensures Live(start, root) && Live(rows, root) && Removed(schema, start, root, after)
    ensures OtherRollupsKept(schema, agg, start, root, after, log)
    ensures DeleteLog(schema, root, after, log + [Wrote(OpDelete, root, rows[root])])
    ensures LoggedRemoval(schema, start, root, after, log + [Wrote(OpDelete, root, rows[root])])
  {
    hide SoftRowsStay, Deletes, WalkInv, Shrinks, Settled, RollupsRight, SweepLogAt, OtherRollupsRight, DeleteLog, Invalidated, DeletedBy;
    var V :| Swept(schema, start, root, rows, V) && DeletedBy(log, {root}, V);
    RootVisited(schema, start, root, rows, V);
    DeletesKeeps(schema, start, root, rows, V, soft, root, after);
    RootDeletedToo(log, root, rows[root], V);
    forall q | q in V ensures Settled(schema, start, after, V, q) && !Live(after, q) {
      SettledStays(schema, start, rows, V, after, V, q);
      if q != root { DeadStaysDead(rows, after, q); }
    }
    assert Removal(schema, start, root, after, V);
    RootsRollupsAside(schema, agg, start, root, rows, Invalidated(schema, log), after);
    var n :| SweepLogAt(schema, rows, log, n);
    RootLogged(schema, root, rows, log, n, after);
  }

  lemma RootDeletedStays(schema: Schema, agg: Aggregator, start: Rows, root: Key, rows: Rows, log: seq<Event>, soft: bool, after: Rows)
    requires schema.WellFormed() && SweepOutcome(schema, agg, start, root, rows, log)
    requires Deletes(schema, rows, soft, root, after) && soft == schema.SoftDeletes(root.model)
    ensures SoftRowsStay(schema, start, after)
  {
    hide SoftRowsStay, Deletes, Swept, RollupsKept, SweepLog;
    DeletingStays(schema, rows, soft, root, after);
    SoftRowsStayOn(schema, start, rows, after);
  }

  // ---- deletes in turn -----------------------------------------------------------------

  /** Whatever died went with row k. */
  ghost predicate GoneWith(schema: Schema, rows: Rows, after: Rows, k: Key) {
    forall q :: Live(rows, q) && !Live(after, q) ==> q in NativeTaken(schema, rows, {k})
  }

  lemma DeletesAlone(schema: Schema, rows: Rows, soft: bool, k: Key, after: Rows)
    requires Deletes(schema, rows, soft, k, after)
    ensures GoneWith(schema, rows, after, k)
  {
    hide NativeTaken, NativelyRestricted;
    if soft { TakenLeast(schema, rows, {k}); } else { HardDeletedLive(schema, rows, k); }
  }

  /** The delete of a row whose children need no walk. */
  ghost predicate DeletedAlone(schema: Schema, rows: Rows, visited: set<Key>, k: Key, after: Rows, visited': set<Key>,
                               done: bool, missing: bool) {
    && visited' == visited + {k}
    && if k in visited then done && after == rows
       else (done ==> Live(rows, k) && !Live(after, k) && GoneWith(schema, rows, after, k)) && (missing ==> !Live(rows, k))
  }

  /** Every row that died went with an unvisited row of the page. */
  ghost predicate GoneByPage(schema: Schema, rows: Rows, visited: set<Key>, model: string, ids: seq<string>, after: Rows) {
    forall q :: Live(rows, q) && !Live(after, q) ==> TakenByPage(schema, rows, visited, model, ids, q)
  }

  ghost predicate TakenByPage(schema: Schema, rows: Rows, visited: set<Key>, model: string, ids: seq<string>, q: Key) {
    exists i :: 0 <= i < |ids| && Key(model, ids[i]) !in visited && q in NativeTaken(schema, rows, {Key(model, ids[i])})
  }

  /** The rows of ids have been deleted in turn. */
  ghost predicate PageSoFar(schema: Schema, rows: Rows, visited: set<Key>, model: string, ids: seq<string>, after: Rows) {
    && !PageOvertakes(schema, rows, visited, model, ids)
    && GoneByPage(schema, rows, visited, model, ids, after)
    && (forall i :: 0 <= i < |ids| && Key(model, ids[i]) !in visited ==> !Live(after, Key(model, ids[i])))
  }

  lemma PageBegins(schema: Schema, rows: Rows, visited: set<Key>, model: string)
    ensures PageSoFar(schema, rows, visited, model, [], rows)
  {
  }

  lemma TakenByMore(schema: Schema, rows: Rows, visited: set<Key>, model: string, ids: seq<string>, x: string, q: Key)
    requires TakenByPage(schema, rows, visited, model, ids, q)
    ensures TakenByPage(schema, rows, visited, model, ids + [x], q)
  {
    hide NativeTaken;
    var i :| 0 <= i < |ids| && Key(model, ids[i]) !in visited && q in NativeTaken(schema, rows, {Key(model, ids[i])});
    assert (ids + [x])[i] == ids[i];
  }

  /** One more row of the page was there, and is gone. */
  lemma PageGoesOn(schema: Schema, start: Rows, root: Key, rows: Rows, visited: set<Key>, model: string, ids: seq<string>, x: string,
                   mid: Rows, v: set<Key>, after: Rows, v': set<Key>)
    requires PageSoFar(schema, rows, visited, model, ids, mid) && (Key(model, x) in v <==> Key(model, x) in visited)
    requires WalkInv(schema, start, root, mid, v) && Shrinks(start, rows) && Shrinks(rows, mid) && Shrinks(mid, after)
    requires forall i :: 0 <= i < |ids| ==> Live(rows, Key(model, ids[i]))
    requires DeletedAlone(schema, mid, v, Key(model, x), after, v', true, false)
    ensures PageSoFar(schema, rows, visited, model, ids + [x], after)
  {
    hide WalkInv, Shrinks, NativeTaken, TakenByPage;
    var all, k := ids + [x], Key(model, x);
    forall i, j | 0 <= i < j < |all| ensures !Overtakes(schema, rows, visited, Key(model, all[i]), Key(model, all[j])) {
      if j < |ids| {
        assert !Overtakes(schema, rows, visited, Key(model, ids[i]), Key(model, ids[j]));
      } else if k !in visited && Overtakes(schema, rows, visited, Key(model, ids[i]), k) {
        TakenIsGone(schema, start, root, rows, mid, v, Key(model, ids[i]), k);
        assert false;
      }
    }
    forall q | Live(rows, q) && !Live(after, q) ensures TakenByPage(schema, rows, visited, model, all, q) {
      if !Live(mid, q) {
        TakenByMore(schema, rows, visited, model, ids, x, q);
      } else {
        TakenByLast(schema, rows, visited, model, ids, x, mid, q);
      }
    }
    forall i | 0 <= i < |all| && Key(model, all[i]) !in visited ensures !Live(after, Key(model, all[i])) {
      if i < |ids| { DeadStaysDead(mid, after, Key(model, ids[i])); }
    }
  }

  lemma TakenByLast(schema: Schema, rows: Rows, visited: set<Key>, model: string, ids: seq<string>, x: string, mid: Rows, q: Key)
    requires Shrinks(rows, mid) && Key(model, x) !in visited && q in NativeTaken(schema, mid, {Key(model, x)})
    ensures TakenByPage(schema, rows, visited, model, ids + [x], q)
  {
    hide Shrinks, NativeTaken;
    TakenShrinks(schema, rows, mid, {Key(model, x)});
    assert (ids + [x])[|ids|] == x;
  }

  /** The next row of the page is missing: an earlier one took it along. */
  lemma PageMisses(schema: Schema, rows: Rows, visited: set<Key>, model: string, ids: seq<string>, n: nat, mid: Rows, v: set<Key>,
                   after: Rows, v': set<Key>)
    requires n < |ids| && PageSoFar(schema, rows, visited, model, ids[..n], mid) && (Key(model, ids[n]) in v <==> Key(model, ids[n]) in visited)
    requires Live(rows, Key(model, ids[n])) && DeletedAlone(schema, mid, v, Key(model, ids[n]), after, v', false, true)
    ensures PageOvertakes(schema, rows, visited, model, ids)
  {
    hide NativeTaken;
    var k := Key(model, ids[n]);
    assert TakenByPage(schema, rows, visited, model, ids[..n], k);
    var i :| 0 <= i < n && Key(model, ids[..n][i]) !in visited && k in NativeTaken(schema, rows, {Key(model, ids[..n][i])});
    assert Overtakes(schema, rows, visited, Key(model, ids[i]), k);
  }

  /** What the deletes of one page come to. */
  ghost predicate PageInTurn(schema: Schema, rows: Rows, visited: set<Key>, model: string, ids: seq<string>, after: Rows,
                             done: bool, missing: bool) {
    && (done ==> !PageOvertakes(schema, rows, visited, model, ids) && GoneByPage(schema, rows, visited, model, ids, after))
    && (missing ==> PageOvertakes(schema, rows, visited, model, ids))
  }

  /** Every row that died went with an unvisited child of p. */
  ghost predicate GoneByChildren(schema: Schema, rows: Rows, visited: set<Key>, e: Edge, p: Key, after: Rows) {
    forall q :: Live(rows, q) && !Live(after, q) ==> TakenByChild(schema, rows, visited, e, p, q)
  }

  ghost predicate TakenByChild(schema: Schema, rows: Rows, visited: set<Key>, e: Edge, p: Key, q: Key) {
    exists a :: RefsVia(rows, e, a, p) && a !in visited && q in NativeTaken(schema, rows, {a})
  }

  /** What the deletes of one edge come to; `all` when one page holds every child. */
  ghost predicate EdgeInTurn(schema: Schema, rows: Rows, visited: set<Key>, e: Edge, p: Key, after: Rows,
                             done: bool, missing: bool, all: bool) {
    && (done ==> GoneByChildren(schema, rows, visited, e, p, after))
    && (done && all ==> !SiblingOvertakes(schema, rows, visited, e, p))
    && (missing ==> SiblingOvertakes(schema, rows, visited, e, p))
  }

  lemma PageOfEdge(schema: Schema, rows: Rows, visited: set<Key>, e: Edge, p: Key, last: string, ids: seq<string>, after: Rows,
                   done: bool, missing: bool, all: bool)
    requires IDPage(rows, e.child.name, e.rel.fkColumn, p.id, last, ids)
    requires PageInTurn(schema, rows, visited, e.child.name, ids, after, done, missing)
    requires all ==> forall c :: RefsVia(rows, e, c, p) ==> c.id in ids
    ensures EdgeInTurn(schema, rows, visited, e, p, after, done, missing, all)
  {
    hide NativeTaken, Refs;
    var model := e.child.name;
    forall i | 0 <= i < |ids| ensures RefsVia(rows, e, Key(model, ids[i]), p) { assert ids[i] in ids; }
    if missing {
      var i, j :| 0 <= i < j < |ids| && Overtakes(schema, rows, visited, Key(model, ids[i]), Key(model, ids[j]));
      assert Less(Key(model, ids[i]).id, Key(model, ids[j]).id);
    }
    if done {
      forall q | Live(rows, q) && !Live(after, q) ensures TakenByChild(schema, rows, visited, e, p, q) {
        assert TakenByPage(schema, rows, visited, model, ids, q);
      }
    }
    if done && all {
      forall a, b | RefsVia(rows, e, a, p) && RefsVia(rows, e, b, p) && Less(a.id, b.id) ensures !Overtakes(schema, rows, visited, a, b) {
        InOrder(ids, a.id, b.id);
        assert a == Key(model, a.id) && b == Key(model, b.id);
      }
    }
  }

  lemma InOrder(ids: seq<string>, x: string, y: string)
    requires Ascending(ids) && x in ids && y in ids && Less(x, y)
    ensures exists i, j :: 0 <= i < j < |ids| && ids[i] == x && ids[j] == y
  {
    var i :| 0 <= i < |ids| && ids[i] == x;
    var j :| 0 <= j < |ids| && ids[j] == y;
    if j <= i {
      if j < i { LessTransitive(x, y, x); }
      LessIrreflexive(x);
      assert false;
    }
  }

  lemma NothingInTurn(schema: Schema, rows: Rows, visited: set<Key>, e: Edge, p: Key)
    ensures EdgeInTurn(schema, rows, visited, e, p, rows, true, false, false)
  {
  }

  lemma ChildBefore(rows: Rows, mid: Rows, e: Edge, c: Key, p: Key)
    requires Shrinks(rows, mid) && RefsVia(mid, e, c, p)
    ensures RefsVia(rows, e, c, p)
  {
  }

  lemma SiblingsBefore(schema: Schema, rows: Rows, visited: set<Key>, e: Edge, p: Key, mid: Rows, v: set<Key>)
    requires Shrinks(rows, mid) && visited <= v && SiblingOvertakes(schema, mid, v, e, p)
    ensures SiblingOvertakes(schema, rows, visited, e, p)
  {
    hide NativeTaken, Shrinks, RefsVia;
    var a, b :| RefsVia(mid, e, a, p) && RefsVia(mid, e, b, p) && Less(a.id, b.id) && Overtakes(schema, mid, v, a, b);
    ChildBefore(rows, mid, e, a, p);
    ChildBefore(rows, mid, e, b, p);
    TakenShrinks(schema, rows, mid, {a});
    assert Overtakes(schema, rows, visited, a, b);
  }

  lemma TakenBefore(schema: Schema, rows: Rows, visited: set<Key>, e: Edge, p: Key, mid: Rows, v: set<Key>, q: Key)
    requires Shrinks(rows, mid) && visited <= v && TakenByChild(schema, mid, v, e, p, q)
    ensures TakenByChild(schema, rows, visited, e, p, q)
  {
    hide NativeTaken, Shrinks, RefsVia;
    var a :| RefsVia(mid, e, a, p) && a !in v && q in NativeTaken(schema, mid, {a});
    ChildBefore(rows, mid, e, a, p);
    TakenShrinks(schema, rows, mid, {a});
  }

  /** Later deletes seen from before the earlier ones. */
  lemma EdgeGoesOn(schema: Schema, rows: Rows, visited: set<Key>, e: Edge, p: Key, mid: Rows, v: set<Key>, after: Rows,
                   done: bool, missing: bool, all: bool, rest: bool)
    requires EdgeInTurn(schema, rows, visited, e, p, mid, true, false, all) && Shrinks(rows, mid) && visited <= v
    requires EdgeInTurn(schema, mid, v, e, p, after, done, missing, rest)
    ensures EdgeInTurn(schema, rows, visited, e, p, after, done, missing, all)
  {
    hide Shrinks, SiblingOvertakes, TakenByChild;
    if missing { SiblingsBefore(schema, rows, visited, e, p, mid, v); }
    if done {
      forall q | Live(rows, q) && !Live(after, q) ensures TakenByChild(schema, rows, visited, e, p, q) {
        if Live(mid, q) { TakenBefore(schema, rows, visited, e, p, mid, v, q); }
      }
    }
  }

  lemma SameInTurn(schema: Schema, rows: Rows, visited: set<Key>, e: Edge, p: Key, mid: Rows, after: Rows, missing: bool, all: bool)
    requires SameButTotals(mid, after) && EdgeInTurn(schema, rows, visited, e, p, mid, true, missing, all)
    ensures EdgeInTurn(schema, rows, visited, e, p, after, true, missing, all)
  {
    hide TakenByChild, SiblingOvertakes;
    assert forall q :: Live(after, q) <==> Live(mid, q);
  }

  // With one edge to walk, a delete runs into itself or it does not.

  lemma SweepRanInto(schema: Schema, start: Rows, root: Key, e: Edge, after: Rows, all: bool)
    requires EdgeInTurn(schema, start, {root}, e, root, after, false, true, all)
    ensures RunsInto(schema, start, e, root)
  {
    hide NativeTaken;
  }

  lemma RootRanInto(schema: Schema, start: Rows, root: Key, e: Edge, after: Rows, all: bool)
    requires EdgeInTurn(schema, start, {root}, e, root, after, true, false, all)
    requires Live(start, root) && !Live(after, root)
    ensures RunsInto(schema, start, e, root)
  {
    hide NativeTaken;
    assert TakenByChild(schema, start, {root}, e, root, root);
  }

  lemma RanIntoNothing(schema: Schema, agg: Aggregator, start: Rows, root: Key, e: Edge, rows: Rows, log: seq<Event>)
    requires OnlyEdge(schema, e, root.model) && SweepOutcome(schema, agg, start, root, rows, log) && Live(rows, root)
    requires EdgeInTurn(schema, start, {root}, e, root, rows, true, false, true)
    ensures !RunsInto(schema, start, e, root)
  {
    hide NativeTaken, Swept, OnlyEdge, RefsVia, RollupsKept, SweepLog, GoneByChildren;
    var V :| Swept(schema, start, root, rows, V);
    forall a, b | RefsVia(start, e, a, root) && b in NativeTaken(schema, start, {a})
      ensures b != root && !(RefsVia(start, e, b, root) && Less(a.id, b.id))
    {
      OnlyEdgeChild(schema, start, e, a, root);
      ChildSpares(schema, start, root, e, rows, V, a);
      if RefsVia(start, e, b, root) && Less(a.id, b.id) {
        OnlyEdgeChild(schema, start, e, b, root);
        assert false;
      }
    }
  }

  lemma OnlyEdgeChild(schema: Schema, start: Rows, e: Edge, a: Key, p: Key)
    requires OnlyEdge(schema, e, p.model) && RefsVia(start, e, a, p)
    ensures a != p && CascadeEdge(schema, e, p.model)
  {
    hide FrameworkEdge;
  }

  lemma ChildSpares(schema: Schema, start: Rows, root: Key, e: Edge, rows: Rows, V: set<Key>, a: Key)
    requires Swept(schema, start, root, rows, V) && Live(rows, root)
    requires CascadeEdge(schema, e, root.model) && RefsVia(start, e, a, root) && a != root
    ensures root !in NativeTaken(schema, start, {a})
  {
    hide NativeTaken, WalkInv, FrameworkEdge;
    RootVisited(schema, start, root, rows, V);
    ShrinksReflexive(start);
    assert Settled(schema, start, rows, V, root);
    if root in NativeTaken(schema, start, {a}) {
      TakenIsGone(schema, start, root, start, rows, V, a, root);
      assert false;
    }
  }

  lemma ShrinksReflexive(rows: Rows)
    ensures Shrinks(rows, rows)
  {
  }

  lemma OnlyEdgeRefusesNothing(schema: Schema, start: Rows, root: Key, e: Edge)
    requires OnlyEdge(schema, e, root.model)
    ensures !Refused(schema, start, root)
  {
    hide FrameworkEdge;
    var T := {root} + set k | k in start && RefsVia(start, e, k, root);
    assert Closed(schema, start, root, T);
    forall f, c, q | RestrictedBy(schema, start, f, c, q) ensures !Reached(schema, start, root, q) {
      assert q !in T;
    }
  }

  lemma RootDeletedToo(log: seq<Event>, root: Key, pre: Row, V: set<Key>)
    requires DeletedBy(log, {root}, V)
    ensures DeletedBy(log + [Wrote(OpDelete, root, pre)], {}, V)
  {
    var log' := log + [Wrote(OpDelete, root, pre)];
    forall q | q in V ensures exists i :: 0 <= i < |log'| && IsDelete(log'[i], q) {
      if q == root {
        assert IsDelete(log'[|log|], q);
      } else {
        var i :| 0 <= i < |log| && IsDelete(log[i], q);
        assert log'[i] == log[i];
      }
    }
  }

  /** A delete's log in the models' own fields. */
  lemma HistoryRowsExact(schema: Schema, root: Key, rows: Rows, log: seq<Event>)
    requires DeleteLog(schema, root, rows, log)
    ensures HistoryOfEachWrite(schema, log)
  {
    hide Schema.KeepsHistory, Schema.RequiresHistory, Bookkept, FailsClosed, DeletesOnce, Invalidated, RecomputesEachOnce;
    var sweep := log[..|log| - 1];
    var n: nat :| SweepLogAt(schema, rows, sweep, n);
    forall i | 0 <= i < |log| - 1 ensures log[i] == sweep[i] {}
    forall i | 0 <= i < n ensures log[i] == sweep[..n][i] {}
    AfterTheWrites(schema, rows, sweep, n);
    forall i | 0 <= i < |log| - 1 && log[i].Wrote?
      ensures schema.KeepsHistory(log[i].key.model)
              <==> log[i + 1] == History(log[i].op, log[i].key) || log[i + 1] == HistoryFailed(log[i].op, log[i].key)
    {
      BookkeptAt(schema, sweep[..n], i);
    }
    forall i | 0 <= i < |log| && (log[i].History? || log[i].HistoryFailed?)
      ensures i > 0 && log[i - 1].Wrote? && log[i - 1].op == log[i].op && log[i - 1].key == log[i].key
    {
      BookkeptAt(schema, sweep[..n], i);
    }
    forall i | 0 <= i < |log| && log[i].HistoryFailed? ensures !schema.RequiresHistory(log[i].key.model) {
      FailsClosedAt(schema, sweep[..n], i);
    }
    forall name ensures schema.KeepsHistory(name) <==>
              exists m, h :: m in schema.models && h in schema.models && m.name == name && m.versioned && h.name == m.name + "History" {
      KeepsHistoryIs(schema, name);
    }
    forall name ensures schema.RequiresHistory(name) <==> exists m :: m in schema.models && m.name == name && m.versionedRequired {
      RequiresHistoryIs(schema, name);
    }
  }

  lemma KeepsHistoryIs(schema: Schema, name: string)
    ensures schema.KeepsHistory(name) <==>
            exists m, h :: m in schema.models && h in schema.models && m.name == name && m.versioned && h.name == m.name + "History"
  {
    if m, h :| m in schema.models && h in schema.models && m.name == name && m.versioned && h.name == m.name + "History" {
      assert schema.Registered(name + "History");
    }
  }

  lemma RequiresHistoryIs(schema: Schema, name: string)
    ensures schema.RequiresHistory(name) <==> exists m :: m in schema.models && m.name == name && m.versionedRequired
  {
  }

  lemma FailsClosedAt(schema: Schema, log: seq<Event>, i: nat)
    requires FailsClosed(schema, log) && i < |log| && log[i].HistoryFailed?
    ensures !schema.RequiresHistory(log[i].key.model)
  {
  }

  /** Past the writes of a sweep there are only recomputes. */
  lemma AfterTheWrites(schema: Schema, rows: Rows, log: seq<Event>, n: nat)
    requires SweepLogAt(schema, rows, log, n)
    ensures forall i :: n <= i < |log| ==> log[i].Recomputed?
  {
    hide Bookkept, FailsClosed, DeletesOnce, Invalidated;
    forall i | n <= i < |log| ensures log[i].Recomputed? { assert log[i] == log[n..][i - n]; }
  }

  /** A constraint refused a row the walk had reached. */
  lemma ConstraintRefuses(schema: Schema, start: Rows, root: Key, rows: Rows, visited: set<Key>, k: Key)
    requires WalkInv(schema, start, root, rows, visited) && k in visited
    requires NativelyRestricted(schema, rows, NativeTaken(schema, rows, {k}))
    ensures RefusedByConstraint(schema, start, root)
  {
    hide NativeTaken, NativelyOnto, Closed, Below;
    var N := NativeTaken(schema, rows, {k});
    var c :| c in rows && rows[c].live && c !in N && NativelyOnto(schema, c, rows[c], Restrict, N);
    OntoByEdge(schema, rows, c, Restrict, N);
    var e: Edge, q: Key :| q in N && NativeEdge(schema, e, q.model) && NativeAction(e) == Restrict && Names(rows, e, c, q);
    NamesShrink(start, rows, e, c, q);
    HardDeletedBelow(schema, start, root, rows, visited, k, q);
    forall T | AllClosed(schema, start, root, T) ensures q in T {
      BelowIn(schema, start, root, visited, q, T);
    }
    assert RestrictedByConstraint(schema, start, e, c, q) && ReachedAtAll(schema, start, root, q);
  }

  lemma BelowIn(schema: Schema, start: Rows, root: Key, visited: set<Key>, q: Key, T: set<Key>)
    requires Below(schema, start, visited, q) && AllClosed(schema, start, root, T)
    requires forall U :: Closed(schema, start, root, U) ==> visited <= U
    ensures q in T
  {
  }

  /** The walk came to delete a row that was gone: a constraint had taken it, before
      the walk marked it or after. */
  lemma Collided(schema: Schema, start: Rows, root: Key, r0: Rows, v0: set<Key>, k: Key, r1: Rows, v1: set<Key>)
    requires WalkInv(schema, start, root, r0, v0) && Live(start, k) && k !in v0
    requires Progress(schema, start, root, r0, v0 + {k}, r1, v1) && !Live(r1, k)
    ensures Collides(schema, start, root)
  {
    hide Closed, Below, KeepsCascade, NullsJustified, Integrity, Shrinks, TakenToo;
    if !Live(r0, k) { BelowTaken(schema, start, root, v0, k); }
    assert TakenToo(schema, start, root, k);
    forall T | Closed(schema, start, root, T) ensures k in T {}
  }

  lemma RootCollides(schema: Schema, start: Rows, root: Key)
    requires TakenToo(schema, start, root, root)
    ensures Collides(schema, start, root)
  {
    hide TakenToo;
    assert Reached(schema, start, root, root);
  }

  /** The sweep of a row that was there left it only if no constraint took it. */
  lemma RootTaken(schema: Schema, agg: Aggregator, start: Rows, root: Key, rows: Rows, log: seq<Event>)
    requires SweepOutcome(schema, agg, start, root, rows, log) && Live(start, root) && !Live(rows, root)
    ensures Collides(schema, start, root)
  {
    hide Swept, RollupsKept, SweepLog;
    RootCollides(schema, start, root);
  }

  lemma RootRefused(schema: Schema, agg: Aggregator, start: Rows, root: Key, rows: Rows, log: seq<Event>)
    requires SweepOutcome(schema, agg, start, root, rows, log)
    requires NativelyRestricted(schema, rows, NativeTaken(schema, rows, {root}))
    ensures RefusedByConstraint(schema, start, root)
  {
    hide WalkInv, NativelyRestricted, NativeTaken;
    var V :| Swept(schema, start, root, rows, V);
    RootVisited(schema, start, root, rows, V);
    ConstraintRefuses(schema, start, root, rows, V, root);
  }

  lemma RootVisited(schema: Schema, start: Rows, root: Key, rows: Rows, V: set<Key>)
    requires WalkInv(schema, start, root, rows, V)
    ensures root in V && Shrinks(start, rows) && (Live(rows, root) ==> Live(start, root))
  {
  }

  lemma RootsRollupsAside(schema: Schema, agg: Aggregator, start: Rows, root: Key, rows: Rows, disturbed: set<string>, after: Rows)
    requires Shrinks(start, rows) && Shrinks(rows, after) && Live(rows, root)
    requires RollupsRight(schema, agg, start, rows, disturbed)
    requires SpareRollupChildren(schema, rows, after, root) && TotalsUntouched(rows, after)
    ensures OtherRollupsRight(schema, agg, start, root, after, disturbed)
  {
    hide PendingKey, Shrinks, SpareRollupChildren, TotalsUntouched, TotalCorrect;
    forall c, pid | c in schema.rollups && pid != "" && !(c.child == root.model && Refs(start, root, c.on, pid))
      ensures RollupRight(agg, start, after, disturbed, c, pid)
    {
      assert RollupRight(agg, start, rows, disturbed, c, pid);
      if Live(after, Key(c.parent, pid)) && TotalCorrect(agg, rows, c, pid) {
        if c.child == root.model { ForeignKeyRefs(start, rows, root, c, pid); }
        TotalStaysCorrect(schema, agg, rows, after, root, c, pid);
      } else if Live(after, Key(c.parent, pid)) {
        StillLive(rows, after, Key(c.parent, pid));
      }
    }
  }

  lemma TotalStaysCorrect(schema: Schema, agg: Aggregator, rows: Rows, after: Rows, root: Key, c: Rollup, pid: string)
    requires Shrinks(rows, after) && Live(rows, root) && c in schema.rollups && pid != ""
    requires SpareRollupChildren(schema, rows, after, root) && TotalsUntouched(rows, after)
    requires c.child == root.model ==> ForeignKeyID(rows[root], c) != pid
    requires TotalCorrect(agg, rows, c, pid) && Live(after, Key(c.parent, pid))
    ensures TotalCorrect(agg, after, c, pid)
  {
    ChildrenUndisturbed(schema, rows, after, root, c, pid);
  }

  lemma StillLive(before: Rows, after: Rows, k: Key)
    requires Shrinks(before, after) && Live(after, k)
    ensures Live(before, k)
  {
  }

  lemma ForeignKeyRefs(start: Rows, rows: Rows, k: Key, c: Rollup, pid: string)
    requires Shrinks(start, rows) && Live(rows, k) && pid != "" && !Refs(start, k, c.on, pid)
    ensures ForeignKeyID(rows[k], c) != pid
  {
  }

  lemma RootLogged(schema: Schema, root: Key, rows: Rows, log: seq<Event>, n: nat, after: Rows)
    requires SweepLogAt(schema, rows, log, n) && Shrinks(rows, after) && Live(rows, root) && !Live(after, root)
    ensures DeleteLog(schema, root, after, log + [Wrote(OpDelete, root, rows[root])])
  {
    hide Bookkept, FailsClosed, Invalidated;
    var log' := log + [Wrote(OpDelete, root, rows[root])];
    assert log'[..|log|] == log;
    assert DeletesOnce(after, log[..n]);
    assert RecomputesEachOnce(schema, after, Invalidated(schema, log[..n]), log[n..]);
    assert SweepLogAt(schema, after, log, n);
    assert forall i :: n <= i < |log| ==> log[i] == log[n..][i - n];
    assert forall i :: 0 <= i < n ==> log[i] == log[..n][i];
    forall i | 0 <= i < |log'| && log'[i].Wrote? && log'[i].op == OpDelete
      ensures !Live(after, log'[i].key) && (i < |log| ==> log'[i] == log[..n][i] && log'[i].key != root)
    {
      if i < |log| { assert i < n; }
    }
  }
}
