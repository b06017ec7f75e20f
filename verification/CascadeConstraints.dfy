/** Which rows a constraint of the database may touch, and what it does to them, in
    the fields of the models. */
module CascadeConstraints {
  import opened Wrappers
  import opened Ordering
  import opened CascadeModel
  import opened CascadeNative
  import opened CascadeLemmas
  import opened CascadeOutcome

  /** The relation is left to the database: neither side soft-deletes, the child is not
      versioned and no rollup counts it. */
  predicate InDatabase(schema: Schema, m: Model, r: Relation) {
    && m in schema.models && r in m.relations && r.kind == BelongsTo
    && (exists p | p in schema.models :: p.name == r.relatedModel)
    && (forall p | p in schema.models :: p.name == r.relatedModel ==> !p.softDelete)
    && !m.softDelete && !m.versioned && (forall c | c in schema.rollups :: c.child != m.name)
  }

  lemma DatabaseEdge(schema: Schema, m: Model, r: Relation)
    requires InDatabase(schema, m, r)
    ensures r.onDelete != NoAction ==> NativeEdge(schema, Edge(m, r), r.relatedModel) && NativeAction(Edge(m, r)) == r.onDelete
    ensures r.onDelete == NoAction && m.junction ==> NativeCascade(schema, Edge(m, r), r.relatedModel)
  {
  }

  lemma CascadeTakes(schema: Schema, rows: Rows, e: Edge, p: Key, c: Key)
    requires NativeCascade(schema, e, p.model) && Names(rows, e, c, p)
    ensures c !in HardDeleted(schema, rows, p)
  {
    hide NativeTaken, NativeCascade, Names;
    TakenLeast(schema, rows, {p});
  }

  lemma SetNullClears(schema: Schema, rows: Rows, e: Edge, p: Key, c: Key)
    requires NativeEdge(schema, e, p.model) && NativeAction(e) == SetNull && Names(rows, e, c, p)
    ensures c in HardDeleted(schema, rows, p) ==> HardDeleted(schema, rows, p)[c].fks[e.rel.fkColumn] == None
  {
    hide NativeTaken;
    TakenLeast(schema, rows, {p});
    var N := NativeTaken(schema, rows, {p});
    assert e == Edge(e.child, e.rel);
    assert ColumnIntoRemoved(schema, e.child, e.rel.fkColumn, p.id, N);
  }

  lemma RestrictRefuses(schema: Schema, rows: Rows, e: Edge, p: Key, c: Key)
    requires NativeEdge(schema, e, p.model) && NativeAction(e) == Restrict && Names(rows, e, c, p)
    ensures c in HardDeleted(schema, rows, p) ==> NativelyRestricted(schema, rows, NativeTaken(schema, rows, {p}))
  {
    hide NativeTaken, NativeEdge;
    TakenLeast(schema, rows, {p});
    OntoByEdge(schema, rows, c, Restrict, NativeTaken(schema, rows, {p}));
  }

  /** What a DELETE of p does to a row c that names it through such a relation: the row
      goes when the relation cascades, or when nothing is declared and the child is a
      junction; the column is cleared; or the delete is refused. A row that stays under
      no declared action keeps its column. */
  lemma ConstraintActs(schema: Schema, rows: Rows, m: Model, r: Relation, p: Key, c: Key)
    requires schema.WellFormed() && InDatabase(schema, m, r) && r.relatedModel == p.model
    requires c.model == m.name && Refs(rows, c, r.fkColumn, p.id)
    ensures r.onDelete == Cascade || (r.onDelete == NoAction && m.junction) ==> c !in HardDeleted(schema, rows, p)
    ensures c in HardDeleted(schema, rows, p) ==>
              && (r.onDelete == SetNull ==> HardDeleted(schema, rows, p)[c].fks[r.fkColumn] == None)
              && (r.onDelete == Restrict ==> NativelyRestricted(schema, rows, NativeTaken(schema, rows, {p})))
              && (r.onDelete == NoAction ==> HardDeleted(schema, rows, p)[c].fks[r.fkColumn] == Some(p.id))
  {
    hide NativeTaken, HardDeleted;
    var e := Edge(m, r);
    DatabaseEdge(schema, m, r);
    match r.onDelete
    case Cascade => CascadeTakes(schema, rows, e, p, c);
    case SetNull => SetNullClears(schema, rows, e, p, c);
    case Restrict => RestrictRefuses(schema, rows, e, p, c);
    case NoAction =>
      if m.junction { CascadeTakes(schema, rows, e, p, c); } else { UndeclaredStays(schema, rows, m, r, p, c); }
  }

  lemma UndeclaredStays(schema: Schema, rows: Rows, m: Model, r: Relation, p: Key, c: Key)
    requires schema.WellFormed() && m in schema.models && r in m.relations && r.kind == BelongsTo && r.onDelete == NoAction
    requires c.model == m.name && Refs(rows, c, r.fkColumn, p.id)
    ensures c in HardDeleted(schema, rows, p) ==> HardDeleted(schema, rows, p)[c].fks[r.fkColumn] == Some(p.id)
  {
    hide NativeTaken;
    var N := NativeTaken(schema, rows, {p});
    assert !NullsColumn(schema, c.model, r.fkColumn, rows[c].fks[r.fkColumn], N);
  }

  // ---- what a constraint never removes ------------------------------------------------

  /** A model with something to do beyond deleting the row. */
  predicate KeptFromTheDatabase(schema: Schema, m: Model) {
    m.softDelete || m.versioned || exists c | c in schema.rollups :: c.child == m.name
  }

  lemma NotByConstraint(schema: Schema, start: Rows, S: set<Key>, m: Model, q: Key)
    requires schema.WellFormed() && m in schema.models && KeptFromTheDatabase(schema, m) && q.model == m.name
    requires Below(schema, start, S, q)
    ensures q in S
  {
    var N := S + set k | k in start && k.model != m.name;
    forall e, p, c | p in N && NativeCascade(schema, e, p.model) && Names(start, e, c, p) ensures c in N {
      assert c in start && c.model == e.child.name;
    }
    assert NativelyClosed(schema, start, N);
  }

  /** No row of such a model vanishes behind the walk's back: whatever of it a finished
      delete removed has a delete of its own in the log. */
  lemma NoSilentRemoval(schema: Schema, start: Rows, root: Key, after: Rows, log: seq<Event>, m: Model, q: Key)
    requires schema.WellFormed() && LoggedRemoval(schema, start, root, after, log)
    requires m in schema.models && (m.softDelete || m.versioned || exists c | c in schema.rollups :: c.child == m.name)
    requires q.model == m.name && Live(start, q) && !Live(after, q)
    ensures exists i :: 0 <= i < |log| && log[i].Wrote? && log[i].op == OpDelete && log[i].key == q
  {
    hide Closed, NullsJustified, KeepsCascade, Integrity, Settled, Shrinks, Below, Schema.WellFormed;
    var V :| Removal(schema, start, root, after, V) && DeletedBy(log, {}, V);
    NotByConstraint(schema, start, V, m, q);
    var i :| 0 <= i < |log| && IsDelete(log[i], q);
    assert log[i].Wrote? && log[i].op == OpDelete && log[i].key == q;
  }

  /** Nor, over a database that answers, a versioned one without its history row. */
  lemma RemovalsHaveHistory(schema: Schema, start: Rows, root: Key, after: Rows, log: seq<Event>, m: Model, h: Model, q: Key)
    requires schema.WellFormed() && LoggedRemoval(schema, start, root, after, log)
    requires DeleteLog(schema, root, after, log) && HistoryOfEachWrite(schema, log) && NoHistoryFailed(log)
    requires m in schema.models && m.versioned && h in schema.models && h.name == m.name + "History"
    requires q.model == m.name && q != root && Live(start, q) && !Live(after, q)
    ensures History(OpDelete, q) in log
  {
    hide DeletesOnce, SweepLog, LoggedRemoval, Schema.WellFormed;
    NoSilentRemoval(schema, start, root, after, log, m, q);
    var i :| 0 <= i < |log| && log[i].Wrote? && log[i].op == OpDelete && log[i].key == q;
    assert i < |log| - 1;
    assert log[i + 1] == History(OpDelete, q);
  }

  /** What the walk minds at the root itself: no visible row names it any more through a
      declared relation the database could not enforce. */
  lemma WalkSettlesRoot(schema: Schema, start: Rows, root: Key, after: Rows, m: Model, r: Relation, p: Model, c: Key)
    requires Removed(schema, start, root, after) && Live(start, root)
    requires p in schema.models && p.name == root.model && m in schema.models && r in m.relations
    requires r.kind == BelongsTo && r.relatedModel == root.model && r.onDelete != NoAction
    requires p.softDelete || m.softDelete || m.versioned || exists u | u in schema.rollups :: u.child == m.name
    requires c.model == m.name && c.id != ""
    ensures !Refs(after, c, r.fkColumn, root.id)
  {
    hide Closed, NullsJustified, KeepsCascade, Integrity, Settled, Shrinks, Below;
    var V :| Removal(schema, start, root, after, V);
    assert FrameworkEdge(schema, Edge(m, r), root.model);
    VisitedLeavesNothing(schema, start, root, after, V, Edge(m, r), c, root);
  }

  /** After a finished delete a row of a soft-deleting model is still stored, and a row of
      any other model that is not visible is not. */
  lemma DeadRowsStored(schema: Schema, start: Rows, root: Key, after: Rows, m: Model, k: Key)
    requires schema.WellFormed() && SoftRowsStay(schema, start, after) && Removed(schema, start, root, after)
    requires m in schema.models && k.model == m.name
    ensures m.softDelete && k in start ==> k in after && after[k].data == start[k].data
    ensures !m.softDelete && k in after ==> after[k].live
  {
    hide Closed, NullsJustified, KeepsCascade, Integrity, Settled, Shrinks, Below;
    var V :| Removal(schema, start, root, after, V);
  }

  // ---- what may go at all ----------------------------------------------------------------

  /** c's model has a foreign key onto p's that cascades, by declaration or because c's
      model is a junction that declares nothing, and c holds p's id in it. */
  predicate CascadesFrom(schema: Schema, rows: Rows, c: Key, p: Key) {
    exists m | m in schema.models :: m.name == c.model && CascadesThrough(m, rows, c, p)
  }

  predicate CascadesThrough(m: Model, rows: Rows, c: Key, p: Key) {
    exists r | r in m.relations ::
      && r.kind == BelongsTo && r.relatedModel == p.model
      && (r.onDelete == Cascade || (r.onDelete == NoAction && m.junction))
      && Refs(rows, c, r.fkColumn, p.id)
  }

  /** Nothing is gone but what hangs on the record by a chain of such foreign keys. */
  lemma OnlyDependantsGo(schema: Schema, start: Rows, root: Key, after: Rows, T: set<Key>)
    requires GoneWithin(schema, start, root, after)
    requires root in T && forall p, c :: p in T && CascadesFrom(schema, start, c, p) ==> c in T
    ensures Gone(start, after) <= T
  {
    hide NativeEdge, FrameworkEdge, Refs;
    forall e, p, c | p in T && CascadeEdge(schema, e, p.model) && RefsVia(start, e, c, p) ensures c in T {
      CascadeEdgeHangs(schema, start, e, c, p);
    }
    forall e, p, c | p in T && NativeCascade(schema, e, p.model) && Names(start, e, c, p) ensures c in T {
      NativeEdgeHangs(schema, start, e, c, p);
    }
    assert AllClosed(schema, start, root, T);
  }

  lemma CascadeEdgeHangs(schema: Schema, rows: Rows, e: Edge, c: Key, p: Key)
    requires CascadeEdge(schema, e, p.model) && RefsVia(rows, e, c, p)
    ensures CascadesFrom(schema, rows, c, p)
  {
    assert CascadesThrough(e.child, rows, c, p);
  }

  lemma NativeEdgeHangs(schema: Schema, rows: Rows, e: Edge, c: Key, p: Key)
    requires NativeCascade(schema, e, p.model) && Names(rows, e, c, p)
    ensures CascadesFrom(schema, rows, c, p)
  {
    assert CascadesThrough(e.child, rows, c, p);
  }

  /** And where no constraint deletes behind the walk, all of it is: a row with an id that
      held the id of a row that went, in a foreign key declared to cascade, went too. */
  lemma DependantsGo(schema: Schema, start: Rows, root: Key, after: Rows, m: Model, r: Relation, p: Key, c: Key)
    requires LeastAllClosed(schema, start, root, Gone(start, after)) && p in Gone(start, after) && schema.Registered(p.model)
    requires m in schema.models && r in m.relations && r.kind == BelongsTo && r.onDelete == Cascade && r.relatedModel == p.model
    requires c.model == m.name && c.id != "" && Refs(start, c, r.fkColumn, p.id)
    ensures c in Gone(start, after)
  {
    var e := Edge(m, r);
    assert RefsVia(start, e, c, p) && Names(start, e, c, p);
    assert CascadeEdge(schema, e, p.model) || NativeCascade(schema, e, p.model);
  }
}
