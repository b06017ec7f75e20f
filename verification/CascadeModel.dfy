/** What a cascading delete works on: the registered models with their onDelete
    relations and rollups, the rows, and the definitions the walk is proved
    against. */
module CascadeModel {
  import opened Wrappers
  import opened Ordering

  // ---- registry ------------------------------------------------------------

  datatype OnDelete = NoAction | Cascade | SetNull | Restrict

  datatype RelationKind = BelongsTo | HasMany

  datatype Relation = Relation(kind: RelationKind, relatedModel: string, fkColumn: string, onDelete: OnDelete)

  datatype Model = Model(
    name: string,
    softDelete: bool,
    versioned: bool,
    versionedRequired: bool,
    junction: bool,
    relations: seq<Relation>)

  /** parentField of the parent row is maintained as an aggregate over the child
      rows whose column `on` names that parent. */
  datatype Rollup = Rollup(parent: string, parentField: string, child: string, on: string)

  datatype Schema = Schema(models: seq<Model>, rollups: seq<Rollup>) {

    /** Names are distinct and carry no NUL, a foreign-key column belongs to one
        relation, and a parent column is maintained by one rollup. */
    ghost predicate WellFormed() {
      && (forall m, n :: m in models && n in models && m.name == n.name ==> m == n)
      && (forall m :: m in models ==> NulFree(m.name))
      && (forall m, r, s ::
            (m in models && r in m.relations && s in m.relations && r.kind == BelongsTo && s.kind == BelongsTo
             && r.fkColumn == s.fkColumn) ==> r == s)
      && (forall c :: c in rollups ==> NulFree(c.parent) && NulFree(c.parentField))
      && (forall c, d ::
            (c in rollups && d in rollups && c.parent == d.parent && c.parentField == d.parentField) ==> c == d)
    }

    predicate Registered(name: string) {
      exists m | m in models :: m.name == name
    }

    predicate SoftDeletes(name: string) {
      exists m | m in models :: m.name == name && m.softDelete
    }

    predicate RollupChild(name: string) {
      exists c | c in rollups :: c.child == name
    }

    /** A versioned model gains a history row per write when its companion
        history model is registered. */
    predicate KeepsHistory(name: string) {
      exists m | m in models :: m.name == name && m.versioned && Registered(name + "History")
    }

    predicate RequiresHistory(name: string) {
      exists m | m in models :: m.name == name && m.versionedRequired
    }
  }

  /** Some versioned model with a history model insists on its history rows. */
  ghost predicate SomeHistoryRequired(schema: Schema) {
    exists m, h :: m in schema.models && h in schema.models && m.versioned && m.versionedRequired && h.name == m.name + "History"
  }

  predicate NulFree(s: string) {
    forall i :: 0 <= i < |s| ==> s[i] != '\0'
  }

  datatype Edge = Edge(child: Model, rel: Relation)

  /** e is a relation declaring an onDelete action against the named model. */
  predicate EdgeOnto(schema: Schema, e: Edge, parent: string) {
    && e.child in schema.models
    && e.rel in e.child.relations
    && e.rel.kind == BelongsTo
    && e.rel.onDelete != NoAction
    && e.rel.relatedModel == parent
  }

  /** The edge can be left to a foreign-key constraint of the database. */
  predicate DbEnforcedDelete(schema: Schema, parent: Model, child: Model) {
    if parent.softDelete || child.softDelete then false
    else !child.versioned && !schema.RollupChild(child.name)
  }

  /** The edges the framework walks itself: everything the database cannot do, or
      cannot do without losing history or totals. */
  predicate FrameworkEdge(schema: Schema, e: Edge, parent: string) {
    && EdgeOnto(schema, e, parent)
    && (schema.SoftDeletes(parent) || e.child.softDelete || e.child.versioned || schema.RollupChild(e.child.name))
  }

  /** What a foreign-key constraint does on a delete: a junction's keys cascade
      unless the column says otherwise. */
  function NativeAction(e: Edge): OnDelete {
    if e.rel.onDelete == NoAction && e.child.junction then Cascade else e.rel.onDelete
  }

  /** The edges the database enforces itself. */
  predicate NativeEdge(schema: Schema, e: Edge, parent: string) {
    && e.child in schema.models
    && e.rel in e.child.relations
    && e.rel.kind == BelongsTo
    && NativeAction(e) != NoAction
    && e.rel.relatedModel == parent
    && schema.Registered(parent)
    && !schema.SoftDeletes(parent) && !e.child.softDelete && !e.child.versioned && !schema.RollupChild(e.child.name)
  }

  predicate NativeCascade(schema: Schema, e: Edge, parent: string) {
    NativeEdge(schema, e, parent) && NativeAction(e) == Cascade
  }

  /** No edge is enforced twice. */
  lemma EnforcedOnce(schema: Schema, e: Edge, parent: string)
    ensures !(FrameworkEdge(schema, e, parent) && NativeEdge(schema, e, parent))
  {
  }

  // ---- rows ----------------------------------------------------------------

  datatype Key = Key(model: string, id: string)

  type Value = Option<int>

  /** One stored row. A soft-deleted row stays with live == false; fks holds the
      foreign-key columns (None is NULL), data everything else an aggregate may
      read, totals the columns a rollup maintains. */
  datatype Row = Row(live: bool, fks: map<string, Option<string>>, data: int, totals: map<string, Value>)

  type Rows = map<Key, Row>

  /** Only a soft-deleting model stores invisible rows. */
  ghost predicate OnlySoftRowsDie(schema: Schema, rows: Rows) {
    forall k :: k in rows && !rows[k].live ==> schema.SoftDeletes(k.model)
  }

  predicate Live(rows: Rows, k: Key) {
    k in rows && rows[k].live
  }

  /** The visible row k names pid in column col. */
  predicate Refs(rows: Rows, k: Key, col: string, pid: string) {
    Live(rows, k) && col in rows[k].fks && rows[k].fks[col] == Some(pid)
  }

  /** c references p through edge e and has an id the walk can hand on. */
  predicate RefsVia(rows: Rows, e: Edge, c: Key, p: Key) {
    c.model == e.child.name && c.id != "" && Refs(rows, c, e.rel.fkColumn, p.id)
  }

  /** c names p in the column of edge e, whatever its id. */
  predicate Names(rows: Rows, e: Edge, c: Key, p: Key) {
    c.model == e.child.name && Refs(rows, c, e.rel.fkColumn, p.id)
  }

  // ---- what a walk may delete ----------------------------------------------

  predicate CascadeEdge(schema: Schema, e: Edge, parent: string) {
    FrameworkEdge(schema, e, parent) && e.rel.onDelete == Cascade
  }

  /** S holds the root and every row that cascades from a row of S. */
  ghost predicate Closed(schema: Schema, rows: Rows, root: Key, S: set<Key>) {
    && root in S
    && (forall e, p, c {:trigger RefsVia(rows, e, c, p)} ::
          p in S && CascadeEdge(schema, e, p.model) && RefsVia(rows, e, c, p) ==> c in S)
  }

  /** S is the set reachable from the root along framework-enforced cascade
      edges: closed, and inside every closed set. */
  ghost predicate LeastClosed(schema: Schema, rows: Rows, root: Key, S: set<Key>) {
    && Closed(schema, rows, root, S)
    && (forall T :: Closed(schema, rows, root, T) ==> S <= T)
  }

  /** Rows only die and foreign keys only become NULL; rollup columns may change. */
  ghost predicate Shrinks(before: Rows, after: Rows) {
    && after.Keys <= before.Keys
    && (forall k :: Live(after, k) ==>
          && Live(before, k)
          && after[k].data == before[k].data
          && after[k].fks.Keys == before[k].fks.Keys
          && (forall col :: col in after[k].fks ==> after[k].fks[col] == before[k].fks[col] || after[k].fks[col] == None))
  }

  /** The rows of soft-deleting models stay stored, dead or alive, with what they held
      but for columns set to NULL. */
  ghost predicate SoftRowsStay(schema: Schema, before: Rows, after: Rows) {
    forall k :: k in before && schema.SoftDeletes(k.model) ==>
      && k in after
      && after[k].data == before[k].data
      && after[k].fks.Keys == before[k].fks.Keys
      && (forall col :: col in after[k].fks ==> after[k].fks[col] == before[k].fks[col] || after[k].fks[col] == None)
  }

  lemma SoftRowsRest(schema: Schema, rows: Rows)
    ensures SoftRowsStay(schema, rows, rows)
  {
  }

  lemma SoftRowsStayOn(schema: Schema, a: Rows, b: Rows, c: Rows)
    requires SoftRowsStay(schema, a, b) && SoftRowsStay(schema, b, c)
    ensures SoftRowsStay(schema, a, c)
  {
  }

  lemma ShrinksTransitive(a: Rows, b: Rows, c: Rows)
    requires Shrinks(a, b) && Shrinks(b, c)
    ensures Shrinks(a, c)
  {
    forall k | Live(c, k)
      ensures Live(a, k) && c[k].data == a[k].data && c[k].fks.Keys == a[k].fks.Keys
      ensures forall col :: col in c[k].fks ==> c[k].fks[col] == a[k].fks[col] || c[k].fks[col] == None
    {
      assert Live(b, k);
    }
  }

  /** A row that cascades from p is still found through the same column as long
      as it is alive: nulling never touches a cascade column. */
  ghost predicate KeepsCascade(schema: Schema, start: Rows, rows: Rows) {
    && (forall e: Edge, c: Key, p: Key {:trigger RefsVia(start, e, c, p)} ::
          (CascadeEdge(schema, e, p.model) && RefsVia(start, e, c, p) && Live(rows, c)) ==> RefsVia(rows, e, c, p))
    && (forall e: Edge, c: Key, p: Key {:trigger Names(start, e, c, p)} ::
          (NativeCascade(schema, e, p.model) && Names(start, e, c, p) && Live(rows, c)) ==> Names(rows, e, c, p))
  }

  /** Column col of row k was nulled: by the walk, for a set-null edge onto a row
      of S, or by a constraint, for one onto a row of G. */
  ghost predicate NulledFor(schema: Schema, start: Rows, S: set<Key>, G: set<Key>, k: Key, col: string) {
    || (exists e, q {:trigger RefsVia(start, e, k, q)} ::
          q in S && FrameworkEdge(schema, e, q.model) && e.rel.onDelete == SetNull && e.rel.fkColumn == col && RefsVia(start, e, k, q))
    || (exists e, q {:trigger Names(start, e, k, q)} ::
          q in G && NativeEdge(schema, e, q.model) && NativeAction(e) == SetNull && e.rel.fkColumn == col && Names(start, e, k, q))
  }

  /** A surviving row keeps every foreign key but those of set-null edges onto
      rows the walk removes or the database removed. */
  ghost predicate NullsJustified(schema: Schema, start: Rows, rows: Rows, S: set<Key>) {
    forall k, col :: (Live(rows, k) && k in start && col in rows[k].fks && col in start[k].fks
      && rows[k].fks[col] != start[k].fks[col]) ==> NulledFor(schema, start, S, Gone(start, rows), k, col)
  }

  /** The rows visible before and not after. */
  function Gone(before: Rows, after: Rows): set<Key> {
    set k | k in before && Live(before, k) && !Live(after, k)
  }

  /** Every row that names a row of N through a constraint that cascades is in N. */
  ghost predicate NativelyClosed(schema: Schema, rows: Rows, N: set<Key>) {
    forall e, p, c {:trigger Names(rows, e, c, p)} :: p in N && NativeCascade(schema, e, p.model) && Names(rows, e, c, p) ==> c in N
  }

  /** k is a row of S or goes with one when the database deletes it. */
  ghost predicate Below(schema: Schema, start: Rows, S: set<Key>, k: Key) {
    forall N :: S <= N && NativelyClosed(schema, start, N) ==> k in N
  }

  /** No visible row names a removed one through a constraint. */
  ghost predicate Integrity(schema: Schema, start: Rows, rows: Rows) {
    forall e, c, q {:trigger Names(rows, e, c, q)} ::
      Live(start, q) && !Live(rows, q) && NativeEdge(schema, e, q.model) ==> !Names(rows, e, c, q)
  }

  /** What holds at every moment of the sweep started at root over the rows
      `start`: rows only shrink, whatever died was visited or went with a visited
      row by a constraint, and nothing outside the reachable set was visited. */
  ghost predicate WalkInv(schema: Schema, start: Rows, root: Key, rows: Rows, visited: set<Key>) {
    && Shrinks(start, rows)
    && OnlySoftRowsDie(schema, rows)
    && KeepsCascade(schema, start, rows)
    && NullsJustified(schema, start, rows, visited)
    && (forall k :: Live(start, k) && !Live(rows, k) ==> Below(schema, start, visited, k))
    && Integrity(schema, start, rows)
    && root in visited
    && (forall T :: Closed(schema, start, root, T) ==> visited <= T)
  }

  /** Every framework edge onto q has been acted on: who cascades from it was
      visited or is gone, nobody else refers to it. */
  ghost predicate Settled(schema: Schema, start: Rows, rows: Rows, visited: set<Key>, q: Key) {
    forall e, c {:trigger RefsVia(start, e, c, q)} {:trigger RefsVia(rows, e, c, q)} ::
      FrameworkEdge(schema, e, q.model) ==>
        if e.rel.onDelete == Cascade then RefsVia(start, e, c, q) ==> c in visited || !Live(rows, c)
        else !RefsVia(rows, e, c, q)
  }

  lemma SettledStays(schema: Schema, start: Rows, rows: Rows, visited: set<Key>, rows': Rows, visited': set<Key>, q: Key)
    requires Settled(schema, start, rows, visited, q)
    requires Shrinks(rows, rows') && visited <= visited'
    ensures Settled(schema, start, rows', visited', q)
  {
    forall e, c | FrameworkEdge(schema, e, q.model)
      ensures if e.rel.onDelete == Cascade then RefsVia(start, e, c, q) ==> c in visited' || !Live(rows', c) else !RefsVia(rows', e, c, q)
    {
      if RefsVia(rows', e, c, q) { assert RefsVia(rows, e, c, q); }
    }
  }

  /** q lies in every closed set: the delete of root would have to remove it. */
  ghost predicate Reached(schema: Schema, start: Rows, root: Key, q: Key) {
    forall T :: Closed(schema, start, root, T) ==> q in T
  }

  /** Some visible row behind a restrict edge referenced a row the delete was
      going to remove. */
  ghost predicate Refused(schema: Schema, start: Rows, root: Key) {
    exists e, c, q :: RestrictedBy(schema, start, e, c, q) && Reached(schema, start, root, q)
  }

  /** S holds the root and is closed under both kinds of cascade. */
  ghost predicate AllClosed(schema: Schema, rows: Rows, root: Key, S: set<Key>) {
    Closed(schema, rows, root, S) && NativelyClosed(schema, rows, S)
  }

  ghost predicate LeastAllClosed(schema: Schema, rows: Rows, root: Key, S: set<Key>) {
    && AllClosed(schema, rows, root, S)
    && (forall T :: AllClosed(schema, rows, root, T) ==> S <= T)
  }

  ghost predicate ReachedAtAll(schema: Schema, start: Rows, root: Key, q: Key) {
    forall T :: AllClosed(schema, start, root, T) ==> q in T
  }

  /** Some visible row behind a restricting constraint named a row the delete and
      the constraints were going to remove. */
  ghost predicate RefusedByConstraint(schema: Schema, start: Rows, root: Key) {
    exists e, c, q :: RestrictedByConstraint(schema, start, e, c, q) && ReachedAtAll(schema, start, root, q)
  }

  predicate RestrictedByConstraint(schema: Schema, start: Rows, e: Edge, c: Key, q: Key) {
    NativeEdge(schema, e, q.model) && NativeAction(e) == Restrict && Names(start, e, c, q)
  }

  predicate RestrictedBy(schema: Schema, start: Rows, e: Edge, c: Key, q: Key) {
    && FrameworkEdge(schema, e, q.model) && e.rel.onDelete == Restrict
    && c.model == e.child.name && Refs(start, c, e.rel.fkColumn, q.id)
  }

  // ---- paging --------------------------------------------------------------

  /** The ids of the visible rows of a model naming pid in column col, past last. */
  function Matching(rows: Rows, model: string, col: string, pid: string, last: string): (ids: set<string>)
    ensures forall x :: x in ids <==> Refs(rows, Key(model, x), col, pid) && Above(x, last)
  {
    var keys := set k | k in rows && k.model == model && Refs(rows, k, col, pid) && Above(k.id, last);
    var ids := set k | k in keys :: k.id;
    assert forall x :: Refs(rows, Key(model, x), col, pid) && Above(x, last) ==> Key(model, x) in keys && Key(model, x).id in ids;
    ids
  }

  // ---- rollups and history --------------------------------------------------

  datatype Image = Image(fks: map<string, Option<string>>, data: int)

  /** The rows an aggregate over pid's children reads. */
  function Children(rows: Rows, c: Rollup, pid: string): map<Key, Image> {
    map k | k in rows && k.model == c.child && Refs(rows, k, c.on, pid) :: Image(rows[k].fks, rows[k].data)
  }

  datatype Aggregator = Aggregator(eval: (Rollup, map<Key, Image>) -> Value)

  /** The parent column holds the aggregate of the child rows as they stand. */
  predicate TotalCorrect(agg: Aggregator, rows: Rows, c: Rollup, pid: string) {
    var p := Key(c.parent, pid);
    Live(rows, p) && c.parentField in rows[p].totals && rows[p].totals[c.parentField] == agg.eval(c, Children(rows, c, pid))
  }

  datatype Pending = Pending(rollup: Rollup, parentID: string)

  /** The key a sweep files one invalidated parent column under. */
  function PendingKey(c: Rollup, pid: string): string {
    c.parent + "\0" + c.parentField + "\0" + pid
  }

  /** The parent id a row names for a rollup; "" when it names none. */
  function ForeignKeyID(row: Row, c: Rollup): string {
    if c.on in row.fks && row.fks[c.on].Some? then row.fks[c.on].value else ""
  }

  datatype Op = OpUpdate | OpDelete

  /** The observable actions of one sweep, in order. */
  datatype Event =
    | Wrote(op: Op, key: Key, pre: Row)
    | History(op: Op, key: Key)
    | HistoryFailed(op: Op, key: Key)
    | Recomputed(rollup: Rollup, parentID: string)

  /** The parent columns one event puts out of date. */
  function Invalidates(schema: Schema, ev: Event): set<string> {
    if !ev.Wrote? then {}
    else set c | c in schema.rollups && c.child == ev.key.model && ForeignKeyID(ev.pre, c) != ""
           :: PendingKey(c, ForeignKeyID(ev.pre, c))
  }

  function Invalidated(schema: Schema, log: seq<Event>): set<string> {
    if log == [] then {} else Invalidated(schema, log[..|log| - 1]) + Invalidates(schema, log[|log| - 1])
  }

  /** Every write of a versioned row is followed at once by its own history row,
      or by the record that writing it failed; no history row stands alone. */
  ghost predicate Bookkept(schema: Schema, log: seq<Event>) {
    log == [] ||
    var n := |log|;
    match log[n - 1]
    case Wrote(_, k, _) => !schema.KeepsHistory(k.model) && Bookkept(schema, log[..n - 1])
    case Recomputed(_, _) => Bookkept(schema, log[..n - 1])
    case _ =>
      && n >= 2 && log[n - 2].Wrote?
      && log[n - 2].op == log[n - 1].op && log[n - 2].key == log[n - 1].key
      && schema.KeepsHistory(log[n - 1].key.model)
      && Bookkept(schema, log[..n - 2])
  }

  /** No model that fails closed has a missing history row. */
  ghost predicate FailsClosed(schema: Schema, log: seq<Event>) {
    forall i :: 0 <= i < |log| && log[i].HistoryFailed? ==> !schema.RequiresHistory(log[i].key.model)
  }

  /** The rollup state of a sweep: exactly the columns its writes disturbed are
      pending, and every other aggregate still ranges over the same rows. */
  ghost predicate Books(schema: Schema, start: Rows, rows: Rows, log: seq<Event>, pending: map<string, Pending>) {
    && pending.Keys == Invalidated(schema, log)
    && (forall k :: k in pending ==> FiledUnder(schema, k, pending[k]))
    && (forall c, pid {:trigger PendingKey(c, pid)} :: c in schema.rollups && pid != "" && PendingKey(c, pid) !in pending ==>
          Children(rows, c, pid) == Children(start, c, pid))
    && Bookkept(schema, log)
    && DeletesOnce(rows, log)
    && TotalsUntouched(start, rows)
    && (forall i :: 0 <= i < |log| ==> !log[i].Recomputed?)
  }

  ghost predicate TotalsUntouched(start: Rows, rows: Rows) {
    forall k :: Live(rows, k) && k in start ==> rows[k].totals == start[k].totals
  }

  /** No row is deleted twice, and a deleted row stays deleted. */
  ghost predicate DeletesOnce(rows: Rows, log: seq<Event>) {
    && (forall i :: 0 <= i < |log| && log[i].Wrote? && log[i].op == OpDelete ==> !Live(rows, log[i].key))
    && (forall i, j :: (0 <= i < j < |log| && log[i].Wrote? && log[j].Wrote? && log[i].op == OpDelete && log[j].op == OpDelete)
          ==> log[i].key != log[j].key)
  }

  predicate FiledUnder(schema: Schema, k: string, p: Pending) {
    p.rollup in schema.rollups && p.parentID != "" && k == PendingKey(p.rollup, p.parentID)
  }

  predicate IsDelete(ev: Event, q: Key) {
    ev.Wrote? && ev.op == OpDelete && ev.key == q
  }

  /** Every row of v1 that is not in v0 has its own delete in the log. */
  ghost predicate DeletedBy(log: seq<Event>, v0: set<Key>, v1: set<Key>) {
    forall q :: q in v1 && q !in v0 ==> exists i :: 0 <= i < |log| && IsDelete(log[i], q)
  }

  /** The log went on, over a reliable database without a failed history row. */
  ghost predicate LogGrew(reliable: bool, log: seq<Event>, log': seq<Event>) {
    log <= log' && (reliable ==> forall i :: |log| <= i < |log'| ==> !log'[i].HistoryFailed?)
  }

  /** Every history row that was due was written. */
  ghost predicate NoHistoryFailed(log: seq<Event>) {
    forall i :: 0 <= i < |log| ==> !log[i].HistoryFailed?
  }

  lemma DeletedByLater(log: seq<Event>, v0: set<Key>, v1: set<Key>, log': seq<Event>, v2: set<Key>)
    requires DeletedBy(log, v0, v1) && log <= log' && DeletedBy(log', v1, v2)
    ensures DeletedBy(log', v0, v2)
  {
    forall q | q in v2 && q !in v0 ensures exists i :: 0 <= i < |log'| && IsDelete(log'[i], q) {
      if q in v1 {
        var i :| 0 <= i < |log| && IsDelete(log[i], q);
        assert log'[i] == log[i];
      }
    }
  }

  lemma LogGrewTwice(reliable: bool, a: seq<Event>, b: seq<Event>, c: seq<Event>)
    requires LogGrew(reliable, a, b) && LogGrew(reliable, b, c)
    ensures LogGrew(reliable, a, c)
  {
    forall i | |a| <= i < |c| && reliable ensures !c[i].HistoryFailed? {
      if i < |b| { assert c[i] == b[i]; }
    }
  }

  // ---- history, counted -------------------------------------------------------

  /** In the model's own fields: a child write is followed at once by its history row,
      or the record of its failure, when its model is versioned and a history model is
      registered for it, and not otherwise; a history row always follows its write; and
      one that failed belongs to a model that tolerates it. */
  ghost predicate HistoryOfEachWrite(schema: Schema, log: seq<Event>) {
    && (forall i :: 0 <= i < |log| - 1 && log[i].Wrote? ==>
          ((exists m, h :: m in schema.models && h in schema.models && m.name == log[i].key.model && m.versioned && h.name == m.name + "History")
           <==> log[i + 1] == History(log[i].op, log[i].key) || log[i + 1] == HistoryFailed(log[i].op, log[i].key)))
    && (forall i :: 0 <= i < |log| && (log[i].History? || log[i].HistoryFailed?) ==>
          i > 0 && log[i - 1].Wrote? && log[i - 1].op == log[i].op && log[i - 1].key == log[i].key)
    && (forall i :: 0 <= i < |log| && log[i].HistoryFailed? ==>
          forall m :: m in schema.models && m.name == log[i].key.model ==> !m.versionedRequired)
  }

  lemma {:induction false} BookkeptAt(schema: Schema, log: seq<Event>, i: nat)
    requires Bookkept(schema, log) && i < |log|
    ensures log[i].Wrote? ==> (schema.KeepsHistory(log[i].key.model)
                               <==> i + 1 < |log| && (log[i + 1] == History(log[i].op, log[i].key) || log[i + 1] == HistoryFailed(log[i].op, log[i].key)))
    ensures log[i].History? || log[i].HistoryFailed? ==>
              i > 0 && log[i - 1].Wrote? && log[i - 1].op == log[i].op && log[i - 1].key == log[i].key
    decreases |log|, 0
  {
    hide Schema.KeepsHistory;
    var n := |log|;
    match log[n - 1]
    case Wrote(_, _, _) => if i < n - 1 { BookkeptBefore(schema, log, n - 1, i); }
    case Recomputed(_, _) => if i < n - 1 { BookkeptBefore(schema, log, n - 1, i); }
    case _ => if i < n - 2 { BookkeptBefore(schema, log, n - 2, i); }
  }

  lemma {:induction false} BookkeptBefore(schema: Schema, log: seq<Event>, n: nat, i: nat)
    requires i < n < |log| && Bookkept(schema, log[..n]) && !log[n].History? && !log[n].HistoryFailed?
    ensures log[i].Wrote? ==> (schema.KeepsHistory(log[i].key.model)
                               <==> i + 1 < |log| && (log[i + 1] == History(log[i].op, log[i].key) || log[i + 1] == HistoryFailed(log[i].op, log[i].key)))
    ensures log[i].History? || log[i].HistoryFailed? ==>
              i > 0 && log[i - 1].Wrote? && log[i - 1].op == log[i].op && log[i - 1].key == log[i].key
    decreases n, 1
  {
    hide Schema.KeepsHistory, Bookkept;
    BookkeptAt(schema, log[..n], i);
    assert log[..n][i] == log[i] && (i > 0 ==> log[..n][i - 1] == log[i - 1]);
    if i + 1 < n { assert log[..n][i + 1] == log[i + 1]; }
  }

  function VersionedWrites(schema: Schema, log: seq<Event>): multiset<(Op, Key)> {
    if log == [] then multiset{}
    else
      var ev := log[|log| - 1];
      VersionedWrites(schema, log[..|log| - 1])
      + if ev.Wrote? && schema.KeepsHistory(ev.key.model) then multiset{(ev.op, ev.key)} else multiset{}
  }

  /** The history rows written, and those whose write failed. */
  function HistoryRows(log: seq<Event>): multiset<(Op, Key)> {
    if log == [] then multiset{}
    else
      var ev := log[|log| - 1];
      HistoryRows(log[..|log| - 1])
      + if ev.History? || ev.HistoryFailed? then multiset{(ev.op, ev.key)} else multiset{}
  }

  /** Each write of a versioned row has exactly one history row, written or
      failed, and no history row belongs to anything else. */
  lemma {:induction false} OneHistoryRowPerWrite(schema: Schema, log: seq<Event>)
    requires Bookkept(schema, log)
    ensures VersionedWrites(schema, log) == HistoryRows(log)
    decreases |log|
  {
    if log != [] {
      var n := |log|;
      var init := log[..n - 1];
      match log[n - 1]
      case Wrote(_, _, _) => OneHistoryRowPerWrite(schema, init);
      case Recomputed(_, _) => OneHistoryRowPerWrite(schema, init);
      case _ =>
        assert init[..n - 2] == log[..n - 2];
        OneHistoryRowPerWrite(schema, log[..n - 2]);
    }
  }

  // ---- the joined string keys are faithful -----------------------------------

  lemma {:induction false} NulSplits(a: string, b: string, x: string, y: string)
    requires NulFree(a) && NulFree(b)
    requires a + "\0" + x == b + "\0" + y
    ensures a == b && x == y
  {
    var s, t := a + "\0" + x, b + "\0" + y;
    assert s[0] == if a == "" then '\0' else a[0];
    assert t[0] == if b == "" then '\0' else b[0];
    if a == "" && b == "" {
      assert x == s[1..] && y == s[1..];
    } else if a == "" {
      assert false;
    } else if b == "" {
      assert false;
    } else {
      assert s[1..] == a[1..] + "\0" + x;
      assert t[1..] == b[1..] + "\0" + y;
      NulSplits(a[1..], b[1..], x, y);
      assert a == [a[0]] + a[1..] && b == [b[0]] + b[1..];
    }
  }

  /** Joining model and id with a NUL tells rows apart exactly when they differ,
      so a set of keys is the sweep's map from joined strings to true. */
  lemma CascadeKeyInjective(k: Key, l: Key)
    requires NulFree(k.model) && NulFree(l.model)
    ensures k.model + "\0" + k.id == l.model + "\0" + l.id <==> k == l
  {
    if k.model + "\0" + k.id == l.model + "\0" + l.id {
      NulSplits(k.model, l.model, k.id, l.id);
    }
  }

  lemma PendingKeyInjective(schema: Schema, c: Rollup, x: string, d: Rollup, y: string)
    requires schema.WellFormed() && c in schema.rollups && d in schema.rollups
    ensures PendingKey(c, x) == PendingKey(d, y) <==> c == d && x == y
  {
    if PendingKey(c, x) == PendingKey(d, y) {
      assert PendingKey(c, x) == c.parent + "\0" + (c.parentField + "\0" + x);
      assert PendingKey(d, y) == d.parent + "\0" + (d.parentField + "\0" + y);
      NulSplits(c.parent, d.parent, c.parentField + "\0" + x, d.parentField + "\0" + y);
      NulSplits(c.parentField, d.parentField, x, y);
    }
  }
}
