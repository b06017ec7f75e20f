/** What the database does by itself when a row is hard-deleted: the foreign-key
    constraints the framework leaves to it. */
module CascadeNative {
  import opened Wrappers
  import opened Ordering
  import opened CascadeModel

  /** The row a relation's column names. */
  function Pointed(row: Row, r: Relation): Option<Key> {
    if r.fkColumn in row.fks && row.fks[r.fkColumn].Some? then Some(Key(r.relatedModel, row.fks[r.fkColumn].value)) else None
  }

  predicate ThroughConstraint(schema: Schema, m: Model, row: Row, action: OnDelete, S: set<Key>) {
    exists r | r in m.relations ::
      && NativeEdge(schema, Edge(m, r), r.relatedModel) && NativeAction(Edge(m, r)) == action
      && Pointed(row, r).Some? && Pointed(row, r).value in S
  }

  /** Row k names a row of S through a constraint with this action. */
  predicate NativelyOnto(schema: Schema, k: Key, row: Row, action: OnDelete, S: set<Key>) {
    exists m | m in schema.models :: m.name == k.model && ThroughConstraint(schema, m, row, action, S)
  }

  /** S and every row that goes with it. */
  function NativeTaken(schema: Schema, rows: Rows, S: set<Key>): set<Key>
    decreases |rows.Keys - S|
  {
    var more := set k | k in rows.Keys - S && rows[k].live && NativelyOnto(schema, k, rows[k], Cascade, S);
    if more == {} then S
    else
      assert rows.Keys - (S + more) < rows.Keys - S by { var k :| k in more; assert k in rows.Keys - S; }
      Smaller(rows.Keys - (S + more), rows.Keys - S);
      NativeTaken(schema, rows, S + more)
  }

  lemma Smaller<T>(a: set<T>, b: set<T>)
    requires a < b
    ensures |a| < |b|
  {
    assert b == a + (b - a) && |b| == |a| + |b - a|;
  }

  predicate ColumnIntoRemoved(schema: Schema, m: Model, col: string, id: string, N: set<Key>) {
    exists r | r in m.relations ::
      && r.fkColumn == col && NativeEdge(schema, Edge(m, r), r.relatedModel) && NativeAction(Edge(m, r)) == SetNull
      && Key(r.relatedModel, id) in N
  }

  /** The column is set to NULL because it names a row of N. */
  predicate NullsColumn(schema: Schema, model: string, col: string, v: Option<string>, N: set<Key>) {
    v.Some? && exists m | m in schema.models :: m.name == model && ColumnIntoRemoved(schema, m, col, v.value, N)
  }

  function WithoutReferences(schema: Schema, k: Key, row: Row, N: set<Key>): Row {
    row.(fks := map col | col in row.fks :: if NullsColumn(schema, k.model, col, row.fks[col], N) then None else row.fks[col])
  }

  /** The rows once those of N are gone and the columns naming them are NULL. */
  function Without(schema: Schema, rows: Rows, N: set<Key>): Rows {
    map k | k in rows && k !in N :: WithoutReferences(schema, k, rows[k], N)
  }

  /** A DELETE of row k with everything its constraints do. */
  function HardDeleted(schema: Schema, rows: Rows, k: Key): Rows {
    Without(schema, rows, NativeTaken(schema, rows, {k}))
  }

  /** A constraint refuses the removal of N. */
  predicate NativelyRestricted(schema: Schema, rows: Rows, N: set<Key>) {
    exists k | k in rows :: rows[k].live && k !in N && NativelyOnto(schema, k, rows[k], Restrict, N)
  }

  // ---- the taken rows --------------------------------------------------------------------

  lemma OntoByEdge(schema: Schema, rows: Rows, k: Key, action: OnDelete, S: set<Key>)
    requires Live(rows, k)
    ensures NativelyOnto(schema, k, rows[k], action, S) <==>
            exists e: Edge, p: Key :: p in S && NativeEdge(schema, e, p.model) && NativeAction(e) == action && Names(rows, e, k, p)
  {
    if NativelyOnto(schema, k, rows[k], action, S) {
      var m :| m in schema.models && m.name == k.model && ThroughConstraint(schema, m, rows[k], action, S);
      var r :| r in m.relations && NativeEdge(schema, Edge(m, r), r.relatedModel) && NativeAction(Edge(m, r)) == action
               && Pointed(rows[k], r).Some? && Pointed(rows[k], r).value in S;
      assert Names(rows, Edge(m, r), k, Pointed(rows[k], r).value);
    }
    if e: Edge, p: Key :| p in S && NativeEdge(schema, e, p.model) && NativeAction(e) == action && Names(rows, e, k, p) {
      assert e == Edge(e.child, e.rel) && Pointed(rows[k], e.rel) == Some(p);
    }
  }

  /** k names a row of N through a constraint that cascades. */
  ghost predicate TakenWith(schema: Schema, rows: Rows, k: Key, N: set<Key>) {
    exists e: Edge, p: Key :: p in N && NativeCascade(schema, e, p.model) && Names(rows, e, k, p)
  }

  /** The taken rows are the least set that holds S and is closed under the
      constraints that cascade. */
  lemma {:induction false} TakenLeast(schema: Schema, rows: Rows, S: set<Key>)
    ensures S <= NativeTaken(schema, rows, S) && NativelyClosed(schema, rows, NativeTaken(schema, rows, S))
    ensures forall N :: S <= N && NativelyClosed(schema, rows, N) ==> NativeTaken(schema, rows, S) <= N
    ensures forall k :: k in NativeTaken(schema, rows, S) && k !in S ==>
              Live(rows, k) && TakenWith(schema, rows, k, NativeTaken(schema, rows, S))
    decreases |rows.Keys - S|
  {
    hide NativelyOnto, NativeEdge, Names;
    var more := set k | k in rows.Keys - S && rows[k].live && NativelyOnto(schema, k, rows[k], Cascade, S);
    forall k | Live(rows, k)
      ensures NativelyOnto(schema, k, rows[k], Cascade, S) <==>
              exists e: Edge, p: Key :: p in S && NativeEdge(schema, e, p.model) && NativeAction(e) == Cascade && Names(rows, e, k, p)
    {
      OntoByEdge(schema, rows, k, Cascade, S);
    }
    if more == {} {
      forall e, p, c | p in S && NativeCascade(schema, e, p.model) && Names(rows, e, c, p) ensures c in S {
        NamesLive(rows, e, c, p);
        assert c !in S ==> c in more;
      }
    } else {
      assert rows.Keys - (S + more) < rows.Keys - S by { var k :| k in more; assert k in rows.Keys - S; }
      Smaller(rows.Keys - (S + more), rows.Keys - S);
      TakenLeast(schema, rows, S + more);
      forall N | S <= N && NativelyClosed(schema, rows, N) ensures S + more <= N {
        forall k | k in more ensures k in N {
          var e, p :| p in S && NativeEdge(schema, e, p.model) && NativeAction(e) == Cascade && Names(rows, e, k, p);
          assert NativeCascade(schema, e, p.model);
        }
      }
    }
  }

  lemma NamesLive(rows: Rows, e: Edge, c: Key, p: Key)
    requires Names(rows, e, c, p)
    ensures Live(rows, c)
  {
  }

  /** x goes with one row of S. */
  predicate TakenBy(schema: Schema, rows: Rows, S: set<Key>, x: Key) {
    exists r | r in S :: x in NativeTaken(schema, rows, {r})
  }

  lemma TakenByNext(schema: Schema, rows: Rows, S: set<Key>, e: Edge, p: Key, c: Key)
    requires TakenBy(schema, rows, S, p) && NativeCascade(schema, e, p.model) && Names(rows, e, c, p)
    ensures TakenBy(schema, rows, S, c)
  {
    hide NativeTaken, NativeCascade, Names;
    var r :| r in S && p in NativeTaken(schema, rows, {r});
    TakenLeast(schema, rows, {r});
  }

  lemma TakenByItself(schema: Schema, rows: Rows, S: set<Key>, r: Key)
    requires r in S
    ensures TakenBy(schema, rows, S, r)
  {
    hide NativeTaken;
    TakenLeast(schema, rows, {r});
  }

  /** Whatever goes with S goes with one row of it. */
  lemma TakenFromOne(schema: Schema, rows: Rows, S: set<Key>, q: Key)
    requires q in NativeTaken(schema, rows, S)
    ensures TakenBy(schema, rows, S, q)
  {
    hide NativeTaken, NativeCascade, Names, TakenBy;
    var N := set x | x in S + rows.Keys && TakenBy(schema, rows, S, x);
    forall r | r in S ensures r in N { TakenByItself(schema, rows, S, r); }
    forall e, p, c | p in N && NativeCascade(schema, e, p.model) && Names(rows, e, c, p) ensures c in N {
      NamesLive(rows, e, c, p);
      TakenByNext(schema, rows, S, e, p, c);
    }
    assert NativelyClosed(schema, rows, N);
    TakenLeast(schema, rows, S);
  }

  /** Fewer rows, fewer taken. */
  lemma TakenShrinks(schema: Schema, before: Rows, after: Rows, S: set<Key>)
    requires Shrinks(before, after)
    ensures NativeTaken(schema, after, S) <= NativeTaken(schema, before, S)
  {
    hide NativeTaken, NativeCascade;
    TakenLeast(schema, before, S);
    TakenLeast(schema, after, S);
    forall e, p, c | p in NativeTaken(schema, before, S) && NativeCascade(schema, e, p.model) && Names(after, e, c, p)
      ensures c in NativeTaken(schema, before, S)
    {
      assert Names(before, e, c, p);
    }
  }

  // ---- a walk that runs into what a constraint did --------------------------------------

  /** Deleting another row the walk reaches takes q along. */
  ghost predicate TakenToo(schema: Schema, start: Rows, root: Key, q: Key) {
    exists r :: r != q && Reached(schema, start, root, r) && q in NativeTaken(schema, start, {r})
  }

  /** One row the walk reaches takes another one along. */
  ghost predicate Collides(schema: Schema, start: Rows, root: Key) {
    exists q :: Reached(schema, start, root, q) && TakenToo(schema, start, root, q)
  }

  /** A restriction stands in the way of the delete, or it runs into itself. */
  ghost predicate Forbidden(schema: Schema, start: Rows, root: Key) {
    Refused(schema, start, root) || RefusedByConstraint(schema, start, root) || Collides(schema, start, root)
  }

  /** The walk has nothing to do for rows of this model. */
  ghost predicate NoWalk(schema: Schema, name: string) {
    forall e :: !FrameworkEdge(schema, e, name)
  }

  /** Row b goes with row a, neither of them visited. */
  ghost predicate Overtakes(schema: Schema, rows: Rows, visited: set<Key>, a: Key, b: Key) {
    a !in visited && b !in visited && b in NativeTaken(schema, rows, {a})
  }

  /** A row of the page goes with an earlier one. */
  ghost predicate PageOvertakes(schema: Schema, rows: Rows, visited: set<Key>, model: string, ids: seq<string>) {
    exists i, j :: 0 <= i < j < |ids| && Overtakes(schema, rows, visited, Key(model, ids[i]), Key(model, ids[j]))
  }

  /** A row that cascades from p through e goes with another such row of smaller id. */
  ghost predicate SiblingOvertakes(schema: Schema, rows: Rows, visited: set<Key>, e: Edge, p: Key) {
    exists a, b :: RefsVia(rows, e, a, p) && RefsVia(rows, e, b, p) && Less(a.id, b.id) && Overtakes(schema, rows, visited, a, b)
  }

  /** e cascades from the named model and is all the walk has to do there and below. */
  ghost predicate OnlyEdge(schema: Schema, e: Edge, name: string) {
    && CascadeEdge(schema, e, name)
    && NoWalk(schema, e.child.name)
    && (forall f :: FrameworkEdge(schema, f, name) ==> f == e)
  }

  /** A child of p takes along p itself or a sibling of greater id. */
  ghost predicate RunsInto(schema: Schema, rows: Rows, e: Edge, p: Key) {
    exists a, b :: RefsVia(rows, e, a, p) && b in NativeTaken(schema, rows, {a})
      && (b == p || (RefsVia(rows, e, b, p) && Less(a.id, b.id)))
  }
}
