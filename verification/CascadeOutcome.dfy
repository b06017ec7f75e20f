/** What a finished delete means for the rows, whatever the database did by itself
    in between. */
module CascadeOutcome {
  import opened Wrappers
  import opened CascadeModel
  import opened CascadeNative
  import opened CascadeLemmas

  // ---- which models the database deletes from behind the walk's back ------------

  /** The models whose rows cascade, by the walk, from rows of the named model. */
  function WalkChildren(schema: Schema, parent: string): set<string> {
    set m, r | m in schema.models && r in m.relations && CascadeEdge(schema, Edge(m, r), parent) :: m.name
  }

  /** The models whose rows cascade, by a constraint, from rows of the named model. */
  function ConstraintChildren(schema: Schema, parent: string): set<string> {
    set m, r | m in schema.models && r in m.relations && NativeCascade(schema, Edge(m, r), parent) :: m.name
  }

  function ModelNames(schema: Schema): set<string> {
    set m | m in schema.models :: m.name
  }

  /** S and every model reached from it by `children`. */
  function Reach(children: string -> set<string>, all: set<string>, S: set<string>): set<string>
    decreases |all - S|
  {
    var more := set a, b | a in S && b in children(a) && b in all && b !in S :: b;
    if more == {} then S
    else
      assert all - (S + more) < all - S by { var b :| b in more; assert b in all - S; }
      Smaller(all - (S + more), all - S);
      Reach(children, all, S + more)
  }

  /** The models the walk of a delete may visit. */
  function WalkModels(schema: Schema, a: string): set<string> {
    Reach(b => WalkChildren(schema, b), ModelNames(schema), {a})
  }

  /** The models the database may delete from on its own account during it. */
  function ConstraintModels(schema: Schema, a: string): set<string> {
    var first := set b, c | b in WalkModels(schema, a) && c in ConstraintChildren(schema, b) :: c;
    Reach(b => ConstraintChildren(schema, b), ModelNames(schema), first)
  }

  /** The database deletes, on its own account, only from models no framework edge
      points at. */
  predicate NativeLeaves(schema: Schema, a: string) {
    forall b, m, r | b in ConstraintModels(schema, a) && m in schema.models && r in m.relations :: !FrameworkEdge(schema, Edge(m, r), b)
  }

  lemma {:induction false} ReachLeast(children: string -> set<string>, all: set<string>, S: set<string>)
    ensures S <= Reach(children, all, S)
    ensures forall a, b :: a in Reach(children, all, S) && b in children(a) && b in all ==> b in Reach(children, all, S)
    ensures forall T :: S <= T && (forall a, b :: a in T && b in children(a) && b in all ==> b in T) ==> Reach(children, all, S) <= T
    decreases |all - S|
  {
    var more := set a, b | a in S && b in children(a) && b in all && b !in S :: b;
    if more == {} {
      forall a, b | a in S && b in children(a) && b in all ensures b in S {
        assert b !in S ==> b in more;
      }
    } else {
      assert all - (S + more) < all - S by { var b :| b in more; assert b in all - S; }
      Smaller(all - (S + more), all - S);
      ReachLeast(children, all, S + more);
    }
  }

  lemma WalkModelsClosed(schema: Schema, a: string)
    ensures a in WalkModels(schema, a)
    ensures forall e, b :: b in WalkModels(schema, a) && CascadeEdge(schema, e, b) ==> e.child.name in WalkModels(schema, a)
  {
    ReachLeast(b => WalkChildren(schema, b), ModelNames(schema), {a});
    forall e, b | b in WalkModels(schema, a) && CascadeEdge(schema, e, b) ensures e.child.name in WalkModels(schema, a) {
      assert e == Edge(e.child, e.rel);
      assert e.child.name in WalkChildren(schema, b) && e.child.name in ModelNames(schema);
      assert e.child.name in (x => WalkChildren(schema, x))(b);
    }
  }

  lemma ConstraintModelsClosed(schema: Schema, a: string)
    ensures forall e, b :: b in WalkModels(schema, a) && NativeCascade(schema, e, b) ==> e.child.name in ConstraintModels(schema, a)
    ensures forall e, b :: b in ConstraintModels(schema, a) && NativeCascade(schema, e, b) ==> e.child.name in ConstraintModels(schema, a)
  {
    var first := set b, c | b in WalkModels(schema, a) && c in ConstraintChildren(schema, b) :: c;
    ReachLeast(b => ConstraintChildren(schema, b), ModelNames(schema), first);
    forall e, b | NativeCascade(schema, e, b)
      ensures b in WalkModels(schema, a) ==> e.child.name in ConstraintModels(schema, a)
      ensures b in ConstraintModels(schema, a) ==> e.child.name in ConstraintModels(schema, a)
    {
      assert e == Edge(e.child, e.rel);
      assert e.child.name in ConstraintChildren(schema, b) && e.child.name in ModelNames(schema);
      assert e.child.name in (x => ConstraintChildren(schema, x))(b);
    }
  }

  // ---- where the removed rows lie -----------------------------------------------------

  lemma VisitedModels(schema: Schema, start: Rows, root: Key, visited: set<Key>)
    requires forall T :: Closed(schema, start, root, T) ==> visited <= T
    ensures forall q :: q in visited ==> q.model in WalkModels(schema, root.model)
  {
    hide WalkModels, CascadeEdge;
    var T := set k | k in start.Keys + {root} && k.model in WalkModels(schema, root.model);
    WalkModelsClosed(schema, root.model);
    assert Closed(schema, start, root, T);
  }

  lemma TakenModels(schema: Schema, start: Rows, root: Key, visited: set<Key>, q: Key)
    requires forall k :: k in visited ==> k.model in WalkModels(schema, root.model)
    requires Below(schema, start, visited, q) && q !in visited
    ensures q.model in ConstraintModels(schema, root.model)
  {
    hide WalkModels, ConstraintModels, NativeCascade;
    var N := visited + set k | k in start && k.model in ConstraintModels(schema, root.model);
    ConstraintModelsClosed(schema, root.model);
    forall e, p, c | p in N && NativeCascade(schema, e, p.model) && Names(start, e, c, p) ensures c in N {
      assert c in start && c.model == e.child.name;
    }
    assert NativelyClosed(schema, start, N);
  }

  /** Whatever the walk did not visit but is gone went by a constraint. */
  lemma GoneModels(schema: Schema, start: Rows, root: Key, after: Rows, V: set<Key>, q: Key)
    requires Removal(schema, start, root, after, V) && q in Gone(start, after) && q !in V
    ensures q.model in ConstraintModels(schema, root.model)
  {
    hide Closed, Below, NullsJustified, KeepsCascade, Integrity, Settled, Shrinks, ConstraintModels;
    VisitedModels(schema, start, root, V);
    TakenModels(schema, start, root, V, q);
  }

  // ---- what is gone ---------------------------------------------------------------------

  /** The removed rows lie in every set that holds the root and is closed under
      both kinds of cascade. */
  ghost predicate GoneWithin(schema: Schema, start: Rows, root: Key, after: Rows) {
    forall T :: AllClosed(schema, start, root, T) ==> Gone(start, after) <= T
  }

  lemma RemovalWithin(schema: Schema, start: Rows, root: Key, after: Rows, V: set<Key>)
    requires Removal(schema, start, root, after, V)
    ensures GoneWithin(schema, start, root, after)
  {
    hide Closed, NullsJustified, KeepsCascade, Integrity, Settled, Shrinks, NativelyClosed;
    forall T, q | AllClosed(schema, start, root, T) && q in Gone(start, after) ensures q in T {
      assert V <= T && Below(schema, start, V, q);
    }
  }

  /** A framework edge onto a visited row leaves nothing behind. */
  lemma VisitedLeavesNothing(schema: Schema, start: Rows, root: Key, after: Rows, V: set<Key>, e: Edge, c: Key, q: Key)
    requires Removal(schema, start, root, after, V) && q in V && FrameworkEdge(schema, e, q.model)
    ensures !RefsVia(after, e, c, q)
    ensures e.rel.onDelete == Cascade && RefsVia(start, e, c, q) ==> c in Gone(start, after)
  {
    hide Closed, NullsJustified, KeepsCascade, Integrity, Below;
    assert Settled(schema, start, after, V, q);
    if RefsVia(after, e, c, q) {
      RefsShrink(start, after, c, e.rel.fkColumn, q.id);
    }
  }

  lemma NoEdgeOntoConstraintModels(schema: Schema, a: string, e: Edge, b: string)
    requires NativeLeaves(schema, a) && b in ConstraintModels(schema, a)
    ensures !FrameworkEdge(schema, e, b)
  {
    hide ConstraintModels;
    assert e == Edge(e.child, e.rel);
  }

  lemma RemovalExact(schema: Schema, start: Rows, root: Key, after: Rows, V: set<Key>)
    requires Removal(schema, start, root, after, V) && Live(start, root) && NativeLeaves(schema, root.model)
    ensures LeastAllClosed(schema, start, root, Gone(start, after))
    ensures NoDangling(schema, after, Gone(start, after))
  {
    hide NativeLeaves, WalkInv, Settled, NativelyClosed, FrameworkEdge;
    var G := Gone(start, after);
    RemovalWithin(schema, start, root, after, V);
    GoneNativelyClosed(schema, start, root, after, V);
    RootVisited(schema, start, root, after, V);
    forall e, p, c | p in G && FrameworkEdge(schema, e, p.model)
      ensures !RefsVia(after, e, c, p)
      ensures e.rel.onDelete == Cascade && RefsVia(start, e, c, p) ==> c in G
    {
      if p in V {
        VisitedLeavesNothing(schema, start, root, after, V, e, c, p);
      } else {
        GoneModels(schema, start, root, after, V, p);
        NoEdgeOntoConstraintModels(schema, root.model, e, p.model);
      }
    }
    assert Closed(schema, start, root, G);
  }

  /** What every finished delete promises of the rows. */
  lemma RemovalConcludes(schema: Schema, start: Rows, root: Key, after: Rows)
    requires Removed(schema, start, root, after) && Live(start, root)
    ensures GoneWithin(schema, start, root, after) && OthersKept(schema, start, after) && Integrity(schema, start, after)
    ensures NativeLeaves(schema, root.model) ==>
              LeastAllClosed(schema, start, root, Gone(start, after)) && NoDangling(schema, after, Gone(start, after))
  {
    hide NativeLeaves, GoneWithin, LeastAllClosed, NoDangling, OthersKept;
    var V :| Removal(schema, start, root, after, V);
    RemovalWithin(schema, start, root, after, V);
    RemovalKeepsOthers(schema, start, root, after, V);
    if NativeLeaves(schema, root.model) { RemovalExact(schema, start, root, after, V); }
  }

  lemma VisitedLive(schema: Schema, start: Rows, root: Key, visited: set<Key>)
    requires forall T :: Closed(schema, start, root, T) ==> visited <= T
    requires Live(start, root)
    ensures forall q :: q in visited ==> Live(start, q)
  {
    var alive := set k | k in start && Live(start, k);
    assert Closed(schema, start, root, alive);
  }

  lemma RemovalKeepsOthers(schema: Schema, start: Rows, root: Key, after: Rows, V: set<Key>)
    requires Removal(schema, start, root, after, V) && Live(start, root)
    ensures OthersKept(schema, start, after)
  {
    hide Closed, KeepsCascade, Integrity, Below, Settled, NulledFor;
    VisitedLive(schema, start, root, V);
    forall k, col | (Live(after, k) && k in start && col in after[k].fks && col in start[k].fks
                     && after[k].fks[col] != start[k].fks[col])
      ensures NulledFor(schema, start, Gone(start, after), Gone(start, after), k, col)
    {
      NulledForGone(schema, start, after, V, k, col);
    }
  }

  lemma NulledForGone(schema: Schema, start: Rows, after: Rows, V: set<Key>, k: Key, col: string)
    requires NulledFor(schema, start, V, Gone(start, after), k, col)
    requires forall q :: q in V ==> !Live(after, q) && Live(start, q)
    ensures NulledFor(schema, start, Gone(start, after), Gone(start, after), k, col)
  {
  }
}
