/** Where the framework's walk ends and the database's own ON DELETE begins: when
    exactly a delete leaves a framework-enforced reference dangling. */
module CascadeLimits {
  import opened Wrappers
  import opened CascadeModel
  import opened CascadeNative
  import opened CascadeLemmas
  import opened CascadeOutcome
  import opened Cascade

  /** The set the walk removes is determined by the rows it started from. */
  lemma ReachableSetUnique(schema: Schema, rows: Rows, root: Key, S: set<Key>, T: set<Key>)
    requires LeastClosed(schema, rows, root, S) && LeastClosed(schema, rows, root, T)
    ensures S == T
  {
    assert S <= T && T <= S;
  }

  // ---- row by row ------------------------------------------------------------------------

  /** A row of N that is not in S was named, through a framework edge, by a row the
      delete kept. */
  ghost predicate LeftNaming(schema: Schema, start: Rows, kept: set<Key>, N: set<Key>) {
    exists e, c, q {:trigger RefsVia(start, e, c, q)} ::
      q in N && c in kept && FrameworkEdge(schema, e, q.model) && RefsVia(start, e, c, q)
  }

  function Kept(start: Rows, after: Rows): set<Key> {
    set k | k in start && Live(start, k) && Live(after, k)
  }

  /** Nothing dangles exactly when no kept row named a row the constraints took. */
  lemma DanglesIff(schema: Schema, start: Rows, root: Key, after: Rows, V: set<Key>)
    requires schema.WellFormed() && Removal(schema, start, root, after, V)
    ensures NoDangling(schema, after, Gone(start, after)) <==> !LeftNaming(schema, start, Kept(start, after), Gone(start, after) - V)
  {
    hide WalkInv, FrameworkEdge, Settled;
    var G := Gone(start, after);
    RootVisited(schema, start, root, after, V);
    forall e, c, q | q in G && FrameworkEdge(schema, e, q.model)
      ensures q in V ==> !RefsVia(after, e, c, q)
      ensures q !in V ==> (RefsVia(after, e, c, q) <==> c in Kept(start, after) && RefsVia(start, e, c, q))
    {
      if q in V {
        VisitedLeavesNothing(schema, start, root, after, V, e, c, q);
      } else if RefsVia(start, e, c, q) && Live(after, c) {
        UnvisitedKeptRef(schema, start, root, after, V, e, c, q);
      } else if RefsVia(after, e, c, q) {
        RefsShrink(start, after, c, e.rel.fkColumn, q.id);
      }
    }
    if !LeftNaming(schema, start, Kept(start, after), G - V) {
      forall e, c, q | q in G && FrameworkEdge(schema, e, q.model) ensures !RefsVia(after, e, c, q) {
        assert RefsVia(after, e, c, q) ==> RefsVia(start, e, c, q);
      }
    }
  }

  /** Neither the walk nor a constraint nulls a framework column naming a row the
      walk did not visit. */
  lemma UnvisitedKeptRef(schema: Schema, start: Rows, root: Key, after: Rows, V: set<Key>, e: Edge, c: Key, q: Key)
    requires schema.WellFormed() && WalkInv(schema, start, root, after, V)
    requires FrameworkEdge(schema, e, q.model) && RefsVia(start, e, c, q) && Live(after, c) && q !in V
    ensures RefsVia(after, e, c, q)
  {
    hide Closed, KeepsCascade, Integrity, Below;
    var col := e.rel.fkColumn;
    if after[c].fks[col] != start[c].fks[col] {
      assert NulledFor(schema, start, V, Gone(start, after), c, col);
      NulledOnce(schema, start, V, Gone(start, after), e, c, q);
      assert false;
    }
  }

  lemma NulledOnce(schema: Schema, start: Rows, V: set<Key>, G: set<Key>, e: Edge, c: Key, q: Key)
    requires schema.WellFormed() && FrameworkEdge(schema, e, q.model) && RefsVia(start, e, c, q)
    requires NulledFor(schema, start, V, G, c, e.rel.fkColumn)
    ensures q in V
  {
    forall f: Edge, p: Key | (FrameworkEdge(schema, f, p.model) || NativeEdge(schema, f, p.model)) && f.rel.fkColumn == e.rel.fkColumn
                             && Names(start, f, c, p)
      ensures f == e && p == q
    {
      assert f.child == e.child;
    }
    EnforcedOnce(schema, e, q.model);
  }

  // ---- by the rows alone --------------------------------------------------------------------

  /** No row of S goes with another removed row by a constraint. */
  ghost predicate Apart(schema: Schema, start: Rows, S: set<Key>) {
    forall c :: c in S ==> !TakenWith(schema, start, c, NativeTaken(schema, start, S))
  }

  /** Over the rows the delete starts from, with S the set the walk reaches and N
      what the constraints take with it: when no row of S is taken as well, the
      delete removes S and N, and leaves nothing dangling exactly when no other
      row names a row of N through a framework edge. */
  lemma DanglesIffLeftNaming(schema: Schema, start: Rows, root: Key, after: Rows, S: set<Key>)
    requires schema.WellFormed() && Live(start, root) && Removed(schema, start, root, after)
    requires LeastClosed(schema, start, root, S) && Apart(schema, start, S)
    ensures var N := NativeTaken(schema, start, S);
            && Gone(start, after) == N
            && (NoDangling(schema, after, Gone(start, after)) <==>
                !LeftNaming(schema, start, (set k | k in start && Live(start, k)) - N, N - S))
  {
    hide NoDangling, LeftNaming, NativeTaken, Removal;
    var V :| Removal(schema, start, root, after, V);
    WalkReachesAll(schema, start, root, after, V, S);
    TakenExactly(schema, start, root, after, S);
    DanglesIff(schema, start, root, after, S);
    assert Kept(start, after) == (set k | k in start && Live(start, k)) - NativeTaken(schema, start, S);
  }

  lemma WalkReachesAll(schema: Schema, start: Rows, root: Key, after: Rows, V: set<Key>, S: set<Key>)
    requires Removal(schema, start, root, after, V) && LeastClosed(schema, start, root, S) && Apart(schema, start, S)
    ensures V == S
  {
    hide NullsJustified, KeepsCascade, Integrity, NativeTaken, TakenWith, FrameworkEdge, Shrinks;
    assert V <= S;
    TakenLeast(schema, start, V);
    TakenLeast(schema, start, S);
    var taken := NativeTaken(schema, start, V);
    assert taken <= NativeTaken(schema, start, S);
    forall e, p, c | p in V && CascadeEdge(schema, e, p.model) && RefsVia(start, e, c, p) ensures c in V {
      assert Settled(schema, start, after, V, p);
      assert c in S;
      if c !in V {
        assert Below(schema, start, V, c) && c in taken;
        TakenWithMore(schema, start, c, taken, NativeTaken(schema, start, S));
        assert false;
      }
    }
    assert Closed(schema, start, root, V);
  }

  lemma TakenWithMore(schema: Schema, rows: Rows, k: Key, M: set<Key>, N: set<Key>)
    requires TakenWith(schema, rows, k, M) && M <= N
    ensures TakenWith(schema, rows, k, N)
  {
  }

  lemma TakenExactly(schema: Schema, start: Rows, root: Key, after: Rows, V: set<Key>)
    requires Removal(schema, start, root, after, V) && Live(start, root)
    ensures Gone(start, after) == NativeTaken(schema, start, V)
  {
    hide Closed, NullsJustified, KeepsCascade, Integrity, NativeTaken, Settled, Shrinks, NativelyClosed;
    TakenLeast(schema, start, V);
    GoneNativelyClosed(schema, start, root, after, V);
    VisitedLive(schema, start, root, V);
    assert V <= Gone(start, after);
    forall k | k in Gone(start, after) ensures k in NativeTaken(schema, start, V) {
      assert Below(schema, start, V, k);
    }
  }

  // ---- by the schema alone ---------------------------------------------------------------------

  function ModelAt(a: string, es: seq<Edge>, t: nat): string
    requires t <= |es|
  {
    if t == 0 then a else es[t - 1].child.name
  }

  /** A chain of cascades from model a: the first i by the walk, the rest by
      constraints. */
  ghost predicate Leads(schema: Schema, a: string, es: seq<Edge>, i: nat) {
    i <= |es| && forall t :: 0 <= t < |es| ==> Link(schema, a, es, i, t)
  }

  ghost predicate Link(schema: Schema, a: string, es: seq<Edge>, i: nat, t: nat)
    requires t < |es|
  {
    if t < i then CascadeEdge(schema, es[t], ModelAt(a, es, t)) else NativeCascade(schema, es[t], ModelAt(a, es, t))
  }

  ghost predicate WalkLeads(schema: Schema, a: string, b: string) {
    exists es :: Leads(schema, a, es, |es|) && ModelAt(a, es, |es|) == b
  }

  ghost predicate ConstraintsLead(schema: Schema, a: string, b: string) {
    exists es, i: nat :: Leads(schema, a, es, i) && i < |es| && ModelAt(a, es, |es|) == b
  }

  lemma LeadsOn(schema: Schema, a: string, es: seq<Edge>, i: nat, e: Edge)
    requires Leads(schema, a, es, i)
    ensures CascadeEdge(schema, e, ModelAt(a, es, |es|)) && i == |es| ==> Leads(schema, a, es + [e], i + 1)
    ensures NativeCascade(schema, e, ModelAt(a, es, |es|)) ==> Leads(schema, a, es + [e], i)
    ensures ModelAt(a, es + [e], |es| + 1) == e.child.name
  {
    hide CascadeEdge, NativeCascade;
    var more := es + [e];
    forall j: nat, t: nat | t < |es| && Link(schema, a, es, i, t) && (j == i || (j == i + 1 && i == |es|)) ensures Link(schema, a, more, j, t) {}
  }

  lemma WalkLeadsOn(schema: Schema, a: string, n: string, m: string)
    requires WalkLeads(schema, a, n) && m in WalkChildren(schema, n)
    ensures WalkLeads(schema, a, m)
  {
    hide CascadeEdge, Leads;
    var es :| Leads(schema, a, es, |es|) && ModelAt(a, es, |es|) == n;
    var child, r :| child in schema.models && r in child.relations && CascadeEdge(schema, Edge(child, r), n) && m == child.name;
    LeadsOn(schema, a, es, |es|, Edge(child, r));
    assert Leads(schema, a, es + [Edge(child, r)], |es + [Edge(child, r)]|);
  }

  lemma ConstraintsLeadOn(schema: Schema, a: string, n: string, m: string)
    requires WalkLeads(schema, a, n) || ConstraintsLead(schema, a, n)
    requires m in ConstraintChildren(schema, n)
    ensures ConstraintsLead(schema, a, m)
  {
    hide NativeCascade, Leads;
    var child, r :| child in schema.models && r in child.relations && NativeCascade(schema, Edge(child, r), n) && m == child.name;
    if WalkLeads(schema, a, n) {
      var es :| Leads(schema, a, es, |es|) && ModelAt(a, es, |es|) == n;
      LeadsOn(schema, a, es, |es|, Edge(child, r));
    } else {
      var es, i: nat :| Leads(schema, a, es, i) && i < |es| && ModelAt(a, es, |es|) == n;
      LeadsOn(schema, a, es, i, Edge(child, r));
    }
  }

  lemma WalkModelsAreLedTo(schema: Schema, a: string, b: string)
    requires b in WalkModels(schema, a)
    ensures WalkLeads(schema, a, b)
  {
    hide WalkLeads, WalkChildren;
    var led := set n | n in ModelNames(schema) + {a} && WalkLeads(schema, a, n);
    NoChain(schema, a);
    var children := n => WalkChildren(schema, n);
    forall n, m | n in led && m in children(n) && m in ModelNames(schema) ensures m in led {
      WalkLeadsOn(schema, a, n, m);
    }
    ReachLeast(children, ModelNames(schema), {a});
    assert WalkModels(schema, a) == Reach(children, ModelNames(schema), {a});
    assert Reach(children, ModelNames(schema), {a}) <= led;
  }

  lemma NoChain(schema: Schema, a: string)
    ensures WalkLeads(schema, a, a)
  {
    var es: seq<Edge> := [];
    assert Leads(schema, a, es, |es|) && ModelAt(a, es, |es|) == a;
  }

  lemma ConstraintModelsAreLedTo(schema: Schema, a: string, b: string)
    requires b in ConstraintModels(schema, a)
    ensures ConstraintsLead(schema, a, b)
  {
    hide WalkModels, ConstraintsLead, ConstraintChildren;
    var first := set n, c | n in WalkModels(schema, a) && c in ConstraintChildren(schema, n) :: c;
    var led := set n | n in ModelNames(schema) && ConstraintsLead(schema, a, n);
    forall n, m | n in WalkModels(schema, a) && m in ConstraintChildren(schema, n) ensures m in led {
      WalkModelsAreLedTo(schema, a, n);
      ConstraintsLeadOn(schema, a, n, m);
      ConstraintChildrenNamed(schema, n, m);
    }
    var children := n => ConstraintChildren(schema, n);
    forall n, m | n in led && m in children(n) && m in ModelNames(schema) ensures m in led {
      ConstraintsLeadOn(schema, a, n, m);
    }
    ReachLeast(children, ModelNames(schema), first);
    assert ConstraintModels(schema, a) == Reach(children, ModelNames(schema), first);
    assert Reach(children, ModelNames(schema), first) <= led;
  }

  lemma ConstraintChildrenNamed(schema: Schema, n: string, m: string)
    requires m in ConstraintChildren(schema, n)
    ensures m in ModelNames(schema)
  {
  }

  // ---- a database along a chain ---------------------------------------------------------------

  // Row 0 is a root of model a, and row t names row t - 1 through the t-th edge.

  function Id(t: nat): string {
    seq(t + 1, _ => 'x')
  }

  function KeyAt(a: string, es: seq<Edge>, t: nat): Key
    requires t <= |es|
  {
    Key(ModelAt(a, es, t), Id(t))
  }

  function RowAt(es: seq<Edge>, t: int): Row {
    Row(true, if 0 < t <= |es| then map[es[t - 1].rel.fkColumn := Some(Id(t - 1))] else map[], 0, map[])
  }

  function ChainRows(a: string, es: seq<Edge>): Rows {
    map k | k in set t | 0 <= t <= |es| :: KeyAt(a, es, t) :: RowAt(es, |k.id| - 1)
  }

  /** A chain of cascades that ends in a framework edge onto a row a constraint
      takes. */
  ghost predicate Detour(schema: Schema, a: string, es: seq<Edge>, i: nat) {
    && i + 1 < |es|
    && Leads(schema, a, es[..|es| - 1], i)
    && FrameworkEdge(schema, es[|es| - 1], ModelAt(a, es, |es| - 1))
  }

  lemma ChainHas(a: string, es: seq<Edge>, t: nat)
    requires t <= |es|
    ensures Live(ChainRows(a, es), KeyAt(a, es, t)) && ChainRows(a, es)[KeyAt(a, es, t)] == RowAt(es, t)
  {
    assert KeyAt(a, es, t) in set t | 0 <= t <= |es| :: KeyAt(a, es, t);
  }

  lemma ChainOnly(a: string, es: seq<Edge>, k: Key)
    requires k in ChainRows(a, es)
    ensures 1 <= |k.id| <= |es| + 1 && k == KeyAt(a, es, |k.id| - 1)
  {
  }

  /** What every edge of the chain is. */
  predicate Onto(schema: Schema, e: Edge, parent: string) {
    e.child in schema.models && e.rel in e.child.relations && e.rel.kind == BelongsTo && e.rel.relatedModel == parent
  }

  lemma DetourEdges(schema: Schema, a: string, es: seq<Edge>, i: nat, t: nat)
    requires Detour(schema, a, es, i) && t < |es|
    ensures Onto(schema, es[t], ModelAt(a, es, t))
    ensures t < i ==> CascadeEdge(schema, es[t], ModelAt(a, es, t))
    ensures i <= t < |es| - 1 ==> NativeCascade(schema, es[t], ModelAt(a, es, t))
    ensures t == |es| - 1 ==> FrameworkEdge(schema, es[t], ModelAt(a, es, t))
  {
    if t < |es| - 1 { assert Link(schema, a, es[..|es| - 1], i, t); }
  }

  /** Row t names row t - 1 through edge t, and nothing else is named at all. */
  lemma ChainNames(schema: Schema, a: string, es: seq<Edge>, i: nat, e: Edge, c: Key, p: Key)
    requires schema.WellFormed() && Detour(schema, a, es, i) && Onto(schema, e, p.model)
    requires Names(ChainRows(a, es), e, c, p)
    ensures 2 <= |c.id| <= |es| + 1 && c == KeyAt(a, es, |c.id| - 1)
    ensures e == es[|c.id| - 2] && p == KeyAt(a, es, |c.id| - 2)
  {
    hide Detour;
    ChainOnly(a, es, c);
    var t := |c.id| - 1;
    ChainHas(a, es, t);
    DetourEdges(schema, a, es, i, t - 1);
    assert e.child == es[t - 1].child && e.rel == es[t - 1].rel;
  }

  lemma ChainRefs(schema: Schema, a: string, es: seq<Edge>, i: nat, t: nat)
    requires Detour(schema, a, es, i) && t < |es|
    ensures RefsVia(ChainRows(a, es), es[t], KeyAt(a, es, t + 1), KeyAt(a, es, t))
  {
    ChainHas(a, es, t + 1);
  }

  /** The first i + 1 rows of the chain: all the walk may visit. */
  function Front(a: string, es: seq<Edge>, i: nat): set<Key>
    requires i <= |es|
  {
    set t | 0 <= t <= i :: KeyAt(a, es, t)
  }

  lemma InFront(a: string, es: seq<Edge>, i: nat, t: nat)
    requires i <= |es| && t <= |es|
    ensures KeyAt(a, es, t) in Front(a, es, i) <==> t <= i
  {
    if t <= i { assert KeyAt(a, es, t) in Front(a, es, i); }
    forall u: nat | u <= |es| && KeyAt(a, es, u) == KeyAt(a, es, t) ensures u == t { assert |Id(u)| == |Id(t)|; }
  }

  lemma FrontClosed(schema: Schema, a: string, es: seq<Edge>, i: nat)
    requires schema.WellFormed() && Detour(schema, a, es, i)
    ensures Closed(schema, ChainRows(a, es), KeyAt(a, es, 0), Front(a, es, i))
  {
    hide Detour, FrameworkEdge, NativeEdge, ChainRows;
    DetourLength(schema, a, es, i);
    InFront(a, es, i, 0);
    forall e, p, c | p in Front(a, es, i) && CascadeEdge(schema, e, p.model) && RefsVia(ChainRows(a, es), e, c, p)
      ensures c in Front(a, es, i)
    {
      EdgesOnto(schema, e, p.model);
      ChainNames(schema, a, es, i, e, c, p);
      var t := |c.id| - 2;
      InFront(a, es, i, t);
      InFront(a, es, i, t + 1);
      DetourEdges(schema, a, es, i, t);
      EnforcedOnce(schema, e, p.model);
    }
  }

  lemma DetourLength(schema: Schema, a: string, es: seq<Edge>, i: nat)
    requires Detour(schema, a, es, i)
    ensures i + 1 < |es|
  {
  }

  lemma EdgesOnto(schema: Schema, e: Edge, parent: string)
    ensures FrameworkEdge(schema, e, parent) || NativeEdge(schema, e, parent) ==> Onto(schema, e, parent)
  {
  }

  /** A row the chain reaches by a framework edge goes with no row by a constraint. */
  lemma NotBelow(schema: Schema, a: string, es: seq<Edge>, i: nat, t: nat, V: set<Key>)
    requires schema.WellFormed() && Detour(schema, a, es, i)
    requires t < |es| && FrameworkEdge(schema, es[t], ModelAt(a, es, t)) && KeyAt(a, es, t + 1) !in V
    ensures !Below(schema, ChainRows(a, es), V, KeyAt(a, es, t + 1))
  {
    hide Detour, FrameworkEdge, NativeEdge, ChainRows;
    var rows, k := ChainRows(a, es), KeyAt(a, es, t + 1);
    var N := V + rows.Keys - {k};
    assert |k.id| == t + 2;
    forall e, p, c | p in N && NativeCascade(schema, e, p.model) && Names(rows, e, c, p) ensures c in N {
      EdgesOnto(schema, e, p.model);
      ChainNames(schema, a, es, i, e, c, p);
      EnforcedOnce(schema, es[t], ModelAt(a, es, t));
    }
    assert NativelyClosed(schema, rows, N);
  }

  lemma {:induction false} FrontVisited(schema: Schema, a: string, es: seq<Edge>, i: nat, after: Rows, V: set<Key>, t: nat)
    requires schema.WellFormed() && Detour(schema, a, es, i) && t <= i
    requires Removal(schema, ChainRows(a, es), KeyAt(a, es, 0), after, V)
    ensures KeyAt(a, es, t) in V
  {
    hide Detour, FrameworkEdge, Closed, NullsJustified, KeepsCascade, Integrity, Shrinks, Below, ChainRows;
    if t > 0 {
      DetourLength(schema, a, es, i);
      FrontVisited(schema, a, es, i, after, V, t - 1);
      DetourEdges(schema, a, es, i, t - 1);
      ChainRefs(schema, a, es, i, t - 1);
      ChainHas(a, es, t);
      assert Settled(schema, ChainRows(a, es), after, V, KeyAt(a, es, t - 1));
      if KeyAt(a, es, t) !in V {
        NotBelow(schema, a, es, i, t - 1, V);
        assert false;
      }
    }
  }

  lemma {:induction false} ChainGone(schema: Schema, a: string, es: seq<Edge>, i: nat, after: Rows, V: set<Key>, t: nat)
    requires schema.WellFormed() && Detour(schema, a, es, i) && t < |es|
    requires Removal(schema, ChainRows(a, es), KeyAt(a, es, 0), after, V)
    ensures KeyAt(a, es, t) in Gone(ChainRows(a, es), after)
  {
    hide Detour, FrameworkEdge, NativeEdge, WalkInv, ChainRows, Settled;
    var start := ChainRows(a, es);
    ChainHas(a, es, t);
    if t <= i {
      FrontVisited(schema, a, es, i, after, V, t);
    } else {
      ChainGone(schema, a, es, i, after, V, t - 1);
      GoneNativelyClosed(schema, start, KeyAt(a, es, 0), after, V);
      DetourEdges(schema, a, es, i, t - 1);
      ChainRefs(schema, a, es, i, t - 1);
      assert Names(start, es[t - 1], KeyAt(a, es, t), KeyAt(a, es, t - 1));
    }
  }

  /** However it goes, deleting the root of the chain leaves its last row naming a
      row that is gone. */
  lemma EveryRemovalDangles(schema: Schema, a: string, es: seq<Edge>, i: nat, after: Rows)
    requires schema.WellFormed() && Detour(schema, a, es, i)
    requires Removed(schema, ChainRows(a, es), KeyAt(a, es, 0), after)
    ensures var n := |es| - 1;
            && FrameworkEdge(schema, es[n], KeyAt(a, es, n).model)
            && KeyAt(a, es, n) in Gone(ChainRows(a, es), after)
            && RefsVia(after, es[n], KeyAt(a, es, n + 1), KeyAt(a, es, n))
  {
    hide FrameworkEdge, NullsJustified, KeepsCascade, Integrity, Shrinks, Below, ChainRows, Closed, Settled;
    var start, n := ChainRows(a, es), |es| - 1;
    var V :| Removal(schema, start, KeyAt(a, es, 0), after, V);
    ChainGone(schema, a, es, i, after, V, n);
    FrontClosed(schema, a, es, i);
    InFront(a, es, i, n);
    InFront(a, es, i, n + 1);
    ChainHas(a, es, n + 1);
    NotBelow(schema, a, es, i, n, V);
    ChainRefs(schema, a, es, i, n);
    UnvisitedKeptRef(schema, start, KeyAt(a, es, 0), after, V, es[n], KeyAt(a, es, n + 1), KeyAt(a, es, n));
  }

  /** What is left when the delete of the root succeeds. */
  function Remainder(a: string, es: seq<Edge>): Rows {
    map[KeyAt(a, es, |es|) := RowAt(es, |es|)]
  }

  lemma FrontLeast(schema: Schema, a: string, es: seq<Edge>, i: nat, T: set<Key>, t: nat)
    requires schema.WellFormed() && Detour(schema, a, es, i) && t <= i
    requires Closed(schema, ChainRows(a, es), KeyAt(a, es, 0), T)
    ensures KeyAt(a, es, t) in T
  {
    hide Detour, FrameworkEdge, ChainRows;
    if t > 0 {
      DetourLength(schema, a, es, i);
      FrontLeast(schema, a, es, i, T, t - 1);
      DetourEdges(schema, a, es, i, t - 1);
      ChainRefs(schema, a, es, i, t - 1);
    }
  }

  lemma ChainBelow(schema: Schema, a: string, es: seq<Edge>, i: nat, t: nat, N: set<Key>)
    requires schema.WellFormed() && Detour(schema, a, es, i) && t < |es|
    requires Front(a, es, i) <= N && NativelyClosed(schema, ChainRows(a, es), N)
    ensures KeyAt(a, es, t) in N
  {
    hide Detour, FrameworkEdge, NativeEdge, ChainRows, Front;
    DetourLength(schema, a, es, i);
    if t <= i {
      InFront(a, es, i, t);
    } else {
      ChainBelow(schema, a, es, i, t - 1, N);
      DetourEdges(schema, a, es, i, t - 1);
      ChainRefs(schema, a, es, i, t - 1);
      assert Names(ChainRows(a, es), es[t - 1], KeyAt(a, es, t), KeyAt(a, es, t - 1));
    }
  }

  lemma RemainderLive(a: string, es: seq<Edge>, k: Key)
    ensures Live(Remainder(a, es), k) <==> k == KeyAt(a, es, |es|)
    ensures Live(Remainder(a, es), k) ==> Live(ChainRows(a, es), k) && Remainder(a, es)[k] == ChainRows(a, es)[k]
    ensures Live(ChainRows(a, es), k) && !Live(Remainder(a, es), k) ==> 1 <= |k.id| <= |es| && k == KeyAt(a, es, |k.id| - 1)
  {
    ChainHas(a, es, |es|);
    if k in ChainRows(a, es) { ChainOnly(a, es, k); }
  }

  lemma RemainderSettled(schema: Schema, a: string, es: seq<Edge>, i: nat, q: Key)
    requires schema.WellFormed() && Detour(schema, a, es, i) && q in Front(a, es, i)
    ensures Settled(schema, ChainRows(a, es), Remainder(a, es), Front(a, es, i), q) && !Live(Remainder(a, es), q)
  {
    hide Detour, FrameworkEdge, ChainRows, Remainder, Front;
    var start, after := ChainRows(a, es), Remainder(a, es);
    DetourLength(schema, a, es, i);
    RemainderLive(a, es, q);
    InFront(a, es, i, |es|);
    InFront(a, es, i, |es| - 1);
    forall e, c | FrameworkEdge(schema, e, q.model) && RefsVia(start, e, c, q) ensures !Live(after, c) {
      EdgesOnto(schema, e, q.model);
      ChainNames(schema, a, es, i, e, c, q);
      RemainderLive(a, es, c);
    }
    forall e, c | FrameworkEdge(schema, e, q.model) ensures !RefsVia(after, e, c, q) {
      RemainderLive(a, es, c);
      assert RefsVia(after, e, c, q) ==> RefsVia(start, e, c, q);
    }
  }

  lemma RemainderIntact(schema: Schema, a: string, es: seq<Edge>, i: nat)
    requires schema.WellFormed() && Detour(schema, a, es, i)
    ensures Integrity(schema, ChainRows(a, es), Remainder(a, es))
  {
    hide Detour, FrameworkEdge, NativeEdge, ChainRows, Remainder;
    DetourLength(schema, a, es, i);
    forall e: Edge, c: Key, q: Key | NativeEdge(schema, e, q.model) ensures !Names(Remainder(a, es), e, c, q) {
      RemainderLive(a, es, c);
      if Names(Remainder(a, es), e, c, q) {
        assert Names(ChainRows(a, es), e, c, q);
        EdgesOnto(schema, e, q.model);
        ChainNames(schema, a, es, i, e, c, q);
        DetourEdges(schema, a, es, i, |es| - 1);
        EnforcedOnce(schema, e, q.model);
        assert false;
      }
    }
  }

  lemma RemainderRemoved(schema: Schema, a: string, es: seq<Edge>, i: nat)
    requires schema.WellFormed() && Detour(schema, a, es, i)
    ensures Removed(schema, ChainRows(a, es), KeyAt(a, es, 0), Remainder(a, es))
  {
    hide Detour, FrameworkEdge, NativeEdge, ChainRows, Remainder, Front, Closed, Settled, Integrity, NativelyClosed;
    DetourLength(schema, a, es, i);
    var start, after, V := ChainRows(a, es), Remainder(a, es), Front(a, es, i);
    forall k ensures Live(after, k) ==> Live(start, k) && after[k] == start[k] { RemainderLive(a, es, k); }
    RemainderKeys(schema, a, es);
    RemainderIntact(schema, a, es, i);
    InFront(a, es, i, 0);
    forall k | Live(start, k) && !Live(after, k) ensures Below(schema, start, V, k) {
      RemainderLive(a, es, k);
      forall N | V <= N && NativelyClosed(schema, start, N) ensures k in N { ChainBelow(schema, a, es, i, |k.id| - 1, N); }
    }
    forall T | Closed(schema, start, KeyAt(a, es, 0), T) ensures V <= T { FrontWithin(schema, a, es, i, T); }
    forall q | q in V ensures Settled(schema, start, after, V, q) && !Live(after, q) { RemainderSettled(schema, a, es, i, q); }
    assert Removal(schema, start, KeyAt(a, es, 0), after, V);
  }

  lemma FrontWithin(schema: Schema, a: string, es: seq<Edge>, i: nat, T: set<Key>)
    requires schema.WellFormed() && Detour(schema, a, es, i)
    requires Closed(schema, ChainRows(a, es), KeyAt(a, es, 0), T)
    ensures Front(a, es, i) <= T
  {
    hide Detour, FrameworkEdge, ChainRows, Closed;
    DetourLength(schema, a, es, i);
    forall k | k in Front(a, es, i) ensures k in T {
      var t :| 0 <= t <= i && k == KeyAt(a, es, t);
      FrontLeast(schema, a, es, i, T, t);
    }
  }

  lemma RemainderKeys(schema: Schema, a: string, es: seq<Edge>)
    ensures Remainder(a, es).Keys <= ChainRows(a, es).Keys
    ensures OnlySoftRowsDie(schema, Remainder(a, es)) && OnlySoftRowsDie(schema, ChainRows(a, es))
  {
    hide ModelAt;
    ChainHas(a, es, |es|);
  }

  /** Every successful delete of a row of model a leaves nothing dangling. */
  ghost predicate DeletesNeverDangle(schema: Schema, a: string) {
    forall start: Rows, root: Key, after: Rows {:trigger Removed(schema, start, root, after)} ::
      root.model == a && Live(start, root) && OnlySoftRowsDie(schema, start) && Removed(schema, start, root, after) ==>
        NoDangling(schema, after, Gone(start, after))
  }

  /** By the schema alone: the promise holds on every database exactly when the
      database deletes, on its own account, only from models no framework edge
      points at. */
  lemma NeverDanglesIff(schema: Schema, a: string)
    requires schema.WellFormed()
    ensures DeletesNeverDangle(schema, a) <==> NativeLeaves(schema, a)
  {
    hide Removed, NoDangling, Live, OnlySoftRowsDie, FrameworkEdge, ConstraintModels;
    if NativeLeaves(schema, a) {
      forall start: Rows, root: Key, after: Rows | root.model == a && Live(start, root) && OnlySoftRowsDie(schema, start) && Removed(schema, start, root, after)
        ensures NoDangling(schema, after, Gone(start, after))
      {
        RemovalConcludes(schema, start, root, after);
      }
      assert DeletesNeverDangle(schema, a);
    } else {
      var b, m, r :| b in ConstraintModels(schema, a) && m in schema.models && r in m.relations && FrameworkEdge(schema, Edge(m, r), b);
      DanglingDatabase(schema, a, b, Edge(m, r));
    }
  }

  lemma DanglingDatabase(schema: Schema, a: string, b: string, f: Edge)
    requires schema.WellFormed() && b in ConstraintModels(schema, a) && FrameworkEdge(schema, f, b)
    ensures !DeletesNeverDangle(schema, a)
  {
    hide FrameworkEdge, ConstraintModels, ConstraintsLead, Detour, DeletesNeverDangle;
    ConstraintModelsAreLedTo(schema, a, b);
    LedToDetour(schema, a, b, f);
    var es, i: nat :| Detour(schema, a, es, i) && ModelAt(a, es, |es|) == f.child.name;
    DetourDangles(schema, a, es, i);
  }

  lemma DetourDangles(schema: Schema, a: string, es: seq<Edge>, i: nat)
    requires schema.WellFormed() && Detour(schema, a, es, i)
    ensures !DeletesNeverDangle(schema, a)
  {
    hide Removed, FrameworkEdge, Detour, ChainRows, Remainder, OnlySoftRowsDie;
    DetourLength(schema, a, es, i);
    RemainderRemoved(schema, a, es, i);
    RemainderKeys(schema, a, es);
    ChainHas(a, es, 0);
    EveryRemovalDangles(schema, a, es, i, Remainder(a, es));
    assert !NoDangling(schema, Remainder(a, es), Gone(ChainRows(a, es), Remainder(a, es)));
  }

  // ---- the delete that dangles, run -------------------------------------------------------------

  lemma DetourIff(schema: Schema, a: string)
    requires schema.WellFormed()
    ensures !NativeLeaves(schema, a) <==> exists es, i: nat :: Detour(schema, a, es, i)
  {
    hide Detour, FrameworkEdge, Leads, ConstraintModels, ConstraintsLead;
    if !NativeLeaves(schema, a) {
      var b, m, r :| b in ConstraintModels(schema, a) && m in schema.models && r in m.relations && FrameworkEdge(schema, Edge(m, r), b);
      ConstraintModelsAreLedTo(schema, a, b);
      LedToDetour(schema, a, b, Edge(m, r));
    }
    if es, i: nat :| Detour(schema, a, es, i) {
      DetourDangles(schema, a, es, i);
      NeverDanglesIff(schema, a);
    }
  }

  lemma LedToDetour(schema: Schema, a: string, b: string, f: Edge)
    requires ConstraintsLead(schema, a, b) && FrameworkEdge(schema, f, b)
    ensures exists es, i: nat :: Detour(schema, a, es, i) && ModelAt(a, es, |es|) == f.child.name
  {
    hide FrameworkEdge, Leads;
    var es, i: nat :| Leads(schema, a, es, i) && i < |es| && ModelAt(a, es, |es|) == b;
    var all := es + [f];
    assert all[..|all| - 1] == es && ModelAt(a, all, |es|) == b;
    assert Detour(schema, a, all, i);
  }

  lemma BehindTheFront(schema: Schema, a: string, es: seq<Edge>, i: nat, e: Edge, c: Key, p: Key)
    requires schema.WellFormed() && Detour(schema, a, es, i)
    requires NativeCascade(schema, e, p.model) && Names(ChainRows(a, es), e, c, p)
    ensures c !in Front(a, es, i)
  {
    hide Detour, FrameworkEdge, NativeEdge, ChainRows, Front;
    DetourLength(schema, a, es, i);
    EdgesOnto(schema, e, p.model);
    ChainNames(schema, a, es, i, e, c, p);
    DetourEdges(schema, a, es, i, |c.id| - 2);
    EnforcedOnce(schema, e, p.model);
    InFront(a, es, i, |c.id| - 1);
  }

  /** What a constraint takes along lies behind the rows the walk reaches. */
  lemma TakenBehind(schema: Schema, a: string, es: seq<Edge>, i: nat, r: Key, q: Key)
    requires schema.WellFormed() && Detour(schema, a, es, i)
    requires q != r && q in NativeTaken(schema, ChainRows(a, es), {r})
    ensures q !in Front(a, es, i)
  {
    hide Detour, NativeCascade, ChainRows, NativeTaken, Front;
    DetourLength(schema, a, es, i);
    TakenLeast(schema, ChainRows(a, es), {r});
    var e: Edge, p: Key :| NativeCascade(schema, e, p.model) && Names(ChainRows(a, es), e, q, p);
    BehindTheFront(schema, a, es, i, e, q, p);
  }

  /** Nothing forbids the delete of a chain's root. */
  lemma ChainUnforbidden(schema: Schema, a: string, es: seq<Edge>, i: nat)
    requires schema.WellFormed() && Detour(schema, a, es, i)
    ensures !Forbidden(schema, ChainRows(a, es), KeyAt(a, es, 0))
  {
    hide Detour, FrameworkEdge, NativeEdge, ChainRows, NativeTaken, Closed, Front;
    DetourLength(schema, a, es, i);
    var start, root, F := ChainRows(a, es), KeyAt(a, es, 0), Front(a, es, i);
    FrontClosed(schema, a, es, i);
    forall e, c, q | RestrictedBy(schema, start, e, c, q) ensures q !in F { RestrictedNowhere(schema, a, es, i, e, c, q); }
    forall e, c, q ensures !RestrictedByConstraint(schema, start, e, c, q) { ConstraintNowhere(schema, a, es, i, e, c, q); }
    forall q, r | q != r && q in NativeTaken(schema, start, {r}) ensures q !in F { TakenBehind(schema, a, es, i, r, q); }
  }

  lemma RestrictedNowhere(schema: Schema, a: string, es: seq<Edge>, i: nat, e: Edge, c: Key, q: Key)
    requires schema.WellFormed() && Detour(schema, a, es, i) && RestrictedBy(schema, ChainRows(a, es), e, c, q)
    ensures q !in Front(a, es, i)
  {
    hide Detour, FrameworkEdge, NativeEdge, ChainRows, Front;
    DetourLength(schema, a, es, i);
    EdgesOnto(schema, e, q.model);
    ChainNames(schema, a, es, i, e, c, q);
    var t := |c.id| - 2;
    DetourEdges(schema, a, es, i, t);
    EnforcedOnce(schema, e, q.model);
    InFront(a, es, i, t);
  }

  lemma ConstraintNowhere(schema: Schema, a: string, es: seq<Edge>, i: nat, e: Edge, c: Key, q: Key)
    requires schema.WellFormed() && Detour(schema, a, es, i)
    ensures !RestrictedByConstraint(schema, ChainRows(a, es), e, c, q)
  {
    hide Detour, FrameworkEdge, NativeEdge, ChainRows;
    if RestrictedByConstraint(schema, ChainRows(a, es), e, c, q) {
      EdgesOnto(schema, e, q.model);
      ChainNames(schema, a, es, i, e, c, q);
      DetourEdges(schema, a, es, i, |c.id| - 2);
      EnforcedOnce(schema, e, q.model);
      assert false;
    }
  }

  /** Over a database that answers, the delete of the chain's root succeeds, and
      leaves the last row naming one that is gone. */
  method DeleteTheRoot(schema: Schema, agg: Aggregator, m: Model, es: seq<Edge>, ghost i: nat) returns (st: Status, rows: Rows)
    requires schema.WellFormed() && m in schema.models && Detour(schema, m.name, es, i)
    ensures st == Done
    ensures var n, start := |es| - 1, ChainRows(m.name, es);
            && FrameworkEdge(schema, es[n], KeyAt(m.name, es, n).model)
            && KeyAt(m.name, es, n) in Gone(start, rows)
            && RefsVia(rows, es[n], KeyAt(m.name, es, n + 1), KeyAt(m.name, es, n))
  {
    hide *;
    DetourLength(schema, m.name, es, i);
    ChainHas(m.name, es, 0);
    RemainderKeys(schema, m.name, es);
    RootOf(m.name, es);
    ChainUnforbidden(schema, m.name, es, i);
    var db := new Database(schema, ChainRows(m.name, es), true);
    var steps := new DefaultSteps(schema, agg);
    st := steps.DeleteRecord(db, m, Id(0));
    rows := db.rows;
    EveryRemovalDangles(schema, m.name, es, i, rows);
  }

  lemma RootOf(a: string, es: seq<Edge>)
    ensures KeyAt(a, es, 0) == Key(a, Id(0))
  {
  }

  // ---- one shop ------------------------------------------------------------------------------------

  // An Order owns Lines through a constraint, and a Line owns versioned Notes
  // through the walk.

  const LINE_FK := Relation(BelongsTo, "Order", "order_id", OnDelete.Cascade)
  const NOTE_FK := Relation(BelongsTo, "Line", "line_id", OnDelete.Cascade)
  const ORDERS := Model("Order", false, false, false, false, [])
  const LINES := Model("Line", false, false, false, false, [LINE_FK])
  const NOTES := Model("Note", false, true, false, false, [NOTE_FK])
  const SHOP := Schema([ORDERS, LINES, NOTES], [])

  const ORDER := Key("Order", "x")
  const LINE := Key("Line", "xx")
  const NOTE := Key("Note", "xxx")
  const STOCK: Rows := map[
    ORDER := Row(true, map[], 0, map[]),
    LINE := Row(true, map["order_id" := Some("x")], 0, map[]),
    NOTE := Row(true, map["line_id" := Some("xx")], 0, map[])]

  const LINE_EDGE := Edge(LINES, LINE_FK)
  const NOTE_EDGE := Edge(NOTES, NOTE_FK)

  lemma ShopWellFormed()
    ensures SHOP.WellFormed()
  {
    assert forall m :: m in SHOP.models ==> m == SHOP.models[0] || m == LINES || m == NOTES;
  }

  lemma ShopDetour()
    ensures Detour(SHOP, "Order", [LINE_EDGE, NOTE_EDGE], 0)
    ensures STOCK == ChainRows("Order", [LINE_EDGE, NOTE_EDGE])
    ensures ORDER == KeyAt("Order", [LINE_EDGE, NOTE_EDGE], 0) && LINE == KeyAt("Order", [LINE_EDGE, NOTE_EDGE], 1)
            && NOTE == KeyAt("Order", [LINE_EDGE, NOTE_EDGE], 2)
  {
    var es := [LINE_EDGE, NOTE_EDGE];
    assert SHOP.models[0] == ORDERS && SHOP.models[1] == LINES && SHOP.models[2] == NOTES;
    assert LINES.relations[0] == LINE_FK && NOTES.relations[0] == NOTE_FK;
    assert SHOP.Registered("Order") && SHOP.Registered("Line");
    assert Link(SHOP, "Order", es[..1], 0, 0);
    assert Id(0) == "x" && Id(1) == "xx" && Id(2) == "xxx";
    ChainHas("Order", es, 0);
    ChainHas("Order", es, 1);
    ChainHas("Order", es, 2);
    forall k | k in ChainRows("Order", es) ensures k == ORDER || k == LINE || k == NOTE { ChainOnly("Order", es, k); }
    assert STOCK.Keys == ChainRows("Order", es).Keys;
  }

  lemma ShopFacts()
    ensures SHOP.WellFormed() && ORDERS in SHOP.models && OnlySoftRowsDie(SHOP, STOCK)
    ensures Key(ORDERS.name, "x") == ORDER
    ensures !NativeLeaves(SHOP, "Order")
    ensures Live(STOCK, ORDER) && !Forbidden(SHOP, STOCK, ORDER)
  {
    hide Forbidden, Detour, NativeLeaves, Removed, NoDangling, ChainRows, Remainder;
    ShopWellFormed();
    ShopDetour();
    var es := [LINE_EDGE, NOTE_EDGE];
    ChainUnforbidden(SHOP, "Order", es, 0);
    RemainderRemoved(SHOP, "Order", es, 0);
    TheNoteDangles(Remainder("Order", es));
    assert Live(STOCK, ORDER);
    assert Removed(SHOP, STOCK, ORDER, Remainder("Order", es)) && ORDER.model == "Order";
    assert !DeletesNeverDangle(SHOP, "Order");
    NeverDanglesIff(SHOP, "Order");
    assert SHOP.models[0] == ORDERS;
  }

  lemma TheNoteDangles(after: Rows)
    requires Removed(SHOP, STOCK, ORDER, after)
    ensures !Live(after, LINE) && RefsVia(after, NOTE_EDGE, NOTE, LINE) && !NoDangling(SHOP, after, Gone(STOCK, after))
  {
    hide Detour, Removed, RefsVia, ChainRows;
    ShopWellFormed();
    ShopDetour();
    EveryRemovalDangles(SHOP, "Order", [LINE_EDGE, NOTE_EDGE], 0, after);
  }

  /** Deleting the Order walks nothing, the database takes the Line along, and the
      Note is left naming it. */
  method DeleteTheOrder(agg: Aggregator, reliable: bool) returns (st: Status, rows: Rows)
    ensures SHOP.WellFormed() && !NativeLeaves(SHOP, "Order")
    ensures reliable ==> st == Done
    ensures st == Done ==> !Live(rows, LINE) && RefsVia(rows, NOTE_EDGE, NOTE, LINE) && !NoDangling(SHOP, rows, Gone(STOCK, rows))
  {
    hide *;
    ShopFacts();
    var db := new Database(SHOP, STOCK, reliable);
    var steps := new DefaultSteps(SHOP, agg);
    st := steps.DeleteRecord(db, ORDERS, "x");
    rows := db.rows;
    if st == Done { TheNoteDangles(rows); }
  }
}
