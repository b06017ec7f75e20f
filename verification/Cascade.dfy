/** The cascading delete: the walk over a possibly cyclic row graph that deletes
    and nulls rows while it pages over them, and the recomputes it defers. */
module Cascade {
  import opened Wrappers
  import opened Ordering
  import opened CascadeModel
  import opened CascadeNative
  import opened CascadeLemmas
  import opened CascadeOutcome

  /** How many child ids one edge reads at a time. */
  const CASCADE_PAGE_SIZE: nat := 500

  datatype Status = Done | DbFault | NotFound | Restricted | ConstraintRefused | HistoryRefused

  /** The rows as one transaction sees them, under the foreign keys migrated from
      the registered models. A statement may fail unless the database is reliable. */
  class Database {
    const schema: Schema
    const reliable: bool
    var rows: Rows
    var log: seq<Event>

    constructor (schema: Schema, rows: Rows, reliable: bool)
      ensures this.schema == schema && this.rows == rows && this.reliable == reliable && log == []
    {
      this.schema, this.rows, this.reliable, log := schema, rows, reliable, [];
    }

    /** One page of ids of the visible rows naming pid in column col, past last
        in id order, and how many there are in all. */
    method FindMany(model: string, col: string, pid: string, last: string, limit: nat)
      returns (st: Status, ids: seq<string>, total: nat)
      ensures st == Done || st == DbFault
      ensures reliable ==> st == Done
      ensures st == Done ==> IsPage(ids, Matching(rows, model, col, pid, last), limit)
    {
      ids, total := [], 0;
      var reached: bool := *;
      if !reached && !reliable { return DbFault, ids, total; }
      var matching := Matching(rows, model, col, pid, last);
      ids := FirstPage(matching, limit);
      total := |matching|;
      st := Done;
    }

    method FindByID(k: Key) returns (st: Status, row: Option<Row>)
      ensures st == Done || st == NotFound || (st == DbFault && !reliable)
      ensures st == Done ==> Live(rows, k) && row == Some(rows[k])
      ensures st == NotFound ==> !Live(rows, k)
    {
      row := None;
      var reached: bool := *;
      if !reached && !reliable { return DbFault, row; }
      if !Live(rows, k) { return NotFound, row; }
      st, row := Done, Some(rows[k]);
    }

    /** UPDATE one visible row, setting column col to NULL. */
    method UpdateToNull(k: Key, col: string) returns (st: Status)
      modifies this
      ensures st == Done || st == NotFound || (st == DbFault && !reliable)
      ensures st == Done ==> Live(old(rows), k) && rows == Nulled(old(rows), k, col)
                             && log == old(log) + [Wrote(OpUpdate, k, old(rows)[k])]
      ensures st != Done ==> rows == old(rows) && log == old(log)
      ensures st == NotFound ==> !Live(old(rows), k)
    {
      var reached: bool := *;
      if !reached && !reliable { return DbFault; }
      if !Live(rows, k) { return NotFound; }
      log := log + [Wrote(OpUpdate, k, rows[k])];
      rows := rows[k := rows[k].(fks := rows[k].fks[col := None])];
      st := Done;
    }

    /** A soft delete of a soft-deleting model; of any other a DELETE, with what
        the constraints take along, null or refuse. */
    method Delete(model: Model, id: string) returns (st: Status)
      modifies this
      ensures st == Done || st == NotFound || st == ConstraintRefused || (st == DbFault && !reliable)
      ensures st == Done ==> Deletes(schema, old(rows), model.softDelete, Key(model.name, id), rows)
                             && log == old(log) + [Wrote(OpDelete, Key(model.name, id), old(rows)[Key(model.name, id)])]
      ensures st != Done ==> rows == old(rows) && log == old(log)
      ensures st == NotFound ==> !Live(old(rows), Key(model.name, id))
      ensures st == ConstraintRefused ==>
                !model.softDelete && Key(model.name, id) in old(rows)
                && NativelyRestricted(schema, old(rows), NativeTaken(schema, old(rows), {Key(model.name, id)}))
    {
      var k := Key(model.name, id);
      var reached: bool := *;
      if !reached && !reliable { return DbFault; }
      if k !in rows || (model.softDelete && !rows[k].live) { return NotFound; }
      if model.softDelete {
        log := log + [Wrote(OpDelete, k, rows[k])];
        rows := rows[k := rows[k].(live := false)];
      } else {
        var taken := NativeTaken(schema, rows, {k});
        if NativelyRestricted(schema, rows, taken) { return ConstraintRefused; }
        log := log + [Wrote(OpDelete, k, rows[k])];
        rows := Without(schema, rows, taken);
      }
      st := Done;
    }

    /** INSERT one history row. */
    method WriteHistory(op: Op, k: Key) returns (ok: bool)
      modifies `log
      ensures log == old(log) + [if ok then History(op, k) else HistoryFailed(op, k)]
      ensures reliable ==> ok
    {
      ok := *;
      ok := ok || reliable;
      log := log + [if ok then History(op, k) else HistoryFailed(op, k)];
    }

    /** Lock the parent row, aggregate its visible children, write the column. */
    method Recompute(agg: Aggregator, c: Rollup, pid: string) returns (st: Status)
      modifies this
      ensures st == Done || st == NotFound || (st == DbFault && !reliable)
      ensures st == Done ==> Live(old(rows), Key(c.parent, pid))
                             && rows == Retotalled(old(rows), agg, c, pid)
                             && log == old(log) + [Recomputed(c, pid)]
      ensures st != Done ==> rows == old(rows) && log == old(log)
      ensures st == NotFound ==> !Live(old(rows), Key(c.parent, pid))
    {
      var p := Key(c.parent, pid);
      var reached: bool := *;
      if !reached && !reliable { return DbFault; }
      if !Live(rows, p) { return NotFound; }
      var value := agg.eval(c, Children(rows, c, pid));
      rows := rows[p := rows[p].(totals := rows[p].totals[c.parentField := value])];
      log := log + [Recomputed(c, pid)];
      st := Done;
    }
  }

  /** The rows after pid's column for rollup c was set to the current aggregate. */
  function Retotalled(rows: Rows, agg: Aggregator, c: Rollup, pid: string): Rows
    requires Key(c.parent, pid) in rows
  {
    var p := Key(c.parent, pid);
    rows[p := rows[p].(totals := rows[p].totals[c.parentField := agg.eval(c, Children(rows, c, pid))])]
  }

  /** The state one delete carries across its recursion: the cycle guard and the
      recomputes it has earned but not performed. */
  class Sweep {
    var visited: set<Key>
    var pending: map<string, Pending>

    constructor (root: Key)
      ensures visited == {root} && pending == map[]
    {
      visited, pending := {root}, map[];
    }

    method Invalidate(c: Rollup, parentVal: Option<string>)
      modifies `pending
      ensures pending == InvalidateOne(old(pending), c, if parentVal.Some? then parentVal.value else "")
    {
      var id := if parentVal.Some? then parentVal.value else "";
      if id == "" { return; }
      pending := pending[PendingKey(c, id) := Pending(c, id)];
    }
  }

  /** What the framework owes a cascaded child beyond the row write. */
  datatype Hooks = Hooks(history: bool, rollups: seq<Rollup>)

  class DefaultSteps {
    const schema: Schema
    const agg: Aggregator

    constructor (schema: Schema, agg: Aggregator)
      ensures this.schema == schema && this.agg == agg
    {
      this.schema, this.agg := schema, agg;
    }

    /** Every relation that declares an onDelete action against the parent. */
    method ChildCascadeEdges(parent: string) returns (out: seq<Edge>)
      ensures forall e :: e in out <==> EdgeOnto(schema, e, parent)
    {
      out := [];
      var i := 0;
      while i < |schema.models|
        invariant 0 <= i <= |schema.models|
        invariant forall e :: e in out <==> EdgeOnto(schema, e, parent) && e.child in schema.models[..i]
      {
        var m := schema.models[i];
        var j := 0;
        while j < |m.relations|
          invariant 0 <= j <= |m.relations|
          invariant forall e :: e in out <==> EdgeOnto(schema, e, parent)
                                              && (e.child in schema.models[..i] || (e.child == m && e.rel in m.relations[..j]))
        {
          var rel := m.relations[j];
          if rel.kind == BelongsTo && rel.onDelete != NoAction && rel.relatedModel == parent {
            out := out + [Edge(m, rel)];
          }
          assert m.relations[..j + 1] == m.relations[..j] + [rel];
          j := j + 1;
        }
        assert m.relations[..j] == m.relations;
        assert schema.models[..i + 1] == schema.models[..i] + [m];
        i := i + 1;
      }
      assert schema.models[..i] == schema.models;
    }

    method CascadeHooksFor(child: Model) returns (h: Hooks)
      requires schema.WellFormed() && child in schema.models
      ensures HooksOf(h, child.name)
    {
      var rollups := [];
      var i := 0;
      while i < |schema.rollups|
        invariant 0 <= i <= |schema.rollups|
        invariant forall c :: c in rollups <==> c in schema.rollups[..i] && c.child == child.name
      {
        if schema.rollups[i].child == child.name {
          rollups := rollups + [schema.rollups[i]];
        }
        assert schema.rollups[..i + 1] == schema.rollups[..i] + [schema.rollups[i]];
        i := i + 1;
      }
      assert schema.rollups[..i] == schema.rollups;
      h := Hooks(child.versioned && schema.Registered(child.name + "History"), rollups);
    }

    predicate HooksOf(hooks: Hooks, child: string) {
      && hooks.history == schema.KeepsHistory(child)
      && (forall c | c in hooks.rollups :: c in schema.rollups && c.child == child)
      && (forall c | c in schema.rollups :: c.child == child ==> c in hooks.rollups)
    }

    /** Reads the row a cascade is about to write, when anything needs it. */
    method PreImage(db: Database, k: Key, hooks: Hooks) returns (st: Status, pre: Option<Row>)
      ensures st == Done || st == NotFound || (st == DbFault && !db.reliable)
      ensures st == Done ==> if !hooks.history && hooks.rollups == [] then pre == None else Live(db.rows, k) && pre == Some(db.rows[k])
      ensures st == NotFound ==> !Live(db.rows, k)
    {
      if !hooks.history && hooks.rollups == [] { return Done, None; }
      st, pre := db.FindByID(k);
    }

    lemma ItsHistoryRequired(child: Model)
      requires schema.WellFormed() && child in schema.models && schema.KeepsHistory(child.name) && child.versionedRequired
      ensures SomeHistoryRequired(schema)
    {
    }

    /** The bookkeeping the child's own DB step would have run. */
    method AfterCascadeWrite(db: Database, child: Model, hooks: Hooks, op: Op, id: string, pre: Option<Row>, sweep: Sweep)
      returns (st: Status)
      requires schema.WellFormed() && child in schema.models
      requires hooks.history == schema.KeepsHistory(child.name)
      modifies db`log, sweep`pending
      ensures st == Done || (st == HistoryRefused && !db.reliable)
      ensures st == HistoryRefused <==>
                hooks.history && child.versionedRequired && db.log == old(db.log) + [HistoryFailed(op, Key(child.name, id))]
      ensures st == HistoryRefused ==> SomeHistoryRequired(schema)
      ensures sweep.pending == if pre.Some? then CascadeLemmas.Invalidate(old(sweep.pending), hooks.rollups, pre.value) else old(sweep.pending)
      ensures var k := Key(child.name, id);
              if hooks.history then db.log == old(db.log) + [History(op, k)] || db.log == old(db.log) + [HistoryFailed(op, k)]
              else db.log == old(db.log)
      ensures db.reliable && hooks.history ==> db.log == old(db.log) + [History(op, Key(child.name, id))]
      ensures st == Done && FailsClosed(schema, old(db.log)) ==> FailsClosed(schema, db.log)
    {
      if pre.Some? {
        var i := 0;
        while i < |hooks.rollups|
          invariant 0 <= i <= |hooks.rollups| && db.log == old(db.log)
          invariant sweep.pending == CascadeLemmas.Invalidate(old(sweep.pending), hooks.rollups[..i], pre.value)
        {
          var c := hooks.rollups[i];
          sweep.Invalidate(c, if c.on in pre.value.fks then pre.value.fks[c.on] else None);
          assert hooks.rollups[..i + 1][..i] == hooks.rollups[..i];
          i := i + 1;
        }
        assert hooks.rollups[..i] == hooks.rollups;
      }
      if !hooks.history { return Done; }
      assert db.log == old(db.log);
      var ok := db.WriteHistory(op, Key(child.name, id));
      assert db.log[|old(db.log)|].History? <==> ok;
      if !ok && child.versionedRequired {
        ItsHistoryRequired(child);
        return HistoryRefused;
      }
      st := Done;
    }

    // ---- the walk ---------------------------------------------------------------

    ghost predicate Ready(db: Database, sweep: Sweep, start: Rows, root: Key)
      reads db, sweep
    {
      && schema.WellFormed() && db.schema == schema
      && WalkInv(schema, start, root, db.rows, sweep.visited)
      && Books(schema, start, db.rows, db.log, sweep.pending)
      && FailsClosed(schema, db.log)
    }

    /** What a call of the walk leaves behind, whether or not it ran to the end. */
    twostate predicate Walked(db: Database, sweep: Sweep, start: Rows, root: Key, st: Status)
      reads db, sweep
    {
      && Progress(schema, start, root, old(db.rows), old(sweep.visited), db.rows, sweep.visited)
      && Books(schema, start, db.rows, db.log, sweep.pending)
      && (st == Done ==> Finished(schema, start, old(sweep.visited), db.rows, sweep.visited) && FailsClosed(schema, db.log))
      && (st == Restricted ==> Refused(schema, start, root))
      && (st == ConstraintRefused ==> RefusedByConstraint(schema, start, root))
      && LogGrew(db.reliable, old(db.log), db.log)
      && (st == Done ==> DeletedBy(db.log, old(sweep.visited), sweep.visited))
      && (st == NotFound ==> Collides(schema, start, root))
      && (st == DbFault || st == HistoryRefused ==> !db.reliable)
      && (st == HistoryRefused ==> SomeHistoryRequired(schema))
    }

    /** Applies every onDelete edge pointing at the parent row. */
    method CascadeChildren(db: Database, parent: Model, pid: string, sweep: Sweep, ghost start: Rows, ghost root: Key)
      returns (st: Status)
      requires Ready(db, sweep, start, root)
      requires parent in schema.models && Key(parent.name, pid) in sweep.visited
      modifies db, sweep
      ensures Walked(db, sweep, start, root, st)
      ensures st == Done ==> Settled(schema, start, db.rows, sweep.visited, Key(parent.name, pid))
      ensures NoWalk(schema, parent.name) ==> st == Done && db.rows == old(db.rows) && sweep.visited == old(sweep.visited)
      ensures forall e :: OnlyEdge(schema, e, parent.name) ==>
                EdgeInTurn(schema, old(db.rows), old(sweep.visited), e, Key(parent.name, pid), db.rows, st == Done, st == NotFound,
                           OnePage(old(db.rows), e, pid))
      decreases start.Keys - sweep.visited, 5
    {
      hide Progress, WalkInv, Books, Shrinks, Settled, Finished, Refused, RefusedByConstraint, Collides, LogGrew, DeletedBy, TakenToo, FailsClosed, EdgeInTurn, OnePage, EdgeSettled,
        SoftRowsStay, OnlyEdge, NoWalk, EdgesSoFar;
      var edges := ChildCascadeEdges(parent.name);
      ghost var p := Key(parent.name, pid);
      ProgressReflexive(schema, start, root, db.rows, sweep.visited);
      LogRests(db.reliable, db.log, sweep.visited);
      NoEdgeYet(db.rows, sweep.visited, p);
      var i := 0;
      while i < |edges|
        invariant 0 <= i <= |edges|
        invariant Ready(db, sweep, start, root)
        invariant Walked(db, sweep, start, root, Done)
        invariant forall e :: e in edges[..i] && FrameworkEdge(schema, e, p.model) ==>
                    EdgeSettled(start, db.rows, sweep.visited, e, p)
        invariant NoWalk(schema, parent.name) ==> db.rows == old(db.rows) && sweep.visited == old(sweep.visited)
        invariant EdgesSoFar(edges[..i], old(db.rows), old(sweep.visited), p, db.rows, sweep.visited)
      {
        var edge := edges[i];
        assert edge in edges;
        ghost var rows1, visited1, log1 := db.rows, sweep.visited, db.log;
        BeforePage(start, root, old(db.rows), old(sweep.visited), rows1, visited1);
        if !DbEnforcedDelete(schema, parent, edge.child) {
          assert FrameworkEdge(schema, edge, p.model);
          st := ApplyCascadeEdge(db, parent, edge, pid, sweep, start, root);
          NextEdge(edges[..i], edge, p, old(db.rows), old(sweep.visited), rows1, visited1, db.rows, sweep.visited, st);
          Compose(start, root, old(db.rows), old(sweep.visited), rows1, visited1, db.rows, sweep.visited, st == Done,
                db.reliable, old(db.log), log1, db.log);
          if st != Done { return; }
          forall e | e in edges[..i] && FrameworkEdge(schema, e, p.model)
            ensures EdgeSettled(start, db.rows, sweep.visited, e, p)
          {
            EdgeSettledStays(start, rows1, visited1, db.rows, sweep.visited, e, p);
          }
        } else {
          assert !FrameworkEdge(schema, edge, p.model);
          SkippedEdge(edges[..i], edge, p, old(db.rows), old(sweep.visited), db.rows, sweep.visited);
        }
        assert edges[..i + 1] == edges[..i] + [edge];
        i := i + 1;
      }
      assert edges[..i] == edges;
      AllEdgesSettled(schema, start, db.rows, sweep.visited, p);
      AllEdges(edges, old(db.rows), old(sweep.visited), p, db.rows, sweep.visited);
      st := Done;
    }

    /** The edges dealt with so far, for a parent with one edge to walk. */
    ghost predicate EdgesSoFar(seen: seq<Edge>, r0: Rows, v0: set<Key>, p: Key, rows: Rows, visited: set<Key>) {
      forall e :: OnlyEdge(schema, e, p.model) ==>
        if e in seen then EdgeInTurn(schema, r0, v0, e, p, rows, true, false, OnePage(r0, e, p.id)) else rows == r0 && visited == v0
    }

    lemma NoEdgeYet(rows: Rows, visited: set<Key>, p: Key)
      ensures EdgesSoFar([], rows, visited, p, rows, visited)
    {
      hide OnlyEdge;
    }

    lemma NextEdge(seen: seq<Edge>, edge: Edge, p: Key, r0: Rows, v0: set<Key>, r1: Rows, v1: set<Key>, r2: Rows, v2: set<Key>, st: Status)
      requires FrameworkEdge(schema, edge, p.model) && EdgesSoFar(seen, r0, v0, p, r1, v1) && Shrinks(r0, r1) && v0 <= v1
      requires edge.rel.onDelete == Cascade && NoWalk(schema, edge.child.name) ==>
                 EdgeInTurn(schema, r1, v1, edge, p, r2, st == Done, st == NotFound, OnePage(r1, edge, p.id))
      ensures !NoWalk(schema, p.model)
      ensures st == Done ==> EdgesSoFar(seen + [edge], r0, v0, p, r2, v2)
      ensures forall e :: OnlyEdge(schema, e, p.model) ==>
                EdgeInTurn(schema, r0, v0, e, p, r2, st == Done, st == NotFound, OnePage(r0, e, p.id))
    {
      hide Shrinks, EdgeInTurn, OnePage;
      if OnlyEdge(schema, edge, p.model) && edge in seen {
        EdgeGoesOn(schema, r0, v0, edge, p, r1, v1, r2, st == Done, st == NotFound, OnePage(r0, edge, p.id), OnePage(r1, edge, p.id));
      }
      forall e | OnlyEdge(schema, e, p.model) ensures e == edge {}
    }

    lemma SkippedEdge(seen: seq<Edge>, edge: Edge, p: Key, r0: Rows, v0: set<Key>, rows: Rows, visited: set<Key>)
      requires !FrameworkEdge(schema, edge, p.model) && EdgesSoFar(seen, r0, v0, p, rows, visited)
      ensures EdgesSoFar(seen + [edge], r0, v0, p, rows, visited)
    {
      hide EdgeInTurn, OnePage;
      forall e | OnlyEdge(schema, e, p.model) ensures e != edge {}
    }

    lemma AllEdges(edges: seq<Edge>, r0: Rows, v0: set<Key>, p: Key, rows: Rows, visited: set<Key>)
      requires forall e :: e in edges <==> EdgeOnto(schema, e, p.model)
      requires EdgesSoFar(edges, r0, v0, p, rows, visited)
      ensures forall e :: OnlyEdge(schema, e, p.model) ==> EdgeInTurn(schema, r0, v0, e, p, rows, true, false, OnePage(r0, e, p.id))
    {
      hide EdgeInTurn, OnePage;
    }

    lemma Compose(start: Rows, root: Key, r0: Rows, v0: set<Key>, r1: Rows, v1: set<Key>, r2: Rows, v2: set<Key>, done: bool,
                  reliable: bool, l0: seq<Event>, l1: seq<Event>, l2: seq<Event>)
      requires LogGrew(reliable, l0, l1) && LogGrew(reliable, l1, l2) && DeletedBy(l1, v0, v1)
      requires done ==> DeletedBy(l2, v1, v2)
      ensures LogGrew(reliable, l0, l2)
      ensures done ==> DeletedBy(l2, v0, v2)
      requires Progress(schema, start, root, r0, v0, r1, v1) && Progress(schema, start, root, r1, v1, r2, v2)
      requires Finished(schema, start, v0, r1, v1)
      requires done ==> Finished(schema, start, v1, r2, v2)
      ensures Progress(schema, start, root, r0, v0, r2, v2)
      ensures WalkInv(schema, start, root, r2, v2) && Shrinks(r1, r2) && v1 <= v2
      ensures done ==> Finished(schema, start, v0, r2, v2)
    {
      hide DeletedBy;
      LogGrewTwice(reliable, l0, l1, l2);
      if done { DeletedByLater(l1, v0, v1, l2, v2); }
      ProgressTransitive(schema, start, root, r0, v0, r1, v1, r2, v2);
      if done { FinishedTransitive(schema, start, v0, r1, v1, r2, v2); }
    }

    method ApplyCascadeEdge(db: Database, parent: Model, edge: Edge, pid: string, sweep: Sweep, ghost start: Rows, ghost root: Key)
      returns (st: Status)
      requires Ready(db, sweep, start, root)
      requires FrameworkEdge(schema, edge, parent.name) && Key(parent.name, pid) in sweep.visited
      modifies db, sweep
      ensures Walked(db, sweep, start, root, st)
      ensures st == Done ==> EdgeSettled(start, db.rows, sweep.visited, edge, Key(parent.name, pid))
      ensures edge.rel.onDelete == Cascade && NoWalk(schema, edge.child.name) ==>
                EdgeInTurn(schema, old(db.rows), old(sweep.visited), edge, Key(parent.name, pid), db.rows, st == Done, st == NotFound,
                           OnePage(old(db.rows), edge, pid))
      decreases start.Keys - sweep.visited, 4
    {
      hide EdgeInTurn, OnePage;
      match edge.rel.onDelete
      case Restrict => st := CascadeRestrict(db, parent, edge, pid, sweep, start, root);
      case SetNull => st := CascadeSetNull(db, edge, pid, sweep, start, root, Key(parent.name, pid));
      case Cascade => st := CascadeDeleteRows(db, edge, pid, sweep, start, root, Key(parent.name, pid));
      case NoAction => assert false; st := Done;
    }

    /** Refuses the delete when a row came back, whatever total was reported. */
    method CascadeRestrict(db: Database, parent: Model, edge: Edge, pid: string, sweep: Sweep, ghost start: Rows, ghost root: Key)
      returns (st: Status)
      requires Ready(db, sweep, start, root)
      requires FrameworkEdge(schema, edge, parent.name) && edge.rel.onDelete == Restrict
      requires Key(parent.name, pid) in sweep.visited
      ensures Walked(db, sweep, start, root, st)
      ensures st == Done ==> EdgeSettled(start, db.rows, sweep.visited, edge, Key(parent.name, pid))
    {
      var found, ids, _ := db.FindMany(edge.child.name, edge.rel.fkColumn, pid, "", 1);
      if found != Done { return found; }
      ghost var p := Key(parent.name, pid);
      if |ids| == 0 {
        forall c ensures !RefsVia(db.rows, edge, c, p) {
          assert c.model == edge.child.name ==> c == Key(edge.child.name, c.id);
          assert c.id in Matching(db.rows, edge.child.name, edge.rel.fkColumn, pid, "") ==> c.id in ids;
        }
        return Done;
      }
      ghost var c := Key(edge.child.name, ids[0]);
      assert ids[0] in ids;
      assert Refs(db.rows, c, edge.rel.fkColumn, pid);
      assert RestrictedBy(schema, start, edge, c, p);
      assert Reached(schema, start, root, p);
      st := Restricted;
    }

    /** One page of child ids; a row without an id is dropped from it. */
    method ChildIDPage(db: Database, child: string, col: string, pid: string, last: string, limit: nat) returns (st: Status, ids: seq<string>)
      requires limit >= 2 || (limit == 1 && !Live(db.rows, Key(child, "")))
      ensures st == Done || (st == DbFault && !db.reliable)
      ensures st == Done ==> IDPage(db.rows, child, col, pid, last, ids)
      ensures st == Done && |Matching(db.rows, child, col, pid, last)| <= limit ==>
                forall x :: x != "" && Refs(db.rows, Key(child, x), col, pid) && Above(x, last) ==> x in ids
    {
      var found, page, _ := db.FindMany(child, col, pid, last, limit);
      ids := [];
      if found != Done { return found, ids; }
      assert limit == 1 ==> "" !in page;
      if |Matching(db.rows, child, col, pid, last)| <= limit { PageHoldsAll(page, Matching(db.rows, child, col, pid, last), limit); }
      var i := 0;
      while i < |page|
        invariant 0 <= i <= |page|
        invariant i > 0 && i < |page| ==> Less(page[0], page[i])
        invariant Ascending(ids)
        invariant forall x :: x in ids <==> x in page[..i] && x != ""
        invariant |ids| + 1 >= i && ("" !in page ==> |ids| == i)
      {
        if page[i] != "" {
          forall x | x in ids ensures Less(x, page[i]) {
            var j :| 0 <= j < |page[..i]| && page[..i][j] == x;
          }
          ids := ids + [page[i]];
        }
        assert page[..i + 1] == page[..i] + [page[i]];
        i := i + 1;
      }
      assert page[..i] == page;
      assert ids != [] ==> ids[|ids| - 1] in ids;
      st := Done;
    }

    /** The page loop by itself, over any callback that only deletes and nulls.
        Each id is handed on at most once, in id order, at a moment its row
        matched; an id that was skipped had stopped matching by the time some
        page was read; and the rows end as the callback left them. */
    method EachChildID(db: Database, child: string, col: string, pid: string, limit: nat, fn: (Rows, string) -> Rows)
      returns (st: Status, handed: seq<string>, ghost pages: seq<Rows>)
      requires limit >= 2 || (limit == 1 && !Live(db.rows, Key(child, "")))
      requires forall r, x :: Shrinks(r, fn(r, x))
      modifies db
      ensures st == Done || (st == DbFault && !db.reliable)
      ensures Ascending(handed)
      ensures db.rows == Applied(fn, old(db.rows), handed)
      ensures forall x :: x in handed ==> MatchedAtSomePage(pages, child, col, pid, x)
      ensures st == Done ==> forall x :: x != "" && Refs(old(db.rows), Key(child, x), col, pid) ==>
                x in handed || MissedAtSomePage(pages, child, col, pid, x)
      ensures st == Done ==> forall x :: x != "" && Refs(db.rows, Key(child, x), col, pid) ==> x in handed
    {
      hide Shrinks, IDPage, Applied, AboveKeys;
      var lastID := "";
      handed, pages := [], [];
      ghost var start := db.rows;
      NothingApplied(fn, start);
      while true
        invariant Shrinks(start, db.rows) && (forall i :: 0 <= i < |pages| ==> Shrinks(pages[i], db.rows))
        invariant limit == 1 ==> !Live(db.rows, Key(child, ""))
        invariant Ascending(handed) && (handed == [] <==> lastID == "") && (handed != [] ==> lastID == handed[|handed| - 1])
        invariant db.rows == Applied(fn, start, handed)
        invariant forall x :: x in handed ==> MatchedAtSomePage(pages, child, col, pid, x)
        invariant forall x :: x != "" && !Above(x, lastID) ==> x in handed || MissedAtSomePage(pages, child, col, pid, x)
        decreases AboveKeys(start, child, lastID)
      {
        var found, ids := ChildIDPage(db, child, col, pid, lastID, limit);
        if found != Done { return found, handed, pages; }
        ghost var page := db.rows;
        PageAdded(pages, page, child, col, pid);
        pages := pages + [page];
        NothingApplied(fn, page);
        PageExhausts(page, child, col, pid, lastID, ids, pages);
        if |ids| == 0 {
          MissedStaysMissed(pages, db.rows, child, col, pid);
          return Done, handed, pages;
        }
        PageAdvances(start, page, child, col, pid, lastID, ids);
        HandPage(db, ids, fn, pages);
        ApplyMore(fn, start, handed, ids);
        AppendPage(handed, lastID, ids);
        ShrinksTransitive(start, page, db.rows);
        if limit == 1 { DeadStaysDead(page, db.rows, Key(child, "")); }
        handed, lastID := handed + ids, ids[|ids| - 1];
      }
    }

    /** The callback applied to one page of ids. */
    method HandPage(db: Database, ids: seq<string>, fn: (Rows, string) -> Rows, ghost pages: seq<Rows>)
      requires forall r, x :: Shrinks(r, fn(r, x))
      requires forall i :: 0 <= i < |pages| ==> Shrinks(pages[i], db.rows)
      modifies db`rows
      ensures db.rows == Applied(fn, old(db.rows), ids)
      ensures Shrinks(old(db.rows), db.rows)
      ensures forall i :: 0 <= i < |pages| ==> Shrinks(pages[i], db.rows)
    {
      hide Shrinks, Applied;
      ghost var page := db.rows;
      NothingApplied(fn, page);
      var i := 0;
      while i < |ids|
        invariant 0 <= i <= |ids|
        invariant db.rows == Applied(fn, page, ids[..i])
        invariant Shrinks(page, db.rows) && (forall j :: 0 <= j < |pages| ==> Shrinks(pages[j], db.rows))
      {
        ghost var rows1 := db.rows;
        db.rows := fn(db.rows, ids[i]);
        ShrinksTransitive(page, rows1, db.rows);
        forall j | 0 <= j < |pages| ensures Shrinks(pages[j], db.rows) { ShrinksTransitive(pages[j], rows1, db.rows); }
        ApplyOne(fn, page, ids[..i], ids[i]);
        assert ids[..i + 1] == ids[..i] + [ids[i]];
        i := i + 1;
      }
      assert ids[..i] == ids;
    }

    /** The page loop of an edge, each page handed to the edge's own action. A row
        in front of the cursor is found whatever was deleted or nulled meanwhile. */
    method EachChild(db: Database, edge: Edge, pid: string, hooks: Hooks, sweep: Sweep, ghost start: Rows, ghost root: Key, ghost p: Key)
      returns (st: Status)
      requires Ready(db, sweep, start, root)
      requires FrameworkEdge(schema, edge, p.model) && (edge.rel.onDelete == SetNull || edge.rel.onDelete == Cascade)
      requires p.id == pid && p in sweep.visited && HooksOf(hooks, edge.child.name)
      modifies db, sweep
      ensures Walked(db, sweep, start, root, st)
      ensures st == Done ==> EdgeSettled(start, db.rows, sweep.visited, edge, p)
      ensures edge.rel.onDelete == SetNull ==> sweep.visited == old(sweep.visited)
      ensures edge.rel.onDelete == Cascade && NoWalk(schema, edge.child.name) ==>
                EdgeInTurn(schema, old(db.rows), old(sweep.visited), edge, p, db.rows, st == Done, st == NotFound, OnePage(old(db.rows), edge, pid))
      decreases start.Keys - sweep.visited, 2
    {
      hide Progress, WalkInv, Books, Shrinks, Settled, Finished, Refused, RefusedByConstraint, Collides, LogGrew, DeletedBy, TakenToo, FailsClosed, AboveKeys, IDPage,
        EdgeInTurn, PageInTurn, Matching, FrameworkEdge, Refs, NoWalk, EdgeSettled, Schema.WellFormed;
      var child := edge.child;
      var lastID := "";
      ghost var simple := edge.rel.onDelete == Cascade && NoWalk(schema, child.name);
      ProgressReflexive(schema, start, root, db.rows, sweep.visited);
      LogRests(db.reliable, db.log, sweep.visited);
      NothingInTurn(schema, db.rows, sweep.visited, edge, p);
      while true
        invariant Ready(db, sweep, start, root)
        invariant Walked(db, sweep, start, root, Done)
        invariant edge.rel.onDelete == SetNull ==> sweep.visited == old(sweep.visited)
        invariant forall c :: Ahead(start, db.rows, sweep.visited, edge, c, p) ==> Above(c.id, lastID)
        invariant lastID == "" ==> db.rows == old(db.rows) && sweep.visited == old(sweep.visited)
        invariant simple ==> EdgeInTurn(schema, old(db.rows), old(sweep.visited), edge, p, db.rows, true, false,
                                        lastID != "" && OnePage(old(db.rows), edge, pid))
        decreases AboveKeys(start, child.name, lastID)
      {
        var found, ids := ChildIDPage(db, child.name, edge.rel.fkColumn, pid, lastID, CASCADE_PAGE_SIZE);
        if found != Done {
          FaultInTurn(old(db.rows), old(sweep.visited), edge, p, db.rows);
          return found;
        }
        PageCovers(db.rows, edge, p, lastID, ids);
        ghost var rows1, visited1, log1 := db.rows, sweep.visited, db.log;
        BeforePage(start, root, old(db.rows), old(sweep.visited), rows1, visited1);
        forall c | Ahead(start, rows1, visited1, edge, c, p)
          ensures c.id in ids || (ids != [] && Above(c.id, ids[|ids| - 1]))
        {
          AheadIsThere(start, root, rows1, visited1, edge, c, p);
        }
        if |ids| == 0 {
          NobodyAhead(start, rows1, visited1, edge, p);
          if simple {
            NoPage(rows1, visited1, child.name);
            InTurn(old(db.rows), old(sweep.visited), edge, p, lastID, ids, rows1, visited1, db.rows, true, false);
          }
          return Done;
        }
        LastOfPage(start, root, db.rows, sweep.visited, edge, pid, lastID, ids);
        if edge.rel.onDelete == SetNull {
          st := NullPage(db, edge, pid, ids, hooks, sweep, start, root, p, lastID);
        } else {
          st := DeletePage(db, edge, pid, ids, hooks, sweep, start, root, p, lastID);
          if simple {
            InTurn(old(db.rows), old(sweep.visited), edge, p, lastID, ids, rows1, visited1, db.rows, st == Done, st == NotFound);
          }
        }
        Compose(start, root, old(db.rows), old(sweep.visited), rows1, visited1, db.rows, sweep.visited, st == Done,
                db.reliable, old(db.log), log1, db.log);
        if st != Done { return; }
        lastID := ids[|ids| - 1];
        forall c | Ahead(start, db.rows, sweep.visited, edge, c, p) ensures Above(c.id, lastID) {
          StillAhead(start, rows1, visited1, db.rows, sweep.visited, edge, c, p);
          assert c == Key(child.name, c.id);
        }
      }
    }

    /** One page holds every row that names pid through e. */
    predicate OnePage(rows: Rows, e: Edge, pid: string) {
      |Matching(rows, e.child.name, e.rel.fkColumn, pid, "")| <= 500
    }

    /** The pages so far and one more. */
    lemma InTurn(rows: Rows, visited: set<Key>, e: Edge, p: Key, last: string, ids: seq<string>, mid: Rows, v: set<Key>, after: Rows,
                 done: bool, missing: bool)
      requires last == "" ==> mid == rows && v == visited
      requires Shrinks(rows, mid) && visited <= v
      requires EdgeInTurn(schema, rows, visited, e, p, mid, true, false, last != "" && OnePage(rows, e, p.id))
      requires IDPage(mid, e.child.name, e.rel.fkColumn, p.id, last, ids)
      requires last == "" && OnePage(rows, e, p.id) ==> forall x :: x != "" && Refs(rows, Key(e.child.name, x), e.rel.fkColumn, p.id) ==> x in ids
      requires PageInTurn(schema, mid, v, e.child.name, ids, after, done, missing)
      ensures EdgeInTurn(schema, rows, visited, e, p, after, done, missing, OnePage(rows, e, p.id))
    {
      hide EdgeInTurn, PageInTurn, OnePage, Shrinks, IDPage;
      if last == "" {
        forall c | OnePage(rows, e, p.id) && RefsVia(rows, e, c, p) ensures c.id in ids { assert c == Key(e.child.name, c.id); }
        PageOfEdge(schema, rows, visited, e, p, last, ids, after, done, missing, OnePage(rows, e, p.id));
      } else {
        PageOfEdge(schema, mid, v, e, p, last, ids, after, done, missing, false);
        EdgeGoesOn(schema, rows, visited, e, p, mid, v, after, done, missing, OnePage(rows, e, p.id), false);
      }
    }

    lemma FaultInTurn(rows: Rows, visited: set<Key>, e: Edge, p: Key, after: Rows)
      ensures EdgeInTurn(schema, rows, visited, e, p, after, false, false, OnePage(rows, e, p.id))
    {
    }

    lemma NoPage(rows: Rows, visited: set<Key>, model: string)
      ensures PageInTurn(schema, rows, visited, model, [], rows, true, false)
    {
    }

    lemma BeforePage(start: Rows, root: Key, r0: Rows, v0: set<Key>, r1: Rows, v1: set<Key>)
      requires Progress(schema, start, root, r0, v0, r1, v1)
      ensures Shrinks(r0, r1) && v0 <= v1
    {
    }

    /** A child the edge's action has still to deal with. */
    predicate Ahead(start: Rows, rows: Rows, visited: set<Key>, e: Edge, c: Key, p: Key) {
      if e.rel.onDelete == SetNull then RefsVia(rows, e, c, p) else RefsVia(start, e, c, p) && c !in visited && Live(rows, c)
    }

    lemma AheadIsThere(start: Rows, root: Key, rows: Rows, visited: set<Key>, e: Edge, c: Key, p: Key)
      requires WalkInv(schema, start, root, rows, visited) && FrameworkEdge(schema, e, p.model)
      requires e.rel.onDelete == SetNull || e.rel.onDelete == Cascade
      requires Ahead(start, rows, visited, e, c, p)
      ensures RefsVia(rows, e, c, p)
    {
      if e.rel.onDelete == Cascade { StillThere(schema, start, root, rows, visited, e, c, p); }
    }

    lemma NobodyAhead(start: Rows, rows: Rows, visited: set<Key>, e: Edge, p: Key)
      requires e.rel.onDelete == SetNull || e.rel.onDelete == Cascade
      requires forall c :: !Ahead(start, rows, visited, e, c, p)
      ensures EdgeSettled(start, rows, visited, e, p)
    {
      forall c ensures e.rel.onDelete == Cascade && RefsVia(start, e, c, p) ==> c in visited || !Live(rows, c) {
        assert !Ahead(start, rows, visited, e, c, p);
      }
      forall c ensures e.rel.onDelete == SetNull ==> !RefsVia(rows, e, c, p) { assert !Ahead(start, rows, visited, e, c, p); }
    }

    lemma StillAhead(start: Rows, r1: Rows, v1: set<Key>, r2: Rows, v2: set<Key>, e: Edge, c: Key, p: Key)
      requires Shrinks(r1, r2) && v1 <= v2 && Ahead(start, r2, v2, e, c, p)
      ensures Ahead(start, r1, v1, e, c, p)
    {
    }

    /** Nulls the foreign key of each referencing child row. */
    method CascadeSetNull(db: Database, edge: Edge, pid: string, sweep: Sweep, ghost start: Rows, ghost root: Key, ghost p: Key)
      returns (st: Status)
      requires Ready(db, sweep, start, root)
      requires FrameworkEdge(schema, edge, p.model) && edge.rel.onDelete == SetNull && p.id == pid && p in sweep.visited
      modifies db, sweep
      ensures Walked(db, sweep, start, root, st)
      ensures st == Done ==> EdgeSettled(start, db.rows, sweep.visited, edge, p)
      ensures sweep.visited == old(sweep.visited)
      decreases start.Keys - sweep.visited, 3
    {
      var hooks := CascadeHooksFor(edge.child);
      st := EachChild(db, edge, pid, hooks, sweep, start, root, p);
    }

    lemma LastOfPage(start: Rows, root: Key, rows: Rows, visited: set<Key>, e: Edge, pid: string, last: string, ids: seq<string>)
      requires WalkInv(schema, start, root, rows, visited)
      requires IDPage(rows, e.child.name, e.rel.fkColumn, pid, last, ids) && ids != []
      ensures ids[|ids| - 1] != "" && AboveKeys(start, e.child.name, ids[|ids| - 1]) < AboveKeys(start, e.child.name, last)
    {
      var next := ids[|ids| - 1];
      assert next in ids;
      NextPageBounds(start, rows, e.child.name, last, next);
    }

    /** fn applied to every id of one page. */
    method NullPage(db: Database, edge: Edge, pid: string, ids: seq<string>, hooks: Hooks, sweep: Sweep,
                    ghost start: Rows, ghost root: Key, ghost p: Key, ghost last: string)
      returns (st: Status)
      requires Ready(db, sweep, start, root)
      requires FrameworkEdge(schema, edge, p.model) && edge.rel.onDelete == SetNull && p.id == pid && p in sweep.visited
      requires IDPage(db.rows, edge.child.name, edge.rel.fkColumn, pid, last, ids)
      requires HooksOf(hooks, edge.child.name)
      modifies db, sweep`pending
      ensures Walked(db, sweep, start, root, st)
      ensures st == Done ==> forall c :: RefsVia(db.rows, edge, c, p) ==> c.id !in ids
    {
      hide WalkInv, Books, Shrinks, Settled, Finished, Refused, RefusedByConstraint, Collides, LogGrew, DeletedBy, TakenToo, FailsClosed, Nulled, IDPage;
      var child := edge.child;
      ProgressReflexive(schema, start, root, db.rows, sweep.visited);
      LogRests(db.reliable, db.log, sweep.visited);
      PageRefs(db.rows, edge, pid, last, ids);
      var i := 0;
      while i < |ids|
        invariant 0 <= i <= |ids|
        invariant Ready(db, sweep, start, root)
        invariant Walked(db, sweep, start, root, Done)
        invariant forall j :: i <= j < |ids| ==> ids[j] != "" && Refs(db.rows, Key(child.name, ids[j]), edge.rel.fkColumn, pid)
        invariant forall c :: RefsVia(db.rows, edge, c, p) ==> c.id !in ids[..i]
      {
        ghost var rows1, visited1, log1 := db.rows, sweep.visited, db.log;
        st := NullOne(db, child, edge, ids[i], hooks, sweep, start, root, p);
        Compose(start, root, old(db.rows), old(sweep.visited), rows1, visited1, db.rows, sweep.visited, st == Done,
                db.reliable, old(db.log), log1, db.log);
        if st != Done { return; }
        OneNulled(rows1, db.rows, edge, p, ids, i);
        i := i + 1;
      }
      assert ids[..i] == ids;
      st := Done;
    }

    lemma PageRefs(rows: Rows, edge: Edge, pid: string, last: string, ids: seq<string>)
      requires IDPage(rows, edge.child.name, edge.rel.fkColumn, pid, last, ids)
      ensures forall j :: 0 <= j < |ids| ==> ids[j] != "" && Refs(rows, Key(edge.child.name, ids[j]), edge.rel.fkColumn, pid)
      ensures forall i, j :: 0 <= i < j < |ids| ==> ids[j] != ids[i]
    {
      forall j | 0 <= j < |ids| ensures ids[j] != "" && Refs(rows, Key(edge.child.name, ids[j]), edge.rel.fkColumn, pid) { assert ids[j] in ids; }
      forall i, j | 0 <= i < j < |ids| ensures ids[j] != ids[i] { LessIrreflexive(ids[i]); }
    }

    lemma OneNulled(rows: Rows, rows': Rows, edge: Edge, p: Key, ids: seq<string>, i: nat)
      requires i < |ids| && Shrinks(rows, rows') && Key(edge.child.name, ids[i]) in rows
      requires forall j :: i <= j < |ids| ==> ids[j] != "" && Refs(rows, Key(edge.child.name, ids[j]), edge.rel.fkColumn, p.id)
      requires forall j :: i < j < |ids| ==> ids[j] != ids[i]
      requires rows' == Nulled(rows, Key(edge.child.name, ids[i]), edge.rel.fkColumn)
      requires forall c :: RefsVia(rows, edge, c, p) ==> c.id !in ids[..i]
      ensures forall j :: i < j < |ids| ==> Refs(rows', Key(edge.child.name, ids[j]), edge.rel.fkColumn, p.id)
      ensures forall c :: RefsVia(rows', edge, c, p) ==> c.id !in ids[..i + 1]
    {
      forall c | RefsVia(rows', edge, c, p) ensures c.id !in ids[..i + 1] {
        RefsShrink(rows, rows', c, edge.rel.fkColumn, p.id);
        assert RefsVia(rows, edge, c, p);
        assert ids[..i + 1] == ids[..i] + [ids[i]];
        assert c == Key(edge.child.name, c.id);
      }
    }

    method NullOne(db: Database, child: Model, edge: Edge, id: string, hooks: Hooks, sweep: Sweep,
                   ghost start: Rows, ghost root: Key, ghost p: Key)
      returns (st: Status)
      requires Ready(db, sweep, start, root)
      requires FrameworkEdge(schema, edge, p.model) && edge.rel.onDelete == SetNull && child == edge.child
      requires p in sweep.visited && RefsVia(db.rows, edge, Key(child.name, id), p)
      requires HooksOf(hooks, child.name)
      modifies db, sweep`pending
      ensures Walked(db, sweep, start, root, st)
      ensures st == Done ==> db.rows == Nulled(old(db.rows), Key(child.name, id), edge.rel.fkColumn)
    {
      hide WalkInv, Books, Shrinks, Settled, Finished, Refused, RefusedByConstraint, Collides, LogGrew, DeletedBy, TakenToo, FailsClosed,
        SpareRollupChildren, TotalsUntouched, SoftRowsStay;
      var k := Key(child.name, id);
      ProgressReflexive(schema, start, root, db.rows, sweep.visited);
      LogRests(db.reliable, db.log, sweep.visited);
      var read, pre := PreImage(db, k, hooks);
      if read != Done { return read; }
      ghost var rows1, log1, pending1 := db.rows, db.log, sweep.pending;
      st := db.UpdateToNull(k, edge.rel.fkColumn);
      if st != Done { return; }
      NulledKeeps(schema, start, root, rows1, sweep.visited, edge, k, p);
      NulledSpares(schema, rows1, k, edge.rel.fkColumn);
      NullingStays(schema, rows1, k, edge.rel.fkColumn);
      NulledLive(rows1, k, edge.rel.fkColumn);
      NothingMarked(schema, start, db.rows, sweep.visited);
      WroteFailsClosed(log1, db.log[|log1|]);
      st := AfterCascadeWrite(db, child, hooks, OpUpdate, id, pre, sweep);
      WriteLogged(db.reliable, log1, OpUpdate, k, rows1[k], db.log);
      LogRests(db.reliable, db.log, sweep.visited);
      Booked(start, rows1, log1, pending1, db.rows, OpUpdate, k, db.log, hooks, pre);
    }

    /** The books balance again once a write's bookkeeping has run. */
    lemma Booked(start: Rows, rows: Rows, log: seq<Event>, pending: map<string, Pending>, rows': Rows, op: Op, k: Key,
                 log': seq<Event>, hooks: Hooks, pre: Option<Row>)
      requires schema.WellFormed() && Books(schema, start, rows, log, pending)
      requires Live(rows, k) && Shrinks(rows, rows') && (op == OpDelete ==> !Live(rows', k))
      requires SpareRollupChildren(schema, rows, rows', k) && TotalsUntouched(rows, rows')
      requires HooksOf(hooks, k.model)
      requires if !hooks.history && hooks.rollups == [] then pre == None else pre == Some(rows[k])
      requires var w := log + [Wrote(op, k, rows[k])];
               if hooks.history then log' == w + [History(op, k)] || log' == w + [HistoryFailed(op, k)] else log' == w
      ensures Books(schema, start, rows', log',
                    if pre.Some? then CascadeLemmas.Invalidate(pending, hooks.rollups, pre.value) else pending)
    {
      hide Books, Shrinks, SpareRollupChildren, TotalsUntouched;
      var evs := log'[|log|..];
      assert log' == log + evs;
      BooksAfterWrite(schema, start, rows, log, pending, rows', op, k, evs, hooks.rollups);
    }

    /** Deletes each referencing child, its own children first. */
    method CascadeDeleteRows(db: Database, edge: Edge, pid: string, sweep: Sweep, ghost start: Rows, ghost root: Key, ghost p: Key)
      returns (st: Status)
      requires Ready(db, sweep, start, root)
      requires CascadeEdge(schema, edge, p.model) && p.id == pid && p in sweep.visited
      modifies db, sweep
      ensures Walked(db, sweep, start, root, st)
      ensures st == Done ==> EdgeSettled(start, db.rows, sweep.visited, edge, p)
      ensures NoWalk(schema, edge.child.name) ==>
                EdgeInTurn(schema, old(db.rows), old(sweep.visited), edge, p, db.rows, st == Done, st == NotFound, OnePage(old(db.rows), edge, pid))
      decreases start.Keys - sweep.visited, 3
    {
      hide EdgeInTurn, OnePage;
      var hooks := CascadeHooksFor(edge.child);
      st := EachChild(db, edge, pid, hooks, sweep, start, root, p);
    }

    method DeletePage(db: Database, edge: Edge, pid: string, ids: seq<string>, hooks: Hooks, sweep: Sweep,
                      ghost start: Rows, ghost root: Key, ghost p: Key, ghost last: string)
      returns (st: Status)
      requires Ready(db, sweep, start, root)
      requires CascadeEdge(schema, edge, p.model) && p.id == pid && p in sweep.visited
      requires IDPage(db.rows, edge.child.name, edge.rel.fkColumn, pid, last, ids)
      requires HooksOf(hooks, edge.child.name)
      modifies db, sweep
      ensures Walked(db, sweep, start, root, st)
      ensures st == Done ==> forall x :: x in ids ==> Key(edge.child.name, x) in sweep.visited
      // when the children have none of their own, a row of the page is missing exactly
      // when an earlier one took it along
      ensures NoWalk(schema, edge.child.name) ==>
                PageInTurn(schema, old(db.rows), old(sweep.visited), edge.child.name, ids, db.rows, st == Done, st == NotFound)
      decreases start.Keys - sweep.visited, 1
    {
      hide WalkInv, Books, Shrinks, Settled, Finished, Refused, RefusedByConstraint, Collides, LogGrew, DeletedBy, TakenToo, FailsClosed, PageSoFar, DeletedAlone, IDPage,
        NoWalk, PageOvertakes, GoneByPage, RefsVia, Refs, TakenToo;
      var child := edge.child;
      ghost var rows0, visited0, model := db.rows, sweep.visited, child.name;
      PageRefs(db.rows, edge, pid, last, ids);
      PageBegins(schema, rows0, visited0, model);
      ProgressReflexive(schema, start, root, db.rows, sweep.visited);
      LogRests(db.reliable, db.log, sweep.visited);
      PageRefsAtStart(start, root, db.rows, sweep.visited, edge, p, ids);
      var i := 0;
      while i < |ids|
        invariant 0 <= i <= |ids|
        invariant Ready(db, sweep, start, root)
        invariant Walked(db, sweep, start, root, Done)
        invariant forall j :: 0 <= j < i ==> Key(child.name, ids[j]) in sweep.visited
        invariant NoWalk(schema, model) ==>
                    && PageSoFar(schema, rows0, visited0, model, ids[..i], db.rows)
                    && (forall j :: i <= j < |ids| ==> (Key(model, ids[j]) in sweep.visited <==> Key(model, ids[j]) in visited0))
      {
        ghost var rows1, visited1, log1 := db.rows, sweep.visited, db.log;
        st := DeleteOne(db, child, edge, ids[i], hooks, sweep, start, root, p);
        if NoWalk(schema, model) {
          OneInTurn(start, root, rows0, visited0, edge, pid, ids, i, rows1, visited1, db.rows, sweep.visited, st);
        }
        Compose(start, root, old(db.rows), old(sweep.visited), rows1, visited1, db.rows, sweep.visited, st == Done,
                db.reliable, old(db.log), log1, db.log);
        if st != Done { return; }
        i := i + 1;
      }
      assert ids[..i] == ids;
      if NoWalk(schema, model) { SoFarAll(rows0, visited0, model, ids, db.rows); }
      st := Done;
    }

    lemma PageRefsAtStart(start: Rows, root: Key, rows: Rows, visited: set<Key>, e: Edge, p: Key, ids: seq<string>)
      requires WalkInv(schema, start, root, rows, visited)
      requires forall j :: 0 <= j < |ids| ==> ids[j] != "" && Refs(rows, Key(e.child.name, ids[j]), e.rel.fkColumn, p.id)
      ensures forall j :: 0 <= j < |ids| ==> RefsVia(start, e, Key(e.child.name, ids[j]), p)
    {
      hide WalkInv;
      forall j | 0 <= j < |ids| ensures RefsVia(start, e, Key(e.child.name, ids[j]), p) {
        RefsAtStart(schema, start, root, rows, visited, Key(e.child.name, ids[j]), e.rel.fkColumn, p.id);
      }
    }

    lemma SoFarAll(rows: Rows, visited: set<Key>, model: string, ids: seq<string>, after: Rows)
      requires PageSoFar(schema, rows, visited, model, ids, after)
      ensures PageInTurn(schema, rows, visited, model, ids, after, true, false)
    {
    }

    lemma OneInTurn(start: Rows, root: Key, r0: Rows, v0: set<Key>, edge: Edge, pid: string, ids: seq<string>, i: nat,
                    r1: Rows, v1: set<Key>, r2: Rows, v2: set<Key>, st: Status)
      requires i < |ids| && WalkInv(schema, start, root, r0, v0) && Progress(schema, start, root, r0, v0, r1, v1)
      requires Progress(schema, start, root, r1, v1, r2, v2)
      requires forall j :: 0 <= j < |ids| ==> ids[j] != "" && Refs(r0, Key(edge.child.name, ids[j]), edge.rel.fkColumn, pid)
      requires forall j, m :: 0 <= j < m < |ids| ==> ids[m] != ids[j]
      requires PageSoFar(schema, r0, v0, edge.child.name, ids[..i], r1)
      requires forall j :: i <= j < |ids| ==> (Key(edge.child.name, ids[j]) in v1 <==> Key(edge.child.name, ids[j]) in v0)
      requires DeletedAlone(schema, r1, v1, Key(edge.child.name, ids[i]), r2, v2, st == Done, st == NotFound)
      ensures st == Done ==> PageSoFar(schema, r0, v0, edge.child.name, ids[..i + 1], r2)
      ensures st == Done ==> forall j :: i + 1 <= j < |ids| ==> (Key(edge.child.name, ids[j]) in v2 <==> Key(edge.child.name, ids[j]) in v0)
      ensures st == NotFound ==> PageOvertakes(schema, r0, v0, edge.child.name, ids)
    {
      hide PageSoFar, Shrinks, WalkInv, PageOvertakes;
      RootVisited(schema, start, root, r0, v0);
      if st == Done {
        assert ids[..i + 1] == ids[..i] + [ids[i]];
        PageGoesOn(schema, start, root, r0, v0, edge.child.name, ids[..i], ids[i], r1, v1, r2, v2);
      }
      if st == NotFound {
        PageMisses(schema, r0, v0, edge.child.name, ids, i, r1, v1, r2, v2);
      }
    }

    method DeleteOne(db: Database, child: Model, edge: Edge, id: string, hooks: Hooks, sweep: Sweep,
                     ghost start: Rows, ghost root: Key, ghost p: Key)
      returns (st: Status)
      requires Ready(db, sweep, start, root)
      requires CascadeEdge(schema, edge, p.model) && child == edge.child && p in sweep.visited
      requires RefsVia(start, edge, Key(child.name, id), p)
      requires HooksOf(hooks, child.name)
      modifies db, sweep
      ensures Walked(db, sweep, start, root, st)
      ensures st == Done ==> Key(child.name, id) in sweep.visited
      ensures NoWalk(schema, child.name) ==>
                DeletedAlone(schema, old(db.rows), old(sweep.visited), Key(child.name, id), db.rows, sweep.visited, st == Done, st == NotFound)
      decreases start.Keys - sweep.visited, 0
    {
      hide WalkInv, Books, Shrinks, Settled, Finished, Refused, RefusedByConstraint, Collides, NoWalk, GoneWith, TakenToo,
        LogGrew, DeletedBy, Deleted, FailsClosed, OnlyEdge, EdgeInTurn, DeletedAlone;
      var k := Key(child.name, id);
      ProgressReflexive(schema, start, root, db.rows, sweep.visited);
      LogRests(db.reliable, db.log, sweep.visited);
      Alone(db.rows, sweep.visited, k, db.rows);
      if k in sweep.visited { return Done; } // already being deleted in this sweep: a cycle
      Mark(schema, start, root, db.rows, sweep.visited, edge, k, p);
      StartHas(start, edge, k, p);
      sweep.visited := sweep.visited + {k};
      ghost var rows0 := db.rows;
      st := CascadeChildren(db, child, id, sweep, start, root);
      ghost var rows1, log1, visited1 := db.rows, db.log, sweep.visited;
      Entered(start, root, rows0, old(sweep.visited), k, rows1, sweep.visited);
      Alone(rows0, old(sweep.visited), k, rows1);
      if st != Done { return; }
      st := DeleteSettled(db, child, id, hooks, sweep, start, root);
      Alone(rows1, old(sweep.visited), k, db.rows);
      if st == NotFound { Collided(schema, start, root, rows0, old(sweep.visited), k, rows1, sweep.visited); }
      OneMoreDeleted(db.reliable, old(db.log), old(sweep.visited), k, log1, visited1, db.log);
      DeletedOne(start, root, rows0, old(sweep.visited), k, rows1, sweep.visited, db.rows);
    }

    /** The delete of a row whose own children are dealt with, and its bookkeeping. */
    method DeleteSettled(db: Database, child: Model, id: string, hooks: Hooks, sweep: Sweep, ghost start: Rows, ghost root: Key)
      returns (st: Status)
      requires Ready(db, sweep, start, root)
      requires child in schema.models && Key(child.name, id) in sweep.visited && HooksOf(hooks, child.name)
      modifies db, sweep`pending
      ensures WalkInv(schema, start, root, db.rows, sweep.visited) && Shrinks(old(db.rows), db.rows)
      ensures SoftRowsStay(schema, old(db.rows), db.rows)
      ensures Books(schema, start, db.rows, db.log, sweep.pending)
      ensures forall l :: l != Key(child.name, id) && Live(old(db.rows), l) && !Live(db.rows, l) ==> TakenToo(schema, start, root, l)
      ensures st == Done ==> Live(old(db.rows), Key(child.name, id)) && !Live(db.rows, Key(child.name, id))
                             && GoneWith(schema, old(db.rows), db.rows, Key(child.name, id)) && FailsClosed(schema, db.log)
      ensures st == NotFound ==> !Live(old(db.rows), Key(child.name, id))
      ensures st == ConstraintRefused ==> RefusedByConstraint(schema, start, root)
      ensures LogGrew(db.reliable, old(db.log), db.log) && (st == Done ==> Deleted(db.log, Key(child.name, id)))
      ensures st != Restricted && (st == DbFault || st == HistoryRefused ==> !db.reliable)
      ensures st == HistoryRefused ==> SomeHistoryRequired(schema)
    {
      hide WalkInv, Books, Shrinks, RefusedByConstraint, GoneWith, Deletes, TakenToo, LogGrew, DeletedBy, Deleted, NativelyRestricted, SpareRollupChildren,
        TotalsUntouched, FailsClosed;
      var k := Key(child.name, id);
      ghost var rows1, log1, pending1 := db.rows, db.log, sweep.pending;
      ShrinksReflexive(rows1);
      SoftRowsRest(schema, rows1);
      hide SoftRowsStay;
      LogRests(db.reliable, log1, sweep.visited);
      var read, pre := PreImage(db, k, hooks);
      if read != Done { return read; }
      st := db.Delete(child, id);
      SoftDeletesOf(child);
      if st == ConstraintRefused { ConstraintRefuses(schema, start, root, rows1, sweep.visited, k); }
      if st != Done { return; }
      DeletesKeeps(schema, start, root, rows1, sweep.visited, child.softDelete, k, db.rows);
      DeletesAlone(schema, rows1, child.softDelete, k, db.rows);
      DeletingStays(schema, rows1, child.softDelete, k, db.rows);
      WroteFailsClosed(log1, db.log[|log1|]);
      st := AfterCascadeWrite(db, child, hooks, OpDelete, id, pre, sweep);
      WriteLogged(db.reliable, log1, OpDelete, k, rows1[k], db.log);
      Booked(start, rows1, log1, pending1, db.rows, OpDelete, k, db.log, hooks, pre);
    }

    /** What DeletedAlone comes to in each case. */
    lemma Alone(rows: Rows, visited: set<Key>, k: Key, after: Rows)
      ensures k in visited && after == rows ==> DeletedAlone(schema, rows, visited, k, after, visited, true, false)
      ensures k !in visited ==> DeletedAlone(schema, rows, visited, k, after, visited + {k}, false, false)
      ensures k !in visited && !Live(rows, k) ==> DeletedAlone(schema, rows, visited, k, after, visited + {k}, false, true)
      ensures k !in visited && Live(rows, k) && !Live(after, k) && GoneWith(schema, rows, after, k) ==>
                DeletedAlone(schema, rows, visited, k, after, visited + {k}, true, false)
    {
      assert k in visited ==> visited == visited + {k};
    }

    lemma WroteFailsClosed(log: seq<Event>, ev: Event)
      requires FailsClosed(schema, log) && ev.Wrote?
      ensures FailsClosed(schema, log + [ev])
    {
    }

    lemma StartHas(start: Rows, e: Edge, k: Key, p: Key)
      requires RefsVia(start, e, k, p)
      ensures k in start.Keys
    {
    }

    lemma SoftDeletesOf(m: Model)
      requires schema.WellFormed() && m in schema.models
      ensures schema.SoftDeletes(m.name) == m.softDelete
    {
    }

    /** The recursive call seen from before its row was marked. */
    lemma Entered(start: Rows, root: Key, r0: Rows, v0: set<Key>, k: Key, r1: Rows, v1: set<Key>)
      requires Progress(schema, start, root, r0, v0 + {k}, r1, v1)
      ensures Progress(schema, start, root, r0, v0, r1, v1)
    {
    }

    /** A row whose children are settled is deleted: everything marked since the
        row itself was marked is gone and settled. */
    lemma DeletedOne(start: Rows, root: Key, r0: Rows, v0: set<Key>, k: Key, r1: Rows, v1: set<Key>, r2: Rows)
      requires Progress(schema, start, root, r0, v0 + {k}, r1, v1) && Finished(schema, start, v0 + {k}, r1, v1)
      requires Settled(schema, start, r1, v1, k) && k !in v0
      requires forall l :: l != k && Live(r1, l) && !Live(r2, l) ==> TakenToo(schema, start, root, l)
      requires Shrinks(r1, r2) && SoftRowsStay(schema, r1, r2) && WalkInv(schema, start, root, r2, v1)
      ensures Progress(schema, start, root, r0, v0, r2, v1)
      ensures !Live(r2, k) ==> Finished(schema, start, v0, r2, v1)
    {
      hide WalkInv, Shrinks, Settled, TakenToo, SoftRowsStay;
      ShrinksTransitive(r0, r1, r2);
      SoftRowsStayOn(schema, r0, r1, r2);
      if Live(r2, k) { return; }
      forall q | q in v1 && q !in v0 ensures !Live(r2, q) && Settled(schema, start, r2, v1, q) {
        SettledStays(schema, start, r1, v1, r2, v1, q);
        DeadOrMarked(r1, r2, q, k);
      }
    }

    lemma DeadOrMarked(r1: Rows, r2: Rows, q: Key, k: Key)
      requires Shrinks(r1, r2) && !Live(r2, k) && (q == k || !Live(r1, q))
      ensures !Live(r2, q)
    {
    }

    // ---- the delete as a whole --------------------------------------------------

    /** Recomputes every column the sweep disturbed, once each, in key order; a
        parent the sweep deleted is skipped. */
    method RunPendingRollups(db: Database, sweep: Sweep) returns (st: Status, ghost keys: seq<string>)
      requires schema.WellFormed()
      requires forall k :: k in sweep.pending ==> FiledUnder(schema, k, sweep.pending[k])
      modifies db
      ensures Lists(keys, sweep.pending.Keys)
      ensures st == Done ==> Recalculated(schema, agg, old(db.rows), db.rows, sweep.pending, keys)
      ensures st == Done ==> db.log == old(db.log) + Recomputes(old(db.rows), sweep.pending, keys)
      ensures st == Done || (st == DbFault && !db.reliable)
    {
      hide Recalculated, TotalCorrect, SameButTotals, Recomputes, FiledUnder, Children;
      var sorted := SortIds(sweep.pending.Keys);
      keys := sorted;
      NothingRecalculated(db.rows, sweep.pending);
      var i := 0;
      while i < |sorted|
        invariant 0 <= i <= |sorted|
        invariant SameButTotals(old(db.rows), db.rows)
        invariant Recalculated(schema, agg, old(db.rows), db.rows, sweep.pending, sorted[..i])
        invariant db.log == old(db.log) + Recomputes(old(db.rows), sweep.pending, sorted[..i])
      {
        assert sorted[i] in sorted;
        var p := sweep.pending[sorted[i]];
        ghost var mid := db.rows;
        st := db.Recompute(agg, p.rollup, p.parentID);
        if st == DbFault { return; }
        assert sorted[..i + 1] == sorted[..i] + [sorted[i]];
        RecalculatedStep(schema, agg, old(db.rows), mid, db.rows, sweep.pending, sorted[..i], sorted[i]);
        i := i + 1;
      }
      assert sorted[..i] == sorted;
      st := Done;
    }

    lemma NothingRecalculated(rows: Rows, pending: map<string, Pending>)
      ensures Recalculated(schema, agg, rows, rows, pending, []) && SameButTotals(rows, rows)
      ensures Recomputes(rows, pending, []) == []
    {
    }

    /** Applies onDelete actions to a row's children before the row itself is
        deleted. */
    method EnforceCascadeDelete(db: Database, model: Model, id: string) returns (st: Status)
      requires schema.WellFormed() && db.schema == schema && model in schema.models && db.log == []
      requires OnlySoftRowsDie(schema, db.rows)
      modifies db
      ensures st == Done ==> SweepOutcome(schema, agg, old(db.rows), Key(model.name, id), db.rows, db.log)
      ensures st == Restricted ==> Refused(schema, old(db.rows), Key(model.name, id))
      ensures st == ConstraintRefused ==> RefusedByConstraint(schema, old(db.rows), Key(model.name, id))
      ensures st == Done && db.reliable ==> NoHistoryFailed(db.log)
      ensures st == NotFound ==> Collides(schema, old(db.rows), Key(model.name, id))
      ensures st == DbFault || st == HistoryRefused ==> !db.reliable
      ensures st == HistoryRefused ==> SomeHistoryRequired(schema)
      ensures forall e :: OnlyEdge(schema, e, model.name) ==>
                EdgeInTurn(schema, old(db.rows), {Key(model.name, id)}, e, Key(model.name, id), db.rows, st == Done, st == NotFound,
                           OnePage(old(db.rows), e, id))
    {
      hide WalkInv, Shrinks, Settled, Finished, Refused, RefusedByConstraint, Collides, LogGrew, DeletedBy, TakenToo, FailsClosed, Recalculated, SweepOutcome,
        EdgeInTurn, OnePage;
      ghost var root, start := Key(model.name, id), db.rows;
      var edges := ChildCascadeEdges(model.name);
      if |edges| == 0 {
        NoEdgesNothingToDo(schema, agg, start, root);
        assert forall e :: OnlyEdge(schema, e, model.name) ==> e in edges;
        return Done;
      }
      var sweep := new Sweep(Key(model.name, id));
      SweepBegins(schema, start, root);
      st := CascadeChildren(db, model, id, sweep, start, root);
      if st != Done { return; }
      ghost var rows1, log1 := db.rows, db.log;
      ghost var keys;
      st, keys := RunPendingRollups(db, sweep);
      if st != Done {
        forall e | OnlyEdge(schema, e, model.name)
          ensures EdgeInTurn(schema, start, {root}, e, root, db.rows, false, false, OnePage(start, e, id))
        {
          FaultInTurn(start, {root}, e, root, db.rows);
        }
        return;
      }
      SameRecalculated(schema, agg, rows1, db.rows, sweep.pending, keys);
      if db.reliable {
        FromTheStart(log1);
        RecomputesFailNothing(schema, rows1, log1, sweep.pending, keys);
      }
      forall e | OnlyEdge(schema, e, model.name)
        ensures EdgeInTurn(schema, start, {root}, e, root, db.rows, true, false, OnePage(start, e, id))
      {
        SameInTurn(schema, start, {root}, e, root, rows1, db.rows, false, OnePage(start, e, id));
      }
      SweepConcludes(schema, agg, start, root, rows1, log1, sweep.visited, sweep.pending, db.rows, keys);
    }

    lemma FromTheStart(log: seq<Event>)
      requires LogGrew(true, [], log)
      ensures NoHistoryFailed(log)
    {
    }

    /** The delete of one record: the cascade and the row in one transaction,
        rolled back unless all of it succeeds. */
    method DeleteRecord(db: Database, model: Model, id: string) returns (st: Status)
      requires schema.WellFormed() && db.schema == schema && model in schema.models
      requires OnlySoftRowsDie(schema, db.rows)
      modifies db
      // what the walk visited and the constraints took is gone, and what the walk
      // visited is settled
      ensures st == Done ==> Live(old(db.rows), Key(model.name, id)) && Removed(schema, old(db.rows), Key(model.name, id), db.rows)
      // nothing outside the reachable rows is gone, and the other rows are kept
      ensures st == Done ==> GoneWithin(schema, old(db.rows), Key(model.name, id), db.rows)
      ensures st == Done ==> OthersKept(schema, old(db.rows), db.rows)
      // no constraint is broken, and when no constraint deletes behind the walk's
      // back the reachable rows are gone exactly and nothing names one of them
      ensures st == Done ==> Integrity(schema, old(db.rows), db.rows)
      ensures st == Done && NativeLeaves(schema, model.name) ==>
                && LeastAllClosed(schema, old(db.rows), Key(model.name, id), Gone(old(db.rows), db.rows))
                && NoDangling(schema, db.rows, Gone(old(db.rows), db.rows))
      // the rollups and the history
      ensures st == Done ==> DeleteLog(schema, Key(model.name, id), db.rows, db.log)
      // each child write has its history row exactly when its model is versioned, each
      // row the walk visited its own delete
      ensures st == Done ==> HistoryOfEachWrite(schema, db.log)
      ensures st == Done && db.reliable ==> NoHistoryFailed(db.log)
      ensures st == Done ==> LoggedRemoval(schema, old(db.rows), Key(model.name, id), db.rows, db.log)
      // a soft delete hides its row and keeps it stored
      ensures st == Done ==> SoftRowsStay(schema, old(db.rows), db.rows)
      ensures st == Done ==>
                OtherRollupsKept(schema, agg, old(db.rows), Key(model.name, id), db.rows, db.log[..|db.log| - 1])
      // a delete that did not happen changed nothing
      ensures st != Done ==> db.rows == old(db.rows)
      ensures st == Restricted ==> Refused(schema, old(db.rows), Key(model.name, id))
      ensures st == ConstraintRefused ==> RefusedByConstraint(schema, old(db.rows), Key(model.name, id))
      // a record is reported missing only when it is, or when a row the walk came to
      // delete was one the constraints take along
      ensures st == NotFound ==> !Live(old(db.rows), Key(model.name, id)) || Collides(schema, old(db.rows), Key(model.name, id))
      ensures st == DbFault || st == HistoryRefused ==> !db.reliable
      ensures st == HistoryRefused ==> SomeHistoryRequired(schema)
      // so a delete that nothing forbids succeeds
      ensures db.reliable && Live(old(db.rows), Key(model.name, id)) && !Forbidden(schema, old(db.rows), Key(model.name, id)) ==> st == Done
      // with one edge to walk a missing record means that a child took along the
      // record or a later sibling; when the children fit on one page the delete
      // succeeds exactly when none does
      ensures forall e :: OnlyEdge(schema, e, model.name) && Live(old(db.rows), Key(model.name, id)) && st == NotFound ==>
                RunsInto(schema, old(db.rows), e, Key(model.name, id))
      ensures forall e :: (OnlyEdge(schema, e, model.name) && OnePage(old(db.rows), e, id) && db.reliable
                           && Live(old(db.rows), Key(model.name, id)) && !RefusedByConstraint(schema, old(db.rows), Key(model.name, id))) ==>
                (st == Done <==> !RunsInto(schema, old(db.rows), e, Key(model.name, id)))
    {
      hide OnlyEdge, OnePage, EdgeInTurn, RunsInto, Collides;
      hide DeleteLog, LoggedRemoval, HistoryOfEachWrite, SoftRowsStay;
      hide Refused, RefusedByConstraint, Collides, Removed, Deletes, SweepOutcome, OtherRollupsKept, GoneWithin, OthersKept, Integrity,
        LeastAllClosed, NativeLeaves, NoDangling, WalkInv;
      var before := db.rows;
      ghost var root := Key(model.name, id);
      db.log := [];
      st := EnforceCascadeDelete(db, model, id);
      forall e | OnlyEdge(schema, e, model.name)
        ensures !Refused(schema, before, root)
        ensures st == NotFound ==> RunsInto(schema, before, e, root)
      {
        OnlyEdgeRefusesNothing(schema, before, root, e);
        if st == NotFound { SweepRanInto(schema, before, root, e, db.rows, OnePage(before, e, id)); }
      }
      if st == Done {
        ghost var rows1, log1 := db.rows, db.log;
        st := db.Delete(model, id);
        SoftDeletesOf(model);
        if st == NotFound && Live(before, root) { RootTaken(schema, agg, before, root, rows1, log1); }
        forall e | st == NotFound && OnlyEdge(schema, e, model.name) && Live(before, root)
          ensures RunsInto(schema, before, e, root)
        {
          RootRanInto(schema, before, root, e, rows1, OnePage(before, e, id));
        }
        if st == ConstraintRefused { RootRefused(schema, agg, before, root, rows1, log1); }
        if st == Done {
          RootDeleted(schema, agg, before, root, rows1, log1, model.softDelete, db.rows);
          RootDeletedStays(schema, agg, before, root, rows1, log1, model.softDelete, db.rows);
          assert db.log[..|db.log| - 1] == log1;
          HistoryRowsExact(schema, root, db.rows, db.log);
          RemovalConcludes(schema, before, root, db.rows);
          forall e | OnlyEdge(schema, e, model.name) && OnePage(before, e, id) ensures !RunsInto(schema, before, e, root) {
            RanIntoNothing(schema, agg, before, root, e, rows1, log1);
          }
        }
      }
      if st != Done { db.rows := before; }
    }
  }
}
