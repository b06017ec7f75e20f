/** The row-level scope of a custom action: AND-ed into every read, and stamped
    onto every row the action creates. */
module Scope {
  import opened Wrappers
  import opened SqlText
  import opened Filters
  import opened FilterBuild
  import opened FilterMeaning
  import opened FilterTheorems
  import opened SampleEngines
  import P = SqlParser

  const DEFAULT_LIMIT := 20

  class QueryParams {
    var filters: FilterList
    var page: int
    var limit: int

    constructor (filters: FilterList, page: int, limit: int)
      ensures this.filters == filters && this.page == page && this.limit == limit
    {
      this.filters, this.page, this.limit := filters, page, limit;
    }
  }

  class ServerContext {
    var actionScope: Option<FilterList>

    constructor ()
      ensures actionScope == None
    {
      actionScope := None;
    }

    /** A second scope replaces the first. */
    method SetActionScope(s: Option<FilterList>)
      modifies this
      ensures actionScope == s
    {
      actionScope := s;
    }

    function ScopeFilters(): FilterList
      reads this
    {
      match actionScope case None => [] case Some(fs) => fs
    }

    /** The query with the scope AND-ed in: the caller's own object when there is no
        scope, a new one otherwise. Nothing the caller can see changes. */
    method ScopedQuery(q: QueryParams?) returns (r: QueryParams?)
      ensures ScopeFilters() == [] ==> r == q
      ensures ScopeFilters() != [] ==>
                && r != null && fresh(r)
                && r.filters == (if q == null then [] else q.filters) + ScopeFilters()
                && r.page == (if q == null then 1 else q.page)
                && r.limit == (if q == null then 20 else q.limit)
    {
      var sf := ScopeFilters();
      if |sf| == 0 { return q; }
      var base: QueryParams;
      if q == null {
        base := new QueryParams([], 1, DEFAULT_LIMIT);
      } else {
        base := q;
      }
      var clone := new QueryParams(base.filters + sf, base.page, base.limit);
      r := clone;
    }

    /** What a create is stamped with: nothing without a scope, else the columns of
        an all-equality scope, or the first filter that names no single value. */
    method Injectable() returns (r: Result<map<string, GoValue>, Filter>)
      ensures actionScope.None? ==> r == Ok(map[])
      ensures actionScope.Some? ==> r == match FirstUnstampable(actionScope.value) case None => Ok(Stamps(actionScope.value)) case Some(f) => Err(f)
    {
      if actionScope.None? { return Ok(map[]); }
      r := ScopeColumns(actionScope.value);
    }
  }

  // ---- columns to stamp ---------------------------------------------------------------

  predicate Stampable(f: Filter) {
    f.op == Eq && !f.isNested && !f.isLocale && f.group <= 0
  }

  function FirstUnstampable(fs: FilterList): Option<Filter> {
    if fs == [] then None
    else if fs[0].Some? && !Stampable(fs[0].value) then fs[0]
    else FirstUnstampable(fs[1..])
  }

  /** Later filters on a field overwrite earlier ones. */
  function Stamps(fs: FilterList): map<string, GoValue> {
    if fs == [] then map[]
    else match fs[|fs| - 1]
      case None => Stamps(fs[..|fs| - 1])
      case Some(f) => Stamps(fs[..|fs| - 1])[f.field := f.value]
  }

  lemma {:induction false} FirstUnstampableSnoc(fs: FilterList, f: Option<Filter>)
    ensures FirstUnstampable(fs + [f]) ==
            if FirstUnstampable(fs).Some? then FirstUnstampable(fs) else if f.Some? && !Stampable(f.value) then f else None
  {
    if fs == [] {
      assert [] + [f] == [f] && [f][1..] == [];
    } else {
      assert (fs + [f])[1..] == fs[1..] + [f];
      FirstUnstampableSnoc(fs[1..], f);
    }
  }

  lemma {:induction false} FirstUnstampablePrefix(fs: FilterList, n: nat)
    requires n <= |fs| && FirstUnstampable(fs[..n]).Some?
    ensures FirstUnstampable(fs) == FirstUnstampable(fs[..n])
  {
    if !(fs[0].Some? && !Stampable(fs[0].value)) {
      assert fs[..n][1..] == fs[1..][..n - 1];
      FirstUnstampablePrefix(fs[1..], n - 1);
    }
  }

  lemma {:induction false} AcceptedAreStampable(fs: FilterList)
    requires FirstUnstampable(fs).None?
    ensures forall f :: Some(f) in fs ==> Stampable(f)
  {
    if fs != [] {
      AcceptedAreStampable(fs[1..]);
      assert fs == [fs[0]] + fs[1..];
    }
  }

  method ScopeColumns(filters: FilterList) returns (r: Result<map<string, GoValue>, Filter>)
    ensures r == match FirstUnstampable(filters) case None => Ok(Stamps(filters)) case Some(f) => Err(f)
  {
    var out: map<string, GoValue> := map[];
    var i := 0;
    while i < |filters|
      invariant 0 <= i <= |filters|
      invariant FirstUnstampable(filters[..i]).None? && out == Stamps(filters[..i])
    {
      FirstUnstampableSnoc(filters[..i], filters[i]);
      assert filters[..i + 1] == filters[..i] + [filters[i]] && filters[..i + 1][..i] == filters[..i];
      if filters[i].Some? {
        var f := filters[i].value;
        if f.op != Eq || f.isNested || f.isLocale || f.group > 0 {
          FirstUnstampablePrefix(filters, i + 1);
          return Err(f);
        }
        out := out[f.field := f.value];
      }
      i := i + 1;
    }
    assert filters[..i] == filters;
    r := Ok(out);
  }

  /** A scope names single values exactly when each of its filters is an ungrouped equality
      on a plain column. */
  lemma {:induction false} AcceptedScopes(fs: FilterList)
    ensures FirstUnstampable(fs).None? <==>
              forall f :: Some(f) in fs ==> f.op == Eq && !f.isNested && !f.isLocale && f.group <= 0
  {
    if fs != [] {
      AcceptedScopes(fs[1..]);
      assert fs == [fs[0]] + fs[1..];
    }
  }

  /** Else the first filter that is not one is reported. */
  lemma {:induction false} FirstIsReported(fs: FilterList)
    requires FirstUnstampable(fs).Some?
    ensures exists i :: 0 <= i < |fs| && fs[i] == FirstUnstampable(fs) && FirstUnstampable(fs[..i]).None?
  {
    if fs[0].Some? && !Stampable(fs[0].value) {
      assert fs[..0] == [];
    } else {
      hide Stampable;
      FirstIsReported(fs[1..]);
      var i :| 0 <= i < |fs[1..]| && fs[1..][i] == FirstUnstampable(fs[1..]) && FirstUnstampable(fs[1..][..i]).None?;
      assert fs[..i + 1][1..] == fs[1..][..i] && fs[i + 1] == FirstUnstampable(fs);
    }
  }

  /** A column named by several filters is stamped with the value of the last. */
  lemma {:induction false} LastFilterStamps(fs: FilterList, i: nat)
    requires i < |fs| && fs[i].Some? && forall j :: i < j < |fs| && fs[j].Some? ==> fs[j].value.field != fs[i].value.field
    ensures fs[i].value.field in Stamps(fs) && Stamps(fs)[fs[i].value.field] == fs[i].value.value
    decreases |fs|
  {
    if i < |fs| - 1 { LastFilterStamps(fs[..|fs| - 1], i); }
  }

  // ---- the scope is an intersection ------------------------------------------------------

  /** No OR group of the scope is one the caller also uses. Scopes of ungrouped
      filters always qualify. */
  ghost predicate GroupsApart(q: FilterList, scope: FilterList) {
    forall f, g :: Some(f) in q && Some(g) in scope && f.group > 0 ==> f.group != g.group
  }

  /** The rows a scoped query selects are exactly those the query selects and the
      scope admits, whatever groups the caller used. */
  lemma ScopeIntersects(host: Host, e: P.Engine, d: Driver, model: Model, q: FilterList, scope: FilterList, row: P.Row)
    requires GroupsApart(q, scope)
    ensures Selects(host, e, d, model, q + scope, row) <==> Selects(host, e, d, model, q, row) && Selects(host, e, d, model, scope, row)
  {
    hide Passes, Truth;
    var all := q + scope;
    assert forall x :: x in all <==> x in q || x in scope;
    forall f | Some(f) in q && f.group > 0
      ensures GroupPasses(host, e, d, model, all, f.group, row) <==> GroupPasses(host, e, d, model, q, f.group, row)
    {
    }
    forall f | Some(f) in scope && f.group > 0
      ensures GroupPasses(host, e, d, model, all, f.group, row) <==> GroupPasses(host, e, d, model, scope, f.group, row)
    {
    }
  }

  /** The same for the SQL: the scoped clause is true exactly where both clauses are. */
  lemma ScopedClauseIntersects(host: Host, e: P.Engine, d: Driver, model: Model, q: FilterList, scope: FilterList, row: P.Row)
    requires e.Lawful() && GroupsApart(q, scope)
    ensures BodyHolds(e, row, InlineFilters(host, model, q + scope, d))
            <==> BodyHolds(e, row, InlineFilters(host, model, q, d)) && BodyHolds(e, row, InlineFilters(host, model, scope, d))
  {
    hide BodyHolds, InlineFilters, Selects, GroupsApart;
    ClauseMeansFilters(host, e, model, q + scope, d, row);
    ClauseMeansFilters(host, e, model, q, d, row);
    ClauseMeansFilters(host, e, model, scope, d, row);
    ScopeIntersects(host, e, d, model, q, scope, row);
  }

  /** An OR group of the scope that only the caller's members of it keep alive. */
  ghost predicate Widened(host: Host, e: P.Engine, d: Driver, model: Model, q: FilterList, scope: FilterList, g: int, row: P.Row) {
    && g > 0 && (exists f :: Some(f) in scope && f.group == g)
    && !GroupPasses(host, e, d, model, scope, g, row)
    && GroupPasses(host, e, d, model, q, g, row)
  }

  /** A row the scoped query selects is refused by the scope exactly when some OR
      group of the scope has no passing member of its own and a passing one among
      the caller's filters. */
  lemma WidensIff(host: Host, e: P.Engine, d: Driver, model: Model, q: FilterList, scope: FilterList, row: P.Row)
    requires Selects(host, e, d, model, q + scope, row)
    ensures !Selects(host, e, d, model, scope, row) <==> exists g :: Widened(host, e, d, model, q, scope, g, row)
  {
    hide Passes;
    var all := q + scope;
    assert forall x :: x in all <==> x in q || x in scope;
    forall f | Some(f) in scope && f.group > 0
      ensures GroupPasses(host, e, d, model, q, f.group, row) || GroupPasses(host, e, d, model, scope, f.group, row)
    {
      var g: Filter :| Some(g) in all && g.group == f.group && Passes(host, e, d, model, g, row);
    }
    if !Selects(host, e, d, model, scope, row) {
      var f :| Some(f) in scope && f.group > 0 && !GroupPasses(host, e, d, model, scope, f.group, row);
      assert Widened(host, e, d, model, q, scope, f.group, row);
    }
  }

  // A post is public or owned. The application scopes reads to the caller's own
  // posts, in the OR group the caller's own filter uses.

  const OWNER := Field("owner", "owner", TextKind, false, false)
  const VISIBILITY := Field("visibility", "visibility", TextKind, false, false)
  const POSTS := Model("Post", "posts", [OWNER, VISIBILITY])

  function Equals(field: string, value: string, group: int): Filter {
    Filter(field, Eq, Str(value), "", false, "", "", false, "", group)
  }

  const ALICES_POST: P.Row := (table, col) => if col == "owner" then Str("alice") else Str("public")

  lemma PostFilters(f: Filter)
    requires Stampable(f.(group := 0))
    ensures f.field == "owner" ==> (Passes(HOST, PG, Postgres, POSTS, f, ALICES_POST) <==> f.value == Str("alice"))
    ensures f.field == "visibility" ==> (Passes(HOST, PG, Postgres, POSTS, f, ALICES_POST) <==> f.value == Str("public"))
  {
    assert FieldByDBName([VISIBILITY], "visibility") == Some(VISIBILITY);
    assert POSTS.fields[1..] == [VISIBILITY];
    assert ResolveFilterField(POSTS, "visibility") == Some(VISIBILITY) && ResolveFilterField(POSTS, "owner") == Some(OWNER);
  }

  /** A scope filter in a group the caller also uses stops scoping: Bob's request,
      scoped to Bob's posts, selects Alice's. */
  lemma SharedGroupWidens()
    ensures var q, scope := [Some(Equals("visibility", "public", 1))], [Some(Equals("owner", "bob", 1))];
            && Selects(HOST, PG, Postgres, POSTS, q + scope, ALICES_POST)
            && !Selects(HOST, PG, Postgres, POSTS, scope, ALICES_POST)
  {
    hide Passes;
    var mine, forced := Equals("visibility", "public", 1), Equals("owner", "bob", 1);
    PostFilters(mine);
    PostFilters(forced);
    var all := [Some(mine)] + [Some(forced)];
    assert Some(mine) in all && Some(forced) in [Some(forced)];
    assert GroupPasses(HOST, PG, Postgres, POSTS, all, 1, ALICES_POST);
    assert !GroupPasses(HOST, PG, Postgres, POSTS, [Some(forced)], 1, ALICES_POST);
  }

  // ---- stamping is visible -----------------------------------------------------------------

  /** "=" is symmetric and transitive on the values it compares. */
  ghost predicate EqualityLaws(e: P.Engine) {
    && (forall x, y :: e.compare("=", x, y) ==> e.compare("=", y, x))
    && (forall x, y, z :: e.compare("=", x, y) && e.compare("=", y, z) ==> e.compare("=", x, z))
  }

  predicate ColumnEquals(host: Host, e: P.Engine, model: Model, field: string, v: GoValue, row: P.Row) {
    match ResolveFilterField(model, field)
    case None => false
    case Some(fm) => P.Compare3(e, "=", row(model.table, fm.dbName), host.normalize(fm.kind, Eq, v)) == P.True
  }

  /** The row holds every stamped value. */
  ghost predicate Carries(host: Host, e: P.Engine, model: Model, stamps: map<string, GoValue>, row: P.Row) {
    forall k :: k in stamps ==> ColumnEquals(host, e, model, k, stamps[k], row)
  }

  lemma EqualityPasses(host: Host, e: P.Engine, d: Driver, model: Model, f: Filter, row: P.Row)
    requires Stampable(f)
    ensures Passes(host, e, d, model, f, row) <==> ColumnEquals(host, e, model, f.field, f.value, row)
  {
  }

  /** The value stamped on a filter's field is that of some filter of the scope. */
  lemma {:induction false} StampsComeFromFilters(fs: FilterList)
    ensures forall k :: k in Stamps(fs) ==> exists f :: Some(f) in fs && f.field == k && f.value == Stamps(fs)[k]
    ensures forall f :: Some(f) in fs ==> f.field in Stamps(fs)
  {
    if fs != [] {
      var init, last := fs[..|fs| - 1], fs[|fs| - 1];
      StampsComeFromFilters(init);
      assert fs == init + [last];
      forall k | k in Stamps(fs) ensures exists f :: Some(f) in fs && f.field == k && f.value == Stamps(fs)[k] {
        if last.Some? && last.value.field == k {
          assert Some(last.value) in fs;
        } else {
          assert k in Stamps(init) && Stamps(fs)[k] == Stamps(init)[k];
          var f :| Some(f) in init && f.field == k && f.value == Stamps(init)[k];
          assert Some(f) in fs;
        }
      }
    }
  }

  /** If a scope is accepted for stamping and some row can satisfy it, the rows that
      satisfy it are exactly those that carry the stamped columns: a created row is
      visible to its author. */
  lemma StampedRowsAreVisible(host: Host, e: P.Engine, d: Driver, model: Model, scope: FilterList, sample: P.Row, row: P.Row)
    requires FirstUnstampable(scope).None? && EqualityLaws(e)
    requires Selects(host, e, d, model, scope, sample)
    ensures Selects(host, e, d, model, scope, row) <==> Carries(host, e, model, Stamps(scope), row)
  {
    hide Passes, ColumnEquals, ResolveFilterField;
    AcceptedAreStampable(scope);
    StampsComeFromFilters(scope);
    forall f | Some(f) in scope ensures Passes(host, e, d, model, f, row) <==> ColumnEquals(host, e, model, f.field, f.value, row) {
      EqualityPasses(host, e, d, model, f, row);
    }
    if Carries(host, e, model, Stamps(scope), row) {
      forall f | Some(f) in scope ensures Passes(host, e, d, model, f, row) {
        var g :| Some(g) in scope && g.field == f.field && g.value == Stamps(scope)[f.field];
        EqualityPasses(host, e, d, model, f, sample);
        EqualityPasses(host, e, d, model, g, sample);
        assert ColumnEquals(host, e, model, f.field, Stamps(scope)[f.field], row);
        SameColumnEquals(host, e, model, f.field, f.value, g.value, sample, row);
      }
    }
  }

  lemma SameColumnEquals(host: Host, e: P.Engine, model: Model, field: string, v: GoValue, w: GoValue, sample: P.Row, row: P.Row)
    requires EqualityLaws(e)
    requires ColumnEquals(host, e, model, field, v, sample) && ColumnEquals(host, e, model, field, w, sample) && ColumnEquals(host, e, model, field, w, row)
    ensures ColumnEquals(host, e, model, field, v, row)
  {
    hide ResolveFilterField;
    var fm := ResolveFilterField(model, field).value;
    var a, b := host.normalize(fm.kind, Eq, v), host.normalize(fm.kind, Eq, w);
    var x, s := row(model.table, fm.dbName), sample(model.table, fm.dbName);
    assert e.compare("=", x, b) && e.compare("=", b, s) && e.compare("=", s, a);
    assert e.compare("=", x, s);
  }

  /** The filter and the stamp of its field compare as equal once normalised. */
  predicate AgreesWithStamp(host: Host, e: P.Engine, model: Model, f: Filter, stamp: GoValue) {
    match ResolveFilterField(model, f.field)
    case None => false
    case Some(fm) => P.Compare3(e, "=", host.normalize(fm.kind, Eq, f.value), host.normalize(fm.kind, Eq, stamp)) == P.True
  }

  /** Whatever an accepted scope says, a row that carries its stamps is visible under
      it exactly when every filter of the scope agrees with what was stamped on its
      field: no value is NULL and no two filters of one field differ. */
  lemma StampedVisibleIff(host: Host, e: P.Engine, d: Driver, model: Model, scope: FilterList, row: P.Row)
    requires FirstUnstampable(scope).None? && EqualityLaws(e)
    requires Carries(host, e, model, Stamps(scope), row)
    ensures (forall f :: Some(f) in scope ==> f.field in Stamps(scope))
    ensures Selects(host, e, d, model, scope, row)
            <==> forall f :: Some(f) in scope ==> AgreesWithStamp(host, e, model, f, Stamps(scope)[f.field])
  {
    hide Passes, ColumnEquals, AgreesWithStamp, ResolveFilterField;
    AcceptedAreStampable(scope);
    StampsComeFromFilters(scope);
    forall f | Some(f) in scope
      ensures Passes(host, e, d, model, f, row) <==> AgreesWithStamp(host, e, model, f, Stamps(scope)[f.field])
    {
      EqualityPasses(host, e, d, model, f, row);
      assert ColumnEquals(host, e, model, f.field, Stamps(scope)[f.field], row);
      EqualsIffAgrees(host, e, model, f, Stamps(scope)[f.field], row);
    }
  }

  lemma EqualsIffAgrees(host: Host, e: P.Engine, model: Model, f: Filter, stamp: GoValue, row: P.Row)
    requires EqualityLaws(e) && ColumnEquals(host, e, model, f.field, stamp, row)
    ensures ColumnEquals(host, e, model, f.field, f.value, row) <==> AgreesWithStamp(host, e, model, f, stamp)
  {
    hide ResolveFilterField;
    var fm := ResolveFilterField(model, f.field).value;
    var x, a, b := row(model.table, fm.dbName), host.normalize(fm.kind, Eq, f.value), host.normalize(fm.kind, Eq, stamp);
    assert e.compare("=", x, b) && e.compare("=", b, x);
    assert e.compare("=", a, b) ==> e.compare("=", b, a);
    assert e.compare("=", x, a) ==> e.compare("=", a, x);
  }

  /** A scope with two values for one field is accepted, stamps the later one, and
      then hides the row it stamped. */
  lemma ContradictoryScopeHidesItsRows()
    ensures var scope: FilterList := [Some(Equals("owner", "bob", 0)), Some(Equals("owner", "alice", 0))];
            && FirstUnstampable(scope).None? && Stamps(scope) == map["owner" := Str("alice")]
            && Carries(HOST, PG, POSTS, Stamps(scope), ALICES_POST)
            && !Selects(HOST, PG, Postgres, POSTS, scope, ALICES_POST)
  {
    hide Passes, ColumnEquals;
    var f, g := Equals("owner", "bob", 0), Equals("owner", "alice", 0);
    var scope := [Some(f), Some(g)];
    assert scope[1..] == [Some(g)] && [Some(g)][1..] == [];
    assert FirstUnstampable([Some(g)]).None? && FirstUnstampable(scope) == FirstUnstampable([Some(g)]);
    assert scope[..1] == [Some(f)] && [Some(f)][..0] == [];
    assert Stamps([Some(f)]) == map["owner" := Str("bob")];
    assert Some(f) in scope;
    PostFilters(f);
    PostFilters(g);
    EqualityPasses(HOST, PG, Postgres, POSTS, f, ALICES_POST);
    EqualityPasses(HOST, PG, Postgres, POSTS, g, ALICES_POST);
  }
}
