/** A whole aggregate statement: what is refused and why, and the text with its
    arguments, in which every placeholder stands for its own argument. */
module Aggregate {
  import opened Wrappers
  import opened SqlText
  import opened Filters
  import opened FilterBuild
  import opened AggregateExpr

  datatype AggregateOp = Count | CountDistinct | Sum | Avg | Min | Max | UnknownOp(name: string)

  datatype AggregateField = AggregateField(op: AggregateOp, field: string, alias: string)

  datatype HavingClause = HavingClause(alias: string, op: Op, value: GoValue)

  datatype SortExpr = SortExpr(dbName: string, direction: string)

  datatype AggregateQuery = AggregateQuery(
    select: seq<AggregateField>, groupBy: seq<string>, filters: FilterList,
    having: seq<HavingClause>, orderBy: seq<SortExpr>, limit: int)

  datatype AggregateError =
    | NoSelect | NeedsField | UnknownColumn | NotAnAggregate | DuplicateAlias
    | UnknownGroupColumn | NilFilter | UnknownFilterColumn | NestedFilter
    | UnknownHavingAlias | HavingOpRefused | UnknownOrder | BadDirection

  /** A model and the expressions registered on it. */
  class ModelMeta {
    const model: Model
    var aggExprs: map<string, Expr>

    constructor (model: Model)
      ensures this.model == model && aggExprs == map[] && Valid()
    {
      this.model, aggExprs := model, map[];
    }

    /** Every registered expression passed the check under its own name, so none
        shares a name with a field and all of them render. */
    ghost predicate Valid()
      reads this
    {
      forall name :: name in aggExprs ==> CompileAggregateExpr(model, name, Some(aggExprs[name])).Ok?
    }

    /** Compiles an expression and installs it; a taken name is refused. */
    method RegisterAggregateExpr(name: string, e: Option<Expr>) returns (ok: bool)
      requires Valid()
      modifies this
      ensures Valid()
      ensures ok <==> CompileAggregateExpr(model, name, e).Ok? && name !in old(aggExprs)
      ensures aggExprs == if ok then old(aggExprs)[name := e.value] else old(aggExprs)
    {
      CompileAcceptsExactly(model, name, e);
      var c := CompileAggregateExpr(model, name, e);
      if c.Err? || name in aggExprs { return false; }
      aggExprs := aggExprs[name := c.value];
      ok := true;
    }
  }

  lemma RegisteredResolve(meta: ModelMeta)
    requires meta.Valid()
    ensures forall name :: name in meta.aggExprs ==> Resolves(meta.model, meta.aggExprs[name])
  {
    forall name | name in meta.aggExprs ensures Resolves(meta.model, meta.aggExprs[name]) {
      CompileAcceptsExactly(meta.model, name, Some(meta.aggExprs[name]));
      CompiledResolves(meta.model, meta.aggExprs[name]);
    }
  }

  type Exprs = map<string, Expr>

  // ---- what is refused ---------------------------------------------------------------

  /** A registered expression hides a column of the same name. */
  predicate KnownOperand(model: Model, exprs: Exprs, name: string) {
    if name in exprs then Resolves(model, exprs[name]) else ResolveFilterField(model, name).Some?
  }

  function FieldCheck(model: Model, exprs: Exprs, f: AggregateField): Option<AggregateError> {
    if f.op.Count? && f.field == "" then None
    else if f.field == "" then Some(NeedsField)
    else if !KnownOperand(model, exprs, f.field) then Some(UnknownColumn)
    else if f.op.UnknownOp? then Some(NotAnAggregate)
    else None
  }

  function OpName(op: AggregateOp): string {
    match op
    case Count => "count" case CountDistinct => "count_distinct" case Sum => "sum"
    case Avg => "avg" case Min => "min" case Max => "max" case UnknownOp(name) => name
  }

  /** The result column: the caller's alias, or the operator and the operand. */
  function Alias(model: Model, exprs: Exprs, f: AggregateField): string {
    if f.alias != "" then f.alias
    else if f.op.Count? && f.field == "" then "count"
    else
      var r := ResolveFilterField(model, f.field);
      OpName(f.op) + "_" + if f.field in exprs || r.None? then f.field else r.value.dbName
  }

  predicate AliasTaken(model: Model, exprs: Exprs, fs: seq<AggregateField>, alias: string) {
    exists i :: 0 <= i < |fs| && Alias(model, exprs, fs[i]) == alias
  }

  function SelectCheck(model: Model, exprs: Exprs, select: seq<AggregateField>, i: nat): Option<AggregateError>
    requires i < |select|
  {
    var e := FieldCheck(model, exprs, select[i]);
    if e.Some? then e else if AliasTaken(model, exprs, select[..i], Alias(model, exprs, select[i])) then Some(DuplicateAlias) else None
  }

  function GroupCheck(model: Model, col: string): Option<AggregateError> {
    if FieldByDBName(model.fields, col).None? then Some(UnknownGroupColumn) else None
  }

  function NilCheck(f: Option<Filter>): Option<AggregateError> {
    if f.None? then Some(NilFilter) else None
  }

  function ColumnCheck(model: Model, f: Option<Filter>): Option<AggregateError> {
    if f.Some? && !f.value.isNested && ResolveFilterField(model, f.value.field).None? then Some(UnknownFilterColumn) else None
  }

  function NestedCheck(f: Option<Filter>): Option<AggregateError> {
    if f.Some? && f.value.isNested then Some(NestedFilter) else None
  }

  predicate HavingOpAllowed(op: Op) {
    op == Eq || op == Neq || op == Gt || op == Gte || op == Lt || op == Lte
  }

  function HavingCheck(model: Model, exprs: Exprs, select: seq<AggregateField>, h: HavingClause): Option<AggregateError> {
    if !AliasTaken(model, exprs, select, h.alias) then Some(UnknownHavingAlias)
    else if !HavingOpAllowed(h.op) then Some(HavingOpRefused)
    else None
  }

  /** tidy is the lower-casing and trimming of a direction. */
  function Direction(tidy: string -> string, s: string): Option<string> {
    var d := tidy(s);
    if d == "" || d == "asc" then Some("ASC") else if d == "desc" then Some("DESC") else None
  }

  function OrderCheck(model: Model, exprs: Exprs, q: AggregateQuery, tidy: string -> string, s: SortExpr): Option<AggregateError> {
    if !AliasTaken(model, exprs, q.select, s.dbName) && s.dbName !in q.groupBy then Some(UnknownOrder)
    else if Direction(tidy, s.direction).None? then Some(BadDirection)
    else None
  }

  function FirstError(es: seq<Option<AggregateError>>): Option<AggregateError> {
    if es == [] then None else if es[0].Some? then es[0] else FirstError(es[1..])
  }

  function SelectChecks(model: Model, exprs: Exprs, select: seq<AggregateField>): seq<Option<AggregateError>> {
    seq(|select|, i requires 0 <= i < |select| => SelectCheck(model, exprs, select, i))
  }

  function GroupChecks(model: Model, cols: seq<string>): seq<Option<AggregateError>> {
    seq(|cols|, i requires 0 <= i < |cols| => GroupCheck(model, cols[i]))
  }

  /** Three passes over the filters, in this order. */
  function FilterChecks(model: Model, fs: FilterList): seq<Option<AggregateError>> {
    seq(|fs|, i requires 0 <= i < |fs| => NilCheck(fs[i]))
    + seq(|fs|, i requires 0 <= i < |fs| => ColumnCheck(model, fs[i]))
    + seq(|fs|, i requires 0 <= i < |fs| => NestedCheck(fs[i]))
  }

  function HavingChecks(model: Model, exprs: Exprs, q: AggregateQuery): seq<Option<AggregateError>> {
    seq(|q.having|, i requires 0 <= i < |q.having| => HavingCheck(model, exprs, q.select, q.having[i]))
  }

  function OrderChecks(model: Model, exprs: Exprs, q: AggregateQuery, tidy: string -> string): seq<Option<AggregateError>> {
    seq(|q.orderBy|, i requires 0 <= i < |q.orderBy| => OrderCheck(model, exprs, q, tidy, q.orderBy[i]))
  }

  /** Why a query is refused, the first reason met. */
  function Refusal(model: Model, exprs: Exprs, q: AggregateQuery, tidy: string -> string): Option<AggregateError> {
    if q.select == [] then Some(NoSelect)
    else FirstError(SelectChecks(model, exprs, q.select) + GroupChecks(model, q.groupBy) + FilterChecks(model, q.filters)
                    + HavingChecks(model, exprs, q) + OrderChecks(model, exprs, q, tidy))
  }

  lemma {:induction false} FirstErrorNone(es: seq<Option<AggregateError>>)
    ensures FirstError(es).None? <==> forall i :: 0 <= i < |es| ==> es[i].None?
  {
    if es != [] {
      FirstErrorNone(es[1..]);
      assert forall i :: 1 <= i < |es| ==> es[i] == es[1..][i - 1];
    }
  }

  lemma {:induction false} FirstErrorConcat(a: seq<Option<AggregateError>>, b: seq<Option<AggregateError>>)
    ensures FirstError(a + b) == if FirstError(a).Some? then FirstError(a) else FirstError(b)
  {
    if a == [] {
      assert a + b == b;
    } else {
      assert (a + b)[1..] == a[1..] + b;
      FirstErrorConcat(a[1..], b);
    }
  }

  lemma {:induction false} FirstErrorAt(es: seq<Option<AggregateError>>, k: nat)
    requires k < |es| && es[k].Some? && forall i :: 0 <= i < k ==> es[i].None?
    ensures FirstError(es) == es[k]
  {
    if k > 0 {
      assert forall i :: 1 <= i < |es| ==> es[i] == es[1..][i - 1];
      FirstErrorAt(es[1..], k - 1);
    }
  }

  /** The passes one after another. */
  lemma RefusalInOrder(model: Model, exprs: Exprs, q: AggregateQuery, tidy: string -> string)
    requires q.select != []
    ensures Refusal(model, exprs, q, tidy) ==
            var s, g, f, h := FirstError(SelectChecks(model, exprs, q.select)), FirstError(GroupChecks(model, q.groupBy)),
                              FirstError(FilterChecks(model, q.filters)), FirstError(HavingChecks(model, exprs, q));
            if s.Some? then s else if g.Some? then g else if f.Some? then f else if h.Some? then h
            else FirstError(OrderChecks(model, exprs, q, tidy))
  {
    hide FirstError, SelectChecks, GroupChecks, FilterChecks, HavingChecks, OrderChecks;
    var s, g, f, h, o := SelectChecks(model, exprs, q.select), GroupChecks(model, q.groupBy), FilterChecks(model, q.filters),
                         HavingChecks(model, exprs, q), OrderChecks(model, exprs, q, tidy);
    FirstErrorConcat(s + g + f + h, o);
    FirstErrorConcat(s + g + f, h);
    FirstErrorConcat(s + g, f);
    FirstErrorConcat(s, g);
  }

  ghost predicate AliasesDistinct(model: Model, exprs: Exprs, select: seq<AggregateField>) {
    forall i, j :: 0 <= i < j < |select| ==> Alias(model, exprs, select[i]) != Alias(model, exprs, select[j])
  }

  /** What every accepted query satisfies, and every query that satisfies it is
      accepted. */
  ghost predicate WellFormed(model: Model, exprs: Exprs, q: AggregateQuery, tidy: string -> string) {
    && q.select != []
    && (forall i :: 0 <= i < |q.select| ==> FieldCheck(model, exprs, q.select[i]).None?)
    && AliasesDistinct(model, exprs, q.select)
    && (forall c :: c in q.groupBy ==> FieldByDBName(model.fields, c).Some?)
    && (forall f :: f in q.filters ==> f.Some? && !f.value.isNested && ResolveFilterField(model, f.value.field).Some?)
    && (forall h :: h in q.having ==> AliasTaken(model, exprs, q.select, h.alias) && HavingOpAllowed(h.op))
    && (forall s :: s in q.orderBy ==>
          (AliasTaken(model, exprs, q.select, s.dbName) || s.dbName in q.groupBy) && Direction(tidy, s.direction).Some?)
  }

  lemma SelectChecksPass(model: Model, exprs: Exprs, select: seq<AggregateField>)
    ensures FirstError(SelectChecks(model, exprs, select)).None? <==>
            (forall i :: 0 <= i < |select| ==> FieldCheck(model, exprs, select[i]).None?) && AliasesDistinct(model, exprs, select)
  {
    hide FieldCheck, Alias, FirstError;
    var es := SelectChecks(model, exprs, select);
    FirstErrorNone(es);
    forall i | 0 <= i < |select| ensures es[i] == SelectCheck(model, exprs, select, i) {}
    if FirstError(es).None? {
      forall i | 0 <= i < |select| ensures FieldCheck(model, exprs, select[i]).None? { assert es[i].None?; }
      forall i, j | 0 <= i < j < |select| ensures Alias(model, exprs, select[i]) != Alias(model, exprs, select[j]) {
        assert es[j].None? && select[..j][i] == select[i];
      }
    } else {
      var k :| 0 <= k < |es| && es[k].Some?;
      if FieldCheck(model, exprs, select[k]).None? {
        var i :| 0 <= i < |select[..k]| && Alias(model, exprs, select[..k][i]) == Alias(model, exprs, select[k]);
        assert select[..k][i] == select[i];
      }
    }
  }

  lemma FilterChecksPass(model: Model, fs: FilterList)
    ensures FirstError(FilterChecks(model, fs)).None? <==>
            forall f :: f in fs ==> f.Some? && !f.value.isNested && ResolveFilterField(model, f.value.field).Some?
  {
    hide ResolveFilterField, FirstError;
    var n, es := |fs|, FilterChecks(model, fs);
    FirstErrorNone(es);
    forall i | 0 <= i < n ensures es[i] == NilCheck(fs[i]) && es[n + i] == ColumnCheck(model, fs[i]) && es[n + n + i] == NestedCheck(fs[i]) {}
    if FirstError(es).None? {
      forall f | f in fs ensures f.Some? && !f.value.isNested && ResolveFilterField(model, f.value.field).Some? {
        var i :| 0 <= i < n && fs[i] == f;
        assert es[i].None? && es[n + i].None? && es[n + n + i].None?;
      }
    } else if forall f :: f in fs ==> f.Some? && !f.value.isNested && ResolveFilterField(model, f.value.field).Some? {
      forall i | 0 <= i < |es| ensures es[i].None? {
        var k := if i < n then i else if i < n + n then i - n else i - n - n;
        assert fs[k] in fs;
      }
    }
  }

  /** A query is refused exactly when it is not well formed. */
  lemma AcceptedIffWellFormed(model: Model, exprs: Exprs, q: AggregateQuery, tidy: string -> string)
    ensures Refusal(model, exprs, q, tidy).None? <==> WellFormed(model, exprs, q, tidy)
  {
    hide FirstError, SelectChecks, FilterChecks, FieldCheck, AliasesDistinct, AliasTaken, Direction;
    if q.select != [] {
      RefusalInOrder(model, exprs, q, tidy);
      SelectChecksPass(model, exprs, q.select);
      FilterChecksPass(model, q.filters);
      var gs, hs, os := GroupChecks(model, q.groupBy), HavingChecks(model, exprs, q), OrderChecks(model, exprs, q, tidy);
      FirstErrorNone(gs);
      FirstErrorNone(hs);
      FirstErrorNone(os);
      forall i | 0 <= i < |gs| ensures gs[i] == GroupCheck(model, q.groupBy[i]) {}
      forall i | 0 <= i < |hs| ensures hs[i] == HavingCheck(model, exprs, q.select, q.having[i]) {}
      forall i | 0 <= i < |os| ensures os[i] == OrderCheck(model, exprs, q, tidy, q.orderBy[i]) {}
      assert WellFormed(model, exprs, q, tidy) ==>
          && (forall i :: 0 <= i < |gs| ==> q.groupBy[i] in q.groupBy)
          && (forall i :: 0 <= i < |hs| ==> q.having[i] in q.having)
          && (forall i :: 0 <= i < |os| ==> q.orderBy[i] in q.orderBy);
    }
  }
}
