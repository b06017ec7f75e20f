/** The aggregate statement in plain terms: which queries are refused, what a HAVING
    condition compares, and how the rows are ordered. */
module AggregateTerms {
  import opened Wrappers
  import opened SqlText
  import opened Filters
  import opened FilterBuild
  import opened FilterMeaning
  import opened FilterTheorems
  import opened FilterOperators
  import opened AggregateExpr
  import opened Aggregate
  import opened AggregateBuild
  import opened AggregateStatement
  import opened AggregateMeaning

  // ---- what is refused -----------------------------------------------------------------

  /** Some field of the model has that column or that JSON name. */
  predicate HasField(model: Model, name: string) {
    exists f | f in model.fields :: f.dbName == name || f.jsonName == name
  }

  predicate HasColumn(model: Model, col: string) {
    exists f | f in model.fields :: f.dbName == col
  }

  predicate Selectable(model: Model, exprs: Exprs, f: AggregateField) {
    if f.field == "" then f.op == Count
    else !f.op.UnknownOp? && (f.field in exprs || HasField(model, f.field))
  }

  ghost predicate HasAlias(model: Model, exprs: Exprs, select: seq<AggregateField>, alias: string) {
    exists f :: f in select && Alias(model, exprs, f) == alias
  }

  lemma ResolvesIff(model: Model, name: string)
    ensures ResolveFilterField(model, name).Some? <==> HasField(model, name)
    ensures FieldByDBName(model.fields, name).Some? <==> HasColumn(model, name)
  {
    ResolvesByColumnFirst(model, name);
    FirstByColumn(model.fields, name);
  }

  lemma SelectableIff(model: Model, exprs: Exprs, f: AggregateField)
    requires forall name :: name in exprs ==> Resolves(model, exprs[name])
    ensures FieldCheck(model, exprs, f).None? <==> Selectable(model, exprs, f)
  {
    hide ResolveFilterField, HasField;
    ResolvesIff(model, f.field);
  }

  lemma TakenIff(model: Model, exprs: Exprs, fs: seq<AggregateField>, alias: string)
    ensures AliasTaken(model, exprs, fs, alias) <==> HasAlias(model, exprs, fs, alias)
  {
    hide Alias;
    if HasAlias(model, exprs, fs, alias) {
      var f :| f in fs && Alias(model, exprs, f) == alias;
      var i :| 0 <= i < |fs| && fs[i] == f;
    }
  }

  /** A query is accepted exactly when it selects something; selects only COUNT(*) and
      known operators over expressions or fields, under distinct aliases; groups by
      columns; filters on fields of the model itself; compares selected aggregates by one
      of the six comparisons; and orders by an alias or a group column, with no direction
      or one of the two. */
  lemma AcceptedInTerms(model: Model, exprs: Exprs, q: AggregateQuery, tidy: string -> string)
    requires forall name :: name in exprs ==> Resolves(model, exprs[name])
    ensures Refusal(model, exprs, q, tidy).None? <==>
            && q.select != []
            && (forall f :: f in q.select ==> Selectable(model, exprs, f))
            && (forall i, j :: 0 <= i < j < |q.select| ==> Alias(model, exprs, q.select[i]) != Alias(model, exprs, q.select[j]))
            && (forall c :: c in q.groupBy ==> HasColumn(model, c))
            && (forall f :: f in q.filters ==> f.Some? && !f.value.isNested && HasField(model, f.value.field))
            && (forall h :: h in q.having ==> HasAlias(model, exprs, q.select, h.alias) && h.op in {Eq, Neq, Gt, Gte, Lt, Lte})
            && (forall s :: s in q.orderBy ==>
                  && (HasAlias(model, exprs, q.select, s.dbName) || s.dbName in q.groupBy)
                  && tidy(s.direction) in {"", "asc", "desc"})
  {
    hide FieldCheck, Alias, ResolveFilterField, FieldByDBName, HasField, HasColumn, Refusal;
    AcceptedIffWellFormed(model, exprs, q, tidy);
    forall f ensures FieldCheck(model, exprs, f).None? <==> Selectable(model, exprs, f) { SelectableIff(model, exprs, f); }
    forall name ensures ResolveFilterField(model, name).Some? <==> HasField(model, name)
      ensures FieldByDBName(model.fields, name).Some? <==> HasColumn(model, name) { ResolvesIff(model, name); }
    forall a ensures AliasTaken(model, exprs, q.select, a) <==> HasAlias(model, exprs, q.select, a) { TakenIff(model, exprs, q.select, a); }
    forall f | f in q.select ensures exists i :: 0 <= i < |q.select| && q.select[i] == f {}
  }

  /** The columns an expression names. */
  function Mentions(e: Expr): set<string> {
    match e
    case Col(name) => {name}
    case Const(_) => {}
    case Bin(_, l, r) => (if l.Some? then Mentions(l.value) else {}) + (if r.Some? then Mentions(r.value) else {})
  }

  lemma {:induction false} NumericIff(model: Model, e: Expr)
    ensures ColumnsNumeric(model, e) <==>
            forall c :: c in Mentions(e) ==> ResolveFilterField(model, c).Some? && ResolveFilterField(model, c).value.kind.NumberKind?
  {
    if e.Bin? {
      if e.l.Some? { NumericIff(model, e.l.value); }
      if e.r.Some? { NumericIff(model, e.r.value); }
    }
  }

  /** An expression is accepted exactly when it has a name no field has, every operation
      has both operands, it is at most 8 high with at most 32 nodes, and every name in it
      denotes a field holding numbers. */
  lemma CompiledInTerms(model: Model, name: string, e: Expr)
    ensures CompileAggregateExpr(model, name, Some(e)).Ok? <==>
            && name != "" && !HasField(model, name)
            && Complete(e) && Height(e) <= 8 && Size(e) <= 32
            && forall c :: c in Mentions(e) ==> ResolveFilterField(model, c).Some? && ResolveFilterField(model, c).value.kind.NumberKind?
  {
    hide CompileAggregateExpr, ColumnsNumeric, ResolveFilterField, HasField;
    CompileAcceptsExactly(model, name, Some(e));
    NumericIff(model, e);
    ResolvesIff(model, name);
  }

  /** The column a result has: the caller's alias, "count" for COUNT(*), else the
      operator's name, an underscore, and the expression or the field's column. */
  lemma AliasInTerms(model: Model, exprs: Exprs, f: AggregateField, i: nat)
    requires i < |model.fields| && f.field !in exprs && model.fields[i].dbName == f.field
    requires f.alias == "" && f.field != "" && !f.op.UnknownOp?
    ensures Alias(model, exprs, f) == (match f.op
              case Count => "count_" case CountDistinct => "count_distinct_" case Sum => "sum_"
              case Avg => "avg_" case Min => "min_" case _ => "max_") + f.field
  {
    hide ResolveFilterField;
    ResolvesByColumnFirst(model, f.field);
    assert model.fields[i] in model.fields;
  }

  // ---- what the conditions and the order say --------------------------------------------

  /** The i-th condition read back tests the very aggregate its alias selects against its
      own value, by the comparison its operator names. */
  lemma {:induction false} HavingCompares(model: Model, exprs: Exprs, select: seq<AggregateField>, hs: seq<HavingClause>, i: nat, x: int, y: int)
    requires AllFieldsKnown(model, exprs, select) && HavingKnown(model, exprs, select, hs) && i < |hs|
    ensures var c, f := ConditionsOf(model, exprs, select, hs)[i], FieldFor(model, exprs, select, hs[i].alias);
            && Alias(model, exprs, f) == hs[i].alias && c.call == CallOf(model, exprs, f) && c.value == hs[i].value
            && (hs[i].op == Eq ==> (Compares(c.test, x, y) <==> x == y))
            && (hs[i].op == Neq ==> (Compares(c.test, x, y) <==> x != y))
            && (hs[i].op == Gt ==> (Compares(c.test, x, y) <==> x > y))
            && (hs[i].op == Gte ==> (Compares(c.test, x, y) <==> x >= y))
            && (hs[i].op == Lt ==> (Compares(c.test, x, y) <==> x < y))
            && (hs[i].op == Lte ==> (Compares(c.test, x, y) <==> x <= y))
    decreases |hs|
  {
    hide FieldCheck, Alias, FieldFor, CallOf;
    if i < |hs| - 1 {
      assert HavingKnown(model, exprs, select, hs[..|hs| - 1]);
      HavingCompares(model, exprs, select, hs[..|hs| - 1], i, x, y);
    }
  }

  /** The i-th sort key read back: an alias before a group column, descending exactly when
      asked for. */
  lemma {:induction false} OrderFollows(model: Model, exprs: Exprs, select: seq<AggregateField>, tidy: string -> string, os: seq<SortExpr>, i: nat)
    requires i < |os|
    ensures var key := SortsOf(model, exprs, select, tidy, os)[i];
            && key.0 == (if HasAlias(model, exprs, select, os[i].dbName) then ByAlias(os[i].dbName) else ByColumn(model.table, os[i].dbName))
            && (key.1 == Descending <==> tidy(os[i].direction) == "desc")
    decreases |os|
  {
    hide Alias, AliasTaken;
    TakenIff(model, exprs, select, os[i].dbName);
    if i < |os| - 1 { OrderFollows(model, exprs, select, tidy, os[..|os| - 1], i); }
  }
}
