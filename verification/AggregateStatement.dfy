/** The whole statement: it is refused exactly when the query is not well formed,
    and otherwise each placeholder stands for its own argument. */
module AggregateStatement {
  import opened Wrappers
  import opened SqlText
  import opened Filters
  import opened FilterBuild
  import opened AggregateExpr
  import opened Aggregate
  import opened AggregateBuild

  // ---- texts that compose ------------------------------------------------------------------

  lemma {:induction false} ResolveLength(t: Text, args: seq<GoValue>, k: nat)
    ensures |Resolve(t, args, k)| == |t|
  {
    if t != [] { ResolveLength(t[1..], args, k + if t[0].Positional? then 1 else 0); }
  }

  lemma DonePrefaced(d: Driver, a: seq<GoValue>, b: seq<GoValue>, fits: bool, n: int, words: string, t: Text, t': Text)
    requires TextDone(d, a, b, fits, n, t, t')
    ensures TextDone(d, a, b, fits, n, Prefaced(words, t), Prefaced(words, t'))
  {
    hide Ranged, Lined;
    if fits { ResolveLength(t, b, |a|); }
    if t != [] {
      DonePlain(d, a, [Raw(words)]);
      DoneConcat(d, a, a, b, true, fits, 0, n, [Raw(words)], [Raw(words)], t, t');
    }
  }

  predicate AllPlain(parts: seq<Text>) {
    forall i :: 0 <= i < |parts| ==> NoHoles(parts[i])
  }

  lemma {:induction false} JoinPlain(parts: seq<Text>, sep: Text)
    requires AllPlain(parts) && NoHoles(sep)
    ensures NoHoles(Join(parts, sep))
    decreases |parts|
  {
    if |parts| > 1 { JoinPlain(parts[..|parts| - 1], sep); }
  }

  lemma {:induction false} GroupColumnsPlain(model: Model, cols: seq<string>)
    ensures AllPlain(GroupColumns(model, cols)) && |GroupColumns(model, cols)| == |cols|
  {
    if cols != [] { GroupColumnsPlain(model, cols[..|cols| - 1]); }
  }

  lemma {:induction false} OrderPartsPlain(model: Model, exprs: Exprs, select: seq<AggregateField>, tidy: string -> string, os: seq<SortExpr>)
    ensures AllPlain(OrderParts(model, exprs, select, tidy, os)) && |OrderParts(model, exprs, select, tidy, os)| == |os|
  {
    hide AliasTaken, Direction;
    if os != [] { OrderPartsPlain(model, exprs, select, tidy, os[..|os| - 1]); }
  }

  lemma {:induction false} ColumnsJoined(d: Driver, a: seq<GoValue>, b: seq<GoValue>, parts: seq<Text>, items: seq<Text>, model: Model, cols: seq<string>)
    requires |parts| == |items| && Renders(d, a, b, Join(parts, COMMA), Join(items, COMMA))
    ensures Renders(d, a, b, Join(parts + GroupColumns(model, cols), COMMA), Join(items + GroupColumns(model, cols), COMMA))
    decreases |cols|
  {
    hide Renders, Join, Column;
    if cols == [] {
      assert parts + [] == parts && items + [] == items;
    } else {
      var init, col := cols[..|cols| - 1], Column(model.table, cols[|cols| - 1]);
      ColumnsJoined(d, a, b, parts, items, model, init);
      ColumnIsPlain(model.table, cols[|cols| - 1]);
      PlainRenders(d, b, col);
      RendersJoin(d, a, b, b, parts + GroupColumns(model, init), items + GroupColumns(model, init), COMMA, col, col);
      assert parts + GroupColumns(model, cols) == parts + GroupColumns(model, init) + [col];
      assert items + GroupColumns(model, cols) == items + GroupColumns(model, init) + [col];
    }
  }

  // ---- the clauses without arguments ----------------------------------------------------------

  method GroupByParts(model: Model, cols: seq<string>) returns (r: Result<seq<Text>, AggregateError>)
    ensures r.Ok? <==> FirstError(GroupChecks(model, cols)).None?
    ensures r.Err? ==> Some(r.error) == FirstError(GroupChecks(model, cols))
    ensures r.Ok? ==> r.value == GroupColumns(model, cols)
  {
    var parts: seq<Text> := [];
    var i := 0;
    while i < |cols|
      invariant 0 <= i <= |cols| && parts == GroupColumns(model, cols[..i])
      invariant forall k :: 0 <= k < i ==> GroupCheck(model, cols[k]).None?
    {
      if FieldByDBName(model.fields, cols[i]).None? {
        FirstErrorAt(GroupChecks(model, cols), i);
        return Err(UnknownGroupColumn);
      }
      assert cols[..i + 1][..i] == cols[..i];
      parts := parts + [Column(model.table, cols[i])];
      i := i + 1;
    }
    assert cols[..i] == cols;
    FirstErrorNone(GroupChecks(model, cols));
    r := Ok(parts);
  }

  lemma OrderErrorAt(model: Model, exprs: Exprs, q: AggregateQuery, tidy: string -> string, i: nat)
    requires i < |q.orderBy| && OrderCheck(model, exprs, q, tidy, q.orderBy[i]).Some?
    requires forall k :: 0 <= k < i ==> OrderCheck(model, exprs, q, tidy, q.orderBy[k]).None?
    ensures FirstError(OrderChecks(model, exprs, q, tidy)) == OrderCheck(model, exprs, q, tidy, q.orderBy[i])
  {
    hide OrderCheck, FirstError;
    FirstErrorAt(OrderChecks(model, exprs, q, tidy), i);
  }

  lemma OrdersPass(model: Model, exprs: Exprs, q: AggregateQuery, tidy: string -> string)
    requires forall k :: 0 <= k < |q.orderBy| ==> OrderCheck(model, exprs, q, tidy, q.orderBy[k]).None?
    ensures FirstError(OrderChecks(model, exprs, q, tidy)).None?
  {
    hide OrderCheck, FirstError;
    FirstErrorNone(OrderChecks(model, exprs, q, tidy));
  }

  method OrderByParts(model: Model, ghost exprs: Exprs, q: AggregateQuery, aliasField: map<string, AggregateField>, tidy: string -> string)
    returns (r: Result<seq<Text>, AggregateError>)
    requires AllFieldsKnown(model, exprs, q.select) && AliasMap(model, exprs, q.select, aliasField)
    ensures r.Ok? <==> FirstError(OrderChecks(model, exprs, q, tidy)).None?
    ensures r.Err? ==> Some(r.error) == FirstError(OrderChecks(model, exprs, q, tidy))
    ensures r.Ok? ==> r.value == OrderParts(model, exprs, q.select, tidy, q.orderBy)
  {
    hide AliasTaken, AllFieldsKnown, AliasMap, FirstError, Column, OrderChecks, Direction;
    var parts: seq<Text> := [];
    var i := 0;
    while i < |q.orderBy|
      invariant 0 <= i <= |q.orderBy| && parts == OrderParts(model, exprs, q.select, tidy, q.orderBy[..i])
      invariant forall k :: 0 <= k < i ==> OrderCheck(model, exprs, q, tidy, q.orderBy[k]).None?
    {
      var s := q.orderBy[i];
      TakenIffMapped(model, exprs, q.select, aliasField, s.dbName);
      var col: Text;
      if s.dbName in aliasField {
        col := [Ident(s.dbName)];
      } else if s.dbName in q.groupBy {
        col := Column(model.table, s.dbName);
      } else {
        OrderErrorAt(model, exprs, q, tidy, i);
        return Err(UnknownOrder);
      }
      var dir := Direction(tidy, s.direction);
      if dir.None? {
        OrderErrorAt(model, exprs, q, tidy, i);
        return Err(BadDirection);
      }
      assert q.orderBy[..i + 1][..i] == q.orderBy[..i];
      parts := parts + [col + [Raw(dir.value)]];
      i := i + 1;
    }
    assert q.orderBy[..i] == q.orderBy;
    OrdersPass(model, exprs, q, tidy);
    r := Ok(parts);
  }

  // ---- WHERE ------------------------------------------------------------------------------------

  /** The three passes over the filters. */
  method CheckFilters(model: Model, fs: FilterList) returns (e: Option<AggregateError>)
    ensures e == FirstError(FilterChecks(model, fs))
  {
    hide FirstError, ResolveFilterField;
    ghost var n, es := |fs|, FilterChecks(model, fs);
    assert forall i :: 0 <= i < n ==> es[i] == NilCheck(fs[i]);
    assert forall i :: n <= i < n + n ==> es[i] == ColumnCheck(model, fs[i - n]);
    assert forall i :: n + n <= i < n + n + n ==> es[i] == NestedCheck(fs[i - n - n]);
    var i := 0;
    while i < |fs|
      invariant 0 <= i <= |fs| && forall k :: 0 <= k < i ==> es[k].None?
    {
      if fs[i].None? {
        FirstErrorAt(es, i);
        return Some(NilFilter);
      }
      i := i + 1;
    }
    i := 0;
    while i < |fs|
      invariant 0 <= i <= |fs| && forall k :: 0 <= k < n + i ==> es[k].None?
    {
      assert es[i] == NilCheck(fs[i]) && es[n + i] == ColumnCheck(model, fs[i]);
      if !fs[i].value.isNested && ResolveFilterField(model, fs[i].value.field).None? {
        FirstErrorAt(es, n + i);
        return Some(UnknownFilterColumn);
      }
      i := i + 1;
    }
    i := 0;
    while i < |fs|
      invariant 0 <= i <= |fs| && forall k :: 0 <= k < n + n + i ==> es[k].None?
    {
      assert es[i] == NilCheck(fs[i]) && es[n + n + i] == NestedCheck(fs[i]);
      if fs[i].value.isNested {
        FirstErrorAt(es, n + n + i);
        return Some(NestedFilter);
      }
      i := i + 1;
    }
    FirstErrorNone(es);
    e := None;
  }

  method WhereClause(host: Host, meta: ModelMeta, fs: FilterList, p: Binder) returns (r: Result<Text, AggregateError>)
    modifies p
    ensures r.Ok? <==> FirstError(FilterChecks(meta.model, fs)).None?
    ensures r.Err? ==> Some(r.error) == FirstError(FilterChecks(meta.model, fs))
    ensures r.Ok? ==> TextDone(p.driver, old(p.args), p.args, AllFit(host, fs, p.driver), TotalSurplus(host, fs),
                               r.value, Prefaced("WHERE", InlineFilters(host, meta.model, fs, p.driver)))
  {
    hide TextDone, AllFit, TotalSurplus, InlineFilters, FirstError, FilterChecks;
    var e := CheckFilters(meta.model, fs);
    if e.Some? { return Err(e.value); }
    ghost var a := p.args;
    var conds := BuildFilterSQL(host, meta.model, fs, p);
    DonePrefaced(p.driver, a, p.args, AllFit(host, fs, p.driver), TotalSurplus(host, fs), "WHERE", conds,
                 InlineFilters(host, meta.model, fs, p.driver));
    r := Ok(if conds == [] then [] else [Raw("WHERE")] + conds);
  }

  // ---- the statement --------------------------------------------------------------------------------

  lemma StatementDone(d: Driver, b: seq<GoValue>, c: seq<GoValue>, e: seq<GoValue>, fits: bool, n: int, table: string,
                      sel: Text, sel': Text, wher: Text, wher': Text, group: Text, hav: Text, hav': Text, order: Text, limit: Text)
    requires Renders(d, [], b, sel, sel') && TextDone(d, b, c, fits, n, wher, wher') && Renders(d, c, e, hav, hav')
    requires NoHoles(group) && NoHoles(order) && NoHoles(limit)
    ensures TextDone(d, [], e, fits, n,
                     [Raw("SELECT")] + sel + [Raw("FROM"), Ident(table)] + wher + group + Prefaced("HAVING", hav) + order + limit,
                     [Raw("SELECT")] + sel' + [Raw("FROM"), Ident(table)] + wher' + group + Prefaced("HAVING", hav') + order + limit)
  {
    hide TextDone, Renders, NoHoles;
    var head, from: Text := [Raw("SELECT")], [Raw("FROM"), Ident(table)];
    FixedWords(table);
    DonePlain(d, [], head);
    RenderedDone(d, [], b, sel, sel');
    DoneConcat(d, [], [], b, true, true, 0, 0, head, head, sel, sel');
    DonePlain(d, b, from);
    DoneConcat(d, [], b, b, true, true, 0, 0, head + sel, head + sel', from, from);
    DoneConcat(d, [], b, c, true, fits, 0, n, head + sel + from, head + sel' + from, wher, wher');
    var t, t' := head + sel + from + wher, head + sel' + from + wher';
    DonePlain(d, c, group);
    DoneConcat(d, [], c, c, fits, true, n, 0, t, t', group, group);
    RenderedDone(d, c, e, hav, hav');
    DonePrefaced(d, c, e, true, 0, "HAVING", hav, hav');
    DoneConcat(d, [], c, e, fits, true, n, 0, t + group, t' + group, Prefaced("HAVING", hav), Prefaced("HAVING", hav'));
    var u, u' := t + group + Prefaced("HAVING", hav), t' + group + Prefaced("HAVING", hav');
    DonePlain(d, e, order);
    DoneConcat(d, [], e, e, fits, true, n, 0, u, u', order, order);
    DonePlain(d, e, limit);
    DoneConcat(d, [], e, e, fits, true, n, 0, u + order, u' + order, limit, limit);
  }

  lemma FixedWords(table: string)
    ensures NoHoles([Raw("SELECT")]) && NoHoles([Raw("FROM"), Ident(table)])
  {
  }

  lemma PlainClauses(model: Model, exprs: Exprs, q: AggregateQuery, tidy: string -> string)
    ensures NoHoles(Prefaced("GROUP BY", Join(GroupColumns(model, q.groupBy), COMMA)))
    ensures NoHoles(Prefaced("ORDER BY", Join(OrderParts(model, exprs, q.select, tidy, q.orderBy), COMMA)))
    ensures NoHoles(LimitText(q.limit))
  {
    GroupColumnsPlain(model, q.groupBy);
    OrderPartsPlain(model, exprs, q.select, tidy, q.orderBy);
    JoinPlain(GroupColumns(model, q.groupBy), COMMA);
    JoinPlain(OrderParts(model, exprs, q.select, tidy, q.orderBy), COMMA);
  }

  /** The statement and its arguments. The action scope is AND-ed into the filters;
      the caller's query is left alone. */
  method BuildAggregate(host: Host, meta: ModelMeta, q: AggregateQuery, scope: FilterList, tidy: string -> string, driver: Driver)
    returns (r: Result<(Text, seq<GoValue>), AggregateError>)
    requires meta.Valid()
    ensures r.Ok? <==> WellFormed(meta.model, meta.aggExprs, q.(filters := q.filters + scope), tidy)
    ensures r.Err? ==> Some(r.error) == Refusal(meta.model, meta.aggExprs, q.(filters := q.filters + scope), tidy)
    ensures var scoped := q.(filters := q.filters + scope);
            r.Ok? ==>
              && Buildable(meta.model, meta.aggExprs, scoped)
              && TextDone(driver, [], r.value.1, AllFit(host, scoped.filters, driver), TotalSurplus(host, scoped.filters), r.value.0,
                          InlineStatement(host, meta.model, meta.aggExprs, scoped, tidy, driver))
  {
    hide TextDone, Renders, FirstError, WellFormed, AllFit, TotalSurplus, InlineFilters, AllFieldsKnown, HavingKnown, AliasMap, Refusal, InlineItems,
         InlineHavings, GroupColumns, OrderParts, SelectChecks, GroupChecks, FilterChecks, HavingChecks, OrderChecks, LimitText, Prefaced, Join, NoHoles;
    var filters := q.filters + scope;
    var scoped := q.(filters := filters);
    ghost var model, exprs := meta.model, meta.aggExprs;
    AcceptedIffWellFormed(model, exprs, scoped, tidy);
    if |q.select| == 0 {
      EmptyRefused(model, exprs, scoped, tidy);
      return Err(NoSelect);
    }
    RefusalInOrder(model, exprs, scoped, tidy);
    var p := new Binder(driver);
    var sel := SelectParts(meta, q.select, p);
    if sel.Err? { return Err(sel.error); }
    ghost var b := p.args;
    var group := GroupByParts(meta.model, q.groupBy);
    if group.Err? { return Err(group.error); }
    var wher := WhereClause(host, meta, filters, p);
    if wher.Err? { return Err(wher.error); }
    ghost var c := p.args;
    var hav := HavingParts(meta, scoped, sel.value.1, p);
    if hav.Err? { return Err(hav.error); }
    var order := OrderByParts(meta.model, meta.aggExprs, scoped, sel.value.1, tidy);
    if order.Err? { return Err(order.error); }
    ghost var items := InlineItems(model, exprs, q.select);
    ColumnsJoined(driver, [], b, sel.value.0, items, model, q.groupBy);
    PlainClauses(model, exprs, scoped, tidy);
    ghost var sel' := Join(items + GroupColumns(model, q.groupBy), COMMA);
    ghost var hav' := Join(InlineHavings(model, exprs, q.select, q.having), AND);
    StatementDone(driver, b, c, p.args, AllFit(host, filters, driver), TotalSurplus(host, filters), model.table,
                  Join(sel.value.0 + group.value, COMMA), sel', wher.value, Prefaced("WHERE", InlineFilters(host, model, filters, driver)),
                  Prefaced("GROUP BY", Join(group.value, COMMA)), Join(hav.value, AND), hav',
                  Prefaced("ORDER BY", Join(order.value, COMMA)), LimitText(q.limit));
    r := Ok(([Raw("SELECT")] + Join(sel.value.0 + group.value, COMMA) + [Raw("FROM"), Ident(meta.model.table)] + wher.value
             + Prefaced("GROUP BY", Join(group.value, COMMA)) + Prefaced("HAVING", Join(hav.value, AND))
             + Prefaced("ORDER BY", Join(order.value, COMMA)) + LimitText(q.limit),
             p.args));
  }

  lemma EmptyRefused(model: Model, exprs: Exprs, q: AggregateQuery, tidy: string -> string)
    requires q.select == []
    ensures Refusal(model, exprs, q, tidy) == Some(NoSelect)
  {
  }
}
